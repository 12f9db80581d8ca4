/** The incremental repartitioner over a whole growing edge stream: a cold start from a graph
    order, then one budgeted greedy repair per snapshot. */
module IncrementalRun {
  import opened Arrays
  import opened RankBlocks
  import opened ChangedCone
  import opened IncrementalVotes
  import opened GreedyPlacement
  import opened LabelMatching

  // ---------------------------------------------------------------- a run of placements

  /** `trace` places the vertices of `order` one by one. */
  ghost predicate GreedyRun(trace: seq<seq<int>>, n: nat, src: seq<nat>, dst: seq<nat>, devices: nat, order: seq<nat>)
    requires Graph(src, dst, n) && devices > 0
  {
    && |trace| == |order| + 1
    && (forall j :: 0 <= j < |trace| ==> |trace[j]| == n)
    && forall j :: 0 <= j < |order| ==> GreedyStep(trace[j], trace[j + 1], src, dst, devices, order[j])
  }

  lemma RunSnoc(trace: seq<seq<int>>, after: seq<int>, n: nat, src: seq<nat>, dst: seq<nat>, devices: nat,
                order: seq<nat>, v: nat)
    requires Graph(src, dst, n) && devices > 0 && GreedyRun(trace, n, src, dst, devices, order)
    requires GreedyStep(trace[|order|], after, src, dst, devices, v)
    ensures GreedyRun(trace + [after], n, src, dst, devices, order + [v])
  {
    var t, o := trace + [after], order + [v];
    forall j | 0 <= j < |o| ensures GreedyStep(t[j], t[j + 1], src, dst, devices, o[j]) {
      if j < |order| {
        assert GreedyStep(trace[j], trace[j + 1], src, dst, devices, order[j]);
      }
    }
  }

  /** Only the vertices of `order` are written, each to a device. */
  lemma {:induction false} RunKeeps(trace: seq<seq<int>>, n: nat, src: seq<nat>, dst: seq<nat>, devices: nat,
                                    order: seq<nat>, i: nat, v: nat)
    requires Graph(src, dst, n) && devices > 0 && GreedyRun(trace, n, src, dst, devices, order)
    requires i <= |order| && v < n
    ensures v !in order[..i] ==> trace[i][v] == trace[0][v]
    ensures v in order[..i] ==> 0 <= trace[i][v] < devices
  {
    if i > 0 {
      RunKeeps(trace, n, src, dst, devices, order, i - 1, v);
      assert order[..i] == order[..i - 1] + [order[i - 1]];
      assert GreedyStep(trace[i - 1], trace[i], src, dst, devices, order[i - 1]);
    }
  }

  /** Every placement of the run goes to a device within its equal share. */
  ghost predicate SharesKept(trace: seq<seq<int>>, n: nat, src: seq<nat>, dst: seq<nat>, devices: nat,
                             order: seq<nat>)
    requires Graph(src, dst, n)
  {
    && |trace| == |order| + 1 && (forall j :: 0 <= j < |trace| ==> |trace[j]| == n)
    && forall j :: 0 <= j < |order| ==> WithinShare(trace[j], trace[j + 1], src, dst, devices, order[j])
  }

  lemma RunWithinShare(trace: seq<seq<int>>, n: nat, src: seq<nat>, dst: seq<nat>, devices: nat, order: seq<nat>)
    requires Graph(src, dst, n) && devices > 0 && GreedyRun(trace, n, src, dst, devices, order)
    ensures SharesKept(trace, n, src, dst, devices, order)
  {
    hide GreedyStep, WithinShare;
    forall j | 0 <= j < |order| ensures WithinShare(trace[j], trace[j + 1], src, dst, devices, order[j]) {
      StepWithinShare(trace[j], trace[j + 1], src, dst, devices, order[j]);
    }
  }

  /** No placement takes a device above capacity. */
  lemma {:induction false} RunLoads(trace: seq<seq<int>>, n: nat, src: seq<nat>, dst: seq<nat>, devices: nat,
                                    order: seq<nat>, i: nat, d: nat)
    requires Graph(src, dst, n) && devices > 0 && GreedyRun(trace, n, src, dst, devices, order)
    requires i <= |order| && d < devices
    ensures Count(trace[i], d) <= Larger(Capacity(n, devices), Count(trace[0], d))
  {
    hide Count, GreedyStep, Capacity;
    if i > 0 {
      RunLoads(trace, n, src, dst, devices, order, i - 1, d);
      StepLoad(trace[i - 1], trace[i], src, dst, devices, order[i - 1], d);
    }
  }

  lemma StepLoad(before: seq<int>, after: seq<int>, src: seq<nat>, dst: seq<nat>, devices: nat, v: nat, d: nat)
    requires Graph(src, dst, |before|) && devices > 0 && d < devices
    requires GreedyStep(before, after, src, dst, devices, v)
    ensures Count(after, d) == Count(before, d) || Count(after, d) <= Capacity(|before|, devices)
  {
    CountUpdate(before, v, after[v], d);
  }

  /** The placement loop. */
  method PlaceAll(device: array<int>, load: array<nat>, src: seq<nat>, dst: seq<nat>, order: seq<nat>)
    returns (ghost trace: seq<seq<int>>)
    requires Graph(src, dst, device.Length) && load.Length > 0 && load as object != device
    requires PartlyPlaced(device[..], load.Length) && load[..] == Loads(device[..], load.Length)
    requires Distinct(order) && Below(order, device.Length)
    requires forall i :: 0 <= i < |order| ==> device[order[i]] == UNPLACED
    modifies device, load
    ensures GreedyRun(trace, device.Length, src, dst, load.Length, order)
    ensures |trace| == |order| + 1 && trace[0] == old(device[..]) && trace[|order|] == device[..]
  {
    hide GreedyStep, Emitted;
    var inPlace := Members(order, device.Length);
    var ps := Emitted(inPlace, src, dst);
    trace := [device[..]];
    for i := 0 to |order|
      invariant |trace| == i + 1 && trace[0] == old(device[..]) && trace[i] == device[..]
      invariant GreedyRun(trace, device.Length, src, dst, load.Length, order[..i])
      invariant PartlyPlaced(device[..], load.Length) && load[..] == Loads(device[..], load.Length)
      invariant forall j :: i <= j < |order| ==> device[order[j]] == UNPLACED
    {
      ghost var before := device[..];
      assert order[i] in order;
      PlaceOne(device, load, src, dst, ps, inPlace, order[i]);
      StepFrame(before, device[..], src, dst, load.Length, order[i]);
      RunSnoc(trace, device[..], device.Length, src, dst, load.Length, order[..i], order[i]);
      assert order[..i + 1] == order[..i] + [order[i]];
      trace := trace + [device[..]];
    }
    assert order[..|order|] == order;
  }

  lemma StepFrame(before: seq<int>, after: seq<int>, src: seq<nat>, dst: seq<nat>, devices: nat, v: nat)
    requires Graph(src, dst, |before|) && devices > 0 && PartlyPlaced(before, devices)
    requires GreedyStep(before, after, src, dst, devices, v)
    ensures |after| == |before| && PartlyPlaced(after, devices)
    ensures forall u :: 0 <= u < |before| && u != v ==> after[u] == before[u]
  {
  }

  // ---------------------------------------------------------------- one incremental step

  /** `add.at(load, assignment[old_move], -1); assignment[old_move] = -1`. */
  method FreeMovers(device: array<int>, load: array<nat>, movers: seq<nat>)
    requires load.Length > 0 && load as object != device
    requires PartlyPlaced(device[..], load.Length) && load[..] == Loads(device[..], load.Length)
    requires Distinct(movers) && Below(movers, device.Length)
    requires forall i :: 0 <= i < |movers| ==> device[movers[i]] >= 0
    modifies device, load
    ensures device[..] == Freed(old(device[..]), movers) && load[..] == Loads(device[..], load.Length)
    ensures PartlyPlaced(device[..], load.Length)
  {
    ghost var was := device[..];
    hide Count, Loads, Freed;
    FreedNone(was);
    for i := 0 to |movers|
      invariant device[..] == Freed(was, movers[..i]) && load[..] == Loads(device[..], load.Length)
      invariant PartlyPlaced(device[..], load.Length)
      invariant forall j :: i <= j < |movers| ==> device[movers[j]] == was[movers[j]]
    {
      FreedMore(was, movers, i);
      FreeOne(device, load, movers[i]);
    }
    assert movers[..|movers|] == movers;
  }

  method FreeOne(device: array<int>, load: array<nat>, v: nat)
    requires load.Length > 0 && load as object != device
    requires PartlyPlaced(device[..], load.Length) && load[..] == Loads(device[..], load.Length)
    requires v < device.Length && device[v] >= 0
    modifies device, load
    ensures device[..] == old(device[..])[v := UNPLACED] && load[..] == Loads(device[..], load.Length)
    ensures PartlyPlaced(device[..], load.Length)
  {
    hide Count;
    ghost var before := device[..];
    CountFreed(before, v, load.Length);
    load[device[v]] := load[device[v]] - 1;
    device[v] := UNPLACED;
    assert device[..] == before[v := UNPLACED];
  }

  lemma FreedNone(was: seq<int>)
    ensures forall movers: seq<nat> :: movers == [] ==> Freed(was, movers) == was
  {
  }

  lemma FreedMore(was: seq<int>, movers: seq<nat>, i: nat)
    requires i < |movers| && movers[i] < |was|
    ensures Freed(was, movers[..i + 1]) == Freed(was, movers[..i])[movers[i] := UNPLACED]
  {
    assert movers[..i + 1] == movers[..i] + [movers[i]];
  }

  lemma CountFreed(before: seq<int>, v: nat, devices: nat)
    requires v < |before| && 0 <= before[v] < devices
    ensures Count(before, before[v]) > 0
    ensures Loads(before[v := UNPLACED], devices) == Loads(before, devices)[before[v] := Count(before, before[v]) - 1]
  {
    CountPositive(before, v);
    var after: seq<int> := before[v := UNPLACED];
    forall e | 0 <= e < devices
      ensures Loads(after, devices)[e] == Loads(before, devices)[before[v] := Count(before, before[v]) - 1][e]
    {
      CountUpdate(before, v, UNPLACED, e);
    }
  }

  /** A later snapshot only appends vertices: they are unplaced, so no load changes. */
  lemma {:induction false} ReusedLoads(prior: seq<int>, n: nat, d: int)
    requires d >= 0 && |prior| <= n
    ensures Count(Reused(prior, n), d) == Count(prior, d)
  {
    if |prior| == n {
      assert Reused(prior, n) == prior;
    } else {
      ReusedLoads(prior, n - 1, d);
      assert Reused(prior, n)[..n - 1] == Reused(prior, n - 1);
    }
  }

  /** Everything a step promises, whatever the loads were before it. */
  ghost predicate Repaired(prior: seq<int>, after: seq<int>, movers: seq<nat>, devices: nat)
    requires devices > 0
  {
    && Labels(after, devices)
    && Distinct(movers)
    && (forall v :: v in movers ==> v < |prior|)
    && (forall v :: 0 <= v < |prior| && v < |after| && v !in movers ==> after[v] == prior[v])
    && forall d :: 0 <= d < devices ==>
         devices * (Count(after, d) - 1) <= |after| || Count(after, d) <= Count(Reused(prior, |after|), d)
  }

  lemma RunRepairs(prior: seq<int>, n: nat, src: seq<nat>, dst: seq<nat>, devices: nat, movers: seq<nat>,
                   order: seq<nat>, trace: seq<seq<int>>)
    requires Graph(src, dst, n) && devices > 0 && Labels(prior, devices)
    requires Distinct(movers) && Below(movers, n) && forall v :: v in movers ==> Reused(prior, n)[v] >= 0
    requires order == Indices(Reused(prior, n), UNPLACED) + movers
    requires GreedyRun(trace, n, src, dst, devices, order) && trace[0] == Freed(Reused(prior, n), movers)
    ensures Repaired(prior, trace[|order|], movers, devices)
  {
    hide Count, GreedyRun, Capacity, Freed, Indices;
    GreedySize(trace, n, src, dst, devices, order);
    var after := trace[|order|];
    assert order[..|order|] == order;
    forall v | 0 <= v < n
      ensures 0 <= after[v] < devices && (v < |prior| && v !in movers ==> after[v] == prior[v])
    {
      RunKeeps(trace, n, src, dst, devices, order, |order|, v);
      InOrder(prior, n, movers, v);
    }
    forall d | 0 <= d < devices
      ensures devices * (Count(after, d) - 1) <= n || Count(after, d) <= Count(Reused(prior, n), d)
    {
      BelowCapacityIff(n, devices, Count(after, d));
      RunLoads(trace, n, src, dst, devices, order, |order|, d);
      FreeingLightens(Reused(prior, n), movers, d);
    }
  }

  lemma GreedySize(trace: seq<seq<int>>, n: nat, src: seq<nat>, dst: seq<nat>, devices: nat, order: seq<nat>)
    requires Graph(src, dst, n) && devices > 0 && GreedyRun(trace, n, src, dst, devices, order)
    ensures |trace| == |order| + 1 && forall j :: 0 <= j < |trace| ==> |trace[j]| == n
  {
  }

  /** One repair: reuse, free the movers, place new vertices and then movers. */
  method PartitionIncremental(src: seq<nat>, dst: seq<nat>, n: nat, devices: nat, prior: seq<int>, lo: nat,
                              budget: real)
    returns (after: seq<int>, movers: seq<nat>, ghost trace: seq<seq<int>>)
    requires Graph(src, dst, n) && devices > 0 && Labels(prior, devices)
    ensures |after| == n && Repaired(prior, after, movers, devices)
    ensures |movers| <= if BudgetCount(budget, n) > 0 then BudgetCount(budget, n) else 0
    ensures forall v :: v in movers ==> v in Touched(src, dst, lo)
    ensures forall u, v :: v in movers && u in Touched(src, dst, lo) && u < n && u < |prior| && u !in movers ==>
              CrossDegree(Reused(prior, n), src, dst, u) <= CrossDegree(Reused(prior, n), src, dst, v)
    ensures GreedyRun(trace, n, src, dst, devices, Indices(Reused(prior, n), UNPLACED) + movers)
    ensures trace[0] == Freed(Reused(prior, n), movers) && trace[|trace| - 1] == after
    ensures SharesKept(trace, n, src, dst, devices, Indices(Reused(prior, n), UNPLACED) + movers)
  {
    hide SharesKept, CrossDegree, GreedyStep, Count, Repaired, GreedyRun, Touched, BudgetCount, Indices;
    var start := Reused(prior, n);
    movers := SelectMovers(start, src, dst, lo, BudgetCount(budget, n));
    var device := new int[n](v requires 0 <= v < n => start[v]);
    var load := new nat[devices](d => Count(start, d));
    assert device[..] == start && load[..] == Loads(start, devices);
    FreeMovers(device, load, movers);
    var order := Indices(start, UNPLACED) + movers;
    OrderDistinct(start, movers);
    trace := PlaceAll(device, load, src, dst, order);
    after := device[..];
    RunWithinShare(trace, n, src, dst, devices, order);
    RunRepairs(prior, n, src, dst, devices, movers, order, trace);
  }

  // ---------------------------------------------------------------- the cold start

  /** The order cut into equal rank blocks: device `rank * D // N`, clipped. */
  function ScratchAssignment(newid: seq<nat>, devices: nat): (r: seq<int>)
    requires devices > 0 && Below(newid, |newid|)
    ensures |r| == |newid| && Labels(r, devices)
    ensures forall v :: 0 <= v < |r| ==> r[v] == newid[v] * devices / |newid|
  {
    seq(|newid|, v requires 0 <= v < |newid| => ClampedBlock(newid[v], devices, |newid|))
  }

  /** The cold start is within capacity for every order the kernel can return. */
  lemma ScratchBalanced(newid: seq<nat>, devices: nat, d: nat)
    requires devices > 0 && Permutation(newid, |newid|) && d < devices
    ensures devices * (Count(ScratchAssignment(newid, devices), d) - 1) <= |newid|
    ensures |newid| < devices * (Count(ScratchAssignment(newid, devices), d) + 1)
  {
    hide Count;
    var n, a := |newid|, ScratchAssignment(newid, devices);
    if n == 0 {
      CountAbsent(a, d);
      assert devices * (0 - 1) <= 0 < devices * (0 + 1);
    } else {
      assert a == Select<int>(Blocks(n, devices), newid);
      CountPermuted(Blocks(n, devices), newid, d);
      BlockSize(n, devices, d);
    }
  }

  // ---------------------------------------------------------------- reported migration

  /** Relabelling cannot inflate the count past the vertices actually freed. */
  lemma MigrationWithinMovers(prior: seq<int>, after: seq<int>, movers: seq<nat>, devices: nat, moved: nat)
    requires devices > 0 && |prior| <= |after| && Labels(prior, devices) && Repaired(prior, after, movers, devices)
    requires forall q :: Permutation(q, devices) ==> moved <= Moved(prior[..|prior|], after[..|prior|], q)
    ensures moved <= |movers|
  {
    var q := Range(devices);
    assert Permutation(q, devices);
    var b := after[..|prior|];
    assert Relabel(q, b) == b && prior[..|prior|] == prior;
    OnlyMoversDiffer(prior, b, movers);
  }

  // ---------------------------------------------------------------- the whole run

  /** One more than the largest id in the prefix, 0 for no edges. */
  function VertexCount(src: seq<nat>, dst: seq<nat>): (n: nat)
    requires |src| == |dst|
    ensures Below(src, n) && Below(dst, n)
    ensures n > 0 ==> exists e :: 0 <= e < |src| && (src[e] == n - 1 || dst[e] == n - 1)
  {
    if src == [] then 0
    else
      var k := |src| - 1;
      Larger(VertexCount(src[..k], dst[..k]), Larger(src[k], dst[k]) + 1)
  }

  lemma {:induction false} VertexCountGrows(src: seq<nat>, dst: seq<nat>, lo: nat, hi: nat)
    requires |src| == |dst| && lo <= hi <= |src|
    ensures VertexCount(src[..lo], dst[..lo]) <= VertexCount(src[..hi], dst[..hi])
  {
    if lo < hi {
      VertexCountGrows(src, dst, lo, hi - 1);
      assert src[..hi][..hi - 1] == src[..hi - 1] && dst[..hi][..hi - 1] == dst[..hi - 1];
    }
  }

  /** What the run records for a snapshot. */
  datatype Row = Row(hi: nat, device: seq<int>, movers: seq<nat>, migrated: nat)

  ghost predicate Balanced(device: seq<int>, devices: nat)
    requires devices > 0
  {
    forall d :: 0 <= d < devices ==> devices * (Count(device, d) - 1) <= |device|
  }

  ghost predicate Sound(row: Row, src: seq<nat>, dst: seq<nat>, devices: nat)
    requires |src| == |dst| && devices > 0
  {
    && row.hi <= |src| && |row.device| == VertexCount(src[..row.hi], dst[..row.hi])
    && Labels(row.device, devices) && Balanced(row.device, devices)
  }

  /** A snapshot changes no old vertex outside its movers, which its new edges touch and the budget
      bounds, and reports the relabelled migration, which is no more than that. */
  ghost predicate Follows(before: Row, row: Row, src: seq<nat>, dst: seq<nat>, devices: nat, budget: real)
    requires |src| == |dst|
  {
    && before.hi < row.hi <= |src| && |before.device| <= |row.device|
    && (forall v :: 0 <= v < |before.device| && v !in row.movers ==> row.device[v] == before.device[v])
    && (forall v :: v in row.movers ==> v in Touched(src[..row.hi], dst[..row.hi], before.hi))
    && Labels(before.device, devices) && Labels(row.device, devices)
    && MigrationCount(before.device, row.device, devices, row.migrated)
    && row.migrated <= |row.movers|
    && |row.movers| <= if BudgetCount(budget, |row.device|) > 0 then BudgetCount(budget, |row.device|) else 0
  }

  lemma StaysBalanced(prior: seq<int>, after: seq<int>, movers: seq<nat>, devices: nat)
    requires devices > 0 && |prior| <= |after| && Repaired(prior, after, movers, devices)
    requires Balanced(prior, devices)
    ensures Balanced(after, devices)
  {
    hide Count;
    forall d | 0 <= d < devices ensures devices * (Count(after, d) - 1) <= |after| {
      ReusedLoads(prior, |after|, d);
      Scaled(Count(after, d) - 1, Larger(Count(after, d), Count(Reused(prior, |after|), d)) - 1, devices);
    }
  }

  /** The snapshot loop over any nondecreasing edge offsets; `order` is the kernel's order for the
      first snapshot. A snapshot without new edges is skipped, except the first. */
  method Run(src: seq<nat>, dst: seq<nat>, bounds: seq<nat>, devices: nat, budget: real, order: seq<nat>)
    returns (rows: seq<Row>)
    requires |src| == |dst| && devices > 0
    requires Below(bounds, |src| + 1) && forall i, j :: 0 <= i <= j < |bounds| ==> bounds[i] <= bounds[j]
    requires bounds != [] ==> Permutation(order, VertexCount(src[..bounds[0]], dst[..bounds[0]]))
    ensures bounds == [] <==> rows == []
    ensures forall i :: 0 <= i < |rows| ==> Sound(rows[i], src, dst, devices)
    ensures forall i :: 0 < i < |rows| ==> Follows(rows[i - 1], rows[i], src, dst, devices, budget)
    ensures forall s :: 0 <= s < |bounds| ==> exists i :: 0 <= i < |rows| && rows[i].hi == bounds[s]
    ensures rows != [] ==> rows[0].migrated == 0 && rows[0].device == ScratchAssignment(order, devices)
    ensures rows != [] ==> rows[0].hi == bounds[0] && rows[|rows| - 1].hi == bounds[|bounds| - 1]
  {
    hide Sound, Follows, ScratchAssignment, VertexCount;
    rows := [];
    var prev: Option<seq<int>> := None;
    var prev_hi := 0;
    for s := 0 to |bounds|
      invariant s == 0 <==> rows == []
      invariant rows == [] <==> prev.None?
      invariant rows != [] ==> prev.value == rows[|rows| - 1].device && prev_hi == rows[|rows| - 1].hi == bounds[s - 1]
      invariant forall i :: 0 <= i < |rows| ==> Sound(rows[i], src, dst, devices)
      invariant forall i :: 0 < i < |rows| ==> Follows(rows[i - 1], rows[i], src, dst, devices, budget)
      invariant forall r :: 0 <= r < s ==> exists i :: 0 <= i < |rows| && rows[i].hi == bounds[r]
      invariant rows != [] ==> rows[0].hi == bounds[0]
      invariant rows != [] ==> rows[0].migrated == 0 && rows[0].device == ScratchAssignment(order, devices)
    {
      var hi := bounds[s];
      if hi <= prev_hi && s > 0 {
        assert rows[|rows| - 1].hi == hi;
        continue;
      }
      var row;
      if prev.None? {
        row := ColdStart(src, dst, hi, devices, order);
      } else {
        row := Snapshot(src, dst, rows[|rows| - 1], hi, devices, budget);
      }
      ghost var before := rows;
      rows := rows + [row];
      Covered(before, row, bounds, s);
      prev := Some(row.device);
      prev_hi := hi;
    }
  }

  /** Every earlier offset keeps its row, and the new one has the new row. */
  lemma Covered(before: seq<Row>, row: Row, bounds: seq<nat>, s: nat)
    requires s < |bounds| && row.hi == bounds[s]
    requires forall r :: 0 <= r < s ==> exists i :: 0 <= i < |before| && before[i].hi == bounds[r]
    ensures forall r :: 0 <= r < s + 1 ==> exists i :: 0 <= i < |before + [row]| && (before + [row])[i].hi == bounds[r]
  {
    var rows := before + [row];
    forall r | 0 <= r < s + 1 ensures exists i :: 0 <= i < |rows| && rows[i].hi == bounds[r] {
      if r == s {
        assert rows[|before|].hi == bounds[r];
      } else {
        var i :| 0 <= i < |before| && before[i].hi == bounds[r];
        assert rows[i].hi == bounds[r];
      }
    }
  }

  method ColdStart(src: seq<nat>, dst: seq<nat>, hi: nat, devices: nat, order: seq<nat>) returns (row: Row)
    requires |src| == |dst| && hi <= |src| && devices > 0
    requires Permutation(order, VertexCount(src[..hi], dst[..hi]))
    ensures Sound(row, src, dst, devices) && row.hi == hi
    ensures row.migrated == 0 && row.device == ScratchAssignment(order, devices)
  {
    var device := ScratchAssignment(order, devices);
    forall d | 0 <= d < devices ensures devices * (Count(device, d) - 1) <= |device| {
      ScratchBalanced(order, devices, d);
    }
    var moved, _, _ := Migration(None, device, devices);
    row := Row(hi, device, [], moved);
  }

  method Snapshot(src: seq<nat>, dst: seq<nat>, before: Row, hi: nat, devices: nat, budget: real) returns (row: Row)
    requires |src| == |dst| && before.hi < hi <= |src| && devices > 0
    requires Sound(before, src, dst, devices)
    ensures Sound(row, src, dst, devices) && row.hi == hi && Follows(before, row, src, dst, devices, budget)
  {
    hide Count, Balanced, CrossDegree, GreedyStep, GreedyRun, Touched, Mismatch, MigrationCount;
    var prior := before.device;
    var n := VertexCount(src[..hi], dst[..hi]);
    VertexCountGrows(src, dst, before.hi, hi);
    var after, movers, trace := PartitionIncremental(src[..hi], dst[..hi], n, devices, prior, before.hi, budget);
    StaysBalanced(prior, after, movers, devices);
    var moved, _, _ := Migration(Some(prior), after, devices);
    MigrationWithinMovers(prior, after, movers, devices, moved);
    row := Row(hi, after, movers, moved);
  }
}
