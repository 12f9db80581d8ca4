/** The capacity-aware incremental partitioner: reuse, free the changed cone under the budget,
    propagate labels over the placement set, then spill what does not fit. */
module BudgetedRepair {
  import opened Arrays
  import opened RankBlocks
  import opened ChangedCone
  import opened LabelMatching
  import opened LabelPropagation
  import opened OverflowSpill

  /** The given device capacities, or `N // D + 1` for each. */
  function Capacities(n: nat, devices: nat, caps: Option<seq<int>>): (cap: seq<int>)
    requires devices > 0 && (caps.Some? ==> |caps.value| == devices)
    ensures |cap| == devices && (caps.Some? ==> cap == caps.value)
    ensures caps.None? ==> forall d :: 0 <= d < devices ==> devices * (cap[d] - 1) <= n < devices * cap[d]
  {
    match caps
    case Some(c) => c
    case None =>
      DivNext(n, devices);
      seq(devices, _ => n / devices + 1)
  }

  /** `pos[to_place] = arange(P)`. */
  method Number(toPlace: seq<nat>, inPlace: seq<bool>) returns (pos: seq<int>)
    requires Distinct(toPlace) && Below(toPlace, |inPlace|)
    requires forall v :: 0 <= v < |inPlace| ==> (inPlace[v] <==> v in toPlace)
    ensures Numbering(pos, toPlace, inPlace)
  {
    var a := new int[|inPlace|](_ => -1);
    for r := 0 to |toPlace|
      invariant forall i :: 0 <= i < r ==> a[toPlace[i]] == i
    {
      a[toPlace[r]] := r;
    }
    pos := a[..];
    forall v | 0 <= v < |pos| && inPlace[v] ensures 0 <= pos[v] < |toPlace| && toPlace[pos[v]] == v {
      var r :| 0 <= r < |toPlace| && toPlace[r] == v;
    }
    forall r | 0 <= r < |toPlace| ensures inPlace[toPlace[r]] {
      assert toPlace[r] in toPlace;
    }
  }

  /** `labelled` puts the tentative labels on the placement set. */
  ghost predicate Labelled(labelled: seq<int>, freed: seq<int>, toPlace: seq<nat>, tent: seq<nat>) {
    && |labelled| == |freed| && |tent| == |toPlace| && Below(toPlace, |freed|)
    && (forall r :: 0 <= r < |toPlace| ==> labelled[toPlace[r]] == tent[r])
    && forall v :: 0 <= v < |freed| && v !in toPlace ==> labelled[v] == freed[v]
  }

  /** `assignment[to_place] = tent`. */
  method WriteLabels(device: array<int>, toPlace: seq<nat>, tent: seq<nat>)
    requires Distinct(toPlace) && Below(toPlace, device.Length) && |tent| == |toPlace|
    modifies device
    ensures Labelled(device[..], old(device[..]), toPlace, tent)
  {
    for r := 0 to |toPlace|
      invariant forall i :: 0 <= i < r ==> device[toPlace[i]] == tent[i]
      invariant forall v :: 0 <= v < device.Length && v !in toPlace ==> device[v] == old(device[v])
    {
      assert toPlace[r] in toPlace;
      device[toPlace[r]] := tent[r];
    }
  }

  /** What is unplaced after freeing is exactly the placement set. */
  lemma FreedState(prior: seq<int>, n: nat, movers: seq<nat>, devices: nat)
    requires Labels(prior, devices)
    ensures var freed, order := Freed(Reused(prior, n), movers), Indices(Reused(prior, n), UNPLACED) + movers;
            forall v :: 0 <= v < n ==> (if v in order then freed[v] == UNPLACED else 0 <= freed[v] < devices)
  {
    var freed, order := Freed(Reused(prior, n), movers), Indices(Reused(prior, n), UNPLACED) + movers;
    forall v | 0 <= v < n ensures if v in order then freed[v] == UNPLACED else 0 <= freed[v] < devices {
      InOrder(prior, n, movers, v);
    }
  }

  lemma LabelledOk(labelled: seq<int>, freed: seq<int>, toPlace: seq<nat>, tent: seq<nat>, devices: nat)
    requires Labelled(labelled, freed, toPlace, tent) && TentOk(tent, toPlace, devices)
    requires forall v :: 0 <= v < |freed| ==> (if v in toPlace then freed[v] == UNPLACED else 0 <= freed[v] < devices)
    ensures Labels(labelled, devices) && Freed(labelled, toPlace) == freed
  {
    forall v | 0 <= v < |labelled| ensures 0 <= labelled[v] < devices {
      if v in toPlace {
        var r :| 0 <= r < |toPlace| && toPlace[r] == v;
        assert labelled[toPlace[r]] == tent[r];
      }
    }
  }

  /** The condition under which the result fits, read off before any label is propagated. */
  ghost predicate Feasible(freed: seq<int>, cap: seq<int>) {
    Sum(cap) >= |freed| && forall d :: 0 <= d < |cap| ==> Count(freed, d) <= cap[d]
  }

  lemma NothingToPlace(freed: seq<int>, cap: seq<int>)
    requires Labels(freed, |cap|)
    ensures WithinCaps(freed, cap) <==> Feasible(freed, cap)
  {
    CapsAgainstVertices(freed, cap);
  }

  lemma FitsWhenFeasible(labelled: seq<int>, after: seq<int>, freed: seq<int>, toPlace: seq<nat>, cap: seq<int>,
                         outcome: Outcome)
    requires Spilled(labelled, after, toPlace, cap) && Explains(outcome, after, toPlace, cap)
    requires Freed(labelled, toPlace) == freed
    ensures WithinCaps(after, cap) <==> Feasible(freed, cap)
  {
    FitsExactly(labelled, after, toPlace, cap, outcome);
    OverWhenNotFits(after, toPlace, cap, outcome);
    hide Count;
    assert forall d :: 0 <= d < |cap| ==> FixedLoad(labelled, toPlace, d) == Count(freed, d);
  }

  lemma OverWhenNotFits(after: seq<int>, toPlace: seq<nat>, cap: seq<int>, outcome: Outcome)
    requires Explains(outcome, after, toPlace, cap)
    ensures WithinCaps(after, cap) <==> outcome.Fits?
  {
  }

  /** Labels, then the spill, for a nonempty placement set. */
  method PlaceAndSpill(freed: seq<int>, src: seq<nat>, dst: seq<nat>, order: seq<nat>, cap: seq<int>)
    returns (after: seq<int>, ghost labelled: seq<int>, ghost trace: seq<seq<int>>, ghost moves: seq<Choice>)
    requires Graph(src, dst, |freed|) && cap != [] && Distinct(order) && Below(order, |freed|)
    requires forall v :: 0 <= v < |freed| ==> (if v in order then freed[v] == UNPLACED else 0 <= freed[v] < |cap|)
    ensures Labelled(labelled, freed, order, Passes(freed, src, dst, order, |cap|, Seed(order, |cap|), 6))
    ensures SpillRun(trace, moves, order, cap, |freed|)
    ensures |trace| == |moves| + 1 && trace[0] == labelled && trace[|moves|] == after
    ensures Spilled(labelled, after, order, cap) && Freed(labelled, order) == freed
    ensures WithinCaps(after, cap) <==> Feasible(freed, cap)
  {
    var inPlace := Members(order, |freed|);
    var pos := Number(order, inPlace);
    var tent := Propagate(freed, src, dst, order, inPlace, pos, |cap|);
    hide Passes, WithinCaps, Feasible, Spilled, Explains, TotalOverflow, Setup, Numbering, Graph, SpillRun;
    var device := new int[|freed|](v requires 0 <= v < |freed| => freed[v]);
    assert device[..] == freed;
    WriteLabels(device, order, tent);
    labelled := device[..];
    LabelledOk(labelled, freed, order, tent, |cap|);
    var outcome;
    outcome, trace, moves := Spill(device, order, cap);
    after := device[..];
    FitsWhenFeasible(labelled, after, freed, order, cap, outcome);
  }

  /** One repair. It fits the capacities exactly when they hold all the vertices and none is
      exceeded by the vertices that stay. */
  method PartitionIncremental(src: seq<nat>, dst: seq<nat>, n: nat, devices: nat, prior: seq<int>, lo: nat,
                              budget: real, caps: Option<seq<int>>)
    returns (after: seq<int>, movers: seq<nat>, ghost labelled: seq<int>, ghost trace: seq<seq<int>>,
             ghost moves: seq<Choice>)
    requires Graph(src, dst, n) && devices > 0 && Labels(prior, devices)
    requires caps.Some? ==> |caps.value| == devices
    ensures var freed, order := Freed(Reused(prior, n), movers), Indices(Reused(prior, n), UNPLACED) + movers;
            && Below(order, n)
            && Repair(freed, src, dst, order, Capacities(n, devices, caps), labelled, trace, moves, after)
    ensures |after| == n && Labels(after, devices)
    ensures forall v :: 0 <= v < |prior| && v < n && v !in movers ==> after[v] == prior[v]
    ensures Distinct(movers) && |movers| <= if BudgetCount(budget, n) > 0 then BudgetCount(budget, n) else 0
    ensures forall v :: v in movers ==> v < n && v < |prior| && v in Touched(src, dst, lo)
    ensures forall u, v :: v in movers && u in Touched(src, dst, lo) && u < n && u < |prior| && u !in movers ==>
              CrossDegree(Reused(prior, n), src, dst, u) <= CrossDegree(Reused(prior, n), src, dst, v)
    ensures var cap := Capacities(n, devices, caps);
            WithinCaps(after, cap) <==> Feasible(Freed(Reused(prior, n), movers), cap)
  {
    hide *;
    var cap := Capacities(n, devices, caps);
    var start := Reused(prior, n);
    movers := SelectMovers(start, src, dst, lo, BudgetCount(budget, n));
    var order := Indices(start, UNPLACED) + movers;
    OrderDistinct(start, movers);
    FreedState(prior, n, movers, devices);
    after, labelled, trace, moves := PlaceAny(Freed(start, movers), src, dst, order, cap);
    OutsideOrder(prior, n, movers, devices);
  }

  lemma OutsideOrder(prior: seq<int>, n: nat, movers: seq<nat>, devices: nat)
    requires Labels(prior, devices) && forall v :: v in movers ==> v < n && Reused(prior, n)[v] >= 0
    ensures forall v :: v in movers ==> v < n && v < |prior|
    ensures forall v :: 0 <= v < n && v < |prior| ==> Reused(prior, n)[v] == prior[v] >= 0
    ensures var order := Indices(Reused(prior, n), UNPLACED) + movers;
            forall v :: 0 <= v < |prior| && v < n && v !in movers ==>
              v !in order && Freed(Reused(prior, n), movers)[v] == prior[v]
  {
  }

  /** Nothing to place returns at once. */
  method PlaceAny(freed: seq<int>, src: seq<nat>, dst: seq<nat>, order: seq<nat>, cap: seq<int>)
    returns (after: seq<int>, ghost labelled: seq<int>, ghost trace: seq<seq<int>>, ghost moves: seq<Choice>)
    requires Graph(src, dst, |freed|) && cap != [] && Distinct(order) && Below(order, |freed|)
    requires forall v :: 0 <= v < |freed| ==> (if v in order then freed[v] == UNPLACED else 0 <= freed[v] < |cap|)
    ensures Repair(freed, src, dst, order, cap, labelled, trace, moves, after)
    ensures |after| == |freed| && Labels(after, |cap|)
    ensures forall v :: 0 <= v < |freed| && v !in order ==> after[v] == freed[v]
    ensures WithinCaps(after, cap) <==> Feasible(freed, cap)
  {
    hide *;
    if order == [] {
      after, labelled, trace, moves := freed, freed, [freed], [];
      NothingRepaired(freed, src, dst, order, cap);
      AllPlaced(freed, |cap|);
      NothingToPlace(freed, cap);
    } else {
      after, labelled, trace, moves := PlaceAndSpill(freed, src, dst, order, cap);
      KeepsUnplaced(labelled, after, freed, order, cap);
      Repaired(freed, src, dst, order, cap, labelled, trace, moves, after);
    }
  }

  /** How the result comes about: six label passes over the placement set, then the spill moves;
      nothing at all when there is nothing to place. */
  ghost predicate Repair(freed: seq<int>, src: seq<nat>, dst: seq<nat>, order: seq<nat>, cap: seq<int>,
                         labelled: seq<int>, trace: seq<seq<int>>, moves: seq<Choice>, after: seq<int>)
    requires Graph(src, dst, |freed|) && cap != [] && Below(order, |freed|)
  {
    && SpillRun(trace, moves, order, cap, |freed|) && trace[0] == labelled && trace[|moves|] == after
    && Labelled(labelled, freed, order, Passes(freed, src, dst, order, |cap|, Seed(order, |cap|), 6))
    && (order == [] ==> after == freed)
  }

  lemma Repaired(freed: seq<int>, src: seq<nat>, dst: seq<nat>, order: seq<nat>, cap: seq<int>,
                 labelled: seq<int>, trace: seq<seq<int>>, moves: seq<Choice>, after: seq<int>)
    requires Graph(src, dst, |freed|) && cap != [] && Below(order, |freed|) && order != []
    requires SpillRun(trace, moves, order, cap, |freed|) && |trace| == |moves| + 1 && trace[0] == labelled
    requires trace[|moves|] == after
    requires Labelled(labelled, freed, order, Passes(freed, src, dst, order, |cap|, Seed(order, |cap|), 6))
    ensures Repair(freed, src, dst, order, cap, labelled, trace, moves, after)
  {
    hide SpillRun, Labelled, Passes;
  }

  lemma NothingRepaired(freed: seq<int>, src: seq<nat>, dst: seq<nat>, order: seq<nat>, cap: seq<int>)
    requires Graph(src, dst, |freed|) && cap != [] && order == []
    ensures Below(order, |freed|) && Repair(freed, src, dst, order, cap, freed, [freed], [], freed)
  {
    hide Passes;
    SpillRunStart(freed, order, cap);
  }

  lemma AllPlaced(freed: seq<int>, devices: nat)
    requires forall v :: 0 <= v < |freed| ==> 0 <= freed[v] < devices
    ensures Labels(freed, devices)
  {
  }

  lemma KeepsUnplaced(labelled: seq<int>, after: seq<int>, freed: seq<int>, order: seq<nat>, cap: seq<int>)
    requires Spilled(labelled, after, order, cap) && Freed(labelled, order) == freed
    ensures |after| == |freed| && Labels(after, |cap|)
    ensures forall v :: 0 <= v < |freed| && v !in order ==> after[v] == freed[v]
  {
  }

  /** With the default capacities the total always suffices. */
  lemma DefaultCapsSuffice(n: nat, devices: nat)
    requires devices > 0
    ensures Sum(Capacities(n, devices, None)) > n
  {
    var cap := Capacities(n, devices, None);
    SumConst(cap, n / devices + 1);
    assert (n / devices + 1) * devices > n;
  }
}
