/** The greedy placement loop: each unplaced vertex goes to the device that holds most of its
    placed neighbours, softly penalised by load, never to a full one. */
module GreedyPlacement {
  import opened Arrays
  import opened RankBlocks
  import opened ChangedCone
  import opened IncrementalVotes

  ghost predicate PartlyPlaced(device: seq<int>, devices: nat) {
    forall v :: 0 <= v < |device| ==> UNPLACED <= device[v] < devices
  }

  function Capacity(n: nat, devices: nat): (cap: nat)
    requires devices > 0
    ensures cap > 0 && devices * (cap - 1) <= n < devices * cap
  {
    DivNext(n, devices);
    n / devices + 1
  }

  /** A device is below capacity as long as it holds no more than its equal share, and within
      capacity when all but one of its vertices are no more than that. */
  lemma BelowCapacityIff(n: nat, devices: nat, load: nat)
    requires devices > 0
    ensures load < Capacity(n, devices) <==> devices * load <= n
    ensures load <= Capacity(n, devices) <==> devices * (load - 1) <= n
  {
    var cap := Capacity(n, devices);
    hide Capacity;
    if load < cap {
      Scaled(load, cap - 1, devices);
    } else {
      Scaled(cap, load, devices);
      if load > cap {
        Scaled(cap, load - 1, devices);
      }
    }
    Scaled(-1, 0, devices);
    if load <= cap {
      Scaled(load - 1, cap - 1, devices);
    }
  }

  // ---------------------------------------------------------------- there is always room

  lemma HistogramSkip(keys: seq<int>, k: int, m: nat)
    requires k < 0
    ensures Histogram(keys + [k], m) == Histogram(keys, m)
  {
    forall d | 0 <= d < m ensures Histogram(keys + [k], m)[d] == Histogram(keys, m)[d] {
      CountSnoc(keys, k, d);
    }
  }

  lemma {:induction false} PlacedTotal(device: seq<int>, devices: nat)
    requires PartlyPlaced(device, devices)
    ensures Sum(Histogram(device, devices)) + Count(device, UNPLACED) == |device|
  {
    hide Sum, Histogram, Count;
    if device == [] {
      HistogramEmpty(devices);
      CountAbsent(device, UNPLACED);
    } else {
      var n := |device| - 1;
      PlacedTotal(device[..n], devices);
      assert device == device[..n] + [device[n]];
      CountSnoc(device[..n], device[n], UNPLACED);
      if device[n] == UNPLACED {
        HistogramSkip(device[..n], device[n], devices);
      } else {
        HistogramSnoc(device[..n], device[n], devices);
      }
    }
  }

  lemma {:induction false} SumAtLeast(xs: seq<int>, c: nat)
    requires forall i :: 0 <= i < |xs| ==> xs[i] >= c
    ensures Sum(xs) >= c * |xs|
  {
    if xs != [] {
      SumAtLeast(xs[..|xs| - 1], c);
    }
  }

  lemma CapacitiesExceed(n: nat, devices: nat)
    requires devices > 0
    ensures Capacity(n, devices) * devices > n
  {
  }

  /** While a vertex is unplaced some device is below capacity, whatever the loads were before. */
  lemma RoomLeft(device: seq<int>, devices: nat)
    requires devices > 0 && PartlyPlaced(device, devices) && Count(device, UNPLACED) > 0
    ensures exists d :: 0 <= d < devices && devices * Count(device, d) <= |device|
    ensures exists d :: 0 <= d < devices && Count(device, d) < Capacity(|device|, devices)
  {
    var h := Histogram(device, devices);
    if forall d :: 0 <= d < devices ==> Count(device, d) >= Capacity(|device|, devices) {
      PlacedTotal(device, devices);
      SumAtLeast(h, Capacity(|device|, devices));
      CapacitiesExceed(|device|, devices);
      assert false;
    }
    var d :| 0 <= d < devices && Count(device, d) < Capacity(|device|, devices);
    BelowCapacityIff(|device|, devices, Count(device, d));
  }

  // ---------------------------------------------------------------- scores

  datatype Score = Finite(value: real) | Infinite

  predicate Less(x: Score, y: Score) {
    x.Finite? && (y.Infinite? || x.value < y.value)
  }

  /** Neighbours count against the score, load for it, and a full device is out. */
  function ScoreOf(count: nat, load: nat, cap: nat): Score
    requires cap > 0
  {
    if load >= cap then Infinite else Finite(-(count as real) + load as real / cap as real)
  }

  lemma Fraction(l: nat, cap: nat) returns (q: real)
    requires l < cap
    ensures q == l as real / cap as real && 0.0 <= q < 1.0 && q * cap as real == l as real
  {
    q := l as real / cap as real;
    assert q * cap as real == l as real;
    FractionOrder(q, 0.0, cap as real);
    FractionOrder(q, 1.0, cap as real);
  }

  lemma FractionOrder(a: real, b: real, c: real)
    requires c > 0.0
    ensures a * c < b * c <==> a < b
  {
  }

  /** The soft penalty never outweighs a neighbour: it only breaks ties. */
  lemma ScoreOrder(c1: nat, l1: nat, c2: nat, l2: nat, cap: nat)
    requires l1 < cap
    ensures Less(ScoreOf(c1, l1, cap), ScoreOf(c2, l2, cap)) <==> l2 >= cap || c1 > c2 || (c1 == c2 && l1 < l2)
  {
    if l2 < cap {
      var q1 := Fraction(l1, cap);
      var q2 := Fraction(l2, cap);
      FractionOrder(q1, q2, cap as real);
    }
  }

  method ArgMinScore(scores: seq<Score>) returns (k: nat)
    requires scores != []
    ensures k < |scores|
    ensures forall i :: 0 <= i < |scores| ==> !Less(scores[i], scores[k])
    ensures forall i :: 0 <= i < k ==> Less(scores[k], scores[i])
  {
    k := 0;
    for i := 1 to |scores|
      invariant k < i
      invariant forall j :: 0 <= j < i ==> !Less(scores[j], scores[k])
      invariant forall j :: 0 <= j < k ==> Less(scores[k], scores[j])
    {
      if Less(scores[i], scores[k]) {
        k := i;
      }
    }
  }

  /** Device `d` is below capacity, and no other such device has more votes, or as many and a
      smaller load, or as many, the same load and a smaller label. */
  ghost predicate Preferred(votes: seq<nat>, load: seq<nat>, cap: nat, d: nat)
    requires |votes| == |load|
  {
    && d < |load| && load[d] < cap
    && forall e :: 0 <= e < |load| && load[e] < cap && e != d ==>
         || votes[e] < votes[d]
         || (votes[e] == votes[d] && load[d] < load[e])
         || (votes[e] == votes[d] && load[d] == load[e] && d < e)
  }

  ghost predicate AllFull(load: seq<nat>, cap: nat) {
    forall d :: 0 <= d < |load| ==> load[d] >= cap
  }

  function Scores(votes: seq<nat>, load: seq<nat>, cap: nat): (r: seq<Score>)
    requires |votes| == |load| && cap > 0
    ensures |r| == |load| && forall d :: 0 <= d < |r| ==> r[d] == ScoreOf(votes[d], load[d], cap)
  {
    seq(|load|, d requires 0 <= d < |load| => ScoreOf(votes[d], load[d], cap))
  }

  lemma LeastScorePreferred(votes: seq<nat>, load: seq<nat>, cap: nat, d: nat)
    requires |votes| == |load| && cap > 0 && d < |load|
    requires forall i :: 0 <= i < |load| ==> !Less(ScoreOf(votes[i], load[i], cap), ScoreOf(votes[d], load[d], cap))
    requires forall i :: 0 <= i < d ==> Less(ScoreOf(votes[d], load[d], cap), ScoreOf(votes[i], load[i], cap))
    ensures if ScoreOf(votes[d], load[d], cap).Finite? then Preferred(votes, load, cap, d) else AllFull(load, cap)
  {
    if load[d] < cap {
      forall e | 0 <= e < |load| && load[e] < cap && e != d
        ensures votes[e] < votes[d] || (votes[e] == votes[d] && load[d] < load[e])
             || (votes[e] == votes[d] && load[d] == load[e] && d < e)
      {
        ScoreOrder(votes[e], load[e], votes[d], load[d], cap);
        ScoreOrder(votes[d], load[d], votes[e], load[e], cap);
      }
    } else {
      forall e | 0 <= e < |load| ensures load[e] >= cap {
        assert !Less(ScoreOf(votes[e], load[e], cap), ScoreOf(votes[d], load[d], cap));
      }
    }
  }

  /** The device for a vertex with the given neighbour votes. */
  method Choose(votes: seq<nat>, load: seq<nat>, cap: nat) returns (d: nat)
    requires |votes| == |load| && load != [] && cap > 0
    ensures d < |load|
    ensures Preferred(votes, load, cap, d)
         || (AllFull(load, cap) && forall e :: 0 <= e < |load| ==> load[d] <= load[e])
  {
    var scores := Scores(votes, load, cap);
    d := ArgMinScore(scores);
    LeastScorePreferred(votes, load, cap, d);
    if scores[d].Infinite? {
      var room: seq<int> := seq(|load|, e requires 0 <= e < |load| => cap - load[e]);
      d := ArgMax(room);
      forall e | 0 <= e < |load| ensures load[d] <= load[e] {
        assert room[e] <= room[d];
      }
    }
  }

  // ---------------------------------------------------------------- one placement

  /** Every device's votes from the edges of `v`, placed ends only. */
  ghost function VotesOf(device: seq<int>, src: seq<nat>, dst: seq<nat>, v: nat, devices: nat): (r: seq<nat>)
    requires Graph(src, dst, |device|)
    ensures |r| == devices && forall d :: 0 <= d < devices ==> r[d] == Votes(device, src, dst, v, d)
  {
    seq(devices, d => Votes(device, src, dst, v, d))
  }

  /** Vertex `v` was unplaced and goes to its preferred device; nothing else changes. */
  ghost predicate GreedyStep(before: seq<int>, after: seq<int>, src: seq<nat>, dst: seq<nat>, devices: nat, v: nat)
    requires Graph(src, dst, |before|) && devices > 0
  {
    && v < |before| == |after| && before[v] == UNPLACED && after[v] >= 0
    && after == before[v := after[v]]
    && Preferred(VotesOf(before, src, dst, v, devices), Loads(before, devices), Capacity(|before|, devices), after[v])
  }

  /** In plain numbers: the chosen device held no more than its equal share, and no device that held
      no more than its share has more placed neighbours, or as many and a lighter load. */
  ghost predicate WithinShare(before: seq<int>, after: seq<int>, src: seq<nat>, dst: seq<nat>, devices: nat, v: nat)
    requires Graph(src, dst, |before|)
  {
    && v < |after| == |before| && 0 <= after[v] < devices && devices * Count(before, after[v]) <= |before|
    && forall e :: 0 <= e < devices && devices * Count(before, e) <= |before| ==>
         || Votes(before, src, dst, v, e) < Votes(before, src, dst, v, after[v])
         || (Votes(before, src, dst, v, e) == Votes(before, src, dst, v, after[v])
             && Count(before, after[v]) <= Count(before, e))
  }

  lemma StepWithinShare(before: seq<int>, after: seq<int>, src: seq<nat>, dst: seq<nat>, devices: nat, v: nat)
    requires Graph(src, dst, |before|) && devices > 0 && GreedyStep(before, after, src, dst, devices, v)
    ensures WithinShare(before, after, src, dst, devices, v)
  {
    hide Count, Votes, Capacity;
    forall e | 0 <= e < devices
      ensures Count(before, e) < Capacity(|before|, devices) <==> devices * Count(before, e) <= |before|
    {
      BelowCapacityIff(|before|, devices, Count(before, e));
    }
  }

  lemma NothingPlaced(dv: seq<int>, devices: nat)
    requires forall i :: 0 <= i < |dv| ==> dv[i] < 0
    ensures forall d :: 0 <= d < devices ==> Count(dv, d) == 0
  {
    forall d | 0 <= d < devices ensures Count(dv, d) == 0 {
      CountAbsent(dv, d);
    }
  }

  /** `bincount(placed, minlength=D)` of the devices of the neighbours, zeros when none is placed. */
  function NeighbourVotes(device: seq<int>, nbrs: seq<nat>, devices: nat): (r: seq<nat>)
    requires Below(nbrs, |device|)
    ensures |r| == devices && forall d :: 0 <= d < devices ==> r[d] == Count(Select<int>(device, nbrs), d)
  {
    var dv := Select<int>(device, nbrs);
    if exists i :: 0 <= i < |dv| && dv[i] >= 0 then seq(devices, d => Count(dv, d))
    else
      NothingPlaced(dv, devices);
      seq(devices, d => 0)
  }

  lemma CountAfter(before: seq<int>, v: nat, d: nat, devices: nat)
    requires v < |before| && before[v] == UNPLACED && d < devices
    ensures forall e :: 0 <= e < devices ==> Count(before[v := d], e) == Count(before, e) + if e == d then 1 else 0
    ensures Loads(before[v := d], devices) == Loads(before, devices)[d := Loads(before, devices)[d] + 1]
  {
    var after: seq<int> := before[v := d];
    forall e | 0 <= e < devices ensures Count(after, e) == Count(before, e) + if e == d then 1 else 0 {
      CountUpdate(before, v, d, e);
    }
  }

  lemma VotesRead(device: seq<int>, inPlace: seq<bool>, src: seq<nat>, dst: seq<nat>, v: nat, devices: nat)
    requires Graph(src, dst, |device|) && |inPlace| == |device| && v < |device| && inPlace[v] && devices > 0
    ensures Below(Neighbours(Emitted(inPlace, src, dst), v), |device|)
    ensures NeighbourVotes(device, Neighbours(Emitted(inPlace, src, dst), v), devices)
         == VotesOf(device, src, dst, v, devices)
  {
    var nbrs := Neighbours(Emitted(inPlace, src, dst), v);
    SliceRefinesVotes(device, inPlace, src, dst, v, 0);
    hide Neighbours, Emitted, Votes, Count;
    var a, b := NeighbourVotes(device, nbrs, devices), VotesOf(device, src, dst, v, devices);
    forall d | 0 <= d < devices ensures a[d] == b[d] {
      SliceRefinesVotes(device, inPlace, src, dst, v, d);
    }
  }

  lemma StepMade(before: seq<int>, src: seq<nat>, dst: seq<nat>, devices: nat, v: nat, d: nat)
    requires Graph(src, dst, |before|) && PartlyPlaced(before, devices) && v < |before| && before[v] == UNPLACED
    requires d < devices
    requires var votes, load := VotesOf(before, src, dst, v, devices), Loads(before, devices);
             var cap := Capacity(|before|, devices);
             Preferred(votes, load, cap, d) || AllFull(load, cap)
    ensures GreedyStep(before, before[v := d], src, dst, devices, v)
  {
    CountPositive(before, v);
    RoomLeft(before, devices);
  }

  /** Places one vertex in the arrays. */
  method PlaceOne(device: array<int>, load: array<nat>, src: seq<nat>, dst: seq<nat>, ps: seq<Pair>,
                  ghost inPlace: seq<bool>, v: nat)
    requires Graph(src, dst, device.Length) && |inPlace| == device.Length && ps == Emitted(inPlace, src, dst)
    requires load.Length > 0 && load as object != device
    requires v < device.Length && inPlace[v] && device[v] == UNPLACED
    requires PartlyPlaced(device[..], load.Length) && load[..] == Loads(device[..], load.Length)
    modifies device, load
    ensures GreedyStep(old(device[..]), device[..], src, dst, load.Length, v)
    ensures WithinShare(old(device[..]), device[..], src, dst, load.Length, v)
    ensures load[..] == Loads(device[..], load.Length)
  {
    hide Neighbours, Emitted, Count, Votes, GreedyStep, WithinShare, Preferred, AllFull, NeighbourVotes, Capacity;
    ghost var before := device[..];
    var devices := load.Length;
    VotesRead(before, inPlace, src, dst, v, devices);
    var votes := NeighbourVotes(device[..], Neighbours(ps, v), devices);
    var cap := Capacity(device.Length, devices);
    var d := Choose(votes, load[..], cap);
    StepMade(before, src, dst, devices, v, d);
    CountAfter(before, v, d, devices);
    device[v] := d;
    load[d] := load[d] + 1;
    assert device[..] == before[v := d];
    StepWithinShare(before, device[..], src, dst, devices, v);
  }
}
