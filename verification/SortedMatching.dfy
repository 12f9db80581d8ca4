/** Fitting parts onto devices of different capacity: comparing the k-th largest part with the
    k-th largest capacity decides whether any placement of the parts fits, and by how much the
    best placement overflows. */
module SortedMatching {
  import opened Arrays

  /** The positions of `xs` from the largest value down. */
  function Descending(xs: seq<int>): (o: seq<nat>)
    ensures |o| == |xs| && Below(o, |xs|) && Distinct(o)
    ensures forall p: nat :: p in o <==> p < |xs|
    ensures forall i, j :: 0 <= i < j < |o| ==> xs[o[i]] >= xs[o[j]]
  {
    var o := Argsort(Negated(xs));
    assert forall i, j :: 0 <= i < j < |o| ==> Precedes(Negated(xs), o[i], o[j]);
    o
  }

  /** `np.sort(xs)[::-1]`. */
  function SortedDown(xs: seq<int>): (r: seq<int>)
    ensures |r| == |xs|
  {
    Select<int>(xs, Descending(xs))
  }

  /** `xs.max()`. */
  function Max(xs: seq<int>): (m: int)
    requires xs != []
    ensures m in xs && forall i :: 0 <= i < |xs| ==> xs[i] <= m
  {
    if |xs| == 1 then xs[0]
    else
      var m := Max(xs[..|xs| - 1]);
      if xs[|xs| - 1] > m then xs[|xs| - 1] else m
  }

  /** The k-th largest part minus the k-th largest capacity. */
  function Overflow(load: seq<int>, caps: seq<int>): (over: seq<int>)
    requires |load| == |caps|
    ensures |over| == |load|
    ensures forall k :: 0 <= k < |over| ==> over[k] == SortedDown(load)[k] - SortedDown(caps)[k]
  {
    seq(|load|, k requires 0 <= k < |load| => SortedDown(load)[k] - SortedDown(caps)[k])
  }

  /** Feasibility, the worst overflow, and the sizes of the parts. */
  datatype Verdict = Verdict(feasible: bool, maxOver: int, load: seq<int>)

  function Feasibility(assignment: seq<int>, devices: nat, caps: seq<int>): (r: Verdict)
    requires |caps| == devices > 0
  {
    var load := Histogram(assignment, devices);
    var top := Max(Overflow(load, caps));
    var maxOver := if top > 0 then top else 0;
    Verdict(maxOver <= 0, maxOver, load)
  }

  /** Part `p` goes to device `place[p]`, one part per device, without overflowing by more than
      the slack. */
  ghost predicate Fits(load: seq<int>, caps: seq<int>, place: seq<nat>, slack: int)
    requires |load| == |caps| && Permutation(place, |load|)
  {
    forall p :: 0 <= p < |load| ==> load[p] <= caps[place[p]] + slack
  }

  /** Any placement leaves one of the `k + 1` largest parts on a device that is at most the
      `k`-th largest, so it overflows at least as much as the sorted matching does at `k`. */
  lemma NoPlacementBeatsSorted(load: seq<int>, caps: seq<int>, place: seq<nat>, slack: int, k: nat)
    requires |load| == |caps| && Permutation(place, |load|) && Fits(load, caps, place, slack) && k < |load|
    ensures Overflow(load, caps)[k] <= slack
  {
    var ol, oc := Descending(load), Descending(caps);
    var i, r := OneLandsLow(ol, oc, place, k);
    var p := ol[i];
    assert load[p] <= caps[place[p]] + slack;
    assert load[p] >= load[ol[k]];
    assert caps[oc[r]] <= caps[oc[k]];
  }

  lemma OneLandsLow(ol: seq<nat>, oc: seq<nat>, place: seq<nat>, k: nat) returns (i: nat, r: nat)
    requires |ol| == |oc| == |place| && Distinct(ol) && Distinct(place) && Below(ol, |place|) && Below(place, |oc|)
    requires forall p: nat :: p < |oc| ==> p in oc
    requires k < |ol|
    ensures i <= k <= r < |oc| && oc[r] == place[ol[i]]
  {
    var ranks: seq<nat> := [];
    i := 0;
    while i <= k
      invariant i <= k + 1 && |ranks| == i
      invariant forall j :: 0 <= j < i ==> ranks[j] < k && oc[ranks[j]] == place[ol[j]]
    {
      assert place[ol[i]] in oc;
      r :| 0 <= r < |oc| && oc[r] == place[ol[i]];
      if r >= k {
        return;
      }
      ranks, i := ranks + [r], i + 1;
    }
    forall a, b | 0 <= a < b < |ranks| ensures ranks[a] != ranks[b] {
      assert place[ol[a]] != place[ol[b]];
    }
    forall j | 0 <= j < |ranks| ensures ranks[j] in Range(k) {
      assert Range(k)[ranks[j]] == ranks[j];
    }
    InjectionCount(ranks, Range(k));
    assert false;
  }

  /** The sorted matching itself is a placement that overflows no more than it says. */
  lemma SortedPlacement(load: seq<int>, caps: seq<int>, slack: int) returns (place: seq<nat>)
    requires |load| == |caps| && forall k :: 0 <= k < |load| ==> Overflow(load, caps)[k] <= slack
    ensures Permutation(place, |load|) && Fits(load, caps, place, slack)
  {
    var ol, oc := Descending(load), Descending(caps);
    place := seq(|load|, p requires 0 <= p < |load| => oc[RankIn(ol, p)]);
    forall p, q | 0 <= p < q < |place| ensures place[p] != place[q] {
      assert ol[RankIn(ol, p)] == p && ol[RankIn(ol, q)] == q;
    }
    forall p | 0 <= p < |load| ensures load[p] <= caps[place[p]] + slack {
      var k := RankIn(ol, p);
      assert Overflow(load, caps)[k] == load[ol[k]] - caps[oc[k]];
    }
  }

  ghost function RankIn(o: seq<nat>, p: nat): (k: nat)
    requires p in o
    ensures k < |o| && o[k] == p
  {
    var k :| 0 <= k < |o| && o[k] == p;
    k
  }

  /** The verdict is exact: `feasible` iff some placement of the parts fits every device, and
      `maxOver` is the least overflow any placement can have. */
  lemma FeasibilityExact(assignment: seq<int>, devices: nat, caps: seq<int>)
    requires |caps| == devices > 0
    ensures var r := Feasibility(assignment, devices, caps);
            && (r.feasible <==> exists place :: Permutation(place, devices) && Fits(r.load, caps, place, 0))
            && (exists place :: Permutation(place, devices) && Fits(r.load, caps, place, r.maxOver))
            && (forall place, slack :: Permutation(place, devices) && slack >= 0 && Fits(r.load, caps, place, slack) ==>
                  r.maxOver <= slack)
  {
    var r := Feasibility(assignment, devices, caps);
    var over := Overflow(r.load, caps);
    var best := SortedPlacement(r.load, caps, r.maxOver);
    forall place, slack | Permutation(place, devices) && slack >= 0 && Fits(r.load, caps, place, slack)
      ensures r.maxOver <= slack
    {
      var k :| 0 <= k < |over| && over[k] == Max(over);
      NoPlacementBeatsSorted(r.load, caps, place, slack, k);
    }
  }
}
