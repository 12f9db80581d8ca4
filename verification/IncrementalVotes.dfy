/** The neighbour histograms of the incremental partitioners: only the edges that touch the
    placement set are kept, oriented, sorted by owner and sliced, and the result is still each
    vertex's histogram over all of its incident edges. */
module IncrementalVotes {
  import opened Arrays

  /** The incident edge ends of `v` whose other end is on device `d`; a self-loop has two. */
  function Votes(device: seq<int>, src: seq<nat>, dst: seq<nat>, v: nat, d: int): nat
    requires |src| == |dst| && Below(src, |device|) && Below(dst, |device|)
  {
    if src == [] then 0
    else
      var n := |src| - 1;
      Votes(device, src[..n], dst[..n], v, d)
      + (if src[n] == v && device[dst[n]] == d then 1 else 0)
      + (if dst[n] == v && device[src[n]] == d then 1 else 0)
  }

  // ---------------------------------------------------------------- emitted pairs

  /** A placement vertex and the other end of one of its edges. */
  datatype Pair = Pair(owner: nat, other: nat)

  /** The pair an edge emits first: owned by its source when that is being placed. */
  function FirstPair(inPlace: seq<bool>, s: nat, t: nat): (r: seq<Pair>)
    requires s < |inPlace| && t < |inPlace|
    ensures PairsBelow(r, |inPlace|)
  {
    if inPlace[s] then [Pair(s, t)] else if inPlace[t] then [Pair(t, s)] else []
  }

  /** The reverse pair, emitted when both ends are being placed. */
  function SecondPair(inPlace: seq<bool>, s: nat, t: nat): (r: seq<Pair>)
    requires s < |inPlace| && t < |inPlace|
    ensures PairsBelow(r, |inPlace|)
  {
    if inPlace[s] && inPlace[t] then [Pair(t, s)] else []
  }

  function FirstPairs(inPlace: seq<bool>, src: seq<nat>, dst: seq<nat>): (r: seq<Pair>)
    requires |src| == |dst| && Below(src, |inPlace|) && Below(dst, |inPlace|)
    ensures PairsBelow(r, |inPlace|)
  {
    if src == [] then []
    else
      var n := |src| - 1;
      FirstPairs(inPlace, src[..n], dst[..n]) + FirstPair(inPlace, src[n], dst[n])
  }

  function SecondPairs(inPlace: seq<bool>, src: seq<nat>, dst: seq<nat>): (r: seq<Pair>)
    requires |src| == |dst| && Below(src, |inPlace|) && Below(dst, |inPlace|)
    ensures PairsBelow(r, |inPlace|)
  {
    if src == [] then []
    else
      var n := |src| - 1;
      SecondPairs(inPlace, src[..n], dst[..n]) + SecondPair(inPlace, src[n], dst[n])
  }

  function Emitted(inPlace: seq<bool>, src: seq<nat>, dst: seq<nat>): (r: seq<Pair>)
    requires |src| == |dst| && Below(src, |inPlace|) && Below(dst, |inPlace|)
    ensures PairsBelow(r, |inPlace|)
  {
    FirstPairs(inPlace, src, dst) + SecondPairs(inPlace, src, dst)
  }

  ghost predicate PairsBelow(ps: seq<Pair>, n: nat) {
    forall i :: 0 <= i < |ps| ==> ps[i].owner < n && ps[i].other < n
  }

  ghost function PairVotes(device: seq<int>, ps: seq<Pair>, v: nat, d: int): nat
    requires PairsBelow(ps, |device|)
  {
    if ps == [] then 0
    else
      var n := |ps| - 1;
      PairVotes(device, ps[..n], v, d) + if ps[n].owner == v && device[ps[n].other] == d then 1 else 0
  }

  lemma {:induction false} PairVotesConcat(device: seq<int>, a: seq<Pair>, b: seq<Pair>, v: nat, d: int)
    requires PairsBelow(a, |device|) && PairsBelow(b, |device|)
    ensures PairsBelow(a + b, |device|)
    ensures PairVotes(device, a + b, v, d) == PairVotes(device, a, v, d) + PairVotes(device, b, v, d)
  {
    if b == [] {
      assert a + b == a;
    } else {
      var n := |b| - 1;
      PairVotesConcat(device, a, b[..n], v, d);
      assert (a + b)[..|a + b| - 1] == a + b[..n];
    }
  }

  lemma EdgeVotes(device: seq<int>, inPlace: seq<bool>, s: nat, t: nat, v: nat, d: int)
    requires |device| == |inPlace| && s < |device| && t < |device| && v < |device| && inPlace[v]
    ensures PairVotes(device, FirstPair(inPlace, s, t), v, d) + PairVotes(device, SecondPair(inPlace, s, t), v, d)
         == (if s == v && device[t] == d then 1 else 0) + (if t == v && device[s] == d then 1 else 0)
  {
  }

  /** No incident edge of a placement vertex is lost or counted twice. */
  lemma {:induction false} EmittedVotes(device: seq<int>, inPlace: seq<bool>, src: seq<nat>, dst: seq<nat>, v: nat,
                                        d: int)
    requires |device| == |inPlace| && |src| == |dst| && Below(src, |device|) && Below(dst, |device|)
    requires v < |device| && inPlace[v]
    ensures PairVotes(device, FirstPairs(inPlace, src, dst), v, d)
            + PairVotes(device, SecondPairs(inPlace, src, dst), v, d)
         == Votes(device, src, dst, v, d)
  {
    if src != [] {
      var n := |src| - 1;
      EmittedVotes(device, inPlace, src[..n], dst[..n], v, d);
      EdgeVotes(device, inPlace, src[n], dst[n], v, d);
      hide PairVotes, FirstPair, SecondPair;
      PairVotesConcat(device, FirstPairs(inPlace, src[..n], dst[..n]), FirstPair(inPlace, src[n], dst[n]), v, d);
      PairVotesConcat(device, SecondPairs(inPlace, src[..n], dst[..n]), SecondPair(inPlace, src[n], dst[n]), v, d);
    } else {
      assert PairVotes(device, [], v, d) == 0;
    }
  }

  // ---------------------------------------------------------------- sort, search, slice

  function Owners(ps: seq<Pair>): (r: seq<nat>)
    ensures |r| == |ps| && forall i :: 0 <= i < |r| ==> r[i] == ps[i].owner
  {
    seq(|ps|, i requires 0 <= i < |ps| => ps[i].owner)
  }

  function Others(ps: seq<Pair>): (r: seq<nat>)
    ensures |r| == |ps| && forall i :: 0 <= i < |r| ==> r[i] == ps[i].other
  {
    seq(|ps|, i requires 0 <= i < |ps| => ps[i].other)
  }

  lemma SortedKeysAscend(keys: seq<int>)
    ensures Ascending(Select<int>(keys, Argsort(keys)))
  {
    var o := Argsort(keys);
    forall i, j | 0 <= i < j < |o| ensures keys[o[i]] <= keys[o[j]] {
      assert Precedes(keys, o[i], o[j]);
    }
  }

  /** The slice of the sorted partners that belongs to owner `v`. */
  function Neighbours(ps: seq<Pair>, v: nat): seq<nat> {
    var owners: seq<int> := Owners(ps);
    var so := Argsort(owners);
    var sorted := Select<int>(owners, so);
    SortedKeysAscend(owners);
    SearchOrdered(sorted, v);
    Select<nat>(Others(ps), so)[SearchLeft(sorted, v)..SearchRight(sorted, v)]
  }

  /** Sorting and slicing returns exactly the partners of `v`, in emission order. */
  lemma NeighboursAreIndices(ps: seq<Pair>, n: nat, v: nat)
    requires PairsBelow(ps, n) && v < n
    ensures Neighbours(ps, v) == Select<nat>(Others(ps), Indices(Owners(ps), v))
  {
    var owners: seq<int> := Owners(ps);
    var so := Argsort(owners);
    var sorted := Select<int>(owners, so);
    SortedKeysAscend(owners);
    var lo, hi := Offset<nat>(Buckets(owners, n), v), Offset<nat>(Buckets(owners, n), v + 1);
    ArgsortRow(owners, n, v);
    SearchBounds(sorted, owners, n, v, lo, hi);
    var left, right := SearchLeft(sorted, v), SearchRight(sorted, v);
    assert so[left..right] == Indices(owners, v);
    SliceSelect<nat>(Others(ps), so, left, right, Indices(owners, v));
  }

  lemma SearchBounds(sorted: seq<int>, owners: seq<int>, n: nat, v: nat, lo: nat, hi: nat)
    requires forall i :: 0 <= i < |owners| ==> 0 <= owners[i] < n
    requires v < n && sorted == Select<int>(owners, Argsort(owners)) && Ascending(sorted)
    requires lo == Offset<nat>(Buckets(owners, n), v) && hi == lo + Count(owners, v) <= |owners|
    ensures SearchLeft(sorted, v) <= SearchRight(sorted, v)
    ensures lo < hi ==> SearchLeft(sorted, v) == lo && SearchRight(sorted, v) == hi
    ensures lo == hi ==> SearchLeft(sorted, v) == SearchRight(sorted, v)
  {
    forall p | 0 <= p < |sorted| ensures sorted[p] == v <==> lo <= p < hi {
      SortedPlace(owners, n, v, p);
    }
    SearchInterval(sorted, v, lo, hi);
  }

  lemma SearchInterval(sorted: seq<int>, v: int, lo: nat, hi: nat)
    requires Ascending(sorted) && lo <= hi <= |sorted|
    requires forall p :: 0 <= p < |sorted| ==> (sorted[p] == v <==> lo <= p < hi)
    ensures SearchLeft(sorted, v) <= SearchRight(sorted, v)
    ensures lo < hi ==> SearchLeft(sorted, v) == lo && SearchRight(sorted, v) == hi
    ensures lo == hi ==> SearchLeft(sorted, v) == SearchRight(sorted, v)
  {
    if lo < hi {
      assert sorted[lo] == v && sorted[hi - 1] == v;
      SearchIs(sorted, v, lo);
      SearchIs(sorted, v + 1, hi);
    } else {
      SearchIs(sorted, v + 1, SearchLeft(sorted, v));
    }
  }

  // ---------------------------------------------------------------- the refinement

  /** `bincount` over the devices of the sliced partners. */
  lemma {:induction false} SlicedVotes(device: seq<int>, ps: seq<Pair>, v: nat, d: int)
    requires PairsBelow(ps, |device|)
    ensures Count(Partners(device, ps, v), d) == PairVotes(device, ps, v, d)
  {
    hide Partners, Count, Indices;
    if ps == [] {
      NoPartners(device, ps, v, d);
    } else {
      var n := |ps| - 1;
      var rest, last := ps[..n], ps[n];
      SlicedVotes(device, rest, v, d);
      PartnersSnoc(device, ps, v);
      var row := Partners(device, rest, v);
      if last.owner == v {
        CountSnoc(row, device[last.other], d);
      } else {
        assert row + [] == row;
      }
    }
  }

  /** The devices of the partners of `v`. */
  ghost function Partners(device: seq<int>, ps: seq<Pair>, v: nat): seq<int>
    requires PairsBelow(ps, |device|)
  {
    Select<int>(device, Select<nat>(Others(ps), Indices(Owners(ps), v)))
  }

  lemma NoPartners(device: seq<int>, ps: seq<Pair>, v: nat, d: int)
    requires ps == []
    ensures PairsBelow(ps, |device|) && Count(Partners(device, ps, v), d) == 0
  {
    assert Partners(device, ps, v) == [];
  }

  lemma PartnersSnoc(device: seq<int>, ps: seq<Pair>, v: nat)
    requires ps != [] && PairsBelow(ps, |device|)
    ensures Partners(device, ps, v)
         == Partners(device, ps[..|ps| - 1], v) + if ps[|ps| - 1].owner == v then [device[ps[|ps| - 1].other]] else []
  {
    assert Owners(ps)[..|ps| - 1] == Owners(ps[..|ps| - 1]);
  }

  /** The histogram read from the sliced pairs is the vertex's histogram over all its edges. */
  lemma SliceRefinesVotes(device: seq<int>, inPlace: seq<bool>, src: seq<nat>, dst: seq<nat>, v: nat, d: int)
    requires |device| == |inPlace| && |src| == |dst| && Below(src, |device|) && Below(dst, |device|)
    requires v < |device| && inPlace[v]
    ensures Below(Neighbours(Emitted(inPlace, src, dst), v), |device|)
    ensures Count(Select<int>(device, Neighbours(Emitted(inPlace, src, dst), v)), d) == Votes(device, src, dst, v, d)
  {
    var ps := Emitted(inPlace, src, dst);
    NeighboursAreIndices(ps, |device|, v);
    SlicedVotes(device, ps, v, d);
    PairVotesConcat(device, FirstPairs(inPlace, src, dst), SecondPairs(inPlace, src, dst), v, d);
    EmittedVotes(device, inPlace, src, dst, v, d);
  }
}
