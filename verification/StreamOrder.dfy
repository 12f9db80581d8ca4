/** Two vectorised idioms of the streaming partitioner: expanding CSR ranges with one running sum,
    and listing vertices in order of first appearance. */
module StreamOrder {
  import opened Arrays

  // ---------------------------------------------------------------- expanding ranges

  /** `arange(start, start + len)`. */
  function Run(start: int, len: nat): (r: seq<int>)
    ensures |r| == len && forall i :: 0 <= i < len ==> r[i] == start + i
  {
    seq(len, i => start + i)
  }

  /** The ranges laid end to end. */
  function Expanded(starts: seq<int>, lens: seq<nat>): seq<int>
    requires |starts| == |lens|
  {
    if starts == [] then []
    else
      var n := |starts| - 1;
      Expanded(starts[..n], lens[..n]) + Run(starts[n], lens[n])
  }

  /** The entries whose length is not zero. */
  function NonZero<T>(xs: seq<T>, lens: seq<nat>): (r: seq<T>)
    requires |xs| == |lens|
  {
    if xs == [] then []
    else
      var n := |xs| - 1;
      if lens[n] > 0 then NonZero(xs[..n], lens[..n]) + [xs[n]] else NonZero(xs[..n], lens[..n])
  }

  lemma {:induction false} NonZeroLens(starts: seq<int>, lens: seq<nat>)
    requires |starts| == |lens|
    ensures |NonZero(starts, lens)| == |NonZero(lens, lens)|
    ensures forall i :: 0 <= i < |NonZero(lens, lens)| ==> NonZero(lens, lens)[i] > 0
    ensures Expanded(NonZero(starts, lens), NonZero(lens, lens)) == Expanded(starts, lens)
  {
    if starts != [] {
      var n := |starts| - 1;
      NonZeroLens(starts[..n], lens[..n]);
      var s, l := NonZero(starts[..n], lens[..n]), NonZero(lens[..n], lens[..n]);
      if lens[n] > 0 {
        ExpandedSnoc(s, l, starts[n], lens[n]);
      } else {
        assert Expanded(starts[..n], lens[..n]) + [] == Expanded(starts[..n], lens[..n]);
        assert Run(starts[n], lens[n]) == [];
      }
    }
  }

  lemma ExpandedSnoc(starts: seq<int>, lens: seq<nat>, s: int, l: nat)
    requires |starts| == |lens|
    ensures Expanded(starts + [s], lens + [l]) == Expanded(starts, lens) + Run(s, l)
  {
    assert (starts + [s])[..|starts|] == starts && (lens + [l])[..|lens|] == lens;
  }

  /** First entry, then the step to each next entry. */
  function Steps(e: seq<int>): (d: seq<int>)
    ensures |d| == |e| && forall p :: 0 <= p < |e| ==> d[p] == if p == 0 then e[0] else e[p] - e[p - 1]
  {
    seq(|e|, p requires 0 <= p < |e| => if p == 0 then e[0] else e[p] - e[p - 1])
  }

  lemma {:induction false} StepsSum(e: seq<int>, p: nat)
    requires p < |e|
    ensures Sum(Steps(e)[..p + 1]) == e[p]
  {
    var d := Steps(e);
    assert d[..p + 1][..p] == d[..p];
    if p == 0 {
      assert d[..0] == [];
    } else {
      StepsSum(e, p - 1);
    }
  }

  lemma LastOfRuns(starts: seq<int>, lens: seq<nat>)
    requires |starts| == |lens| > 0 && lens[|lens| - 1] > 0
    ensures var e := Expanded(starts, lens);
            |e| > 0 && e[|e| - 1] == starts[|starts| - 1] + lens[|lens| - 1] - 1
  {
  }

  /** Ones everywhere, and at the start of each range the jump from the end of the one before. */
  method WriteJumps(out: array<int>, starts: seq<int>, lens: seq<nat>)
    requires |starts| == |lens| > 0 && out.Length == |Expanded(starts, lens)|
    requires forall i :: 0 <= i < |lens| ==> lens[i] > 0
    requires forall p :: 0 <= p < out.Length ==> out[p] == 1
    modifies out
    ensures out[..] == Steps(Expanded(starts, lens))
  {
    ghost var e := Expanded(starts, lens);
    var at := 0;
    for k := 0 to |starts|
      invariant at == |Expanded(starts[..k], lens[..k])| <= out.Length
      invariant Expanded(starts[..k], lens[..k]) <= e
      invariant forall p :: 0 <= p < at ==> out[p] == Steps(e)[p]
      invariant forall p :: at <= p < out.Length ==> out[p] == 1
    {
      ghost var before := Expanded(starts[..k], lens[..k]);
      JumpStep(starts, lens, k);
      ghost var after := Expanded(starts[..k + 1], lens[..k + 1]);
      out[at] := if k == 0 then starts[0] else starts[k] - (starts[k - 1] + lens[k - 1]) + 1;
      at := at + lens[k];
      forall p | |before| <= p < at ensures out[p] == Steps(e)[p] {
        assert e[p] == after[p];
        assert p > 0 ==> e[p - 1] == after[p - 1];
      }
    }
    assert starts[..|starts|] == starts && lens[..|lens|] == lens;
  }

  /** What the next range adds. */
  lemma JumpStep(starts: seq<int>, lens: seq<nat>, k: nat)
    requires |starts| == |lens| && k < |starts| && forall i :: 0 <= i < |lens| ==> lens[i] > 0
    ensures var before, after := Expanded(starts[..k], lens[..k]), Expanded(starts[..k + 1], lens[..k + 1]);
            && after == before + Run(starts[k], lens[k])
            && |after| <= |Expanded(starts, lens)| && after <= Expanded(starts, lens)
            && (k > 0 ==> |before| > 0 && before[|before| - 1] == starts[k - 1] + lens[k - 1] - 1)
            && (k == 0 ==> before == [])
  {
    assert starts[..k + 1] == starts[..k] + [starts[k]] && lens[..k + 1] == lens[..k] + [lens[k]];
    ExpandedSnoc(starts[..k], lens[..k], starts[k], lens[k]);
    ExpandedPrefix(starts, lens, k + 1);
    if k > 0 {
      LastOfRuns(starts[..k], lens[..k]);
    }
  }

  lemma {:induction false} ExpandedPrefix(starts: seq<int>, lens: seq<nat>, k: nat)
    requires |starts| == |lens| && k <= |starts|
    ensures Expanded(starts[..k], lens[..k]) <= Expanded(starts, lens)
    decreases |starts| - k
  {
    if k < |starts| {
      ExpandedPrefix(starts, lens, k + 1);
      assert starts[..k + 1] == starts[..k] + [starts[k]] && lens[..k + 1] == lens[..k] + [lens[k]];
      ExpandedSnoc(starts[..k], lens[..k], starts[k], lens[k]);
    } else {
      assert starts[..k] == starts && lens[..k] == lens;
    }
  }

  /** All ranges in one running sum; empty ranges are dropped first. */
  method ExpandCsr(starts: seq<int>, lens: seq<nat>) returns (r: seq<int>)
    requires |starts| == |lens|
    ensures r == Expanded(starts, lens)
  {
    NonZeroLens(starts, lens);
    var s, l := NonZero(starts, lens), NonZero(lens, lens);
    ExpandedLength(s, l);
    var total := Sum(l);
    if total == 0 {
      return [];
    }
    var out := new int[total](_ => 1);
    WriteJumps(out, s, l);
    ghost var e := Expanded(s, l);
    CumSum(out);
    r := out[..];
    forall p | 0 <= p < |r| ensures r[p] == e[p] {
      StepsSum(e, p);
    }
  }

  lemma {:induction false} ExpandedLength(starts: seq<int>, lens: seq<nat>)
    requires |starts| == |lens|
    ensures |Expanded(starts, lens)| == Sum(lens)
  {
    if starts != [] {
      ExpandedLength(starts[..|starts| - 1], lens[..|lens| - 1]);
    }
  }

  // ---------------------------------------------------------------- first appearance

  /** Every value once, where it first appears. */
  function FirstSeen(xs: seq<nat>): (r: seq<nat>)
    ensures Distinct(r) && forall x :: x in r <==> x in xs
  {
    if xs == [] then []
    else
      var n := |xs| - 1;
      assert xs == xs[..n] + [xs[n]];
      var front := FirstSeen(xs[..n]);
      if xs[n] in xs[..n] then front else front + [xs[n]]
  }

  /** `unique(..., return_index=True)`: where a value first appears. */
  function FirstIndex(xs: seq<nat>, x: nat): (k: nat)
    requires x in xs
    ensures k < |xs| && xs[k] == x && x !in xs[..k]
  {
    var n := |xs| - 1;
    if x in xs[..n] then
      var k := FirstIndex(xs[..n], x);
      assert xs[..n][..k] == xs[..k];
      k
    else
      assert xs == xs[..n] + [xs[n]];
      n
  }

  /** The positions at which a value appears for the first time. */
  function FirstPlaces(xs: seq<nat>): (r: seq<nat>)
    ensures Increasing(r) && Below(r, |xs|)
  {
    if xs == [] then []
    else
      var n := |xs| - 1;
      if xs[n] in xs[..n] then FirstPlaces(xs[..n]) else FirstPlaces(xs[..n]) + [n]
  }

  lemma FirstPlacesSnoc(xs: seq<nat>, p: nat)
    ensures xs == [] ==> p !in FirstPlaces(xs)
    ensures xs != [] ==>
      var n := |xs| - 1;
      p in FirstPlaces(xs) <==> (p in FirstPlaces(xs[..n]) && p < n) || (p == n && xs[n] !in xs[..n])
  {
    if xs != [] {
      var front := FirstPlaces(xs[..|xs| - 1]);
      assert forall i :: 0 <= i < |front| ==> front[i] < |xs| - 1;
    }
  }

  lemma {:induction false} FirstPlacesAre(xs: seq<nat>, p: nat)
    ensures p in FirstPlaces(xs) <==> p < |xs| && xs[p] !in xs[..p]
  {
    hide *;
    FirstPlacesSnoc(xs, p);
    if xs != [] && p < |xs| - 1 {
      var n := |xs| - 1;
      FirstPlacesAre(xs[..n], p);
      assert xs[..n][..p] == xs[..p];
    }
  }

  lemma {:induction false} FirstPlacesSelect(xs: seq<nat>)
    ensures Select<nat>(xs, FirstPlaces(xs)) == FirstSeen(xs)
  {
    if xs != [] {
      var n := |xs| - 1;
      FirstPlacesSelect(xs[..n]);
      var front := FirstPlaces(xs[..n]);
      assert Select<nat>(xs, front) == Select<nat>(xs[..n], front);
      assert Select<nat>(xs, front + [n]) == Select<nat>(xs, front) + [xs[n]];
    }
  }

  function AsPositions(r: seq<int>, n: nat): (s: seq<nat>)
    requires forall i :: 0 <= i < |r| ==> 0 <= r[i] < n
    ensures s == r && Below(s, n)
  {
    r
  }

  /** `xs[sort(first_idx)]`. */
  method StreamInOrder(xs: seq<nat>) returns (stream: seq<nat>)
    ensures stream == FirstSeen(xs)
  {
    var ys: seq<int> := xs;
    var u := Unique(ys);
    var first: seq<int> := [];
    for i := 0 to |u|
      invariant |first| == i
      invariant forall j :: 0 <= j < i ==> u[j] in ys && u[j] >= 0 && first[j] == FirstIndex(xs, u[j])
    {
      assert u[i] in u && u[i] in ys;
      var p :| 0 <= p < |ys| && ys[p] == u[i];
      assert xs[p] in xs;
      first := first + [FirstIndex(xs, u[i])];
    }
    var sorted := Select<int>(first, Argsort(first));
    FirstIndexIncreasing(xs, u, first, sorted);
    FirstPlacesSelect(xs);
    stream := Select<nat>(xs, AsPositions(sorted, |xs|));
  }

  /** Sorting the first indices of the distinct values lists the first places in order. */
  lemma FirstIndexIncreasing(xs: seq<nat>, u: seq<int>, first: seq<int>, sorted: seq<int>)
    requires Increasing(u) && (forall y: int :: y in u <==> y in xs) && |first| == |u|
    requires forall j :: 0 <= j < |u| ==> u[j] >= 0 && u[j] in xs && first[j] == FirstIndex(xs, u[j])
    requires sorted == Select<int>(first, Argsort(first))
    ensures sorted == FirstPlaces(xs)
  {
    hide FirstIndex, FirstPlaces, Argsort;
    var o := Argsort(first);
    var places := FirstPlaces(xs);
    forall i, j | 0 <= i < j < |sorted| ensures sorted[i] < sorted[j] {
      assert Precedes(first, o[i], o[j]);
      OtherValue(xs, u, first, o[i], o[j]);
      SortedPositionsDiffer(first, i, j);
    }
    forall y: int ensures y in sorted <==> y in places {
      if y in sorted {
        var t :| 0 <= t < |sorted| && sorted[t] == y;
        FirstIndexIsPlace(xs, u[o[t]]);
      }
      if y in places {
        var p: nat := y;
        IsFirstIndex(xs, p);
        var j := ListedValue(xs, u, p);
        SortedHas(first, j);
      }
    }
    IncreasingUnique(sorted, places);
  }

  lemma OtherValue(xs: seq<nat>, u: seq<int>, first: seq<int>, i: nat, j: nat)
    requires Increasing(u) && |first| == |u| && i < |u| && j < |u|
    requires forall j :: 0 <= j < |u| ==> u[j] >= 0 && u[j] in xs && first[j] == FirstIndex(xs, u[j])
    ensures i != j ==> first[i] != first[j]
  {
    assert xs[first[i]] == u[i] && xs[first[j]] == u[j];
    if i < j {
      assert u[i] < u[j];
    } else if j < i {
      assert u[j] < u[i];
    }
  }

  lemma SortedPositionsDiffer(keys: seq<int>, i: nat, j: nat)
    requires i < j < |keys|
    ensures Argsort(keys)[i] != Argsort(keys)[j]
  {
    hide Argsort;
    assert Precedes(keys, Argsort(keys)[i], Argsort(keys)[j]);
  }

  lemma FirstIndexIsPlace(xs: seq<nat>, x: nat)
    requires x in xs
    ensures FirstIndex(xs, x) in FirstPlaces(xs)
  {
    hide FirstIndex, FirstPlaces;
    FirstPlacesAre(xs, FirstIndex(xs, x));
  }

  lemma InFront(xs: seq<nat>, i: nat, k: nat)
    requires i < |xs| && k <= |xs|
    ensures i < k ==> xs[i] in xs[..k]
  {
    if i < k {
      assert xs[..k][i] == xs[i];
    }
  }

  lemma IsFirstIndex(xs: seq<nat>, p: nat)
    requires p in FirstPlaces(xs)
    ensures p < |xs| && xs[p] in xs && FirstIndex(xs, xs[p]) == p
  {
    hide FirstIndex, FirstPlaces;
    FirstPlacesAre(xs, p);
    var k := FirstIndex(xs, xs[p]);
    InFront(xs, k, p);
    InFront(xs, p, k);
  }

  lemma ListedValue(xs: seq<nat>, u: seq<int>, p: nat) returns (j: nat)
    requires (forall y: int :: y in u <==> y in xs) && p < |xs|
    ensures j < |u| && u[j] == xs[p]
  {
    var y: int := xs[p];
    assert y in xs;
    j :| 0 <= j < |u| && u[j] == y;
  }

  lemma SortedHas(first: seq<int>, j: nat)
    requires j < |first|
    ensures first[j] in Select<int>(first, Argsort(first))
  {
    hide Argsort;
    var o := Argsort(first);
    assert j in o;
    var t :| 0 <= t < |o| && o[t] == j;
    assert Select<int>(first, o)[t] == first[j];
  }
}
