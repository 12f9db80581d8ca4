/** Weighted histograms: what the devices of an assignment carry. */
module WeightedLoads {
  import opened Arrays

  // ---------------------------------------------------------------- loads

  /** `bincount(bins, weights=w)[k]`; a negative bin means "not placed". */
  function Load(w: seq<real>, bins: seq<int>, k: int): real
    requires |w| == |bins|
  {
    if w == [] then 0.0
    else
      var n := |w| - 1;
      Load(w[..n], bins[..n], k) + if bins[n] == k then w[n] else 0.0
  }

  function Total(w: seq<real>): real {
    if w == [] then 0.0 else Total(w[..|w| - 1]) + w[|w| - 1]
  }

  ghost predicate NonNegative(w: seq<real>) {
    forall i :: 0 <= i < |w| ==> w[i] >= 0.0
  }

  lemma LoadSnoc(w: seq<real>, bins: seq<int>, x: real, b: int, k: int)
    requires |w| == |bins|
    ensures Load(w + [x], bins + [b], k) == Load(w, bins, k) + if b == k then x else 0.0
  {
    assert (w + [x])[..|w|] == w && (bins + [b])[..|w|] == bins;
  }

  /** Moving one item between bins moves its weight. */
  lemma {:induction false} LoadMove(w: seq<real>, bins: seq<int>, i: nat, b: int, k: int)
    requires |w| == |bins| && i < |w|
    ensures Load(w, bins[i := b], k) ==
            Load(w, bins, k) - (if bins[i] == k then w[i] else 0.0) + (if b == k then w[i] else 0.0)
  {
    var n := |w| - 1;
    if i == n {
      assert bins[i := b][..n] == bins[..n];
    } else {
      LoadMove(w[..n], bins[..n], i, b, k);
      assert bins[i := b][..n] == bins[..n][i := b];
    }
  }

  /** Adding weight to one item adds it to that item's bin. */
  lemma {:induction false} LoadReweigh(w: seq<real>, bins: seq<int>, i: nat, x: real, k: int)
    requires |w| == |bins| && i < |w|
    ensures Load(w[i := x], bins, k) == Load(w, bins, k) + if bins[i] == k then x - w[i] else 0.0
  {
    var n := |w| - 1;
    if i == n {
      assert w[i := x][..n] == w[..n];
    } else {
      LoadReweigh(w[..n], bins[..n], i, x, k);
      assert w[i := x][..n] == w[..n][i := x];
    }
  }

  lemma {:induction false} LoadNonNegative(w: seq<real>, bins: seq<int>, k: int)
    requires |w| == |bins| && NonNegative(w)
    ensures Load(w, bins, k) >= 0.0
  {
    if w != [] {
      LoadNonNegative(w[..|w| - 1], bins[..|w| - 1], k);
    }
  }

  lemma {:induction false} LoadPrefix(w: seq<real>, bins: seq<int>, n: nat, k: int)
    requires |w| == |bins| && NonNegative(w) && n <= |w|
    ensures Load(w[..n], bins[..n], k) <= Load(w, bins, k)
    decreases |w| - n
  {
    if n < |w| {
      LoadPrefix(w, bins, n + 1, k);
      assert w[..n + 1][..n] == w[..n] && bins[..n + 1][..n] == bins[..n];
    } else {
      assert w[..n] == w && bins[..n] == bins;
    }
  }

  /** A bin weighs at least any one, two or three of its items. */
  lemma LoadOne(w: seq<real>, bins: seq<int>, k: int, i: nat)
    requires |w| == |bins| && NonNegative(w) && i < |w| && bins[i] == k
    ensures Load(w, bins, k) >= w[i]
  {
    LoadPrefix(w, bins, i + 1, k);
    assert w[..i + 1][..i] == w[..i] && bins[..i + 1][..i] == bins[..i];
    LoadNonNegative(w[..i], bins[..i], k);
  }

  lemma LoadTwo(w: seq<real>, bins: seq<int>, k: int, i: nat, j: nat)
    requires |w| == |bins| && NonNegative(w) && i < j < |w| && bins[i] == bins[j] == k
    ensures Load(w, bins, k) >= w[i] + w[j]
  {
    LoadPrefix(w, bins, j + 1, k);
    assert w[..j + 1][..j] == w[..j] && bins[..j + 1][..j] == bins[..j];
    LoadOne(w[..j], bins[..j], k, i);
  }

  lemma LoadThree(w: seq<real>, bins: seq<int>, k: int, i: nat, j: nat, l: nat)
    requires |w| == |bins| && NonNegative(w) && i < j < l < |w| && bins[i] == bins[j] == bins[l] == k
    ensures Load(w, bins, k) >= w[i] + w[j] + w[l]
  {
    LoadPrefix(w, bins, l + 1, k);
    assert w[..l + 1][..l] == w[..l] && bins[..l + 1][..l] == bins[..l];
    LoadTwo(w[..l], bins[..l], k, i, j);
  }

  lemma {:induction false} LoadEmpty(w: seq<real>, bins: seq<int>, k: int)
    requires |w| == |bins| && Count(bins, k) == 0
    ensures Load(w, bins, k) == 0.0
  {
    if w != [] {
      var n := |w| - 1;
      CountSnoc(bins[..n], bins[n], k);
      assert bins == bins[..n] + [bins[n]];
      LoadEmpty(w[..n], bins[..n], k);
    }
  }

  /** A bin with one item weighs what that item weighs. */
  lemma {:induction false} LoadSingle(w: seq<real>, bins: seq<int>, k: int)
    requires |w| == |bins| && Count(bins, k) == 1
    ensures Load(w, bins, k) == w[Indices(bins, k)[0]]
  {
    var n := |w| - 1;
    var front := bins[..n];
    assert bins == front + [bins[n]];
    CountSnoc(front, bins[n], k);
    if bins[n] == k {
      LoadEmpty(w[..n], front, k);
    } else {
      LoadSingle(w[..n], front, k);
      assert Indices(bins, k) == Indices(front, k);
    }
  }

  // ---------------------------------------------------------------- averages

  /** The loads of the bins `0 .. d-1` added up. */
  function LoadSum(w: seq<real>, bins: seq<int>, d: nat): real
    requires |w| == |bins|
  {
    if d == 0 then 0.0 else LoadSum(w, bins, d - 1) + Load(w, bins, d - 1)
  }

  lemma {:induction false} LoadSumSnoc(w: seq<real>, bins: seq<int>, x: real, b: int, d: nat)
    requires |w| == |bins|
    ensures LoadSum(w + [x], bins + [b], d) == LoadSum(w, bins, d) + if 0 <= b < d then x else 0.0
  {
    if d > 0 {
      LoadSumSnoc(w, bins, x, b, d - 1);
      LoadSnoc(w, bins, x, b, d - 1);
    }
  }

  lemma {:induction false} LoadSumEmpty(d: nat)
    ensures LoadSum([], [], d) == 0.0
  {
    if d > 0 {
      LoadSumEmpty(d - 1);
    }
  }

  /** Packing conserves weight. */
  lemma {:induction false} LoadSumIsTotal(w: seq<real>, bins: seq<int>, d: nat)
    requires |w| == |bins| && forall i :: 0 <= i < |bins| ==> 0 <= bins[i] < d
    ensures LoadSum(w, bins, d) == Total(w)
  {
    if w == [] {
      LoadSumEmpty(d);
    } else {
      var n := |w| - 1;
      LoadSumIsTotal(w[..n], bins[..n], d);
      LoadSumSnoc(w[..n], bins[..n], w[n], bins[n], d);
      assert w == w[..n] + [w[n]] && bins == bins[..n] + [bins[n]];
    }
  }

  // ---------------------------------------------------------------- reordering

  lemma {:induction false} Unplaced(w: seq<real>, bins: seq<int>)
    requires |w| == |bins| && forall i :: 0 <= i < |bins| ==> bins[i] == -1
    ensures forall k: nat :: Load(w, bins, k) == 0.0
  {
    if w != [] {
      Unplaced(w[..|w| - 1], bins[..|w| - 1]);
    }
  }

  /** The assignment restricted to the items in `done`. */
  function Masked(bins: seq<int>, done: seq<nat>): (r: seq<int>)
    ensures |r| == |bins|
    ensures forall c :: 0 <= c < |bins| ==> r[c] == if c in done then bins[c] else -1
  {
    seq(|bins|, c requires 0 <= c < |bins| => if c in done then bins[c] else -1)
  }

  lemma SelectStep<T>(xs: seq<T>, order: seq<nat>, n: nat)
    requires Below(order, |xs|) && 0 < n <= |order|
    ensures Select<T>(xs, order)[..n] == Select<T>(xs, order)[..n - 1] + [xs[order[n - 1]]]
  {
  }

  lemma MaskedSnoc(bins: seq<int>, done: seq<nat>, c: nat)
    requires c < |bins|
    ensures Masked(bins, done + [c]) == Masked(bins, done)[c := bins[c]]
  {
  }

  /** Loads do not depend on the order in which the items are listed. */
  lemma {:induction false} LoadReordered(w: seq<real>, bins: seq<int>, order: seq<nat>, n: nat, k: nat)
    requires |w| == |bins| && Below(order, |w|) && Distinct(order) && n <= |order|
    ensures Load(Select<real>(w, order)[..n], Select<int>(bins, order)[..n], k) == Load(w, Masked(bins, order[..n]), k)
  {
    if n == 0 {
      Unplaced(w, Masked(bins, order[..0]));
    } else {
      var c := order[n - 1];
      var sw, sb := Select<real>(w, order), Select<int>(bins, order);
      LoadReordered(w, bins, order, n - 1, k);
      var before := Masked(bins, order[..n - 1]);
      MaskedSnoc(bins, order[..n - 1], c);
      assert order[..n] == order[..n - 1] + [c];
      LoadMove(w, before, c, bins[c], k);
      SelectStep<real>(w, order, n);
      SelectStep<int>(bins, order, n);
      LoadSnoc(sw[..n - 1], sb[..n - 1], w[c], bins[c], k);
    }
  }

  lemma {:induction false} NoWeight(w: seq<real>, bins: seq<int>, k: int)
    requires |w| == |bins| && forall i :: 0 <= i < |w| ==> w[i] == 0.0
    ensures Load(w, bins, k) == 0.0
  {
    if w != [] {
      NoWeight(w[..|w| - 1], bins[..|w| - 1], k);
    }
  }

  // ---------------------------------------------------------------- running weights

  /** `cumsum(w)`. */
  function Cumulative(w: seq<real>): (r: seq<real>)
    ensures |r| == |w| && forall i :: 0 <= i < |r| ==> r[i] == Total(w[..i + 1])
  {
    seq(|w|, i requires 0 <= i < |w| => Total(w[..i + 1]))
  }

  ghost predicate AscendingReals(xs: seq<real>) {
    forall i, j :: 0 <= i <= j < |xs| ==> xs[i] <= xs[j]
  }

  /** `searchsorted(xs, x, side="left")`. */
  function SearchReal(xs: seq<real>, x: real): (k: nat)
    requires AscendingReals(xs)
    ensures k <= |xs| && forall i :: 0 <= i < |xs| ==> (xs[i] < x <==> i < k)
  {
    if xs == [] then 0
    else if xs[|xs| - 1] < x then |xs|
    else SearchReal(xs[..|xs| - 1], x)
  }

  lemma PrefixStep(w: seq<real>, i: nat)
    requires i < |w|
    ensures Total(w[..i + 1]) == Total(w[..i]) + w[i]
  {
    assert w[..i + 1][..i] == w[..i];
  }

  lemma {:induction false} PrefixMonotone(w: seq<real>, i: nat, j: nat)
    requires NonNegative(w) && i <= j <= |w|
    ensures Total(w[..i]) <= Total(w[..j])
    decreases j - i
  {
    if i < j {
      PrefixMonotone(w, i, j - 1);
      PrefixStep(w, j - 1);
    }
  }

  lemma CumulativeAscends(w: seq<real>)
    requires NonNegative(w)
    ensures AscendingReals(Cumulative(w))
  {
    forall i, j | 0 <= i <= j < |w| ensures Cumulative(w)[i] <= Cumulative(w)[j] {
      PrefixMonotone(w, i + 1, j + 1);
    }
  }

  /** The largest weight. */
  function Heaviest(w: seq<real>): (m: real)
    ensures forall i :: 0 <= i < |w| ==> w[i] <= m
    ensures m >= 0.0
  {
    if w == [] then 0.0
    else
      var rest := Heaviest(w[..|w| - 1]);
      if w[|w| - 1] > rest then w[|w| - 1] else rest
  }
}
