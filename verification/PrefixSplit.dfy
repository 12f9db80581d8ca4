/** Cutting an ordered list of weighted vertices into contiguous pieces, one per device, in
    proportion to the devices' bandwidth or capacity. */
module PrefixSplit {
  import opened Arrays
  import opened RankBlocks
  import opened WeightedLoads

  // ---------------------------------------------------------------- good cuts

  /** The weight the first `k` pieces should carry. */
  ghost function Goal(targets: seq<real>, k: nat): real
    requires k <= |targets|
  {
    Total(targets[..k])
  }

  ghost predicate Bounds(b: seq<nat>, d: nat, n: nat) {
    && |b| == d + 1 && b[0] == 0 && b[d] == n
    && forall i, j :: 0 <= i <= j <= d ==> b[i] <= b[j]
  }

  /** Cut `k` is not more than one vertex short of its goal. */
  ghost predicate NotShort(w: seq<real>, targets: seq<real>, cut: nat, k: nat)
    requires cut <= |w| && k <= |targets|
  {
    Total(w[..cut]) + Heaviest(w) >= Goal(targets, k)
  }

  /** Cut `k + 1` does not pass its goal, unless it follows cut `k` at once. */
  ghost predicate NotOver(w: seq<real>, targets: seq<real>, lo: nat, hi: nat, k: nat)
    requires hi <= |w| && k < |targets|
  {
    hi <= lo + 1 || Total(w[..hi]) <= Goal(targets, k + 1)
  }

  ghost predicate GoodCuts(b: seq<nat>, w: seq<real>, targets: seq<real>) {
    && Bounds(b, |targets|, |w|)
    && (forall k :: 0 <= k < |b| ==> b[k] <= |w|)
    && (forall k :: 0 <= k < |targets| ==> NotShort(w, targets, b[k], k))
    && forall k :: 0 <= k < |targets| ==> NotOver(w, targets, b[k], b[k + 1], k)
  }

  /** A piece carries at most its target and one vertex more. */
  lemma PieceBound(b: seq<nat>, w: seq<real>, targets: seq<real>, k: nat)
    requires NonNegative(w) && NonNegative(targets) && GoodCuts(b, w, targets) && k < |targets|
    ensures Total(w[..b[k + 1]]) - Total(w[..b[k]]) <= targets[k] + Heaviest(w)
  {
    assert b[k] <= b[k + 1];
    assert NotShort(w, targets, b[k], k) && NotOver(w, targets, b[k], b[k + 1], k);
    PrefixStep(targets, k);
    if b[k + 1] == b[k] + 1 {
      PrefixStep(w, b[k]);
    }
  }

  // ---------------------------------------------------------------- pieces as an assignment

  /** `searchsorted(bounds, r, side="right") - 1`: the piece that holds rank `r`. */
  function PieceOf(b: seq<nat>, d: nat, r: nat): (k: nat)
    requires d > 0 && |b| == d + 1 && b[0] <= r < b[d]
    requires forall i, j :: 0 <= i <= j <= d ==> b[i] <= b[j]
    ensures k < d && b[k] <= r < b[k + 1]
  {
    if b[d - 1] <= r then d - 1
    else PieceOf(b[..d], d - 1, r)
  }

  /** `seg` names, for every rank, the piece it falls in. */
  ghost predicate InPieces(seg: seq<int>, b: seq<nat>, d: nat, n: nat) {
    && |seg| == n && |b| == d + 1
    && forall r :: 0 <= r < n ==> 0 <= seg[r] < d && b[seg[r]] <= r < b[seg[r] + 1]
  }

  function Pieces(b: seq<nat>, d: nat, n: nat): (seg: seq<int>)
    requires Bounds(b, d, n) && (d > 0 || n == 0)
    ensures |seg| == n && InPieces(seg, b, d, n)
  {
    seq(n, r requires 0 <= r < n => PieceOf(b, d, r))
  }

  lemma PieceTest(seg: seq<int>, b: seq<nat>, d: nat, n: nat, r: nat, k: nat)
    requires Bounds(b, d, n) && InPieces(seg, b, d, n) && k < d && r < n
    ensures |seg| == n && |b| == d + 1 && (seg[r] == k <==> b[k] <= r < b[k + 1])
  {
    var j := seg[r];
    if j < k {
      assert b[j + 1] <= b[k];
    } else if k < j {
      assert b[k + 1] <= b[j];
    }
  }

  lemma BoundsAt(b: seq<nat>, d: nat, n: nat, k: nat)
    requires Bounds(b, d, n) && k < d
    ensures |b| == d + 1 && b[k] <= b[k + 1] <= n
  {
  }

  function Clamped(lo: nat, x: nat, hi: nat): nat
  {
    if x < lo then lo else if x > hi then hi else x
  }

  /** The weight of a piece is the difference of the running weights at its ends. */
  lemma {:induction false} PieceLoad(w: seq<real>, seg: seq<int>, b: seq<nat>, d: nat, k: nat, m: nat)
    requires Bounds(b, d, |w|) && InPieces(seg, b, d, |w|) && k < d && m <= |w| == |seg|
    ensures |b| == d + 1 && b[k] <= b[k + 1] <= |w|
    ensures Load(w[..m], seg[..m], k) == Total(w[..Clamped(b[k], m, b[k + 1])]) - Total(w[..b[k]])
  {
    hide Load, Total, Bounds, InPieces;
    BoundsAt(b, d, |w|, k);
    if m > 0 {
      PieceLoad(w, seg, b, d, k, m - 1);
      PieceTest(seg, b, d, |w|, m - 1, k);
      LoadStep(w, seg, k, m);
      if b[k] <= m - 1 < b[k + 1] {
        PrefixStep(w, m - 1);
      }
    } else {
      NoLoad(w[..m], seg[..m], k);
    }
  }

  lemma NoLoad(w: seq<real>, seg: seq<int>, k: int)
    requires |w| == |seg| == 0
    ensures Load(w, seg, k) == 0.0
  {
  }

  lemma LoadStep(w: seq<real>, seg: seq<int>, k: int, m: nat)
    requires 0 < m <= |w| == |seg|
    ensures Load(w[..m], seg[..m], k) == Load(w[..m - 1], seg[..m - 1], k) + if seg[m - 1] == k then w[m - 1] else 0.0
  {
    assert w[..m][..m - 1] == w[..m - 1] && seg[..m][..m - 1] == seg[..m - 1];
  }

  /** Listing the vertices by rank does not change a load. */
  lemma SameLoad(w: seq<real>, seg: seq<int>, rank: seq<nat>, k: nat)
    requires Permutation(rank, |w|) && |seg| == |w|
    ensures Load(Select<real>(w, rank), Select<int>(seg, rank), k) == Load(w, seg, k)
  {
    var n := |w|;
    LoadReordered(w, seg, rank, n, k);
    SurjectiveByCount(rank);
    hide Load;
    assert rank[..n] == rank && Masked(seg, rank) == seg;
    assert Select<real>(w, rank)[..n] == Select<real>(w, rank) && Select<int>(seg, rank)[..n] == Select<int>(seg, rank);
  }

  /** The load of a device, counted over vertices, is the weight of its piece of the order. */
  lemma LoadIsPiece(weight: seq<real>, w: seq<real>, rank: seq<nat>, b: seq<nat>, d: nat, k: nat)
    requires d > 0 && Permutation(rank, |w|) && weight == Select<real>(w, rank) && Bounds(b, d, |w|) && k < d
    ensures b[k] <= b[k + 1] <= |w|
    ensures Load(weight, Select<int>(Pieces(b, d, |w|), rank), k) == Total(w[..b[k + 1]]) - Total(w[..b[k]])
  {
    hide *;
    var n := |w|;
    var seg := Pieces(b, d, n);
    PieceLoad(w, seg, b, d, k, n);
    ClampedTop(b[k], n, b[k + 1]);
    assert w[..n] == w && seg[..n] == seg;
    SameLoad(w, seg, rank, k);
    RankOk(rank, n);
  }

  lemma ClampedTop(lo: nat, m: nat, hi: nat)
    requires lo <= hi <= m
    ensures Clamped(lo, m, hi) == hi
  {
  }

  lemma RankOk(rank: seq<nat>, n: nat)
    requires Permutation(rank, n)
    ensures |rank| == n && forall v :: 0 <= v < n ==> rank[v] < n
  {
  }

  // ---------------------------------------------------------------- proportional targets

  /** `share * total`, one target per device. */
  function Targets(power: seq<real>, total: real): (r: seq<real>)
    requires Total(power) > 0.0
    ensures |r| == |power|
  {
    seq(|power|, k requires 0 <= k < |power| => power[k] / Total(power) * total)
  }

  /** The work a device of power `p` does in time `t`. */
  function Work(t: real, p: real): real {
    t * p
  }

  lemma {:induction false} Scaled(xs: seq<real>, ys: seq<real>, c: real)
    requires |xs| == |ys| && forall k :: 0 <= k < |xs| ==> ys[k] == xs[k] * c
    ensures Total(ys) == Total(xs) * c
  {
    if xs != [] {
      var n := |xs| - 1;
      Scaled(xs[..n], ys[..n], c);
      Distribute(Total(xs[..n]), xs[n], c);
    }
  }

  lemma Distribute(a: real, b: real, c: real)
    ensures (a + b) * c == a * c + b * c
  {
  }

  lemma Reassociate(p: real, s: real, t: real)
    requires s > 0.0
    ensures p / s * t == p * (t / s)
  {
    var q := p / s;
    assert p == q * s;
    assert q * t == q * s * (t / s);
  }

  lemma FractionNonNegative(p: real, s: real, t: real)
    requires p >= 0.0 && s > 0.0 && t >= 0.0
    ensures p / s * t >= 0.0
  {
    Reassociate(p, s, t);
    assert t / s >= 0.0;
  }

  /** The targets are nonnegative and add up to the whole. */
  lemma TargetsAddUp(power: seq<real>, total: real)
    requires Total(power) > 0.0 && NonNegative(power) && total >= 0.0
    ensures NonNegative(Targets(power, total)) && Total(Targets(power, total)) == total
  {
    var t, s := Targets(power, total), Total(power);
    forall k | 0 <= k < |power| ensures t[k] == power[k] * (total / s) && t[k] >= 0.0 {
      Reassociate(power[k], s, total);
      FractionNonNegative(power[k], s, total);
    }
    Scaled(power, t, total / s);
    assert s * (total / s) == total;
  }

  // ---------------------------------------------------------------- cuts by search

  /** A searched cut is not short of its goal, and passes it only if nothing comes before it. */
  lemma SearchedCut(w: seq<real>, x: real)
    requires NonNegative(w) && AscendingReals(Cumulative(w)) && 0.0 <= x <= Total(w)
    ensures var j := SearchReal(Cumulative(w), x);
            Total(w[..j]) <= x <= Total(w[..j]) + Heaviest(w)
  {
    var cum := Cumulative(w);
    var j := SearchReal(cum, x);
    if j < |w| {
      PrefixStep(w, j);
      assert !(cum[j] < x);
    } else {
      assert w[..j] == w;
    }
    if j > 0 {
      assert cum[j - 1] < x;
    }
  }

  lemma GoalWithin(targets: seq<real>, k: nat)
    requires NonNegative(targets) && k <= |targets|
    ensures 0.0 <= Goal(targets, k) <= Total(targets)
  {
    PrefixMonotone(targets, 0, k);
    PrefixMonotone(targets, k, |targets|);
    assert targets[..|targets|] == targets;
  }

  // ---------------------------------------------------------------- bandwidth-matched bounds

  /** What the first bounds achieve: they rise, and no cut, once clipped to the number of
      vertices, is short of its goal or, save for the one vertex every device gets, past it. */
  ghost predicate BalancedCuts(raw: seq<nat>, w: seq<real>, targets: seq<real>)
    requires 0 < |raw| <= |targets| + 1
  {
    && (forall k :: 0 < k < |raw| ==> raw[k - 1] < raw[k])
    && (forall k :: 0 <= k < |raw| ==> NotShort(w, targets, Smaller(raw[k], |w|), k))
    && forall k :: 0 < k < |raw| ==> NotOver(w, targets, Smaller(raw[k - 1], |w|), Smaller(raw[k], |w|), k - 1)
  }

  /** Equal-time boundaries over the density order: accumulate the targets, search the running
      degrees, keep at least one vertex per device. */
  method SolveBalancedBounds(cum: seq<real>, bw: seq<real>, ghost w: seq<real>) returns (raw: seq<nat>)
    requires NonNegative(w) && w != [] && cum == Cumulative(w) && AscendingReals(cum)
    requires bw != [] && NonNegative(bw) && Total(bw) > 0.0
    ensures |raw| == |bw| + 1 && raw[0] == 0 && raw[|bw|] == |w|
    ensures BalancedCuts(raw[..|bw|], w, Targets(bw, Total(w)))
  {
    hide Targets, Total, Heaviest, NotShort, NotOver, BalancedCuts;
    var total := cum[|cum| - 1];
    assert w[..|w|] == w;
    TotalNonNegative(w);
    TargetsAddUp(bw, total);
    var target := Targets(bw, total);
    raw := [0];
    var acc := 0.0;
    FirstCut(w, target);
    OneCut(w, target);
    for k := 0 to |bw| - 1
      invariant |raw| == k + 1 && raw[0] == 0 && BalancedCuts(raw, w, target) && acc == Goal(target, k)
    {
      acc := acc + target[k];
      PrefixStep(target, k);
      var nb := Larger(raw[|raw| - 1] + 1, Smaller(SearchReal(cum, acc), |cum|));
      NextCut(w, target, raw[k], nb, k);
      AppendCut(raw, w, target, nb);
      raw := raw + [nb];
    }
    raw := raw + [|cum|];
    assert raw[..|bw|] == raw[..|raw| - 1];
  }

  lemma FirstCut(w: seq<real>, targets: seq<real>)
    requires NonNegative(w)
    ensures NotShort(w, targets, 0, 0) && Goal(targets, 0) == 0.0
  {
    EmptyGoal(w, targets);
  }

  lemma OneCut(w: seq<real>, targets: seq<real>)
    requires NotShort(w, targets, 0, 0)
    ensures BalancedCuts([0], w, targets)
  {
  }

  lemma AppendCut(raw: seq<nat>, w: seq<real>, targets: seq<real>, cut: nat)
    requires 0 < |raw| <= |targets| && BalancedCuts(raw, w, targets)
    requires raw[|raw| - 1] < cut && NotShort(w, targets, Smaller(cut, |w|), |raw|)
    requires NotOver(w, targets, Smaller(raw[|raw| - 1], |w|), Smaller(cut, |w|), |raw| - 1)
    ensures BalancedCuts(raw + [cut], w, targets)
  {
    hide NotShort, NotOver;
  }

  lemma NextCut(w: seq<real>, targets: seq<real>, previous: nat, cut: nat, k: nat)
    requires NonNegative(w) && AscendingReals(Cumulative(w)) && NonNegative(targets) && Total(targets) == Total(w)
    requires k < |targets|
    requires cut == Larger(previous + 1, Smaller(SearchReal(Cumulative(w), Goal(targets, k + 1)), |w|))
    ensures NotShort(w, targets, Smaller(cut, |w|), k + 1)
    ensures NotOver(w, targets, Smaller(previous, |w|), Smaller(cut, |w|), k)
  {
    hide Total, Heaviest;
    var goal := Goal(targets, k + 1);
    GoalWithin(targets, k + 1);
    SearchedCut(w, goal);
    PrefixMonotone(w, SearchReal(Cumulative(w), goal), Smaller(cut, |w|));
  }

  function PrefixMax(raw: seq<nat>, k: nat): (m: nat)
    requires k < |raw|
    ensures raw[k] <= m
  {
    if k == 0 then raw[0] else Larger(PrefixMax(raw, k - 1), raw[k])
  }

  lemma PrefixMaxStep(raw: seq<nat>, k: nat)
    requires k < |raw|
    ensures PrefixMax(raw, k) == if k == 0 then raw[0] else Larger(PrefixMax(raw, k - 1), raw[k])
  {
  }

  lemma {:induction false} PrefixMaxGrows(raw: seq<nat>, i: nat, j: nat)
    requires i <= j < |raw|
    ensures PrefixMax(raw, i) <= PrefixMax(raw, j)
  {
    if i < j {
      PrefixMaxGrows(raw, i, j - 1);
    }
  }

  lemma {:induction false} PrefixMaxRising(raw: seq<nat>, k: nat)
    requires k < |raw| && forall i :: 0 < i <= k ==> raw[i - 1] <= raw[i]
    ensures PrefixMax(raw, k) == raw[k]
  {
    if k > 0 {
      PrefixMaxRising(raw, k - 1);
    }
  }

  /** `minimum(maximum.accumulate(bounds), N)`. */
  method ClipBounds(raw: seq<nat>, n: nat) returns (b: seq<nat>)
    ensures |b| == |raw| && forall i :: 0 <= i < |b| ==> b[i] == Smaller(PrefixMax(raw, i), n)
  {
    hide PrefixMax;
    b := [];
    var top := 0;
    for i := 0 to |raw|
      invariant |b| == i && (if i == 0 then top == 0 else top == PrefixMax(raw, i - 1))
      invariant forall j :: 0 <= j < i ==> b[j] == Smaller(PrefixMax(raw, j), n)
    {
      PrefixMaxStep(raw, i);
      top := Larger(top, raw[i]);
      b := b + [Smaller(top, n)];
    }
  }

  /** Clipping keeps the searched cuts good, also when there are more devices than vertices. */
  lemma ClippedCuts(raw: seq<nat>, b: seq<nat>, w: seq<real>, targets: seq<real>)
    requires NonNegative(w) && NonNegative(targets) && targets != [] && Total(targets) == Total(w)
    requires |raw| == |targets| + 1 && raw[0] == 0 && raw[|targets|] == |w|
    requires BalancedCuts(raw[..|targets|], w, targets)
    requires |b| == |raw| && forall i :: 0 <= i < |b| ==> b[i] == Smaller(PrefixMax(raw, i), |w|)
    ensures GoodCuts(b, w, targets)
  {
    hide Total, Heaviest, NotShort, NotOver, PrefixMax, BalancedCuts;
    var d := |targets|;
    ClippedInOrder(raw, b, |w|);
    forall k | 0 <= k < d ensures NotShort(w, targets, b[k], k) && NotOver(w, targets, b[k], b[k + 1], k) {
      ClippedCut(raw, b, w, targets, k);
    }
  }

  lemma ClippedInOrder(raw: seq<nat>, b: seq<nat>, n: nat)
    requires raw != [] && raw[0] == 0 && raw[|raw| - 1] == n
    requires |b| == |raw| && forall i :: 0 <= i < |b| ==> b[i] == Smaller(PrefixMax(raw, i), n)
    ensures Bounds(b, |raw| - 1, n) && forall k :: 0 <= k < |b| ==> b[k] <= n
  {
    forall i, j | 0 <= i <= j < |b| ensures b[i] <= b[j] {
      PrefixMaxGrows(raw, i, j);
    }
  }

  lemma ClippedCut(raw: seq<nat>, b: seq<nat>, w: seq<real>, targets: seq<real>, k: nat)
    requires k < |targets| && Total(targets) == Total(w)
    requires |raw| == |targets| + 1 && raw[|targets|] == |w| && BalancedCuts(raw[..|targets|], w, targets)
    requires |b| == |raw| && forall i :: 0 <= i < |b| ==> b[i] == Smaller(PrefixMax(raw, i), |w|)
    ensures b[k] <= |w| && b[k + 1] <= |w|
    ensures NotShort(w, targets, b[k], k) && NotOver(w, targets, b[k], b[k + 1], k)
  {
    hide Total, Heaviest, NotShort, NotOver, PrefixMax;
    var d, front := |targets|, raw[..|targets|];
    PrefixMaxRising(front, k);
    PrefixMaxFront(raw, d, k);
    if k + 1 == d {
      LastNotOver(w, targets, b[k]);
    } else {
      PrefixMaxRising(front, k + 1);
      PrefixMaxFront(raw, d, k + 1);
      assert NotOver(w, targets, Smaller(front[k + 1 - 1], |w|), Smaller(front[k + 1], |w|), k + 1 - 1);
    }
  }

  lemma {:induction false} PrefixMaxFront(raw: seq<nat>, d: nat, k: nat)
    requires k < d <= |raw|
    ensures PrefixMax(raw[..d], k) == PrefixMax(raw, k)
  {
    if k > 0 {
      PrefixMaxFront(raw, d, k - 1);
    }
  }

  lemma LastNotOver(w: seq<real>, targets: seq<real>, lo: nat)
    requires targets != [] && Total(targets) == Total(w)
    ensures NotOver(w, targets, lo, |w|, |targets| - 1)
  {
    assert w[..|w|] == w && targets[..|targets|] == targets;
  }

  // ---------------------------------------------------------------- the arrangement

  /** `deg_by_rank[rank_of] = deg`. */
  method ByRank(weight: seq<real>, rank: seq<nat>) returns (w: seq<real>)
    requires Permutation(rank, |weight|)
    ensures |w| == |weight| && weight == Select<real>(w, rank)
  {
    var a := new real[|weight|](_ => 0.0);
    for v := 0 to |weight|
      invariant forall u :: 0 <= u < v ==> a[rank[u]] == weight[u]
    {
      a[rank[v]] := weight[v];
    }
    w := a[..];
  }

  lemma RankedNonNegative(weight: seq<real>, w: seq<real>, rank: seq<nat>)
    requires Permutation(rank, |w|) && weight == Select<real>(w, rank) && NonNegative(weight)
    ensures NonNegative(w) && Heaviest(w) <= Heaviest(weight)
    ensures Total(w) == Total(weight)
  {
    hide Load, Total, Heaviest;
    forall r | 0 <= r < |w| ensures 0.0 <= w[r] <= Heaviest(weight) {
      RankedAt(weight, w, rank, r);
    }
    HeaviestWithin(w, Heaviest(weight));
    RankedTotal(weight, w, rank);
  }

  lemma RankedAt(weight: seq<real>, w: seq<real>, rank: seq<nat>, r: nat)
    requires Permutation(rank, |w|) && weight == Select<real>(w, rank) && NonNegative(weight) && r < |w|
    ensures 0.0 <= w[r] <= Heaviest(weight)
  {
    SurjectiveByCount(rank);
    assert r in rank;
    var v :| 0 <= v < |rank| && rank[v] == r;
    assert weight[v] == w[r];
  }

  lemma RankedTotal(weight: seq<real>, w: seq<real>, rank: seq<nat>)
    requires Permutation(rank, |w|) && weight == Select<real>(w, rank)
    ensures Total(w) == Total(weight)
  {
    hide Load, Total;
    var zero: seq<int> := seq(|w|, _ => 0);
    SameLoad(w, zero, rank, 0);
    assert Select<int>(zero, rank) == zero;
    OneBin(w, zero);
    OneBin(weight, zero);
  }

  lemma {:induction false} HeaviestWithin(w: seq<real>, m: real)
    requires m >= 0.0 && forall r :: 0 <= r < |w| ==> w[r] <= m
    ensures Heaviest(w) <= m
  {
    if w != [] {
      HeaviestWithin(w[..|w| - 1], m);
    }
  }

  lemma {:induction false} OneBin(w: seq<real>, zero: seq<int>)
    requires |w| == |zero| && forall i :: 0 <= i < |zero| ==> zero[i] == 0
    ensures Load(w, zero, 0) == Total(w)
  {
    if w != [] {
      OneBin(w[..|w| - 1], zero[..|w| - 1]);
    }
  }

  /** Devices own consecutive stretches of the order, in device order. */
  ghost predicate Contiguous(part: seq<int>, rank: seq<nat>)
    requires |part| == |rank|
  {
    forall u, v :: 0 <= u < |part| && 0 <= v < |part| && rank[u] <= rank[v] ==> part[u] <= part[v]
  }

  lemma PiecesContiguous(b: seq<nat>, d: nat, n: nat, rank: seq<nat>)
    requires Bounds(b, d, n) && d > 0 && Permutation(rank, n)
    ensures Contiguous(Select<int>(Pieces(b, d, n), rank), rank)
  {
    hide Pieces;
    var seg := Pieces(b, d, n);
    forall u, v | 0 <= u < n && 0 <= v < n && rank[u] <= rank[v] ensures seg[rank[u]] <= seg[rank[v]] {
      PiecesInOrder(seg, b, d, n, rank[u], rank[v]);
    }
  }

  lemma PiecesInOrder(seg: seq<int>, b: seq<nat>, d: nat, n: nat, q: nat, r: nat)
    requires Bounds(b, d, n) && InPieces(seg, b, d, n) && q <= r < n
    ensures |seg| == n && seg[q] <= seg[r]
  {
    BoundsOrdered(b, d, n, seg[r] + 1, seg[q]);
  }

  lemma BoundsOrdered(b: seq<nat>, d: nat, n: nat, i: nat, j: nat)
    requires Bounds(b, d, n) && i <= d && j <= d
    ensures |b| == d + 1 && (i <= j ==> b[i] <= b[j])
  {
  }

  /** No device carries more than its proportional share and one vertex more. */
  ghost predicate Proportional(weight: seq<real>, part: seq<int>, power: seq<real>)
    requires |part| == |weight| && Total(power) > 0.0
  {
    forall k :: 0 <= k < |power| ==>
      Load(weight, part, k) <= Targets(power, Total(weight))[k] + Heaviest(weight)
  }

  lemma CutsGiveShares(weight: seq<real>, w: seq<real>, rank: seq<nat>, b: seq<nat>, power: seq<real>)
    requires Permutation(rank, |w|) && weight == Select<real>(w, rank) && NonNegative(weight) && NonNegative(w)
    requires Total(power) > 0.0 && NonNegative(power) && power != [] && Total(w) == Total(weight)
    requires Heaviest(w) <= Heaviest(weight)
    requires GoodCuts(b, w, Targets(power, Total(w))) && NonNegative(Targets(power, Total(w)))
    ensures Proportional(weight, Select<int>(Pieces(b, |power|, |w|), rank), power)
  {
    var targets := Targets(power, Total(w));
    forall k | 0 <= k < |power|
      ensures Load(weight, Select<int>(Pieces(b, |power|, |w|), rank), k) <= targets[k] + Heaviest(weight)
    {
      LoadIsPiece(weight, w, rank, b, |power|, k);
      PieceBound(b, w, targets, k);
    }
  }

  /** The density-ordered, bandwidth-matched arrangement. */
  method Arrange(deg: seq<real>, rank: seq<nat>, bw: seq<real>) returns (part: seq<int>)
    requires deg != [] && NonNegative(deg) && Permutation(rank, |deg|)
    requires bw != [] && NonNegative(bw) && Total(bw) > 0.0
    ensures |part| == |deg| && forall v :: 0 <= v < |part| ==> 0 <= part[v] < |bw|
    ensures Contiguous(part, rank)
    ensures Proportional(deg, part, bw)
  {
    hide Targets, Load, Total, Pieces, Heaviest, Cumulative, Bounds, BalancedCuts;
    var w := ByRank(deg, rank);
    RankedNonNegative(deg, w, rank);
    CumulativeAscends(w);
    var raw := SolveBalancedBounds(Cumulative(w), bw, w);
    var b := ClipBounds(raw, |w|);
    ghost var targets := Targets(bw, Total(w));
    TotalNonNegative(w);
    TargetsAddUp(bw, Total(w));
    ClippedCuts(raw, b, w, targets);
    assert Bounds(b, |bw|, |w|);
    part := Select<int>(Pieces(b, |bw|, |w|), rank);
    PiecesContiguous(b, |bw|, |w|, rank);
    CutsGiveShares(deg, w, rank, b, bw);
  }

  lemma TotalNonNegative(w: seq<real>)
    requires NonNegative(w)
    ensures Total(w) >= 0.0
  {
    PrefixMonotone(w, 0, |w|);
    assert w[..|w|] == w && w[..0] == [];
  }

  // ---------------------------------------------------------------- capacity-proportional segments

  /** The capacities, or equal ones. */
  function Powers(caps: Option<seq<real>>, d: nat): (r: seq<real>)
    requires caps.Some? ==> |caps.value| == d
    ensures |r| == d
  {
    match caps
    case Some(c) => c
    case None => seq(d, _ => 1.0)
  }

  lemma {:induction false} OnesPositive(xs: seq<real>)
    requires xs != [] && forall i :: 0 <= i < |xs| ==> xs[i] == 1.0
    ensures Total(xs) > 0.0
  {
    if |xs| > 1 {
      OnesPositive(xs[..|xs| - 1]);
    }
  }

  /** Every cut is searched, none is clamped. */
  ghost predicate SearchedBounds(b: seq<nat>, w: seq<real>, targets: seq<real>, k: nat)
    requires NonNegative(w) && AscendingReals(Cumulative(w)) && k <= |targets|
  {
    && |b| == k && (k > 0 ==> b[0] == 0)
    && forall i :: 0 < i < k ==> b[i] == SearchReal(Cumulative(w), Goal(targets, i))
  }

  lemma SearchMonotone(xs: seq<real>, x: real, y: real)
    requires AscendingReals(xs) && x <= y
    ensures SearchReal(xs, x) <= SearchReal(xs, y)
  {
    var j := SearchReal(xs, y);
    assert j < |xs| ==> xs[j] >= y;
  }

  lemma SearchedGood(b: seq<nat>, w: seq<real>, targets: seq<real>)
    requires NonNegative(w) && AscendingReals(Cumulative(w)) && NonNegative(targets) && targets != []
    requires Total(targets) == Total(w)
    requires |b| == |targets| + 1 && b[|targets|] == |w| && SearchedBounds(b[..|targets|], w, targets, |targets|)
    ensures GoodCuts(b, w, targets)
  {
    var d, n := |targets|, |w|;
    SearchedAt(b, w, targets);
    forall k | 0 <= k < d
      ensures b[k] <= b[k + 1] && NotShort(w, targets, b[k], k) && NotOver(w, targets, b[k], b[k + 1], k)
    {
      SearchedPiece(b, w, targets, k);
    }
    Chain(b);
  }

  lemma SearchedAt(b: seq<nat>, w: seq<real>, targets: seq<real>)
    requires NonNegative(w) && AscendingReals(Cumulative(w)) && targets != []
    requires |b| == |targets| + 1 && b[|targets|] == |w| && SearchedBounds(b[..|targets|], w, targets, |targets|)
    ensures b[0] == 0
    ensures forall i :: 0 < i < |targets| ==> b[i] == SearchReal(Cumulative(w), Goal(targets, i))
    ensures forall i :: 0 <= i < |b| ==> b[i] <= |w|
  {
    var front := b[..|targets|];
    forall i | 0 <= i < |targets| ensures b[i] == front[i] {
    }
  }

  lemma SearchedPiece(b: seq<nat>, w: seq<real>, targets: seq<real>, k: nat)
    requires NonNegative(w) && AscendingReals(Cumulative(w)) && NonNegative(targets) && Total(targets) == Total(w)
    requires k < |targets| && |b| == |targets| + 1 && b[0] == 0 && b[|targets|] == |w|
    requires forall i :: 0 < i < |targets| ==> b[i] == SearchReal(Cumulative(w), Goal(targets, i))
    ensures b[k] <= b[k + 1] <= |w|
    ensures NotShort(w, targets, b[k], k) && NotOver(w, targets, b[k], b[k + 1], k)
  {
    hide Heaviest, Total, Cumulative;
    GoalWithin(targets, k);
    GoalWithin(targets, k + 1);
    PrefixMonotone(targets, k, k + 1);
    if k > 0 {
      SearchedCut(w, Goal(targets, k));
    } else {
      EmptyGoal(w, targets);
    }
    if k + 1 < |targets| {
      SearchedCut(w, Goal(targets, k + 1));
      if k > 0 {
        SearchMonotone(Cumulative(w), Goal(targets, k), Goal(targets, k + 1));
      }
    } else {
      assert w[..|w|] == w && targets[..|targets|] == targets;
    }
  }

  lemma EmptyGoal(w: seq<real>, targets: seq<real>)
    ensures Goal(targets, 0) == 0.0 && Total(w[..0]) == 0.0
  {
  }

  lemma {:induction false} Chain(b: seq<nat>)
    requires forall k :: 0 <= k < |b| - 1 ==> b[k] <= b[k + 1]
    ensures forall i, j :: 0 <= i <= j < |b| ==> b[i] <= b[j]
  {
    if |b| > 1 {
      var n := |b| - 1;
      Chain(b[..n]);
      forall i | 0 <= i <= n ensures b[i] <= b[n] {
        if i < n {
          assert b[..n][i] <= b[..n][n - 1] && b[n - 1] <= b[n];
        }
      }
      forall i, j | 0 <= i <= j < n ensures b[i] <= b[j] {
        assert b[..n][i] <= b[..n][j];
      }
    }
  }

  /** Cut positions for positive total weight. */
  method SearchBounds(cum: seq<real>, power: seq<real>, ghost w: seq<real>) returns (b: seq<nat>)
    requires NonNegative(w) && w != [] && cum == Cumulative(w) && AscendingReals(cum)
    requires power != [] && NonNegative(power) && Total(power) > 0.0
    ensures GoodCuts(b, w, Targets(power, Total(w)))
  {
    hide Targets, Total, Heaviest, GoodCuts;
    assert w[..|w|] == w;
    var target := Targets(power, cum[|cum| - 1]);
    b := [0];
    var acc := 0.0;
    FirstCut(w, target);
    for k := 0 to |power| - 1
      invariant SearchedBounds(b, w, target, k + 1) && acc == Goal(target, k)
    {
      acc := acc + target[k];
      PrefixStep(target, k);
      b := b + [SearchReal(cum, acc)];
    }
    b := b + [|cum|];
    assert b[..|power|] == b[..|b| - 1];
    TotalNonNegative(w);
    TargetsAddUp(power, Total(w));
    SearchedGood(b, w, target);
  }

  /** Equal counts, for an order without weight. */
  function EqualCounts(n: nat, d: nat): (seg: seq<int>)
    requires d > 0
    ensures |seg| == n && forall r :: 0 <= r < n ==> 0 <= seg[r] < d && seg[r] == Block(r, d, n)
  {
    seq(n, r requires 0 <= r < n => ClampedBlock(r, d, n))
  }

  lemma CountsContiguous(n: nat, d: nat, rank: seq<nat>)
    requires d > 0 && Permutation(rank, n)
    ensures Contiguous(Select<int>(EqualCounts(n, d), rank), rank)
  {
    var seg := EqualCounts(n, d);
    hide EqualCounts, Block;
    forall u, v | 0 <= u < n && 0 <= v < n && rank[u] <= rank[v] ensures seg[rank[u]] <= seg[rank[v]] {
      BlockMonotone(rank[u], rank[v], d, n);
    }
  }

  /** No device has a whole vertex more or less than the equal share. */
  ghost predicate EvenlyCounted(dev: seq<int>, d: nat) {
    forall k :: 0 <= k < d ==> d * (Count(dev, k) - 1) < |dev| < d * (Count(dev, k) + 1)
  }

  lemma CountsEven(n: nat, d: nat, rank: seq<nat>)
    requires n > 0 && d > 0 && Permutation(rank, n)
    ensures EvenlyCounted(Select<int>(EqualCounts(n, d), rank), d)
  {
    hide Count, EqualCounts;
    var seg := EqualCounts(n, d);
    assert seg == Blocks(n, d);
    forall k | 0 <= k < d
      ensures d * (Count(Select<int>(seg, rank), k) - 1) < n < d * (Count(Select<int>(seg, rank), k) + 1)
    {
      CountPermuted(seg, rank, k);
      BlockSize(n, d, k);
    }
  }

  /** Contiguous segments of the order, sized by weight and capacity. */
  method SplitContiguous(rank: seq<nat>, weight: seq<real>, d: nat, caps: Option<seq<real>>) returns (dev: seq<int>)
    requires weight != [] && NonNegative(weight) && Permutation(rank, |weight|) && d > 0
    requires caps.Some? ==> |caps.value| == d && NonNegative(caps.value) && Total(caps.value) > 0.0
    ensures |dev| == |weight| && forall v :: 0 <= v < |dev| ==> 0 <= dev[v] < d
    ensures Contiguous(dev, rank)
    ensures Total(Powers(caps, d)) > 0.0 && Proportional(weight, dev, Powers(caps, d))
    ensures Total(weight) <= 0.0 ==> EvenlyCounted(dev, d)
  {
    var power := Powers(caps, d);
    PowersPositive(caps, d);
    hide Targets, Load, Total, Pieces, Heaviest, Cumulative, Bounds, SearchedBounds, Powers, EqualCounts, EvenlyCounted;
    var w := ByRank(weight, rank);
    RankedNonNegative(weight, w, rank);
    CumulativeAscends(w);
    TotalNonNegative(w);
    var cum := Cumulative(w);
    assert w[..|w|] == w;
    if cum[|cum| - 1] <= 0.0 {
      dev := Select<int>(EqualCounts(|w|, d), rank);
      CountsContiguous(|w|, d, rank);
      CountsEven(|w|, d, rank);
      WeightlessSplit(weight, dev, power);
    } else {
      var b := SearchBounds(cum, power, w);
      TargetsAddUp(power, Total(w));
      dev := Select<int>(Pieces(b, d, |w|), rank);
      assert Bounds(b, d, |w|);
      PiecesContiguous(b, d, |w|, rank);
      CutsGiveShares(weight, w, rank, b, power);
    }
  }

  lemma PowersPositive(caps: Option<seq<real>>, d: nat)
    requires d > 0 && (caps.Some? ==> |caps.value| == d && NonNegative(caps.value) && Total(caps.value) > 0.0)
    ensures NonNegative(Powers(caps, d)) && Total(Powers(caps, d)) > 0.0
  {
    if caps.None? {
      OnesPositive(Powers(caps, d));
    }
  }

  lemma WeightlessSplit(weight: seq<real>, dev: seq<int>, power: seq<real>)
    requires NonNegative(weight) && Total(weight) <= 0.0 && |dev| == |weight|
    requires NonNegative(power) && Total(power) > 0.0
    ensures Proportional(weight, dev, power)
  {
    TotalNonNegative(weight);
    forall i | 0 <= i < |weight| ensures weight[i] == 0.0 {
      PrefixMonotone(weight, 0, i);
      PrefixMonotone(weight, i + 1, |weight|);
      PrefixStep(weight, i);
      assert weight[..|weight|] == weight;
      EmptyGoal(weight, weight);
    }
    forall k | 0 <= k < |power| ensures Load(weight, dev, k) <= Targets(power, Total(weight))[k] + Heaviest(weight) {
      NoWeight(weight, dev, k);
      FractionNonNegative(power[k], Total(power), Total(weight));
    }
  }

  // ---------------------------------------------------------------- what proportional cuts give

  lemma {:induction false} LoadSumAtMost(weight: seq<real>, part: seq<int>, power: seq<real>, t: real, d: nat)
    requires |weight| == |part| && d <= |power|
    requires forall k :: 0 <= k < d ==> Load(weight, part, k) <= Work(t, power[k])
    ensures LoadSum(weight, part, d) <= Work(t, Total(power[..d]))
  {
    if d > 0 {
      LoadSumAtMost(weight, part, power, t, d - 1);
      PrefixStep(power, d - 1);
      Distribute(Total(power[..d - 1]), power[d - 1], t);
    }
  }

  lemma Cancel(a: real, b: real, c: real)
    requires c > 0.0 && a * c <= b * c
    ensures a <= b
  {
  }

  lemma ScaleUp(a: real, b: real, c: real)
    requires c >= 0.0 && a <= b
    ensures c * a <= c * b
  {
  }

  lemma ShareAtMost(p: real, s: real, total: real, t: real)
    requires p >= 0.0 && s > 0.0 && total <= Work(t, s)
    ensures p / s * total <= Work(t, p)
  {
    Reassociate(p, s, total);
    var q := total / s;
    assert q * s == total;
    Cancel(q, t, s);
    ScaleUp(q, t, p);
  }

  lemma TargetAtMost(power: seq<real>, total: real, t: real, k: nat)
    requires NonNegative(power) && Total(power) > 0.0 && k < |power| && total <= Work(t, Total(power))
    ensures Targets(power, total)[k] <= Work(t, power[k])
  {
    ShareAtMost(power[k], Total(power), total, t);
  }

  /** If any assignment keeps every device within time `t`, this one keeps it within `t` plus the
      time of a single vertex. */
  lemma NearlyOptimal(weight: seq<real>, part: seq<int>, power: seq<real>, other: seq<int>, t: real)
    requires |part| == |weight| == |other| && NonNegative(power) && Total(power) > 0.0
    requires Proportional(weight, part, power)
    requires forall v :: 0 <= v < |other| ==> 0 <= other[v] < |power|
    requires forall k :: 0 <= k < |power| ==> Load(weight, other, k) <= Work(t, power[k])
    ensures forall k :: 0 <= k < |power| ==> Load(weight, part, k) <= Work(t, power[k]) + Heaviest(weight)
  {
    LoadSumIsTotal(weight, other, |power|);
    LoadSumAtMost(weight, other, power, t, |power|);
    assert power[..|power|] == power;
    hide Load, LoadSum, Total, Heaviest, Work, Targets;
    forall k | 0 <= k < |power| ensures Load(weight, part, k) <= Work(t, power[k]) + Heaviest(weight) {
      TargetAtMost(power, Total(weight), t, k);
    }
  }

  /** Capacity-proportional segments exceed a capacity by at most one row, when the whole fits. */
  lemma OneRowOver(weight: seq<real>, dev: seq<int>, caps: seq<real>, k: nat)
    requires |dev| == |weight| && NonNegative(caps) && Total(caps) > 0.0 && k < |caps|
    requires Proportional(weight, dev, caps) && Total(weight) <= Total(caps)
    ensures Load(weight, dev, k) <= caps[k] + Heaviest(weight)
  {
    assert Work(1.0, Total(caps)) == Total(caps) && Work(1.0, caps[k]) == caps[k];
    hide Load, Total, Heaviest, Work, Targets;
    TargetAtMost(caps, Total(weight), 1.0, k);
  }
}
