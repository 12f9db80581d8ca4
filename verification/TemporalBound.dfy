/** The temporal half of the space-time lower bound: a device holding at most `b` cells forces
    long timelines apart, whatever the assignment. */
module TemporalBound {
  import opened Arrays
  import opened RankBlocks
  import opened SpaceTimeCuts
  import opened WeightedLoads

  // ---------------------------------------------------------------- the bound

  /** `ceil(C / D)` clamped by an explicit capacity, at least one. */
  function Budget(cells: nat, devices: nat, cap: int): (b: nat)
    ensures b >= 1
  {
    var d := if devices > 1 then devices else 1;
    var even := CeilDiv(cells, d);
    var b := if cap > 0 && cap < even then cap else even;
    if b > 1 then b else 1
  }

  function CeilDiv(x: nat, b: nat): nat
    requires b > 0
  {
    (x + b - 1) / b
  }

  /** The share of the remaining snapshots a vertex is active in. */
  function Rho(cells: nat, s: nat): real {
    if s > 1 && cells > 0 then (cells - 1) as real / (s - 1) as real else 0.0
  }

  /** The number of devices a timeline is forced to span. */
  function Span(cells: nat, b: nat): (k: nat)
    requires b > 0
    ensures k >= 1
  {
    var k := CeilDiv(if cells > 1 then cells else 1, b);
    if k > 1 then k else 1
  }

  /** `sum over v < n of rho(v) * (k_v - 1)`. */
  function LTemporal(cellV: seq<int>, n: nat, s: nat, b: nat): real
    requires b > 0
  {
    if n == 0 then 0.0
    else LTemporal(cellV, n - 1, s, b) + Forced(Count(cellV, n - 1), s, b)
  }

  /** `rho * (k - 1)` for a timeline of the given number of cells. */
  function Forced(cells: nat, s: nat, b: nat): real
    requires b > 0
  {
    Rho(cells, s) * (Span(cells, b) - 1) as real
  }

  lemma RhoIs(cells: nat, s: nat)
    ensures s > 1 && cells > 0 ==> Rho(cells, s) * (s - 1) as real == (cells - 1) as real
    ensures s <= 1 || cells == 0 ==> Rho(cells, s) == 0.0
  {
  }

  /** Fewer devices would have less than the cells within the budget. */
  lemma SpanCovers(cells: nat, b: nat)
    requires b > 0
    ensures cells > 0 ==> b * (Span(cells, b) - 1) < cells <= b * Span(cells, b)
    ensures cells == 0 ==> Span(cells, b) == 1
  {
    var x := if cells > 1 then cells else 1;
    DivNext(x + b - 1, b);
    var k := (x + b - 1) / b;
    assert b * (k - 1) == b * k - b && b * (k + 1) == b * k + b;
    assert k < 1 ==> b * k <= 0;
  }

  /** The cells shared out evenly, rounded up, unless an explicit capacity is smaller. */
  lemma BudgetIs(cells: nat, devices: nat, cap: int)
    requires devices > 0 && cells > 0
    ensures var b := Budget(cells, devices, cap);
            && devices * (b - 1) < cells && (cap > 0 ==> b <= cap)
            && (cap <= 0 || b < cap ==> cells <= devices * b)
  {
    DivNext(cells + devices - 1, devices);
    var even := (cells + devices - 1) / devices;
    assert devices * (even - 1) == devices * even - devices && devices * (even + 1) == devices * even + devices;
    assert even < 1 ==> devices * even <= 0;
    var b := Budget(cells, devices, cap);
    Scaled(b - 1, even - 1, devices);
  }

  /** The shares of the timelines, each times the devices it is forced onto beyond the first. */
  ghost predicate AreTerms(terms: seq<real>, cellV: seq<int>, n: nat, s: nat, b: nat)
    requires b > 0
  {
    |terms| == n && forall v :: 0 <= v < n ==>
      terms[v] == Rho(Count(cellV, v), s) * (Span(Count(cellV, v), b) - 1) as real
  }

  lemma {:induction false} BoundIs(cellV: seq<int>, n: nat, s: nat, b: nat, terms: seq<real>)
    requires b > 0 && AreTerms(terms, cellV, n, s, b)
    ensures LTemporal(cellV, n, s, b) == Total(terms)
  {
    hide Rho, Span, Count;
    if n > 0 {
      BoundIs(cellV, n - 1, s, b, terms[..n - 1]);
    }
  }

  // ---------------------------------------------------------------- one timeline

  /** The devices along the timeline of vertex `v`. */
  function Timeline(cellV: seq<int>, dev: seq<int>, v: int): (r: seq<int>)
    requires |cellV| == |dev|
    ensures |r| == Count(cellV, v)
  {
    if cellV == [] then []
    else
      var n := |cellV| - 1;
      if cellV[n] == v then Timeline(cellV[..n], dev[..n], v) + [dev[n]] else Timeline(cellV[..n], dev[..n], v)
  }

  lemma TimelineStep(cellV: seq<int>, dev: seq<int>, v: int)
    requires |cellV| == |dev| > 0
    ensures var n := |cellV| - 1;
            Timeline(cellV, dev, v) ==
            if cellV[n] == v then Timeline(cellV[..n], dev[..n], v) + [dev[n]] else Timeline(cellV[..n], dev[..n], v)
  {
  }

  /** Walking through `m` different devices takes at least `m - 1` changes. */
  lemma {:induction false} ChangesSpan(w: seq<int>)
    ensures |Unique(w)| <= Changes(w) + 1
  {
    if w != [] {
      var n := |w| - 1;
      ChangesSpan(w[..n]);
      assert w == w[..n] + [w[n]];
      ChangesSnoc(w[..n], w[n]);
      if n > 0 && w[n - 1] == w[n] {
        assert w[..n][n - 1] in w[..n];
        UniqueSame(w, w[..n]);
      } else {
        InsertGrowsByOne(Unique(w[..n]), w[n]);
      }
    }
  }

  lemma {:induction false} InsertGrowsByOne(u: seq<int>, x: int)
    requires Increasing(u)
    ensures |InsertUnique(u, x)| <= |u| + 1
  {
    if !(u == [] || u[|u| - 1] < x) && u[|u| - 1] != x {
      InsertGrowsByOne(u[..|u| - 1], x);
    }
  }

  /** Cells counted by device. */
  function CountsOf(w: seq<int>, values: seq<int>): (r: seq<int>)
    ensures |r| == |values| && forall i :: 0 <= i < |r| ==> r[i] == Count(w, values[i])
  {
    seq(|values|, i requires 0 <= i < |values| => Count(w, values[i]))
  }

  lemma {:induction false} CountsTotal(w: seq<int>, values: seq<int>)
    requires Distinct(values) && forall x :: x in w ==> x in values
    ensures Sum(CountsOf(w, values)) == |w|
  {
    if w == [] {
      SumConst(CountsOf(w, values), 0);
    } else {
      var n := |w| - 1;
      assert w == w[..n] + [w[n]];
      CountsTotal(w[..n], values);
      assert w[n] in w;
      var k :| 0 <= k < |values| && values[k] == w[n];
      CountsSnoc(w[..n], w[n], values, k);
    }
  }

  lemma CountsSnoc(w: seq<int>, x: int, values: seq<int>, k: nat)
    requires Distinct(values) && k < |values| && values[k] == x
    ensures Sum(CountsOf(w + [x], values)) == Sum(CountsOf(w, values)) + 1
  {
    var c := CountsOf(w, values);
    forall i | 0 <= i < |values| ensures CountsOf(w + [x], values)[i] == c[k := c[k] + 1][i] {
      CountSnoc(w, x, values[i]);
    }
    assert CountsOf(w + [x], values) == c[k := c[k] + 1];
    SumUpdate(c, k, c[k] + 1);
  }

  lemma {:induction false} SumAtMost(xs: seq<int>, b: nat)
    requires forall i :: 0 <= i < |xs| ==> xs[i] <= b
    ensures Sum(xs) <= b * |xs|
  {
    if xs != [] {
      SumAtMost(xs[..|xs| - 1], b);
    }
  }

  /** With at most `b` cells per device, `|w|` cells need at least `ceil(|w| / b)` devices. */
  lemma SpanForced(w: seq<int>, b: nat)
    requires b > 0 && forall d :: Count(w, d) <= b
    ensures Span(|w|, b) <= |Unique(w)| || w == []
  {
    hide *;
    UniqueParts(w);
    CountsTotal(w, Unique(w));
    CountsAtMost(w, Unique(w), b);
    SumAtMost(CountsOf(w, Unique(w)), b);
    CeilAtMost(|w|, b, |Unique(w)|);
    if w != [] {
      assert w[0] in w;
      assert w[0] in Unique(w);
      SpanIs(|w|, b, |Unique(w)|);
    }
  }

  lemma UniqueParts(w: seq<int>)
    ensures Distinct(Unique(w)) && forall x :: x in w ==> x in Unique(w)
  {
  }

  lemma CountsAtMost(w: seq<int>, values: seq<int>, b: nat)
    requires forall d :: Count(w, d) <= b
    ensures forall i :: 0 <= i < |CountsOf(w, values)| ==> CountsOf(w, values)[i] <= b
  {
  }

  lemma SpanIs(cells: nat, b: nat, m: nat)
    requires b > 0 && cells > 0 && CeilDiv(cells, b) <= m && m > 0
    ensures Span(cells, b) <= m
  {
  }

  lemma CeilAtMost(x: nat, b: nat, m: nat)
    requires b > 0 && x <= b * m
    ensures CeilDiv(x, b) <= m
  {
    DivBounds(x + b - 1, b);
    assert b * (CeilDiv(x, b) - m) == b * CeilDiv(x, b) - b * m;
    BelowOneMultiple(b, CeilDiv(x, b) - m);
  }

  /** So a timeline of `|w|` cells changes device at least `Span - 1` times. */
  lemma TimelineChanges(w: seq<int>, b: nat)
    requires b > 0 && forall d :: Count(w, d) <= b
    ensures Span(|w|, b) - 1 <= Changes(w)
  {
    SpanForced(w, b);
    ChangesSpan(w);
    if w == [] {
      DivUnique(b, b, 1);
    }
  }

  lemma NoTimeline(cellV: seq<int>, dev: seq<int>, v: int)
    requires |cellV| == |dev| == 0
    ensures Timeline(cellV, dev, v) == []
  {
  }

  /** A device holds no more cells of one timeline than it holds altogether. */
  lemma {:induction false} TimelineCount(cellV: seq<int>, dev: seq<int>, v: int, d: int)
    requires |cellV| == |dev|
    ensures Count(Timeline(cellV, dev, v), d) <= Count(dev, d)
  {
    hide *;
    if cellV == [] {
      NoTimeline(cellV, dev, v);
      CountAbsent(Timeline(cellV, dev, v), d);
    } else {
      var n := |cellV| - 1;
      var w, front := Timeline(cellV[..n], dev[..n], v), dev[..n];
      TimelineCount(cellV[..n], front, v, d);
      TimelineStep(cellV, dev, v);
      assert dev == front + [dev[n]];
      CountSnoc(w, dev[n], d);
      CountSnoc(front, dev[n], d);
    }
  }

  // ---------------------------------------------------------------- all timelines together

  /** The device changes of the timelines of the vertices below `n`, added up. */
  function AllChanges(cellV: seq<int>, dev: seq<int>, n: nat): nat
    requires |cellV| == |dev|
  {
    if n == 0 then 0 else AllChanges(cellV, dev, n - 1) + Changes(Timeline(cellV, dev, n - 1))
  }

  lemma ChangesUnfold(cellV: seq<int>, dev: seq<int>, n: nat)
    requires |cellV| == |dev|
    ensures n == 0 ==> AllChanges(cellV, dev, n) == 0
    ensures n > 0 ==> AllChanges(cellV, dev, n) == AllChanges(cellV, dev, n - 1) + Changes(Timeline(cellV, dev, n - 1))
  {
  }

  /** Along vertex-major cells the temporal cut is the changes of every timeline added up. */
  lemma {:induction false} CutIsChanges(cellV: seq<int>, dev: seq<int>, n: nat)
    requires |cellV| == |dev| && Ascending(cellV) && forall i :: 0 <= i < |cellV| ==> 0 <= cellV[i] < n
    ensures TemporalCut(cellV, dev) == AllChanges(cellV, dev, n)
  {
    if cellV == [] {
      NoChanges(n);
    } else {
      var m := |cellV| - 1;
      CutIsChanges(cellV[..m], dev[..m], n);
      forall x: nat
        ensures Changes(Timeline(cellV, dev, x)) ==
                Changes(Timeline(cellV[..m], dev[..m], x)) + if x == cellV[m] then Break(cellV, dev) else 0
      {
        OneMoreCell(cellV, dev, x, cellV[..m], dev[..m], Break(cellV, dev));
      }
      ChangesGrow(cellV, dev, n, cellV[..m], dev[..m], cellV[m], Break(cellV, dev));
    }
  }

  lemma {:induction false} NoChanges(n: nat)
    ensures AllChanges([], [], n) == 0
  {
    hide *;
    ChangesUnfold([], [], n);
    if n > 0 {
      NoChanges(n - 1);
      NoChange(n - 1);
    }
  }

  lemma NoChange(v: int)
    ensures Changes(Timeline([], [], v)) == 0
  {
  }

  /** The last cell breaks the cell list when it continues a vertex on another device. */
  function Break(cellV: seq<int>, dev: seq<int>): nat
    requires |cellV| == |dev|
  {
    var m := |cellV| - 1;
    if m > 0 && cellV[m - 1] == cellV[m] && dev[m - 1] != dev[m] then 1 else 0
  }

  /** If one timeline gains `more` changes, so does their sum. */
  lemma {:induction false} ChangesGrow(cellV: seq<int>, dev: seq<int>, n: nat, front: seq<int>, dfront: seq<int>,
                                       v: int, more: nat)
    requires |cellV| == |dev| && |front| == |dfront|
    requires forall x: nat :: Changes(Timeline(cellV, dev, x)) ==
                              Changes(Timeline(front, dfront, x)) + if x == v then more else 0
    ensures AllChanges(cellV, dev, n) == AllChanges(front, dfront, n) + if 0 <= v < n then more else 0
  {
    hide *;
    ChangesUnfold(cellV, dev, n);
    ChangesUnfold(front, dfront, n);
    if n > 0 {
      ChangesGrow(cellV, dev, n - 1, front, dfront, v, more);
    }
  }

  /** A further cell extends one timeline. */
  lemma OneMoreCell(cellV: seq<int>, dev: seq<int>, x: int, front: seq<int>, dfront: seq<int>, more: nat)
    requires |cellV| == |dev| > 0 && Ascending(cellV) && more == Break(cellV, dev)
    requires front == cellV[..|cellV| - 1] && dfront == dev[..|dev| - 1]
    ensures Changes(Timeline(cellV, dev, x)) ==
            Changes(Timeline(front, dfront, x)) + if x == cellV[|cellV| - 1] then more else 0
  {
    TimelineStep(cellV, dev, x);
    LastOfTimeline(cellV, dev);
    ChangesSnoc(Timeline(front, dfront, x), dev[|dev| - 1]);
    hide Timeline;
    hide Changes;
  }

  lemma {:induction false} NoEarlierCells(cellV: seq<int>, dev: seq<int>, v: int)
    requires |cellV| == |dev| && forall i :: 0 <= i < |cellV| ==> cellV[i] != v
    ensures Timeline(cellV, dev, v) == []
  {
    if cellV != [] {
      NoEarlierCells(cellV[..|cellV| - 1], dev[..|dev| - 1], v);
    }
  }

  /** The timeline so far ends at the previous cell, if that cell is of the same vertex. */
  lemma LastOfTimeline(cellV: seq<int>, dev: seq<int>)
    requires |cellV| == |dev| > 0 && Ascending(cellV)
    ensures var m := |cellV| - 1;
            var w := Timeline(cellV[..m], dev[..m], cellV[m]);
            if m > 0 && cellV[m - 1] == cellV[m] then w != [] && w[|w| - 1] == dev[m - 1] else w == []
  {
    var m := |cellV| - 1;
    var v := cellV[m];
    if m > 0 && cellV[m - 1] == v {
      assert Timeline(cellV[..m], dev[..m], v) == Timeline(cellV[..m][..m - 1], dev[..m][..m - 1], v) + [dev[m - 1]];
    } else {
      forall i | 0 <= i < m ensures cellV[i] != v {
        assert m > 0 && cellV[i] <= cellV[m - 1] <= v;
      }
      NoEarlierCells(cellV[..m], dev[..m], v);
    }
  }

  // ---------------------------------------------------------------- the theorem

  /** The cells of one vertex lie in different snapshots, so there are at most `s` of them. */
  lemma TimelineFits(keys: seq<int>, s: nat, v: int)
    requires s > 0 && Increasing(keys) && forall i :: 0 <= i < |keys| ==> 0 <= keys[i]
    ensures Count(CellVertices(keys, s), v) <= s
  {
    var idx := Indices(CellVertices(keys, s), v);
    var t: seq<int> := seq(|idx|, i requires 0 <= i < |idx| => keys[idx[i]] % s);
    forall i, j | 0 <= i < j < |t| ensures t[i] < t[j] {
      SameVertexOrder(keys[idx[i]], keys[idx[j]], s);
    }
    if t != [] {
      IncreasingFloor(t, |t| - 1);
    }
  }

  lemma SameVertexOrder(k: nat, l: nat, s: nat)
    requires s > 0 && k < l && k / s == l / s
    ensures k % s < l % s
  {
  }

  lemma RhoAtMostOne(cells: nat, s: nat)
    requires cells <= s
    ensures 0.0 <= Rho(cells, s) <= 1.0
  {
  }

  lemma WeightedTerm(rho: real, k: nat, c: nat)
    requires 0.0 <= rho <= 1.0 && k <= c
    ensures rho * k as real <= c as real
  {
    assert rho * k as real <= 1.0 * k as real;
  }

  /** What one timeline contributes to the bound is at most the changes it is forced into. */
  lemma ForcedAtMostChanges(w: seq<int>, s: nat, b: nat)
    requires b > 0 && |w| <= s && forall d :: Count(w, d) <= b
    ensures Forced(|w|, s, b) <= Changes(w) as real
  {
    TimelineChanges(w, b);
    hide *;
    ForcedAtMost(|w|, s, b, Changes(w));
  }

  lemma ForcedAtMost(cells: nat, s: nat, b: nat, c: nat)
    requires b > 0 && cells <= s && Span(cells, b) - 1 <= c
    ensures Forced(cells, s, b) <= c as real
  {
    RhoAtMostOne(cells, s);
    WeightedTerm(Rho(cells, s), Span(cells, b) - 1, c);
  }

  lemma {:induction false} TermByTerm(cellV: seq<int>, dev: seq<int>, n: nat, s: nat, b: nat)
    requires b > 0 && |dev| == |cellV| && (forall v :: Count(cellV, v) <= s) && (forall d :: Count(dev, d) <= b)
    ensures LTemporal(cellV, n, s, b) <= AllChanges(cellV, dev, n) as real
  {
    hide *;
    TermUnfold(cellV, dev, n, s, b);
    if n > 0 {
      TermByTerm(cellV, dev, n - 1, s, b);
      OneTerm(cellV, dev, n - 1, s, b);
    }
  }

  lemma TermUnfold(cellV: seq<int>, dev: seq<int>, n: nat, s: nat, b: nat)
    requires b > 0 && |dev| == |cellV|
    ensures n == 0 ==> LTemporal(cellV, n, s, b) == 0.0 && AllChanges(cellV, dev, n) == 0
    ensures n > 0 ==> LTemporal(cellV, n, s, b) == LTemporal(cellV, n - 1, s, b) + Forced(Count(cellV, n - 1), s, b)
    ensures n > 0 ==> AllChanges(cellV, dev, n) == AllChanges(cellV, dev, n - 1) + Changes(Timeline(cellV, dev, n - 1))
  {
    hide *;
    ChangesUnfold(cellV, dev, n);
    BoundUnfold(cellV, n, s, b);
  }

  /** One vertex's term of the bound is at most its changes of device. */
  lemma OneTerm(cellV: seq<int>, dev: seq<int>, v: int, s: nat, b: nat)
    requires b > 0 && |dev| == |cellV| && Count(cellV, v) <= s && (forall d :: Count(dev, d) <= b)
    ensures Forced(Count(cellV, v), s, b) <= Changes(Timeline(cellV, dev, v)) as real
  {
    hide *;
    var w := Timeline(cellV, dev, v);
    forall d ensures Count(w, d) <= b {
      TimelineCount(cellV, dev, v, d);
    }
    ForcedAtMostChanges(w, s, b);
  }

  /** Every assignment that puts at most `b` cells on each device cuts at least `LTemporal`. */
  lemma TemporalLowerBound(src: seq<nat>, dst: seq<nat>, snap: seq<nat>, n: nat, s: nat, b: nat, dev: seq<int>)
    requires SnapGraph(src, dst, snap, n, s) && b > 0 && |dev| == |Cells(src, dst, snap, s)|
    requires forall d :: Count(dev, d) <= b
    ensures LTemporal(CellVertices(Cells(src, dst, snap, s), s), n, s, b) <=
            TemporalCut(CellVertices(Cells(src, dst, snap, s), s), dev) as real
  {
    CellsAreEndpoints(src, dst, snap, n, s);
    CellsSorted(Cells(src, dst, snap, s), n, s);
    var cellV := CellVertices(Cells(src, dst, snap, s), s);
    hide *;
    TermByTerm(cellV, dev, n, s, b);
    CutIsChanges(cellV, dev, n);
  }

  lemma CellsSorted(keys: seq<int>, n: nat, s: nat)
    requires GoodKeys(keys, n, s) && Increasing(keys)
    ensures Ascending(CellVertices(keys, s))
    ensures forall i :: 0 <= i < |keys| ==> 0 <= CellVertices(keys, s)[i] < n
    ensures forall v :: Count(CellVertices(keys, s), v) <= s
  {
    var cellV := CellVertices(keys, s);
    forall i, j | 0 <= i < j < |cellV| ensures cellV[i] <= cellV[j] {
      DivMonotone(keys[i], keys[j], s);
    }
    forall v ensures Count(cellV, v) <= s {
      TimelineFits(keys, s, v);
    }
  }

  // ---------------------------------------------------------------- where the budget is not respected

  /** Every timeline fits the budget of one device. */
  ghost predicate TimelinesFit(cellV: seq<int>, n: nat, b: nat) {
    forall v :: 0 <= v < n ==> Count(cellV, v) <= b
  }

  lemma FitSnoc(cellV: seq<int>, n: nat, b: nat)
    requires n > 0
    ensures TimelinesFit(cellV, n, b) <==> TimelinesFit(cellV, n - 1, b) && Count(cellV, n - 1) <= b
  {
  }

  /** The bound is positive exactly when some timeline outgrows one device's budget. */
  lemma {:induction false} BoundIsZeroIff(cellV: seq<int>, n: nat, s: nat, b: nat)
    requires b > 0 && s > 0 && forall v :: Count(cellV, v) <= s
    ensures LTemporal(cellV, n, s, b) >= 0.0
    ensures LTemporal(cellV, n, s, b) <= 0.0 <==> TimelinesFit(cellV, n, b)
  {
    hide *;
    BoundUnfold(cellV, n, s, b);
    if n > 0 {
      BoundIsZeroIff(cellV, n - 1, s, b);
      TermIsZeroIff(Count(cellV, n - 1), s, b);
      FitSnoc(cellV, n, b);
    }
  }

  lemma BoundUnfold(cellV: seq<int>, n: nat, s: nat, b: nat)
    requires b > 0
    ensures n == 0 ==> LTemporal(cellV, n, s, b) == 0.0 && TimelinesFit(cellV, n, b)
    ensures n > 0 ==> LTemporal(cellV, n, s, b) == LTemporal(cellV, n - 1, s, b) + Forced(Count(cellV, n - 1), s, b)
  {
  }

  lemma TermIsZeroIff(cells: nat, s: nat, b: nat)
    requires b > 0 && s > 0 && cells <= s
    ensures Forced(cells, s, b) >= 0.0
    ensures Forced(cells, s, b) <= 0.0 <==> cells <= b
  {
    if cells <= b {
      CeilAtMost(if cells > 1 then cells else 1, b, 1);
    } else {
      DivMonotone(2 * b, cells + b - 1, b);
      DivUnique(2 * b, b, 2);
      Product((cells - 1) as real / (s - 1) as real, (Span(cells, b) - 1) as real);
    }
  }

  lemma Product(x: real, y: real)
    requires x > 0.0 && y > 0.0
    ensures x * y > 0.0
  {
  }

  /** The whole-timeline split (`Dt = 1`), which the script measures alongside the balanced cuts,
      has temporal cut 0; it meets the bound exactly when every timeline fits one budget. */
  lemma WholeTimelinesMeetBoundIff(src: seq<nat>, dst: seq<nat>, snap: seq<nat>, n: nat, s: nat, dv: nat, b: nat)
    requires SnapGraph(src, dst, snap, n, s) && dv > 0 && b > 0
    ensures GoodKeys(Cells(src, dst, snap, s), n, s)
    ensures var keys := Cells(src, dst, snap, s);
            var cellV := CellVertices(keys, s);
            LTemporal(cellV, n, s, b) <= TemporalCut(cellV, FactorAssignment(keys, n, s, dv, 1)) as real
            <==> TimelinesFit(cellV, n, b)
  {
    TemporalCutsAgree(src, dst, snap, n, s, dv, 1);
    PtsCorner(src, dst, snap, n, s);
    CellsSorted(Cells(src, dst, snap, s), n, s);
    BoundIsZeroIff(CellVertices(Cells(src, dst, snap, s), s), n, s, b);
  }

  /** The split of the cells over `dv` vertex blocks and `dt` snapshot blocks meets the bound. */
  ghost predicate MeetsBound(keys: seq<int>, n: nat, s: nat, b: nat, dv: nat, dt: nat)
    requires GoodKeys(keys, n, s) && dv > 0 && dt > 0 && b > 0
  {
    LTemporal(CellVertices(keys, s), n, s, b)
    <= TemporalCut(CellVertices(keys, s), FactorAssignment(keys, n, s, dv, dt)) as real
  }

  /** Every split of the family on `devices` devices meets the bound. */
  ghost predicate FamilyMeetsBound(keys: seq<int>, n: nat, s: nat, b: nat, devices: nat)
    requires GoodKeys(keys, n, s) && b > 0
  {
    forall dv: nat, dt: nat | dv > 0 && dt > 0 && dv * dt == devices :: MeetsBound(keys, n, s, b, dv, dt)
  }

  /** The claim about the whole family holds exactly when every timeline fits one budget. */
  lemma FamilyMeetsBoundIff(src: seq<nat>, dst: seq<nat>, snap: seq<nat>, n: nat, s: nat, devices: nat, b: nat)
    requires SnapGraph(src, dst, snap, n, s) && devices > 0 && b > 0
    ensures GoodKeys(Cells(src, dst, snap, s), n, s)
    ensures var keys := Cells(src, dst, snap, s);
            FamilyMeetsBound(keys, n, s, b, devices) <==> TimelinesFit(CellVertices(keys, s), n, b)
  {
    var keys := Cells(src, dst, snap, s);
    WholeTimelinesMeetBoundIff(src, dst, snap, n, s, devices, b);
    CellsSorted(keys, n, s);
    BoundIsZeroIff(CellVertices(keys, s), n, s, b);
    hide TimelinesFit, LTemporal, TemporalCut;
    if FamilyMeetsBound(keys, n, s, b, devices) {
      assert devices * 1 == devices;
      assert MeetsBound(keys, n, s, b, devices, 1);
    }
  }

  /** One vertex with a self-loop in each of three snapshots on two devices: the budget is two
      cells, the bound is 1, and the whole-timeline split has neither a spatial nor a temporal cut. */
  lemma BudgetIgnoredExample()
    ensures SnapGraph([0, 0, 0], [0, 0, 0], [0, 1, 2], 1, 3)
    ensures var keys := Cells([0, 0, 0], [0, 0, 0], [0, 1, 2], 3);
            && keys == [0, 1, 2] && Budget(|keys|, 2, 2) == 2
            && LTemporal(CellVertices(keys, 3), 1, 3, 2) == 1.0
            && TemporalCut(CellVertices(keys, 3), FactorAssignment(keys, 1, 3, 2, 1)) == 0
            && DualSpatialCut([0, 0, 0], [0, 0, 0], Range(1), 2) == 0
  {
    hide Block, ClampedBlock, FactorDevice, FactorAssignment, TemporalCut, DualTemporalCut, DualSpatialCut, Cells;
    hide LTemporal, Count;
    var loops := [0, 0, 0];
    ExampleCells();
    ExampleBound();
    TemporalCutsAgree(loops, loops, [0, 1, 2], 1, 3, 2, 1);
    PtsCorner(loops, loops, [0, 1, 2], 1, 3);
    SelfLoopsUncut(loops, Range(1), 2);
  }

  lemma {:induction false} SelfLoopsUncut(src: seq<nat>, newid: seq<nat>, dv: nat)
    requires |newid| > 0 && Below(src, |newid|)
    ensures DualSpatialCut(src, src, newid, dv) == 0
  {
    if src != [] {
      SelfLoopsUncut(src[..|src| - 1], newid, dv);
    }
  }

  lemma ExampleCells()
    ensures Cells([0, 0, 0], [0, 0, 0], [0, 1, 2], 3) == [0, 1, 2]
  {
    var all := CellKeys([0, 0, 0], [0, 1, 2], 3);
    assert all == [0, 1, 2];
    UniqueSame(all + all, all);
    IncreasingUnique(Unique(all), [0, 1, 2]);
  }

  lemma ExampleBound()
    ensures CellVertices([0, 1, 2], 3) == [0, 0, 0]
    ensures LTemporal([0, 0, 0], 1, 3, 2) == 1.0
  {
    ThreeCells();
    assert Rho(3, 3) == 1.0 && Span(3, 2) == 2;
    assert LTemporal([0, 0, 0], 0, 3, 2) == 0.0;
    hide Count;
  }

  lemma ThreeCells()
    ensures Count([0, 0, 0], 0) == 3
  {
    ConstantCount([0, 0, 0], 0);
  }

  lemma {:induction false} ConstantCount(w: seq<int>, x: int)
    requires forall i :: 0 <= i < |w| ==> w[i] == x
    ensures Count(w, x) == |w|
  {
    if w != [] {
      ConstantCount(w[..|w| - 1], x);
    }
  }
}
