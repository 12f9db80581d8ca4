/** Counting migrated vertices between two partitions whose device labels are arbitrary. */
module LabelMatching {
  import opened Arrays

  // ---------------------------------------------------------------- counting

  ghost predicate Labels(xs: seq<int>, p: nat) {
    forall i :: 0 <= i < |xs| ==> 0 <= xs[i] < p
  }

  /** `(a != b).sum()`. */
  function Mismatch(a: seq<int>, b: seq<int>): nat
    requires |a| == |b|
  {
    if a == [] then 0
    else
      var n := |a| - 1;
      Mismatch(a[..n], b[..n]) + if a[n] != b[n] then 1 else 0
  }

  /** `m[b]`. */
  function Relabel(m: seq<nat>, b: seq<int>): (r: seq<int>)
    requires Labels(b, |m|)
    ensures |r| == |b| && forall i :: 0 <= i < |r| ==> r[i] == m[b[i]]
  {
    seq(|b|, i requires 0 <= i < |b| => m[b[i]])
  }

  /** Vertices with new label `x` and old label `y`. */
  function Overlap(a: seq<int>, b: seq<int>, x: int, y: int): nat
    requires |a| == |b|
  {
    if a == [] then 0
    else
      var n := |a| - 1;
      Overlap(a[..n], b[..n], x, y) + if b[n] == x && a[n] == y then 1 else 0
  }

  lemma OverlapSnoc(a: seq<int>, b: seq<int>, u: int, w: int, x: int, y: int)
    requires |a| == |b|
    ensures Overlap(a + [u], b + [w], x, y) == Overlap(a, b, x, y) + if w == x && u == y then 1 else 0
  {
    assert (a + [u])[..|a|] == a && (b + [w])[..|b|] == b;
  }

  /** The vertices a relabelling keeps in place, label by label. */
  function Kept(a: seq<int>, b: seq<int>, m: seq<nat>, n: nat): nat
    requires |a| == |b| && n <= |m|
  {
    if n == 0 then 0 else Kept(a, b, m, n - 1) + Overlap(a, b, n - 1, m[n - 1])
  }

  lemma {:induction false} KeptSnoc(a: seq<int>, b: seq<int>, m: seq<nat>, n: nat, u: int, w: int)
    requires |a| == |b| && n <= |m|
    ensures Kept(a + [u], b + [w], m, n) == Kept(a, b, m, n) + if 0 <= w < n && u == m[w] then 1 else 0
  {
    if n > 0 {
      KeptSnoc(a, b, m, n - 1, u, w);
      OverlapSnoc(a, b, u, w, n - 1, m[n - 1]);
    }
  }

  lemma {:induction false} KeptEmpty(m: seq<nat>, n: nat)
    requires n <= |m|
    ensures Kept([], [], m, n) == 0
  {
    if n > 0 {
      KeptEmpty(m, n - 1);
    }
  }

  /** Everything that is not kept has moved. */
  lemma {:induction false} MovedOrKept(a: seq<int>, b: seq<int>, m: seq<nat>)
    requires |a| == |b| && Labels(b, |m|)
    ensures Mismatch(a, Relabel(m, b)) + Kept(a, b, m, |m|) == |a|
  {
    if a == [] {
      KeptEmpty(m, |m|);
    } else {
      var n := |a| - 1;
      MovedOrKept(a[..n], b[..n], m);
      KeptSnoc(a[..n], b[..n], m, |m|, a[n], b[n]);
      assert a == a[..n] + [a[n]] && b == b[..n] + [b[n]];
      assert Relabel(m, b)[..n] == Relabel(m, b[..n]);
    }
  }

  lemma {:induction false} KeptMonotone(a: seq<int>, b: seq<int>, m: seq<nat>, m': seq<nat>, n: nat)
    requires |a| == |b| && n <= |m| == |m'|
    requires forall x :: 0 <= x < n ==> Overlap(a, b, x, m[x]) <= Overlap(a, b, x, m'[x])
    ensures Kept(a, b, m, n) <= Kept(a, b, m', n)
  {
    if n > 0 {
      KeptMonotone(a, b, m, m', n - 1);
    }
  }

  // ---------------------------------------------------------------- all permutations

  function Without(items: seq<nat>, i: nat): (r: seq<nat>)
    requires i < |items|
    ensures |r| == |items| - 1
    ensures forall x :: x in r ==> x in items
    ensures forall x :: x in items ==> x == items[i] || x in r
  {
    assert items == items[..i] + [items[i]] + items[i + 1..];
    items[..i] + items[i + 1..]
  }

  function Prefixed(x: nat, ps: seq<seq<nat>>): (r: seq<seq<nat>>)
    ensures |r| == |ps| && forall k :: 0 <= k < |r| ==> r[k] == [x] + ps[k]
  {
    seq(|ps|, k requires 0 <= k < |ps| => [x] + ps[k])
  }

  /** `itertools.permutations(items)`, in its order. */
  function Permutations(items: seq<nat>): seq<seq<nat>>
    decreases |items|, |items| + 1
  {
    if items == [] then [[]] else PermutationsFrom(items, 0)
  }

  /** The permutations that start with one of `items[i..]`. */
  function PermutationsFrom(items: seq<nat>, i: nat): seq<seq<nat>>
    requires i <= |items|
    decreases |items|, |items| - i
  {
    if i == |items| then []
    else Prefixed(items[i], Permutations(Without(items, i))) + PermutationsFrom(items, i + 1)
  }

  ghost predicate Arrangement(p: seq<nat>, items: seq<nat>) {
    |p| == |items| && Distinct(p) && forall x :: x in p ==> x in items
  }

  lemma DistinctWithout(items: seq<nat>, i: nat)
    requires Distinct(items) && i < |items|
    ensures Distinct(Without(items, i)) && items[i] !in Without(items, i)
  {
  }

  lemma {:induction false} PermutationsSound(items: seq<nat>, p: seq<nat>)
    requires Distinct(items) && p in Permutations(items)
    ensures Arrangement(p, items)
    decreases |items|, |items| + 1
  {
    if items != [] {
      PermutationsFromSound(items, 0, p);
    }
  }

  lemma {:induction false} PermutationsFromSound(items: seq<nat>, i: nat, p: seq<nat>)
    requires Distinct(items) && i <= |items| && p in PermutationsFrom(items, i)
    ensures Arrangement(p, items)
    decreases |items|, |items| - i
  {
    if i < |items| {
      var head := Prefixed(items[i], Permutations(Without(items, i)));
      if p in head {
        var k :| 0 <= k < |head| && head[k] == p;
        var q := Permutations(Without(items, i))[k];
        DistinctWithout(items, i);
        PermutationsSound(Without(items, i), q);
        assert p == [items[i]] + q;
      } else {
        PermutationsFromSound(items, i + 1, p);
      }
    }
  }

  lemma {:induction false} PermutationsComplete(items: seq<nat>, p: seq<nat>)
    requires Distinct(items) && Arrangement(p, items)
    ensures p in Permutations(items)
    decreases |items|, |items| + 1
  {
    if items == [] {
      assert p == [];
    } else {
      assert p[0] in items;
      var k :| 0 <= k < |items| && items[k] == p[0];
      PermutationsFromComplete(items, 0, p, k);
    }
  }

  lemma {:induction false} PermutationsFromComplete(items: seq<nat>, i: nat, p: seq<nat>, k: nat)
    requires Distinct(items) && Arrangement(p, items) && i <= k < |items| && p[0] == items[k]
    ensures p in PermutationsFrom(items, i)
    decreases |items|, |items| - i
  {
    if i == k {
      var rest := Without(items, i);
      DistinctWithout(items, i);
      var q := p[1..];
      forall x | x in q ensures x in rest {
        var j :| 0 <= j < |q| && q[j] == x;
        assert p[j + 1] == x && x in items;
      }
      PermutationsComplete(rest, q);
      var t :| 0 <= t < |Permutations(rest)| && Permutations(rest)[t] == q;
      assert Prefixed(items[i], Permutations(rest))[t] == p;
    } else {
      PermutationsFromComplete(items, i + 1, p, k);
    }
  }

  /** Exactly the relabellings of `[0, n)` are enumerated. */
  lemma AllRelabellings(n: nat, p: seq<nat>)
    ensures p in Permutations(Range(n)) <==> Permutation(p, n)
  {
    if p in Permutations(Range(n)) {
      PermutationsSound(Range(n), p);
      forall i | 0 <= i < |p| ensures p[i] < n {
        assert p[i] in Range(n);
      }
    }
    if Permutation(p, n) {
      forall x | x in p ensures x in Range(n) {
        assert Range(n)[x] == x;
      }
      PermutationsComplete(Range(n), p);
    }
  }

  // ---------------------------------------------------------------- differences

  /** The vertices on which two partitions differ. */
  function Differences(a: seq<int>, b: seq<int>): (r: seq<nat>)
    requires |a| == |b|
    ensures Increasing(r) && |r| == Mismatch(a, b)
    ensures forall i :: 0 <= i < |r| ==> r[i] < |a| && a[r[i]] != b[r[i]]
  {
    if a == [] then []
    else
      var n := |a| - 1;
      var rest := Differences(a[..n], b[..n]);
      if a[n] != b[n] then rest + [n] else rest
  }

  lemma OnlyMoversDiffer(a: seq<int>, b: seq<int>, movers: seq<nat>)
    requires |a| == |b| && Distinct(movers)
    requires forall v :: 0 <= v < |a| && v !in movers ==> a[v] == b[v]
    ensures Mismatch(a, b) <= |movers|
  {
    InjectionCount(Differences(a, b), movers);
  }

  // ---------------------------------------------------------------- the two matchings

  /** The number of vertices that change device once `cur` is read through `m`. */
  function Moved(a: seq<int>, b: seq<int>, m: seq<nat>): nat
    requires |a| == |b| && Labels(b, |m|)
  {
    Mismatch(a, Relabel(m, b))
  }

  lemma {:induction false} MismatchBound(a: seq<int>, b: seq<int>)
    requires |a| == |b|
    ensures Mismatch(a, b) <= |a|
  {
    if a != [] {
      MismatchBound(a[..|a| - 1], b[..|b| - 1]);
    }
  }

  /** Brute force over every permutation, strict improvement only, starting from "all moved". */
  method ExactMap(a: seq<int>, b: seq<int>, p: nat) returns (m: seq<nat>)
    requires |a| == |b| && Labels(b, p)
    ensures Permutation(m, p)
    ensures forall q :: Permutation(q, p) ==> Moved(a, b, m) <= Moved(a, b, q)
  {
    var best := |a|;
    m := Range(p);
    MismatchBound(a, Relabel(m, b));
    var perms := Permutations(Range(p));
    forall q | q in perms ensures Permutation(q, p) {
      AllRelabellings(p, q);
    }
    for i := 0 to |perms|
      invariant Permutation(m, p) && Moved(a, b, m) <= best <= |a|
      invariant best == |a| || best == Moved(a, b, m)
      invariant forall j :: 0 <= j < i ==> Permutation(perms[j], p) && best <= Moved(a, b, perms[j])
    {
      assert perms[i] in perms;
      MismatchBound(a, Relabel(perms[i], b));
      var c := Moved(a, b, perms[i]);
      if c < best {
        best, m := c, perms[i];
      }
    }
    forall q | Permutation(q, p) ensures Moved(a, b, m) <= Moved(a, b, q) {
      AllRelabellings(p, q);
      var j :| 0 <= j < |perms| && perms[j] == q;
    }
  }

  /** The overlap matrix, one scattered increment per vertex. */
  method OverlapMatrix(a: seq<int>, b: seq<int>, p: nat) returns (grid: array2<nat>)
    requires |a| == |b| && Labels(a, p) && Labels(b, p)
    ensures fresh(grid) && grid.Length0 == p && grid.Length1 == p
    ensures forall x, y :: 0 <= x < p && 0 <= y < p ==> grid[x, y] == Overlap(a, b, x, y)
  {
    grid := new nat[p, p]((_, _) => 0);
    for i := 0 to |a|
      invariant forall x, y :: 0 <= x < p && 0 <= y < p ==> grid[x, y] == Overlap(a[..i], b[..i], x, y)
    {
      grid[b[i], a[i]] := grid[b[i], a[i]] + 1;
      forall x, y | 0 <= x < p && 0 <= y < p
        ensures Overlap(a[..i + 1], b[..i + 1], x, y)
             == Overlap(a[..i], b[..i], x, y) + if b[i] == x && a[i] == y then 1 else 0
      {
        assert a[..i + 1] == a[..i] + [a[i]] && b[..i + 1] == b[..i] + [b[i]];
        OverlapSnoc(a[..i], b[..i], a[i], b[i], x, y);
      }
    }
    assert a[..|a|] == a && b[..|b|] == b;
  }

  method GridRow(grid: array2<nat>, x: nat) returns (row: seq<nat>)
    requires x < grid.Length0
    ensures |row| == grid.Length1 && forall y :: 0 <= y < |row| ==> row[y] == grid[x, y]
  {
    row := [];
    for y := 0 to grid.Length1
      invariant |row| == y && forall z :: 0 <= z < y ==> row[z] == grid[x, z]
    {
      row := row + [grid[x, y]];
    }
  }

  /** `k` is the first old label that new label `x` overlaps most. */
  ghost predicate RowBest(a: seq<int>, b: seq<int>, p: nat, x: nat, k: nat)
    requires |a| == |b|
  {
    && k < p
    && (forall y :: 0 <= y < p ==> Overlap(a, b, x, y) <= Overlap(a, b, x, k))
    && (forall y :: 0 <= y < k ==> Overlap(a, b, x, y) < Overlap(a, b, x, k))
  }

  ghost predicate FirstBest(a: seq<int>, b: seq<int>, p: nat, m: seq<nat>)
    requires |a| == |b|
  {
    |m| == p && Below(m, p) && forall x :: 0 <= x < p ==> RowBest(a, b, p, x, m[x])
  }

  /** The greedy match: the first maximum of each row of the overlap matrix. */
  method GreedyMap(a: seq<int>, b: seq<int>, p: nat) returns (m: seq<nat>)
    requires |a| == |b| && Labels(a, p) && Labels(b, p)
    ensures FirstBest(a, b, p, m)
  {
    var grid := OverlapMatrix(a, b, p);
    m := [];
    for x := 0 to p
      invariant |m| == x && Below(m, p)
      invariant forall z, y :: 0 <= z < p && 0 <= y < p ==> grid[z, y] == Overlap(a, b, z, y)
      invariant forall z :: 0 <= z < x ==> RowBest(a, b, p, z, m[z])
    {
      var row := GridRow(grid, x);
      var k := ArgMax(row);
      forall y | 0 <= y < p
        ensures row[y] == Overlap(a, b, x, y)
      {
      }
      assert RowBest(a, b, p, x, k);
      m := m + [k];
    }
  }

  /** No map of the labels, bijective or not, moves fewer vertices than the greedy one. */
  lemma GreedyBeatsEveryMap(a: seq<int>, b: seq<int>, p: nat, m: seq<nat>, q: seq<nat>)
    requires |a| == |b| && Labels(b, p) && FirstBest(a, b, p, m)
    requires |q| == p && Below(q, p)
    ensures Moved(a, b, m) <= Moved(a, b, q)
  {
    KeptMonotone(a, b, q, m, p);
    MovedOrKept(a, b, m);
    MovedOrKept(a, b, q);
  }

  const EXACT_MATCH_MAX_DEV: nat := 6

  function Shared(prev: seq<int>, cur: seq<int>): nat {
    if |prev| <= |cur| then |prev| else |cur|
  }

  /** `moved` is what `migration` reports for two partitions: no relabelling moves fewer of the
      shared vertices, and it is reached by a permutation up to six devices, else by the greedy map. */
  ghost predicate MigrationCount(prev: seq<int>, cur: seq<int>, p: nat, moved: nat)
    requires Labels(prev, p) && Labels(cur, p)
  {
    var k := Shared(prev, cur);
    && (forall q :: Permutation(q, p) ==> moved <= Moved(prev[..k], cur[..k], q))
    && (k == 0 ==> moved == 0)
    && (k > 0 && p <= 6 ==> exists q :: Permutation(q, p) && moved == Moved(prev[..k], cur[..k], q))
    && (k > 0 && p > 6 ==>
          exists m :: FirstBest(prev[..k], cur[..k], p, m) && moved == Moved(prev[..k], cur[..k], m))
  }

  /** `m` is the label map `migration` applies to the current partition. */
  ghost predicate MapOf(prev: Option<seq<int>>, cur: seq<int>, p: nat, m: seq<nat>)
    requires Labels(cur, p) && (prev.Some? ==> Labels(prev.value, p))
  {
    if NothingShared(prev, cur) then m == Range(p)
    else
      var k := Shared(prev.value, cur);
      var a, b := prev.value[..k], cur[..k];
      if p <= 6 then
        Permutation(m, p) && forall q :: Permutation(q, p) ==> Moved(a, b, m) <= Moved(a, b, q)
      else FirstBest(a, b, p, m)
  }

  ghost predicate NothingShared(prev: Option<seq<int>>, cur: seq<int>) {
    prev.None? || Shared(prev.value, cur) == 0
  }

  /** The migration count and the relabelled partition; `m` is the label map applied. */
  method Migration(prev: Option<seq<int>>, cur: seq<int>, p: nat)
    returns (moved: nat, remapped: seq<int>, ghost m: seq<nat>)
    requires Labels(cur, p) && (prev.Some? ==> Labels(prev.value, p))
    ensures |m| == p && Below(m, p) && remapped == Relabel(m, cur)
    ensures MapOf(prev, cur, p, m)
    ensures prev.None? || Shared(prev.value, cur) == 0 ==> moved == 0 && remapped == cur
    ensures prev.Some? ==>
      var k := Shared(prev.value, cur);
      moved == Mismatch(prev.value[..k], remapped[..k])
    ensures prev.Some? ==>
      var k := Shared(prev.value, cur);
      forall q :: Permutation(q, p) ==> moved <= Moved(prev.value[..k], cur[..k], q)
    ensures prev.Some? ==> MigrationCount(prev.value, cur, p, moved)
    ensures p <= 6 ==> Permutation(m, p)
    ensures p > 6 && prev.Some? && Shared(prev.value, cur) > 0 ==>
      var k := Shared(prev.value, cur);
      FirstBest(prev.value[..k], cur[..k], p, m)
  {
    m := Range(p);
    if prev.None? {
      return 0, cur, m;
    }
    var k := Shared(prev.value, cur);
    if k == 0 {
      NoneShared(prev.value, cur, p);
      return 0, cur, m;
    }
    var a, b := prev.value[..k], cur[..k];
    var remap;
    if p <= EXACT_MATCH_MAX_DEV {
      remap := ExactMap(a, b, p);
    } else {
      remap := GreedyMap(a, b, p);
      forall q | Permutation(q, p) ensures Moved(a, b, remap) <= Moved(a, b, q) {
        GreedyBeatsEveryMap(a, b, p, remap, q);
      }
    }
    m := remap;
    remapped := Relabel(remap, cur);
    assert remapped[..k] == Relabel(remap, b);
    moved := Mismatch(a, remapped[..k]);
    assert moved == Moved(a, b, remap);
  }

  lemma NoneShared(prev: seq<int>, cur: seq<int>, p: nat)
    requires Labels(prev, p) && Labels(cur, p) && Shared(prev, cur) == 0
    ensures MigrationCount(prev, cur, p, 0)
  {
  }

  // ---------------------------------------------------------------- what a relabelling preserves

  /** No label in use other than `x` is mapped where `x` is. */
  ghost predicate NoneMerged(b: seq<int>, m: seq<nat>, x: nat)
    requires Labels(b, |m|) && x < |m|
  {
    forall i :: 0 <= i < |b| && m[b[i]] == m[x] ==> b[i] == x
  }

  lemma NoneMergedSnoc(b: seq<int>, m: seq<nat>, x: nat)
    requires Labels(b, |m|) && x < |m| && b != []
    ensures var n := |b| - 1;
            NoneMerged(b, m, x) <==> NoneMerged(b[..n], m, x) && (m[b[n]] == m[x] ==> b[n] == x)
  {
    var n := |b| - 1;
    assert forall i :: 0 <= i < n ==> b[..n][i] == b[i];
  }

  /** The load of a device survives exactly when no other label in use is merged into it. */
  lemma {:induction false} LoadSurvivesIff(b: seq<int>, m: seq<nat>, x: nat)
    requires Labels(b, |m|) && x < |m|
    ensures Count(Relabel(m, b), m[x]) >= Count(b, x)
    ensures Count(Relabel(m, b), m[x]) == Count(b, x) <==> NoneMerged(b, m, x)
  {
    if b == [] {
      assert Relabel(m, b) == [];
    } else {
      hide Count, NoneMerged;
      var n := |b| - 1;
      LoadSurvivesIff(b[..n], m, x);
      NoneMergedSnoc(b, m, x);
      assert b == b[..n] + [b[n]];
      assert Relabel(m, b) == Relabel(m, b[..n]) + [m[b[n]]];
      CountSnoc(b[..n], b[n], x);
      CountSnoc(Relabel(m, b[..n]), m[b[n]], m[x]);
    }
  }

  /** The cut survives exactly when no cut edge joins two labels that are merged. */
  lemma {:induction false} CutSurvivesIff(x: seq<int>, y: seq<int>, m: seq<nat>)
    requires |x| == |y| && Labels(x, |m|) && Labels(y, |m|)
    ensures Mismatch(Relabel(m, x), Relabel(m, y)) <= Mismatch(x, y)
    ensures Mismatch(Relabel(m, x), Relabel(m, y)) == Mismatch(x, y)
       <==> forall e :: 0 <= e < |x| && m[x[e]] == m[y[e]] ==> x[e] == y[e]
  {
    if x != [] {
      var n := |x| - 1;
      CutSurvivesIff(x[..n], y[..n], m);
      assert x == x[..n] + [x[n]] && y == y[..n] + [y[n]];
      assert Relabel(m, x)[..n] == Relabel(m, x[..n]) && Relabel(m, y)[..n] == Relabel(m, y[..n]);
    }
  }

  /** `count_cut`. */
  function CutEdges(assignment: seq<int>, src: seq<nat>, dst: seq<nat>): nat
    requires Graph(src, dst, |assignment|)
  {
    Mismatch(Select<int>(assignment, src), Select<int>(assignment, dst))
  }

  lemma SelectRelabel(assignment: seq<int>, idx: seq<nat>, m: seq<nat>)
    requires Labels(assignment, |m|) && Below(idx, |assignment|)
    ensures Labels(Select<int>(assignment, idx), |m|)
    ensures Relabel(m, Select<int>(assignment, idx)) == Select<int>(Relabel(m, assignment), idx)
  {
  }

  /** A bijective relabelling, the only kind used up to six devices, keeps every device's load
      (under its new name) and the cut. */
  lemma RelabellingPreserves(assignment: seq<int>, src: seq<nat>, dst: seq<nat>, m: seq<nat>)
    requires Labels(assignment, |m|) && Permutation(m, |m|)
    requires Graph(src, dst, |assignment|)
    ensures forall x :: 0 <= x < |m| ==> Count(Relabel(m, assignment), m[x]) == Count(assignment, x)
    ensures CutEdges(Relabel(m, assignment), src, dst) == CutEdges(assignment, src, dst)
  {
    LoadsUnderPermutation(assignment, m);
    hide Count;
    SelectRelabel(assignment, src, m);
    SelectRelabel(assignment, dst, m);
    CutSurvivesIff(Select<int>(assignment, src), Select<int>(assignment, dst), m);
  }

  lemma LoadsUnderPermutation(assignment: seq<int>, m: seq<nat>)
    requires Labels(assignment, |m|) && Permutation(m, |m|)
    ensures forall x :: 0 <= x < |m| ==> Count(Relabel(m, assignment), m[x]) == Count(assignment, x)
  {
    hide Count;
    forall x | 0 <= x < |m| ensures Count(Relabel(m, assignment), m[x]) == Count(assignment, x) {
      LoadSurvivesIff(assignment, m, x);
    }
  }

  lemma OverlapOfPair(u: int, v: int, x: int, y: int)
    ensures Overlap([0, 0], [u, v], x, y) == (if u == x && 0 == y then 1 else 0) + (if v == x && 0 == y then 1 else 0)
  {
    OverlapSnoc([0], [u], 0, v, x, y);
    OverlapSnoc([], [], 0, u, x, y);
    assert [0, 0] == [0] + [0] && [u, v] == [u] + [v] && [0] == [] + [0] && [u] == [] + [u];
  }

  // ---------------------------------------------------------------- where the greedy map merges

  /** New labels `x` and `y` overlap the same old label most. */
  ghost predicate SameBest(a: seq<int>, b: seq<int>, p: nat, x: nat, y: nat)
    requires |a| == |b|
  {
    exists z :: RowBest(a, b, p, x, z) && RowBest(a, b, p, y, z)
  }

  lemma RowBestUnique(a: seq<int>, b: seq<int>, p: nat, x: nat, y: nat, z: nat)
    requires |a| == |b| && RowBest(a, b, p, x, y) && RowBest(a, b, p, x, z)
    ensures y == z
  {
    assert Overlap(a, b, x, y) == Overlap(a, b, x, z);
  }

  lemma GreedyMergesIff(a: seq<int>, b: seq<int>, p: nat, m: seq<nat>, x: nat, y: nat)
    requires |a| == |b| && FirstBest(a, b, p, m) && x < p && y < p
    ensures |m| == p && (m[x] == m[y] <==> SameBest(a, b, p, x, y))
  {
    hide RowBest;
    assert RowBest(a, b, p, x, m[x]) && RowBest(a, b, p, y, m[y]);
    if SameBest(a, b, p, x, y) {
      var z :| RowBest(a, b, p, x, z) && RowBest(a, b, p, y, z);
      RowBestUnique(a, b, p, x, m[x], z);
      RowBestUnique(a, b, p, y, m[y], z);
    }
  }

  /** Every device in use keeps its load under its new name. */
  ghost predicate LoadsSurvive(cur: seq<int>, m: seq<nat>)
    requires Labels(cur, |m|)
  {
    forall i :: 0 <= i < |cur| ==> Count(Relabel(m, cur), m[cur[i]]) == Count(cur, cur[i])
  }

  /** No two labels in use overlap the same old label most: decided by the two partitions alone. */
  ghost predicate BestsDiffer(a: seq<int>, b: seq<int>, p: nat, cur: seq<int>)
    requires |a| == |b| && Labels(cur, p)
  {
    forall i :: 0 <= i < |cur| ==> BestApart(a, b, p, cur, cur[i])
  }

  ghost predicate BestApart(a: seq<int>, b: seq<int>, p: nat, cur: seq<int>, x: nat)
    requires |a| == |b| && Labels(cur, p)
  {
    forall j :: 0 <= j < |cur| && cur[j] != x ==> !SameBest(a, b, p, x, cur[j])
  }

  /** The same for the two ends of every edge. */
  ghost predicate EndsDiffer(a: seq<int>, b: seq<int>, p: nat, cur: seq<int>, src: seq<nat>, dst: seq<nat>)
    requires |a| == |b| && Labels(cur, p) && Graph(src, dst, |cur|)
  {
    forall e :: 0 <= e < |src| && cur[src[e]] != cur[dst[e]] ==> !SameBest(a, b, p, cur[src[e]], cur[dst[e]])
  }

  lemma GreedyLoadsIff(a: seq<int>, b: seq<int>, p: nat, m: seq<nat>, cur: seq<int>)
    requires |a| == |b| && FirstBest(a, b, p, m) && Labels(cur, p)
    ensures |m| == p && (LoadsSurvive(cur, m) <==> BestsDiffer(a, b, p, cur))
  {
    hide Count, BestApart, FirstBest;
    FirstBestSize(a, b, p, m);
    forall i | 0 <= i < |cur|
      ensures Count(Relabel(m, cur), m[cur[i]]) == Count(cur, cur[i]) <==> BestApart(a, b, p, cur, cur[i])
    {
      GreedyLoadIff(a, b, p, m, cur, cur[i]);
    }
  }

  lemma GreedyLoadIff(a: seq<int>, b: seq<int>, p: nat, m: seq<nat>, cur: seq<int>, x: nat)
    requires |a| == |b| && FirstBest(a, b, p, m) && Labels(cur, p) && x < p
    ensures |m| == p && (Count(Relabel(m, cur), m[x]) == Count(cur, x) <==> BestApart(a, b, p, cur, x))
  {
    hide Count, SameBest, FirstBest;
    FirstBestSize(a, b, p, m);
    LoadSurvivesIff(cur, m, x);
    forall j | 0 <= j < |cur| ensures m[x] == m[cur[j]] <==> SameBest(a, b, p, x, cur[j]) {
      GreedyMergesIff(a, b, p, m, x, cur[j]);
    }
  }

  lemma FirstBestSize(a: seq<int>, b: seq<int>, p: nat, m: seq<nat>)
    requires |a| == |b| && FirstBest(a, b, p, m)
    ensures |m| == p
  {
  }

  lemma GreedyCutIff(a: seq<int>, b: seq<int>, p: nat, m: seq<nat>, cur: seq<int>, src: seq<nat>, dst: seq<nat>)
    requires |a| == |b| && FirstBest(a, b, p, m) && Labels(cur, p) && Graph(src, dst, |cur|)
    ensures |m| == p
    ensures CutEdges(Relabel(m, cur), src, dst) == CutEdges(cur, src, dst) <==> EndsDiffer(a, b, p, cur, src, dst)
  {
    hide SameBest, FirstBest, Mismatch;
    FirstBestSize(a, b, p, m);
    SelectRelabel(cur, src, m);
    SelectRelabel(cur, dst, m);
    var x, y := Select<int>(cur, src), Select<int>(cur, dst);
    CutSurvivesIff(x, y, m);
    forall e | 0 <= e < |src| ensures m[x[e]] == m[y[e]] <==> SameBest(a, b, p, cur[src[e]], cur[dst[e]]) {
      GreedyMergesIff(a, b, p, m, x[e], y[e]);
    }
  }

  lemma MapIsBijection(prev: Option<seq<int>>, cur: seq<int>, p: nat, m: seq<nat>)
    requires Labels(cur, p) && (prev.Some? ==> Labels(prev.value, p)) && MapOf(prev, cur, p, m)
    requires p <= 6 || NothingShared(prev, cur)
    ensures Permutation(m, |m|) && |m| == p
  {
  }

  /** The relabelling keeps every load exactly when the devices are few, nothing is shared, or no
      two devices in use overlap the same earlier device most. */
  lemma MigrationKeepsLoadsIff(prev: Option<seq<int>>, cur: seq<int>, p: nat, m: seq<nat>)
    requires Labels(cur, p) && (prev.Some? ==> Labels(prev.value, p)) && MapOf(prev, cur, p, m)
    ensures |m| == p
    ensures LoadsSurvive(cur, m) <==>
            p <= 6 || NothingShared(prev, cur) ||
            BestsDiffer(prev.value[..Shared(prev.value, cur)], cur[..Shared(prev.value, cur)], p, cur)
  {
    hide BestsDiffer, Count;
    if p <= 6 || NothingShared(prev, cur) {
      MapIsBijection(prev, cur, p, m);
      LoadsUnderPermutation(cur, m);
    } else {
      var k := Shared(prev.value, cur);
      GreedyLoadsIff(prev.value[..k], cur[..k], p, m, cur);
    }
  }

  /** The same for the cut, edge by edge. */
  lemma MigrationKeepsCutIff(prev: Option<seq<int>>, cur: seq<int>, p: nat, m: seq<nat>, src: seq<nat>, dst: seq<nat>)
    requires Labels(cur, p) && (prev.Some? ==> Labels(prev.value, p)) && MapOf(prev, cur, p, m)
    requires Graph(src, dst, |cur|)
    ensures |m| == p
    ensures CutEdges(Relabel(m, cur), src, dst) == CutEdges(cur, src, dst) <==>
            p <= 6 || NothingShared(prev, cur) ||
            EndsDiffer(prev.value[..Shared(prev.value, cur)], cur[..Shared(prev.value, cur)], p, cur, src, dst)
  {
    hide EndsDiffer, Count;
    if p <= 6 || NothingShared(prev, cur) {
      MapIsBijection(prev, cur, p, m);
      RelabellingPreserves(cur, src, dst, m);
    } else {
      var k := Shared(prev.value, cur);
      GreedyCutIff(prev.value[..k], cur[..k], p, m, cur, src, dst);
    }
  }

  /** Above six devices the map can merge devices: two vertices that were together and are now
      apart are reported as unmoved, and both end on device 0. */
  lemma GreedyMergesDevices(p: nat, m: seq<nat>, q: seq<nat>)
    requires p > 6 && FirstBest([0, 0], [0, 1], p, m)
    ensures Relabel(m, [0, 1]) == [0, 0] && Moved([0, 0], [0, 1], m) == 0
    ensures Permutation(q, p) ==> Moved([0, 0], [0, 1], q) >= 1
  {
    var a, b := [0, 0], [0, 1];
    assert RowBest(a, b, p, 0, m[0]) && RowBest(a, b, p, 1, m[1]);
    OverlapOfPair(0, 1, 0, 0);
    OverlapOfPair(0, 1, 0, m[0]);
    OverlapOfPair(0, 1, 1, 0);
    OverlapOfPair(0, 1, 1, m[1]);
    MismatchOfPair(m[b[0]], m[b[1]]);
    assert Relabel(m, b) == [m[0], m[1]];
    if Permutation(q, p) {
      assert Relabel(q, b) == [q[0], q[1]];
      MismatchOfPair(q[0], q[1]);
    }
  }

  /** The map for those two vertices sends every label to device 0. */
  lemma PairMap(p: nat) returns (m: seq<nat>)
    requires p > 6
    ensures |m| == p && MapOf(Some([0, 0]), [0, 1], p, m) && Relabel(m, [0, 1]) == [0, 0]
  {
    var a, b := [0, 0], [0, 1];
    m := seq(p, _ => 0);
    forall x | 0 <= x < p ensures RowBest(a, b, p, x, m[x]) {
      forall y | 0 <= y < p ensures Overlap(a, b, x, y) <= Overlap(a, b, x, 0) {
        OverlapOfPair(0, 1, x, y);
        OverlapOfPair(0, 1, x, 0);
      }
    }
    var prev: seq<int> := [0, 0];
    assert prev[..2] == a && b[..2] == b;
  }

  ghost predicate AlwaysKeepsLoads(p: nat) {
    forall prev: Option<seq<int>>, cur: seq<int>, m: seq<nat> |
      Labels(cur, p) && (prev.Some? ==> Labels(prev.value, p)) && |m| == p && MapOf(prev, cur, p, m)
      :: LoadsSurvive(cur, m)
  }

  ghost predicate AlwaysKeepsCut(p: nat) {
    forall prev: Option<seq<int>>, cur: seq<int>, m: seq<nat>, src: seq<nat>, dst: seq<nat> |
      Labels(cur, p) && (prev.Some? ==> Labels(prev.value, p)) && |m| == p && MapOf(prev, cur, p, m)
      && Graph(src, dst, |cur|)
      :: CutEdges(Relabel(m, cur), src, dst) == CutEdges(cur, src, dst)
  }

  /** Over all partitions and graphs, loads and cut survive exactly up to six devices. */
  lemma GuardIsExact(p: nat)
    ensures AlwaysKeepsLoads(p) <==> p <= 6
    ensures AlwaysKeepsCut(p) <==> p <= 6
  {
    if p <= 6 {
      SmallKeepsBoth(p);
    } else {
      LargeLosesBoth(p);
    }
  }

  lemma SmallKeepsBoth(p: nat)
    requires p <= 6
    ensures AlwaysKeepsLoads(p) && AlwaysKeepsCut(p)
  {
    hide MapOf, LoadsSurvive, CutEdges;
    forall prev: Option<seq<int>>, cur: seq<int>, m: seq<nat> |
      Labels(cur, p) && (prev.Some? ==> Labels(prev.value, p)) && |m| == p && MapOf(prev, cur, p, m)
      ensures LoadsSurvive(cur, m)
    {
      MigrationKeepsLoadsIff(prev, cur, p, m);
    }
    forall prev: Option<seq<int>>, cur: seq<int>, m: seq<nat>, src: seq<nat>, dst: seq<nat> |
      Labels(cur, p) && (prev.Some? ==> Labels(prev.value, p)) && |m| == p && MapOf(prev, cur, p, m)
      && Graph(src, dst, |cur|)
      ensures CutEdges(Relabel(m, cur), src, dst) == CutEdges(cur, src, dst)
    {
      MigrationKeepsCutIff(prev, cur, p, m, src, dst);
    }
  }

  lemma LargeLosesBoth(p: nat)
    requires p > 6
    ensures !AlwaysKeepsLoads(p) && !AlwaysKeepsCut(p)
  {
    hide MapOf, LoadsSurvive, CutEdges, Relabel;
    var m := PairMap(p);
    PairLoads(m);
    assert Labels([0, 1], p) && Labels([0, 0], p) && Graph([0], [1], |[0, 1]|);
  }

  /** With both on device 0 the load of device 0 doubles and the cut edge is lost. */
  lemma PairLoads(m: seq<nat>)
    requires |m| > 1 && Relabel(m, [0, 1]) == [0, 0]
    ensures !LoadsSurvive([0, 1], m)
    ensures CutEdges(Relabel(m, [0, 1]), [0], [1]) != CutEdges([0, 1], [0], [1])
  {
    var cur, both: seq<int> := [0, 1], [0, 0];
    assert both[0] == m[0];
    LoadSurvivesIff(cur, m, 0);
    assert m[cur[1]] == m[0] && cur[1] != 0;
    assert m[cur[0]] == m[0];
    assert Select<int>(cur, [0]) == [0] && Select<int>(cur, [1]) == [1];
    assert Select<int>(both, [0]) == [0] && Select<int>(both, [1]) == [0];
  }

  lemma MismatchOfPair(u: int, v: int)
    ensures Mismatch([0, 0], [u, v]) == (if u != 0 then 1 else 0) + (if v != 0 then 1 else 0)
  {
    var a, b: seq<int> := [0, 0], [u, v];
    assert a[..1] == [0] && b[..1] == [u];
    assert Mismatch([0], [u]) == if u != 0 then 1 else 0;
  }
}
