/** The array vocabulary of the scripts: selecting by an index list, `nonzero`, `bincount`,
    stable `argsort`, `unique` and block concatenation, each with the facts that the
    algorithms built on top of them need. */
module Arrays {

  datatype Option<T> = None | Some(value: T)

  function Smaller(a: int, b: int): (r: int)
    ensures r <= a && r <= b && (r == a || r == b)
  {
    if a <= b then a else b
  }

  function Larger(a: int, b: int): (r: int)
    ensures r >= a && r >= b && (r == a || r == b)
  {
    if a >= b then a else b
  }

  // ---------------------------------------------------------------- indexing

  /** `xs[idx]` for an index array. */
  function Select<T>(xs: seq<T>, idx: seq<nat>): (r: seq<T>)
    requires forall i :: 0 <= i < |idx| ==> idx[i] < |xs|
    ensures |r| == |idx|
    ensures forall i :: 0 <= i < |idx| ==> r[i] == xs[idx[i]]
  {
    seq(|idx|, i requires 0 <= i < |idx| => xs[idx[i]])
  }

  ghost predicate Below(xs: seq<nat>, n: nat) {
    forall i :: 0 <= i < |xs| ==> xs[i] < n
  }

  lemma BelowAt(xs: seq<nat>, n: nat)
    requires Below(xs, n)
    ensures forall i :: 0 <= i < |xs| ==> xs[i] < n
  {
  }

  ghost predicate Distinct<T>(xs: seq<T>) {
    forall i, j :: 0 <= i < j < |xs| ==> xs[i] != xs[j]
  }

  ghost predicate Permutation(p: seq<nat>, n: nat) {
    |p| == n && Below(p, n) && Distinct(p)
  }

  /** The ends of every edge are vertices. */
  ghost predicate Graph(u: seq<nat>, v: seq<nat>, n: nat) {
    |u| == |v| && Below(u, n) && Below(v, n)
  }

  ghost predicate Increasing(xs: seq<int>) {
    forall i, j :: 0 <= i < j < |xs| ==> xs[i] < xs[j]
  }

  /** `arange(n)`. */
  function Range(n: nat): (r: seq<nat>)
    ensures |r| == n && forall i :: 0 <= i < n ==> r[i] == i
  {
    seq(n, i => i)
  }

  // ---------------------------------------------------------------- nonzero and bincount

  /** `nonzero(keys == k)`: the ascending positions that hold `k`. */
  function Indices(keys: seq<int>, k: int): (r: seq<nat>)
    ensures forall i :: 0 <= i < |r| ==> r[i] < |keys| && keys[r[i]] == k
    ensures Increasing(r)
    ensures forall p :: 0 <= p < |keys| && keys[p] == k ==> p in r
  {
    if keys == [] then []
    else
      var n := |keys| - 1;
      var front := Indices(keys[..n], k);
      if keys[n] == k then front + [n] else front
  }

  /** `nonzero(mask)`. */
  function Where(mask: seq<bool>): (r: seq<nat>)
    ensures forall i :: 0 <= i < |r| ==> r[i] < |mask| && mask[r[i]]
    ensures Increasing(r)
    ensures forall p :: 0 <= p < |mask| && mask[p] ==> p in r
  {
    var bits := seq(|mask|, i requires 0 <= i < |mask| => if mask[i] then 1 else 0);
    assert forall p :: 0 <= p < |mask| && mask[p] ==> bits[p] == 1;
    Indices(bits, 1)
  }

  /** `bincount(keys)[k]`. */
  function Count(keys: seq<int>, k: int): nat {
    |Indices(keys, k)|
  }

  lemma CountSnoc(keys: seq<int>, x: int, k: int)
    ensures Indices(keys + [x], k) == if x == k then Indices(keys, k) + [|keys|] else Indices(keys, k)
    ensures Count(keys + [x], k) == Count(keys, k) + if x == k then 1 else 0
  {
    assert (keys + [x])[..|keys|] == keys;
  }

  /** Overwriting one entry moves one unit of count. */
  lemma {:induction false} CountUpdate(keys: seq<int>, p: nat, x: int, k: int)
    requires p < |keys|
    ensures Count(keys[p := x], k) == Count(keys, k) - (if keys[p] == k then 1 else 0) + (if x == k then 1 else 0)
  {
    var n := |keys| - 1;
    if p == n {
      assert keys[p := x][..n] == keys[..n];
    } else {
      CountUpdate(keys[..n], p, x, k);
      assert keys[p := x][..n] == keys[..n][p := x];
    }
  }

  lemma {:induction false} CountConcat(a: seq<int>, b: seq<int>, k: int)
    ensures Count(a + b, k) == Count(a, k) + Count(b, k)
  {
    if b == [] {
      assert a + b == a;
    } else {
      var n := |b| - 1;
      CountConcat(a, b[..n], k);
      assert (a + b)[..|a + b| - 1] == a + b[..n];
    }
  }

  /** What stands, in a second list, where the first holds `k`. */
  function ValuesAt<T>(keys: seq<int>, xs: seq<T>, k: int): seq<T>
    requires |keys| == |xs|
  {
    Select<T>(xs, Indices(keys, k))
  }

  lemma ValuesAtSnoc<T>(keys: seq<int>, x: int, xs: seq<T>, y: T, k: int)
    requires |keys| == |xs|
    ensures ValuesAt<T>(keys + [x], xs + [y], k) == ValuesAt<T>(keys, xs, k) + if x == k then [y] else []
  {
    hide Indices, Count;
    CountSnoc(keys, x, k);
    SelectLonger(xs, y, Indices(keys, k));
  }

  /** What stands where two lists put end to end hold `k`: what stands there in the first, then in
      the second. */
  lemma {:induction false} ValuesAtConcat<T>(a: seq<int>, b: seq<int>, c: seq<T>, d: seq<T>, k: int)
    requires |a| == |c| && |b| == |d|
    ensures ValuesAt<T>(a + b, c + d, k) == ValuesAt<T>(a, c, k) + ValuesAt<T>(b, d, k)
  {
    hide ValuesAt;
    if b == [] {
      assert a + b == a && c + d == c;
      NoValues(b, d, k);
    } else {
      var n := |b| - 1;
      ValuesAtConcat(a, b[..n], c, d[..n], k);
      ValuesAtSnoc(a + b[..n], b[n], c + d[..n], d[n], k);
      ValuesAtSnoc(b[..n], b[n], d[..n], d[n], k);
      assert a + b == a + b[..n] + [b[n]] && c + d == c + d[..n] + [d[n]];
      assert b == b[..n] + [b[n]] && d == d[..n] + [d[n]];
    }
  }

  lemma NoValues<T>(keys: seq<int>, xs: seq<T>, k: int)
    requires |keys| == |xs| == 0
    ensures ValuesAt<T>(keys, xs, k) == []
  {
  }

  lemma SelectLonger<T>(c: seq<T>, x: T, at: seq<nat>)
    requires forall i :: 0 <= i < |at| ==> at[i] < |c|
    ensures Select<T>(c + [x], at) == Select<T>(c, at)
    ensures Select<T>(c + [x], at + [|c|]) == Select<T>(c, at) + [x]
  {
  }

  lemma {:induction false} CountAbsent(keys: seq<int>, k: int)
    requires k !in keys
    ensures Count(keys, k) == 0
  {
    if keys != [] {
      CountAbsent(keys[..|keys| - 1], k);
    }
  }

  lemma CountPositive(keys: seq<int>, p: nat)
    requires p < |keys|
    ensures Count(keys, keys[p]) > 0
  {
    assert p in Indices(keys, keys[p]);
  }

  // ---------------------------------------------------------------- finite sums

  function Sum(xs: seq<int>): int {
    if xs == [] then 0 else Sum(xs[..|xs| - 1]) + xs[|xs| - 1]
  }

  lemma SumSnoc(xs: seq<int>, x: int)
    ensures Sum(xs + [x]) == Sum(xs) + x
  {
    assert (xs + [x])[..|xs|] == xs;
  }

  lemma {:induction false} SumConcat(a: seq<int>, b: seq<int>)
    ensures Sum(a + b) == Sum(a) + Sum(b)
  {
    if b == [] {
      assert a + b == a;
    } else {
      var n := |b| - 1;
      SumConcat(a, b[..n]);
      assert (a + b)[..|a + b| - 1] == a + b[..n];
    }
  }

  lemma {:induction false} SumUpdate(xs: seq<int>, p: nat, x: int)
    requires p < |xs|
    ensures Sum(xs[p := x]) == Sum(xs) - xs[p] + x
  {
    var n := |xs| - 1;
    if p == n {
      assert xs[p := x][..n] == xs[..n];
    } else {
      SumUpdate(xs[..n], p, x);
      assert xs[p := x][..n] == xs[..n][p := x];
    }
  }

  lemma {:induction false} SumMonotone(a: seq<int>, b: seq<int>)
    requires |a| == |b|
    requires forall i :: 0 <= i < |a| ==> a[i] <= b[i]
    ensures Sum(a) <= Sum(b)
  {
    if a != [] {
      SumMonotone(a[..|a| - 1], b[..|b| - 1]);
    }
  }

  lemma {:induction false} SumConst(xs: seq<int>, c: int)
    requires forall i :: 0 <= i < |xs| ==> xs[i] == c
    ensures Sum(xs) == c * |xs|
  {
    if xs != [] {
      SumConst(xs[..|xs| - 1], c);
    }
  }

  /** The histogram of keys drawn from `[0, m)`. */
  function Histogram(keys: seq<int>, m: nat): (r: seq<int>)
    ensures |r| == m && forall k :: 0 <= k < m ==> r[k] == Count(keys, k)
  {
    seq(m, k => Count(keys, k))
  }

  lemma HistogramEmpty(m: nat)
    ensures Sum(Histogram([], m)) == 0
  {
    SumConst(Histogram([], m), 0);
  }

  /** A histogram over all the labels sums to the number of keys. */
  lemma {:induction false} HistogramTotal(keys: seq<int>, m: nat)
    requires forall i :: 0 <= i < |keys| ==> 0 <= keys[i] < m
    ensures Sum(Histogram(keys, m)) == |keys|
  {
    hide Sum, Histogram;
    if keys == [] {
      HistogramEmpty(m);
    } else {
      var n := |keys| - 1;
      HistogramTotal(keys[..n], m);
      assert keys == keys[..n] + [keys[n]];
      HistogramSnoc(keys[..n], keys[n], m);
    }
  }

  lemma HistogramSnoc(keys: seq<int>, k: int, m: nat)
    requires 0 <= k < m
    ensures Histogram(keys + [k], m) == Histogram(keys, m)[k := Histogram(keys, m)[k] + 1]
    ensures Sum(Histogram(keys + [k], m)) == Sum(Histogram(keys, m)) + 1
  {
    var h := Histogram(keys, m);
    forall j | 0 <= j < m ensures Histogram(keys + [k], m)[j] == h[k := h[k] + 1][j] {
      CountSnoc(keys, k, j);
    }
    assert Histogram(keys + [k], m) == h[k := h[k] + 1];
    SumUpdate(h, k, h[k] + 1);
  }

  // ---------------------------------------------------------------- argmax and argmin

  /** The position of the first maximum. */
  function FirstMax(xs: seq<int>): (k: nat)
    requires xs != []
    ensures k < |xs| && forall i :: 0 <= i < |xs| ==> xs[i] <= xs[k]
    ensures forall i :: 0 <= i < k ==> xs[i] < xs[k]
  {
    var n := |xs| - 1;
    if n == 0 then 0
    else
      var front := FirstMax(xs[..n]);
      if xs[n] > xs[front] then n else front
  }

  /** `argmax`: the position of the first maximum. */
  method ArgMax(xs: seq<int>) returns (k: nat)
    requires xs != []
    ensures k == FirstMax(xs)
  {
    k := 0;
    for i := 1 to |xs|
      invariant k == FirstMax(xs[..i])
    {
      assert xs[..i + 1][..i] == xs[..i];
      if xs[i] > xs[k] {
        k := i;
      }
    }
    assert xs[..|xs|] == xs;
  }

  // ---------------------------------------------------------------- stable argsort

  function Negated(xs: seq<int>): (r: seq<int>)
    ensures |r| == |xs| && forall i :: 0 <= i < |r| ==> r[i] == -xs[i]
  {
    seq(|xs|, i requires 0 <= i < |xs| => -xs[i])
  }

  /** Position `a` sorts before position `b`: smaller key, ties by position. */
  predicate Precedes(keys: seq<int>, a: nat, b: nat)
    requires a < |keys| && b < |keys|
  {
    keys[a] < keys[b] || (keys[a] == keys[b] && a < b)
  }

  ghost predicate SortedBy(keys: seq<int>, o: seq<nat>) {
    && Below(o, |keys|)
    && forall i, j :: 0 <= i < j < |o| ==> Precedes(keys, o[i], o[j])
  }

  function InsertSorted(keys: seq<int>, o: seq<nat>, x: nat): (r: seq<nat>)
    requires x < |keys| && SortedBy(keys, o)
    requires forall i :: 0 <= i < |o| ==> o[i] < x
    ensures SortedBy(keys, r) && |r| == |o| + 1
    ensures forall p: nat :: p in r <==> p == x || p in o
  {
    if o == [] || keys[o[|o| - 1]] <= keys[x] then o + [x]
    else
      var l := |o| - 1;
      assert o == o[..l] + [o[l]];
      var front := InsertSorted(keys, o[..l], x);
      SortedSnoc(keys, o, x, front);
      front + [o[l]]
  }

  lemma SortedSnoc(keys: seq<int>, o: seq<nat>, x: nat, front: seq<nat>)
    requires o != [] && x < |keys| && SortedBy(keys, o) && SortedBy(keys, front)
    requires forall p: nat :: p in front <==> p == x || p in o[..|o| - 1]
    requires keys[x] < keys[o[|o| - 1]]
    ensures SortedBy(keys, front + [o[|o| - 1]])
  {
    forall i | 0 <= i < |front| ensures Precedes(keys, front[i], o[|o| - 1]) {
      assert front[i] in front;
    }
  }

  /** `argsort(keys, kind="stable")` of the first `n` keys. */
  function ArgsortPrefix(keys: seq<int>, n: nat): (r: seq<nat>)
    requires n <= |keys|
    ensures SortedBy(keys, r) && |r| == n
    ensures forall p: nat :: p in r <==> p < n
  {
    if n == 0 then []
    else
      var front := ArgsortPrefix(keys, n - 1);
      assert forall i :: 0 <= i < |front| ==> front[i] in front;
      InsertSorted(keys, front, n - 1)
  }

  /** The stable argsort: every position exactly once, keys nondecreasing, ties in position order. */
  function Argsort(keys: seq<int>): (r: seq<nat>)
    ensures SortedBy(keys, r) && |r| == |keys|
    ensures forall p: nat :: p in r <==> p < |keys|
  {
    ArgsortPrefix(keys, |keys|)
  }

  lemma SameElementsEmpty<T>(a: seq<T>, b: seq<T>)
    requires forall x :: x in a <==> x in b
    ensures a == [] <==> b == []
  {
    if a != [] {
      assert a[0] in a;
    }
    if b != [] {
      assert b[0] in b;
    }
  }

  lemma FrontElements(a: seq<int>)
    requires a != [] && forall i :: 0 <= i < |a| - 1 ==> a[i] != a[|a| - 1]
    ensures forall x :: x in a[..|a| - 1] <==> x in a && x != a[|a| - 1]
  {
    var front, last := a[..|a| - 1], a[|a| - 1];
    forall x ensures x in front <==> x in a && x != last {
      if x in front {
        var i :| 0 <= i < |front| && front[i] == x;
        assert a[i] == x;
      }
      if x in a && x != last {
        var i :| 0 <= i < |a| && a[i] == x;
        assert front[i] == x;
      }
    }
  }

  /** The stable order of a set of positions is unique. */
  lemma {:induction false} SortedUnique(keys: seq<int>, a: seq<nat>, b: seq<nat>)
    requires SortedBy(keys, a) && SortedBy(keys, b)
    requires forall p: nat :: p in a <==> p in b
    ensures a == b
  {
    SameElementsEmpty(a, b);
    if a != [] {
      var m, n := |a| - 1, |b| - 1;
      assert a[m] in a && a[m] in b;
      assert b[n] in b && b[n] in a;
      assert a[m] == b[n];
      FrontElements(a);
      FrontElements(b);
      forall p: nat ensures p in a[..m] <==> p in b[..n] {
        assert p in a <==> p in b;
      }
      SortedUnique(keys, a[..m], b[..n]);
      assert a == a[..m] + [a[m]] && b == b[..n] + [b[n]];
    }
  }

  // ---------------------------------------------------------------- block concatenation

  /** `concatenate(blocks)`. */
  function Concat<T>(blocks: seq<seq<T>>): seq<T> {
    if blocks == [] then [] else Concat(blocks[..|blocks| - 1]) + blocks[|blocks| - 1]
  }

  /** The start of block `k` in the concatenation. */
  function Offset<T>(blocks: seq<seq<T>>, k: nat): nat
    requires k <= |blocks|
  {
    |Concat(blocks[..k])|
  }

  lemma ConcatSnoc<T>(blocks: seq<seq<T>>, b: seq<T>)
    ensures Concat(blocks + [b]) == Concat(blocks) + b
  {
    assert (blocks + [b])[..|blocks|] == blocks;
  }

  /** Block `k` occupies `[Offset(k), Offset(k) + |blocks[k]|)`. */
  lemma {:induction false} ConcatBlock<T>(blocks: seq<seq<T>>, k: nat)
    requires k < |blocks|
    ensures Offset(blocks, k + 1) == Offset(blocks, k) + |blocks[k]| <= |Concat(blocks)|
    ensures Concat(blocks)[Offset(blocks, k)..Offset(blocks, k + 1)] == blocks[k]
  {
    var n := |blocks| - 1;
    assert blocks[..k + 1][..k] == blocks[..k];
    if k < n {
      ConcatBlock(blocks[..n], k);
      assert blocks[..n][..k] == blocks[..k] && blocks[..n][..k + 1] == blocks[..k + 1];
    } else {
      assert blocks[..k + 1] == blocks;
    }
  }

  /** Every element of the concatenation comes from some block. */
  lemma {:induction false} ConcatSource<T>(blocks: seq<seq<T>>, i: nat) returns (k: nat, j: nat)
    requires i < |Concat(blocks)|
    ensures k < |blocks| && j < |blocks[k]|
    ensures i == Offset(blocks, k) + j && Concat(blocks)[i] == blocks[k][j]
  {
    var n := |blocks| - 1;
    var front := Concat(blocks[..n]);
    if i < |front| {
      k, j := ConcatSource(blocks[..n], i);
      assert blocks[..n][..k] == blocks[..k];
    } else {
      k, j := n, i - |front|;
    }
  }

  /** Selecting through a concatenation of index blocks is concatenating the selections. */
  lemma {:induction false} SelectConcat<T>(xs: seq<T>, blocks: seq<seq<nat>>, parts: seq<seq<T>>)
    requires |blocks| == |parts|
    requires forall k :: 0 <= k < |blocks| ==> Below(blocks[k], |xs|) && parts[k] == Select(xs, blocks[k])
    ensures Below(Concat(blocks), |xs|)
    ensures Select(xs, Concat(blocks)) == Concat(parts)
  {
    if blocks != [] {
      var n := |blocks| - 1;
      SelectConcat(xs, blocks[..n], parts[..n]);
      SelectAppend(xs, Concat(blocks[..n]), blocks[n]);
    }
  }

  lemma SelectAppend<T>(xs: seq<T>, a: seq<nat>, b: seq<nat>)
    requires Below(a, |xs|) && Below(b, |xs|)
    ensures Below(a + b, |xs|) && Select(xs, a + b) == Select(xs, a) + Select(xs, b)
  {
  }

  // ---------------------------------------------------------------- buckets: argsort by a small key

  /** The positions grouped by label `0, 1, ..`, each group ascending. */
  function Buckets(keys: seq<int>, m: nat): (r: seq<seq<nat>>)
    ensures |r| == m && forall k :: 0 <= k < m ==> r[k] == Indices(keys, k)
  {
    seq(m, k => Indices(keys, k))
  }

  lemma {:induction false} BucketsSorted(keys: seq<int>, m: nat)
    ensures SortedBy(keys, Concat<nat>(Buckets(keys, m)))
    ensures forall p: nat :: p in Concat<nat>(Buckets(keys, m)) <==> p < |keys| && 0 <= keys[p] < m
  {
    if m > 0 {
      BucketsSorted(keys, m - 1);
      var b := Buckets(keys, m);
      assert b[..m - 1] == Buckets(keys, m - 1);
      var front := Concat<nat>(b[..m - 1]);
      assert forall i :: 0 <= i < |front| ==> front[i] in front;
    }
  }

  /** With labels in `[0, m)` the stable argsort is the concatenation of the groups. */
  lemma ArgsortIsBuckets(keys: seq<int>, m: nat)
    requires forall i :: 0 <= i < |keys| ==> 0 <= keys[i] < m
    ensures Argsort(keys) == Concat<nat>(Buckets(keys, m))
  {
    BucketsSorted(keys, m);
    SortedUnique(keys, Argsort(keys), Concat<nat>(Buckets(keys, m)));
  }

  /** Row `k` of the sorted array starts at the number of smaller labels and holds group `k`. */
  lemma ArgsortRow(keys: seq<int>, m: nat, k: nat)
    requires forall i :: 0 <= i < |keys| ==> 0 <= keys[i] < m
    requires k < m
    ensures Offset<nat>(Buckets(keys, m), k + 1) == Offset<nat>(Buckets(keys, m), k) + Count(keys, k) <= |keys|
    ensures Argsort(keys)[Offset<nat>(Buckets(keys, m), k)..Offset<nat>(Buckets(keys, m), k + 1)] == Indices(keys, k)
  {
    ArgsortIsBuckets(keys, m);
    ConcatBlock<nat>(Buckets(keys, m), k);
  }

  /** Distinct values in `[0, |o|)` reach every value. */
  lemma {:induction false} SurjectiveByCount(o: seq<nat>)
    requires Below(o, |o|) && Distinct(o)
    ensures forall v: nat :: v < |o| ==> v in o
  {
    var all := Range(|o|);
    DistinctCardinality(o);
    DistinctCardinality(all);
    var s, t := set i | 0 <= i < |o| :: o[i], set i | 0 <= i < |o| :: all[i];
    forall x | x in s ensures x in t {
      assert x == all[x];
    }
    SubsetFull(s, t);
    forall v: nat | v < |o| ensures v in o {
      assert all[v] in t;
    }
  }

  lemma {:induction false} DistinctCardinality<T>(o: seq<T>)
    requires Distinct(o)
    ensures |set i | 0 <= i < |o| :: o[i]| == |o|
  {
    var s := set i | 0 <= i < |o| :: o[i];
    if o != [] {
      var n := |o| - 1;
      DistinctCardinality(o[..n]);
      var s' := set i | 0 <= i < n :: o[..n][i];
      assert s == s' + {o[n]};
    }
  }

  lemma SubsetFull<T>(a: set<T>, b: set<T>)
    requires a <= b && |a| >= |b|
    ensures a == b
  {
    assert b == a + (b - a);
    assert |b - a| == 0;
  }

  /** Placing distinct items of one list inside another bounds their number. */
  lemma InjectionCount(f: seq<nat>, g: seq<nat>)
    requires Distinct(f) && Distinct(g) && forall t :: 0 <= t < |f| ==> f[t] in g
    ensures |f| <= |g|
  {
    DistinctCardinality(f);
    DistinctCardinality(g);
    var s, t := set i | 0 <= i < |f| :: f[i], set i | 0 <= i < |g| :: g[i];
    forall x | x in s ensures x in t {
      assert x in g;
    }
    SubsetSize(s, t);
  }

  lemma SubsetSize<T>(s: set<T>, t: set<T>)
    requires s <= t
    ensures |s| <= |t|
  {
    assert t == s + (t - s);
  }

  /** Sorting a permutation by value puts value `v` at place `v`. */
  lemma {:induction false} InverseSorted(o: seq<nat>, inv: seq<nat>, v: nat)
    requires Below(o, |o|) && Distinct(o) && |inv| == |o| && v < |o|
    requires SortedBy(o, inv)
    ensures o[inv[v]] == v
  {
    var w: seq<int> := seq(|o|, i requires 0 <= i < |o| => o[inv[i]]);
    assert Increasing(w) by {
      forall i, j | 0 <= i < j < |w| ensures w[i] < w[j] {
        assert Precedes(o, inv[i], inv[j]);
      }
    }
    IncreasingFloor(w, v);
    IncreasingCeil(w, v, |o|);
  }

  /** Listing items in another order does not change how often a value occurs. */
  lemma CountPermuted(xs: seq<int>, rank: seq<nat>, k: int)
    requires Permutation(rank, |xs|)
    ensures Count(Select<int>(xs, rank), k) == Count(xs, k)
  {
    hide Indices, Argsort;
    var inv := Argsort(rank);
    var ys := Select<int>(xs, rank);
    forall v | 0 <= v < |xs| ensures rank[inv[v]] == v {
      InverseSorted(rank, inv, v);
    }
    assert Select<int>(ys, inv) == xs;
    CountSelected(xs, rank, k);
    CountSelected(ys, inv, k);
  }

  lemma CountSelected(xs: seq<int>, at: seq<nat>, k: int)
    requires Below(at, |xs|) && Distinct(at)
    ensures Count(Select<int>(xs, at), k) <= Count(xs, k)
  {
    hide Indices;
    var some, all := Indices(Select<int>(xs, at), k), Indices(xs, k);
    var f := Select<nat>(at, some);
    InjectionCount(f, all);
  }

  lemma {:induction false} IncreasingFloor(w: seq<int>, i: nat)
    requires Increasing(w) && i < |w| && w[0] >= 0
    ensures w[i] >= i
  {
    if i > 0 { IncreasingFloor(w, i - 1); }
  }

  lemma {:induction false} IncreasingCeil(w: seq<int>, i: nat, n: nat)
    requires Increasing(w) && i < |w| == n && w[n - 1] < n
    ensures w[i] <= i
    decreases n - i
  {
    if i + 1 < n { IncreasingCeil(w, i + 1, n); }
  }

  // ---------------------------------------------------------------- compressed sparse rows

  /** In a concatenation of groups labelled by their index, group `k` is exactly an interval. */
  lemma GroupPlace(keys: seq<int>, b: seq<seq<nat>>, k: nat, p: nat)
    requires k < |b| && p < |Concat<nat>(b)|
    requires forall g, j :: 0 <= g < |b| && 0 <= j < |b[g]| ==> b[g][j] < |keys| && keys[b[g][j]] == g
    ensures Concat<nat>(b)[p] < |keys| &&
            (keys[Concat<nat>(b)[p]] == k <==> Offset<nat>(b, k) <= p < Offset<nat>(b, k) + |b[k]|)
  {
    ConcatBlock<nat>(b, k);
    var g, j := ConcatSource<nat>(b, p);
    assert Concat<nat>(b)[p] == b[g][j];
    var lo, hi := Offset<nat>(b, k), Offset<nat>(b, k + 1);
    if lo <= p < hi {
      assert Concat<nat>(b)[p] == Concat<nat>(b)[lo..hi][p - lo];
    }
  }

  lemma IntervalCount(sorted: seq<int>, k: int, lo: nat, n: nat)
    requires lo + n <= |sorted|
    requires forall p :: 0 <= p < |sorted| ==> (sorted[p] == k <==> lo <= p < lo + n)
    ensures Count(sorted, k) == n
  {
    var block: seq<int> := seq(n, i requires 0 <= i < n => lo + i);
    forall p ensures p in block <==> p in Indices(sorted, k)
    {
      if lo <= p < lo + n {
        assert block[p - lo] == p;
      }
    }
    IncreasingUnique(block, Indices(sorted, k));
  }

  /** Sorting keeps every count. */
  lemma CountSorted(keys: seq<int>, sorted: seq<int>, m: nat, k: nat)
    requires forall i :: 0 <= i < |keys| ==> 0 <= keys[i] < m
    requires k < m && sorted == Select<int>(keys, Argsort(keys))
    ensures Count(sorted, k) == Count(keys, k)
  {
    var b := Buckets(keys, m);
    var lo, n := Offset<nat>(b, k), |b[k]|;
    ArgsortRow(keys, m, k);
    forall p | 0 <= p < |sorted| ensures sorted[p] == k <==> lo <= p < lo + n {
      SortedPlace(keys, m, k, p);
    }
    IntervalCount(sorted, k, lo, n);
  }

  lemma SortedPlace(keys: seq<int>, m: nat, k: nat, p: nat)
    requires forall i :: 0 <= i < |keys| ==> 0 <= keys[i] < m
    requires k < m && p < |keys|
    ensures keys[Argsort(keys)[p]] == k <==>
              Offset<nat>(Buckets(keys, m), k) <= p < Offset<nat>(Buckets(keys, m), k) + Count(keys, k)
  {
    ArgsortIsBuckets(keys, m);
    GroupPlace(keys, Buckets(keys, m), k, p);
  }

  /** Compressed sparse rows: row `i` owns `col[crow[i]..crow[i + 1]]`. */
  datatype Csr = Csr(crow: seq<nat>, col: seq<nat>, deg: seq<nat>)

  predicate RowOk(m: Csr, i: nat) {
    i + 1 < |m.crow| && m.crow[i] <= m.crow[i + 1] <= |m.col|
  }

  function Row(m: Csr, i: nat): seq<nat>
    requires RowOk(m, i)
  {
    m.col[m.crow[i]..m.crow[i + 1]]
  }

  /** `m` stores the edges `ei -> ej` by row, each row in edge order. */
  ghost predicate IsCsrOf(m: Csr, ei: seq<nat>, ej: seq<nat>, rows: nat)
    requires |ei| == |ej|
  {
    && |m.crow| == rows + 1 && |m.deg| == rows
    && m.col == Select<nat>(ej, Argsort(ei))
    && (forall i :: 0 <= i < rows ==> RowOk(m, i) && Row(m, i) == Select<nat>(ej, Indices(ei, i)))
    && (forall i :: 0 <= i < rows ==> m.deg[i] == Count(ei, i))
  }

  /** Degrees by counting and row starts by scattered increments. */
  method CountRows(es: seq<nat>, rows: nat) returns (deg: seq<nat>, crow: array<int>)
    requires Below(es, rows)
    ensures fresh(crow) && crow.Length == rows + 1 && |deg| == rows && crow[0] == 0
    ensures forall k :: 0 <= k < rows ==> deg[k] == crow[k + 1] == Count(es, k)
  {
    var hist := new nat[rows](_ => 0);
    crow := new int[rows + 1](_ => 0);
    for e := 0 to |es|
      invariant forall k :: 0 <= k < rows ==> hist[k] == crow[k + 1] == Count(es[..e], k)
      invariant crow[0] == 0
    {
      ghost var before := hist[..];
      var r := es[e];
      hist[r] := hist[r] + 1;
      crow[r + 1] := crow[r + 1] + 1;
      forall k | 0 <= k < rows ensures hist[k] == crow[k + 1] == Count(es[..e + 1], k) {
        assert es[..e + 1] == es[..e] + [r];
        CountSnoc(es[..e], r, k);
        assert before[k] == Count(es[..e], k);
      }
    }
    assert es[..|es|] == es;
    deg := hist[..];
  }

  /** `cumsum(a, out=a)`; the entries may be negative. */
  method CumSum(a: array<int>)
    modifies a
    ensures forall i :: 0 <= i < a.Length ==> a[i] == Sum(old(a[..])[..i + 1])
  {
    ghost var was := a[..];
    for i := 0 to a.Length
      invariant forall j :: 0 <= j < i ==> a[j] == Sum(was[..j + 1])
      invariant forall j :: i <= j < a.Length ==> a[j] == was[j]
    {
      assert was[..i + 1][..i] == was[..i];
      if i > 0 {
        a[i] := a[i] + a[i - 1];
      }
    }
  }

  /** Builds the rows from an edge list: stable sort by row, then an in-place running sum
      over the row counts. */
  method BuildCsr(ei: seq<nat>, ej: seq<nat>, rows: nat) returns (m: Csr)
    requires |ei| == |ej| && Below(ei, rows)
    ensures IsCsrOf(m, ei, ej, rows)
  {
    var o := Argsort(ei);
    var es, ec := Select<nat>(ei, o), Select<nat>(ej, o);
    var deg, crow := CountRows(es, rows);
    ghost var counts := crow[..];
    forall k | 0 <= k < rows ensures deg[k] == counts[k + 1] == Count(ei, k) {
      CountSorted(ei, es, rows, k);
    }
    CumSum(crow);
    forall i | 0 <= i <= rows ensures crow[i] >= 0 {
      RunningStarts(ei, rows, counts, i);
    }
    m := Csr(crow[..], ec, deg);
    forall i | 0 <= i < rows ensures RowOk(m, i) && Row(m, i) == Select<nat>(ej, Indices(ei, i)) {
      RunningStarts(ei, rows, counts, i);
      RunningStarts(ei, rows, counts, i + 1);
      RowStart(ei, rows, i);
      SortedRow(ei, ej, rows, i, m.crow[i], m.crow[i + 1]);
    }
  }

  lemma RowStart(ei: seq<nat>, rows: nat, i: nat)
    requires Below(ei, rows) && i < rows
    ensures Offset<nat>(Buckets(ei, rows), i + 1) == Offset<nat>(Buckets(ei, rows), i) + Count(ei, i)
  {
    ArgsortRow(ei, rows, i);
  }

  /** The running sum of the row counts is where each row of the sorted array begins. */
  lemma {:induction false} RunningStarts(ei: seq<nat>, rows: nat, counts: seq<int>, i: nat)
    requires Below(ei, rows) && i <= rows && |counts| == rows + 1 && counts[0] == 0
    requires forall k :: 0 <= k < rows ==> counts[k + 1] == Count(ei, k)
    ensures Sum(counts[..i + 1]) == Offset<nat>(Buckets(ei, rows), i)
  {
    assert counts[..i + 1][..i] == counts[..i];
    if i > 0 {
      RunningStarts(ei, rows, counts, i - 1);
      RowStart(ei, rows, i - 1);
    }
  }

  lemma SortedRow(ei: seq<nat>, ej: seq<nat>, rows: nat, i: nat, lo: nat, hi: nat)
    requires |ei| == |ej| && Below(ei, rows) && i < rows
    requires lo == Offset<nat>(Buckets(ei, rows), i) && hi == lo + Count(ei, i)
    ensures hi <= |ei| && Select<nat>(ej, Argsort(ei))[lo..hi] == Select<nat>(ej, Indices(ei, i))
  {
    ArgsortRow(ei, rows, i);
    SliceSelect<nat>(ej, Argsort(ei), lo, hi, Indices(ei, i));
  }

  lemma SliceSelect<T>(xs: seq<T>, o: seq<nat>, lo: nat, hi: nat, block: seq<nat>)
    requires Below(o, |xs|) && lo <= hi <= |o| && o[lo..hi] == block
    ensures Below(block, |xs|) && Select(xs, o)[lo..hi] == Select(xs, block)
  {
  }

  // ---------------------------------------------------------------- unique

  function InsertUnique(u: seq<int>, x: int): (r: seq<int>)
    requires Increasing(u)
    ensures Increasing(r)
    ensures forall y :: y in r <==> y == x || y in u
  {
    if u == [] || u[|u| - 1] < x then u + [x]
    else
      var l := |u| - 1;
      assert u == u[..l] + [u[l]];
      if u[l] == x then u
      else
        var front := InsertUnique(u[..l], x);
        assert forall i :: 0 <= i < |front| ==> front[i] in front;
        front + [u[l]]
  }

  /** `unique(xs)`: the distinct values in increasing order. */
  function Unique(xs: seq<int>): (r: seq<int>)
    ensures Increasing(r)
    ensures forall y :: y in r <==> y in xs
  {
    if xs == [] then []
    else
      var n := |xs| - 1;
      assert xs == xs[..n] + [xs[n]];
      InsertUnique(Unique(xs[..n]), xs[n])
  }

  /** An increasing sequence is determined by its elements. */
  lemma {:induction false} IncreasingUnique(a: seq<int>, b: seq<int>)
    requires Increasing(a) && Increasing(b)
    requires forall x :: x in a <==> x in b
    ensures a == b
  {
    SameElementsEmpty(a, b);
    if a != [] {
      var m, n := |a| - 1, |b| - 1;
      assert a[m] in a && a[m] in b;
      assert b[n] in b && b[n] in a;
      assert a[m] == b[n];
      FrontElements(a);
      FrontElements(b);
      forall x ensures x in a[..m] <==> x in b[..n] {
        assert x in a <==> x in b;
      }
      IncreasingUnique(a[..m], b[..n]);
      assert a == a[..m] + [a[m]] && b == b[..n] + [b[n]];
    }
  }

  // ---------------------------------------------------------------- searchsorted

  ghost predicate Ascending(keys: seq<int>) {
    forall i, j :: 0 <= i <= j < |keys| ==> keys[i] <= keys[j]
  }

  /** `searchsorted(keys, x)`, to the left of equal keys. */
  function SearchLeft(keys: seq<int>, x: int): (k: nat)
    requires Ascending(keys)
    ensures k <= |keys| && forall i :: 0 <= i < |keys| ==> (keys[i] < x <==> i < k)
  {
    if keys == [] then 0
    else if keys[|keys| - 1] < x then |keys|
    else SearchLeft(keys[..|keys| - 1], x)
  }

  /** `searchsorted(keys, x, side="right")`. */
  function SearchRight(keys: seq<int>, x: int): (k: nat)
    requires Ascending(keys)
    ensures k <= |keys| && forall i :: 0 <= i < |keys| ==> (keys[i] <= x <==> i < k)
  {
    SearchLeft(keys, x + 1)
  }

  lemma SearchOrdered(keys: seq<int>, x: int)
    requires Ascending(keys)
    ensures SearchLeft(keys, x) <= SearchRight(keys, x)
  {
    var l, r := SearchLeft(keys, x), SearchRight(keys, x);
    assert r < |keys| ==> (keys[r] < x <==> r < l);
  }

  lemma SearchIs(keys: seq<int>, x: int, k: nat)
    requires Ascending(keys) && k <= |keys|
    requires forall i :: 0 <= i < |keys| ==> (keys[i] < x <==> i < k)
    ensures SearchLeft(keys, x) == k
  {
    var l := SearchLeft(keys, x);
    assert k < |keys| ==> (keys[k] < x <==> k < l);
    assert l < |keys| ==> (keys[l] < x <==> l < k);
  }
}
