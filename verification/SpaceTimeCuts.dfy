/** The space-time cut of a snapshot graph: the supra-cell count, the block-based count of the
    duality script, the factorization ladder and the temporal lower bound. */
module SpaceTimeCuts {
  import opened Arrays
  import opened RankBlocks

  // ---------------------------------------------------------------- counting

  /** `count_nonzero`. */
  function CountTrue(mask: seq<bool>): nat {
    if mask == [] then 0
    else CountTrue(mask[..|mask| - 1]) + if mask[|mask| - 1] then 1 else 0
  }

  /** Adjacent positions that differ. */
  function Changes(w: seq<int>): nat {
    if |w| < 2 then 0
    else Changes(w[..|w| - 1]) + if w[|w| - 2] != w[|w| - 1] then 1 else 0
  }

  lemma ChangesSnoc(w: seq<int>, x: int)
    ensures Changes(w + [x]) == Changes(w) + if w != [] && w[|w| - 1] != x then 1 else 0
  {
    assert (w + [x])[..|w|] == w;
  }

  /** A sorted sequence has one more distinct value than it has changes. */
  lemma {:induction false} DistinctOfSorted(w: seq<int>)
    requires Ascending(w)
    ensures |Unique(w)| == Changes(w) + if w == [] then 0 else 1
    ensures w != [] ==> Unique(w) != [] && Unique(w)[|Unique(w)| - 1] == w[|w| - 1]
  {
    hide Unique, Changes;
    UniqueStep(w);
    if w != [] {
      var n := |w| - 1;
      DistinctOfSorted(w[..n]);
      assert w == w[..n] + [w[n]];
      ChangesSnoc(w[..n], w[n]);
      assert n > 0 ==> w[n - 1] <= w[n];
    }
  }

  lemma UniqueStep(w: seq<int>)
    ensures w == [] ==> Unique(w) == [] && Changes(w) == 0
    ensures w != [] ==>
      var n := |w| - 1;
      var u := Unique(w[..n]);
      && Changes([]) == 0
      && (u == [] || u[|u| - 1] < w[n] ==> Unique(w) == u + [w[n]])
      && (u != [] && u[|u| - 1] == w[n] ==> Unique(w) == u)
  {
  }

  /** `unique` depends only on the set of values. */
  lemma UniqueSame(a: seq<int>, b: seq<int>)
    requires forall x :: x in a <==> x in b
    ensures Unique(a) == Unique(b)
  {
    IncreasingUnique(Unique(a), Unique(b));
  }

  /** `np.maximum(h - 1, 0).sum()`. */
  function SumAboveOne(h: seq<int>): int {
    if h == [] then 0
    else SumAboveOne(h[..|h| - 1]) + if h[|h| - 1] > 1 then h[|h| - 1] - 1 else 0
  }

  lemma {:induction false} SumAboveOneIs(h: seq<int>, mask: seq<bool>)
    requires |mask| == |h| && forall i :: 0 <= i < |h| ==> h[i] >= 0 && mask[i] == (h[i] > 0)
    ensures SumAboveOne(h) == Sum(h) - CountTrue(mask)
  {
    if h != [] {
      SumAboveOneIs(h[..|h| - 1], mask[..|h| - 1]);
    }
  }

  lemma NoElements(pos: seq<int>)
    ensures pos == [] || pos[0] in pos
  {
  }

  lemma {:induction false} CountTrueIsWhere(mask: seq<bool>, pos: seq<int>)
    requires Increasing(pos) && forall p :: p in pos <==> 0 <= p < |mask| && mask[p]
    ensures CountTrue(mask) == |pos|
  {
    if mask == [] {
      NoElements(pos);
    } else {
      var n := |mask| - 1;
      if mask[n] {
        assert n in pos;
        var m := |pos| - 1;
        assert pos[m] in pos;
        var k :| 0 <= k < |pos| && pos[k] == n;
        assert pos[m] == n;
        FrontElements(pos);
        forall p ensures p in pos[..m] <==> 0 <= p < n && mask[..n][p] {
          assert p in pos[..m] <==> p in pos && p != n;
        }
        CountTrueIsWhere(mask[..n], pos[..m]);
      } else {
        CountTrueIsWhere(mask[..n], pos);
      }
    }
  }

  /** The labels that occur are the positive entries of the histogram. */
  lemma PositiveLabels(keys: seq<int>, m: nat, mask: seq<bool>)
    requires forall i :: 0 <= i < |keys| ==> 0 <= keys[i] < m
    requires |mask| == m && forall v :: 0 <= v < m ==> mask[v] == (Count(keys, v) > 0)
    ensures CountTrue(mask) == |Unique(keys)|
  {
    forall p ensures p in Unique(keys) <==> 0 <= p < m && mask[p] {
      if p in keys {
        var i :| 0 <= i < |keys| && keys[i] == p;
        CountPositive(keys, i);
      }
      if 0 <= p < m && mask[p] {
        assert keys[Indices(keys, p)[0]] == p;
      }
    }
    CountTrueIsWhere(mask, Unique(keys));
  }

  /** Labels counted with multiplicity, less one per label that occurs. */
  lemma SpreadOfLabels(keys: seq<int>, m: nat)
    requires forall i :: 0 <= i < |keys| ==> 0 <= keys[i] < m
    ensures SumAboveOne(Histogram(keys, m)) == |keys| - |Unique(keys)|
  {
    var h := Histogram(keys, m);
    var mask := seq(m, v requires 0 <= v < m => h[v] > 0);
    HistogramTotal(keys, m);
    SumAboveOneIs(h, mask);
    PositiveLabels(keys, m, mask);
  }

  // ---------------------------------------------------------------- supra cells

  /** Time-stamped edges: `snap[e]` is the snapshot of the edge `src[e] - dst[e]`. */
  ghost predicate SnapGraph(src: seq<nat>, dst: seq<nat>, snap: seq<nat>, n: nat, s: nat) {
    && |src| == |dst| == |snap| && n > 0 && s > 0
    && Below(src, n) && Below(dst, n) && Below(snap, s)
  }

  /** A pair of numbers, the second below `base`, as one sortable number. */
  function Pack(a: nat, x: nat, base: nat): nat {
    a * base + x
  }

  function CellKeys(verts: seq<nat>, snaps: seq<nat>, s: nat): (r: seq<int>)
    requires |verts| == |snaps|
    ensures |r| == |verts| && forall e :: 0 <= e < |r| ==> r[e] == Pack(verts[e], snaps[e], s)
  {
    seq(|verts|, e requires 0 <= e < |verts| => Pack(verts[e], snaps[e], s))
  }

  /** The active cells, vertex-major and snapshot-minor, as sorted keys `v * S + t`. */
  function Cells(src: seq<nat>, dst: seq<nat>, snap: seq<nat>, s: nat): (r: seq<int>)
    requires |src| == |dst| == |snap|
    ensures Increasing(r)
  {
    Unique(CellKeys(src, snap, s) + CellKeys(dst, snap, s))
  }

  function CellVertices(keys: seq<int>, s: nat): (r: seq<int>)
    requires s > 0
    ensures |r| == |keys| && forall i :: 0 <= i < |r| ==> r[i] == keys[i] / s
  {
    seq(|keys|, i requires 0 <= i < |keys| => keys[i] / s)
  }

  /** Adjacent cells of the same vertex on different devices. */
  function TemporalCut(cellV: seq<int>, dev: seq<int>): nat
    requires |cellV| == |dev|
  {
    if |dev| < 2 then 0
    else
      var n := |dev| - 1;
      TemporalCut(cellV[..n], dev[..n]) + if cellV[n - 1] == cellV[n] && dev[n - 1] != dev[n] then 1 else 0
  }

  /** Edges between different cells whose cells sit on different devices. */
  function SpatialCut(keys: seq<int>, ka: seq<int>, kb: seq<int>, dev: seq<int>): nat
    requires Increasing(keys) && |dev| == |keys| && |ka| == |kb|
    requires forall e :: 0 <= e < |ka| ==> ka[e] in keys && kb[e] in keys
  {
    if ka == [] then 0
    else
      var n := |ka| - 1;
      var a, b := SearchLeft(keys, ka[n]), SearchLeft(keys, kb[n]);
      SpatialCut(keys, ka[..n], kb[..n], dev) + if a != b && dev[a] != dev[b] then 1 else 0
  }

  lemma SearchFinds(keys: seq<int>, x: int)
    requires Increasing(keys) && x in keys
    ensures SearchLeft(keys, x) < |keys| && keys[SearchLeft(keys, x)] == x
  {
    var i :| 0 <= i < |keys| && keys[i] == x;
  }

  // ---------------------------------------------------------------- factor splits

  /** `device = vblock * Dt + sblock` for every cell, vertices in identity order. */
  function FactorAssignment(keys: seq<int>, n: nat, s: nat, dv: nat, dt: nat): (dev: seq<int>)
    requires n > 0 && s > 0 && dv > 0 && dt > 0 && forall i :: 0 <= i < |keys| ==> 0 <= keys[i]
    ensures |dev| == |keys|
    ensures forall i :: 0 <= i < |keys| ==> dev[i] == FactorDevice(keys[i], n, s, dv, dt)
  {
    seq(|keys|, i requires 0 <= i < |keys| => FactorDevice(keys[i], n, s, dv, dt))
  }

  function FactorDevice(key: nat, n: nat, s: nat, dv: nat, dt: nat): nat
    requires n > 0 && s > 0 && dv > 0 && dt > 0
  {
    Pack(ClampedBlock(key / s, dv, n), ClampedBlock(key % s, dt, s), dt)
  }

  /** A device number determines both of its blocks. */
  lemma DeviceSplits(a: nat, b: nat, x: nat, y: nat, dt: nat)
    requires x < dt && y < dt
    ensures Pack(a, x, dt) == Pack(b, y, dt) <==> a == b && x == y
  {
    if a < b {
      assert (a + 1) * dt <= b * dt;
    } else if b < a {
      assert (b + 1) * dt <= a * dt;
    }
  }

  lemma KeySplits(v: nat, t: nat, s: nat)
    requires t < s
    ensures Pack(v, t, s) / s == v && Pack(v, t, s) % s == t
  {
    assert s * v == v * s;
    DivUnique(v * s + t, s, v);
  }

  // ---------------------------------------------------------------- the duality script's counts

  /** `key = vertex * Dt + snapshot block` of every edge endpoint. */
  function BlockKeys(verts: seq<nat>, snaps: seq<nat>, s: nat, dt: nat): (r: seq<int>)
    requires |verts| == |snaps| && s > 0 && dt > 0
    ensures |r| == |verts| && forall e :: 0 <= e < |r| ==> r[e] == Pack(verts[e], ClampedBlock(snaps[e], dt, s), dt)
  {
    seq(|verts|, e requires 0 <= e < |verts| => Pack(verts[e], ClampedBlock(snaps[e], dt, s), dt))
  }

  /** Per vertex the distinct snapshot blocks it is active in, minus one, summed. */
  function DualTemporalCut(src: seq<nat>, dst: seq<nat>, snap: seq<nat>, n: nat, s: nat, dt: nat): int
    requires |src| == |dst| == |snap| && s > 0 && dt > 0
  {
    var uniq := Unique(BlockKeys(src + dst, snap + snap, s, dt));
    SumAboveOne(Histogram(CellVertices(uniq, dt), n))
  }

  /** Edges whose endpoints lie in different vertex blocks of the order `newid`. */
  function DualSpatialCut(src: seq<nat>, dst: seq<nat>, newid: seq<nat>, dv: nat): nat
    requires |src| == |dst| && |newid| > 0 && Below(src, |newid|) && Below(dst, |newid|)
  {
    if src == [] then 0
    else
      var e := |src| - 1;
      DualSpatialCut(src[..e], dst[..e], newid, dv) +
      if Block(newid[src[e]], dv, |newid|) != Block(newid[dst[e]], dv, |newid|) then 1 else 0
  }

  // ---------------------------------------------------------------- the two counts agree

  ghost predicate GoodKeys(keys: seq<int>, n: nat, s: nat) {
    s > 0 && n > 0 && forall i :: 0 <= i < |keys| ==> 0 <= keys[i] && keys[i] / s < n
  }

  function BlockKey(k: nat, s: nat, dt: nat): nat
    requires s > 0 && dt > 0
  {
    Pack(k / s, ClampedBlock(k % s, dt, s), dt)
  }

  function BlockKeysOf(keys: seq<int>, s: nat, dt: nat): (r: seq<int>)
    requires s > 0 && dt > 0 && forall i :: 0 <= i < |keys| ==> 0 <= keys[i]
    ensures |r| == |keys| && forall i :: 0 <= i < |r| ==> r[i] == BlockKey(keys[i], s, dt)
  {
    seq(|keys|, i requires 0 <= i < |keys| => BlockKey(keys[i], s, dt))
  }

  /** The cells are exactly the edge endpoints, as keys in range. */
  lemma CellsAreEndpoints(src: seq<nat>, dst: seq<nat>, snap: seq<nat>, n: nat, s: nat)
    requires SnapGraph(src, dst, snap, n, s)
    ensures GoodKeys(Cells(src, dst, snap, s), n, s)
    ensures forall k :: k in Cells(src, dst, snap, s) <==> k in CellKeys(src + dst, snap + snap, s)
  {
    var keys, all := Cells(src, dst, snap, s), CellKeys(src + dst, snap + snap, s);
    assert CellKeys(src, snap, s) + CellKeys(dst, snap, s) == all;
    KeysInRange(src + dst, snap + snap, n, s);
    forall i | 0 <= i < |keys| ensures 0 <= keys[i] && keys[i] / s < n {
      assert keys[i] in all;
    }
  }

  lemma KeysInRange(verts: seq<nat>, snaps: seq<nat>, n: nat, s: nat)
    requires |verts| == |snaps| && Below(verts, n) && Below(snaps, s) && s > 0
    ensures forall e :: 0 <= e < |verts| ==> 0 <= CellKeys(verts, snaps, s)[e] && CellKeys(verts, snaps, s)[e] / s < n
  {
    forall e | 0 <= e < |verts| ensures 0 <= CellKeys(verts, snaps, s)[e] && CellKeys(verts, snaps, s)[e] / s < n {
      KeySplits(verts[e], snaps[e], s);
    }
  }

  /** The duality script's block keys are the block images of the cells. */
  lemma SameBlocks(src: seq<nat>, dst: seq<nat>, snap: seq<nat>, n: nat, s: nat, dt: nat)
    requires SnapGraph(src, dst, snap, n, s) && dt > 0
    ensures GoodKeys(Cells(src, dst, snap, s), n, s)
    ensures Unique(BlockKeys(src + dst, snap + snap, s, dt)) == Unique(BlockKeysOf(Cells(src, dst, snap, s), s, dt))
  {
    CellsAreEndpoints(src, dst, snap, n, s);
    var keys, all := Cells(src, dst, snap, s), CellKeys(src + dst, snap + snap, s);
    var a, b := BlockKeys(src + dst, snap + snap, s, dt), BlockKeysOf(keys, s, dt);
    forall e | 0 <= e < |a| ensures 0 <= all[e] && a[e] == BlockKey(all[e], s, dt) {
      KeySplits((src + dst)[e], (snap + snap)[e], s);
    }
    forall x ensures x in a <==> x in b {
      if x in a {
        var e :| 0 <= e < |a| && a[e] == x;
        assert all[e] in keys;
        var i :| 0 <= i < |keys| && keys[i] == all[e];
        assert b[i] == x;
      }
      if x in b {
        var i :| 0 <= i < |b| && b[i] == x;
        assert keys[i] in all;
        var e :| 0 <= e < |all| && all[e] == keys[i];
        assert a[e] == x;
      }
    }
    UniqueSame(a, b);
  }

  /** A block key determines the vertex and the block; sorted cells have sorted block keys. */
  lemma BlockKeySplits(k: nat, s: nat, dt: nat)
    requires s > 0 && dt > 0
    ensures BlockKey(k, s, dt) / dt == k / s
  {
    BlockBelow(k % s, dt, s);
    KeySplits(k / s, ClampedBlock(k % s, dt, s), dt);
  }

  lemma LexOrder(a: nat, b: nat, x: nat, y: nat, dt: nat)
    requires x < dt && (a < b || (a == b && x <= y))
    ensures Pack(a, x, dt) <= Pack(b, y, dt)
  {
    if a < b {
      assert (a + 1) * dt <= b * dt;
    }
  }

  lemma SameQuotient(k: nat, l: nat, s: nat)
    requires s > 0 && k <= l && k / s == l / s
    ensures k % s <= l % s
  {
  }

  lemma BlockKeyMonotone(k: nat, l: nat, s: nat, dt: nat)
    requires s > 0 && dt > 0 && k <= l
    ensures BlockKey(k, s, dt) <= BlockKey(l, s, dt)
  {
    BlockBelow(k % s, dt, s);
    BlockBelow(l % s, dt, s);
    DivMonotone(k, l, s);
    if k / s == l / s {
      SameQuotient(k, l, s);
      BlockMonotone(k % s, l % s, dt, s);
    }
    LexOrder(k / s, l / s, Block(k % s, dt, s), Block(l % s, dt, s), dt);
  }

  /** Block changes along the cells are vertex changes plus device changes within a vertex. */
  lemma {:induction false} ChangesSplit(gk: seq<int>, cv: seq<int>, dev: seq<int>)
    requires |gk| == |cv| == |dev|
    requires forall i :: 0 <= i < |gk| - 1 ==>
               (gk[i] != gk[i + 1] <==> cv[i] != cv[i + 1] || dev[i] != dev[i + 1])
    ensures Changes(gk) == Changes(cv) + TemporalCut(cv, dev)
  {
    if |gk| >= 2 {
      var n := |gk| - 1;
      ChangesSplit(gk[..n], cv[..n], dev[..n]);
      assert gk[n - 1] != gk[n - 1 + 1] <==> cv[n - 1] != cv[n - 1 + 1] || dev[n - 1] != dev[n - 1 + 1];
    }
  }

  lemma AdjacentCells(k: nat, l: nat, n: nat, s: nat, dv: nat, dt: nat)
    requires n > 0 && s > 0 && dv > 0 && dt > 0 && k / s < n && l / s < n
    ensures BlockKey(k, s, dt) != BlockKey(l, s, dt) <==>
              k / s != l / s || FactorDevice(k, n, s, dv, dt) != FactorDevice(l, n, s, dv, dt)
  {
    BlockBelow(k % s, dt, s);
    BlockBelow(l % s, dt, s);
    DeviceSplits(k / s, l / s, ClampedBlock(k % s, dt, s), ClampedBlock(l % s, dt, s), dt);
    DeviceSplits(ClampedBlock(k / s, dv, n), ClampedBlock(l / s, dv, n),
                 ClampedBlock(k % s, dt, s), ClampedBlock(l % s, dt, s), dt);
  }

  /** Sorted cells have sorted block keys and sorted vertices. */
  lemma BlocksAscend(keys: seq<int>, n: nat, s: nat, dt: nat)
    requires GoodKeys(keys, n, s) && Increasing(keys) && dt > 0
    ensures Ascending(BlockKeysOf(keys, s, dt)) && Ascending(CellVertices(keys, s))
  {
    var gk, cv := BlockKeysOf(keys, s, dt), CellVertices(keys, s);
    forall i, j | 0 <= i < j < |keys| ensures gk[i] <= gk[j] && cv[i] <= cv[j] {
      BlockKeyMonotone(keys[i], keys[j], s, dt);
      DivMonotone(keys[i], keys[j], s);
    }
  }

  /** The duality script's temporal cut in terms of the sorted cells. */
  lemma DualTemporalIsChanges(src: seq<nat>, dst: seq<nat>, snap: seq<nat>, n: nat, s: nat, dt: nat)
    requires SnapGraph(src, dst, snap, n, s) && dt > 0
    ensures GoodKeys(Cells(src, dst, snap, s), n, s)
    ensures DualTemporalCut(src, dst, snap, n, s, dt) ==
            Changes(BlockKeysOf(Cells(src, dst, snap, s), s, dt)) - Changes(CellVertices(Cells(src, dst, snap, s), s))
  {
    hide Ascending, Unique, Changes, SumAboveOne, Histogram, BlockKey, Pack, Cells, BlockKeys;
    SameBlocks(src, dst, snap, n, s, dt);
    var keys := Cells(src, dst, snap, s);
    var gk, cv := BlockKeysOf(keys, s, dt), CellVertices(keys, s);
    var uniq := Unique(gk);
    BlockVertices(keys, n, s, dt, gk, uniq);
    SpreadOfLabels(CellVertices(uniq, dt), n);
    UniqueSame(CellVertices(uniq, dt), cv);
    BlocksAscend(keys, n, s, dt);
    DistinctOfSorted(gk);
    DistinctOfSorted(cv);
  }

  lemma BlockVertices(keys: seq<int>, n: nat, s: nat, dt: nat, gk: seq<int>, uniq: seq<int>)
    requires GoodKeys(keys, n, s) && dt > 0 && gk == BlockKeysOf(keys, s, dt)
    requires forall y :: y in uniq <==> y in gk
    ensures forall i :: 0 <= i < |uniq| ==> 0 <= CellVertices(uniq, dt)[i] < n
    ensures forall x :: x in CellVertices(uniq, dt) <==> x in CellVertices(keys, s)
  {
    var a, b := CellVertices(uniq, dt), CellVertices(keys, s);
    forall i | 0 <= i < |gk| ensures gk[i] / dt == b[i] {
      BlockKeySplits(keys[i], s, dt);
    }
    ImagesIncluded(uniq, gk, a, b, dt);
    forall i | 0 <= i < |gk| ensures gk[i] / dt == CellVertices(gk, dt)[i] {
    }
    assert CellVertices(gk, dt) == b;
    ImagesIncluded(gk, uniq, b, a, dt);
    forall i | 0 <= i < |uniq| ensures 0 <= a[i] < n {
      assert a[i] in b;
    }
  }

  lemma ImagesIncluded(p: seq<int>, q: seq<int>, a: seq<int>, b: seq<int>, dt: nat)
    requires dt > 0 && |a| == |p| && |b| == |q|
    requires forall i :: 0 <= i < |p| ==> a[i] == p[i] / dt
    requires forall i :: 0 <= i < |q| ==> b[i] == q[i] / dt
    requires forall y :: y in p ==> y in q
    ensures forall x :: x in a ==> x in b
  {
    forall x | x in a ensures x in b {
      var i :| 0 <= i < |a| && a[i] == x;
      assert p[i] in q;
      var j :| 0 <= j < |q| && q[j] == p[i];
      assert b[j] == x;
    }
  }

  /** The two temporal cuts are the same number, for every split of the devices. */
  lemma TemporalCutsAgree(src: seq<nat>, dst: seq<nat>, snap: seq<nat>, n: nat, s: nat, dv: nat, dt: nat)
    requires SnapGraph(src, dst, snap, n, s) && dv > 0 && dt > 0
    ensures GoodKeys(Cells(src, dst, snap, s), n, s)
    ensures DualTemporalCut(src, dst, snap, n, s, dt) ==
            TemporalCut(CellVertices(Cells(src, dst, snap, s), s),
                        FactorAssignment(Cells(src, dst, snap, s), n, s, dv, dt))
  {
    DualTemporalIsChanges(src, dst, snap, n, s, dt);
    var keys := Cells(src, dst, snap, s);
    var gk, cv, dev := BlockKeysOf(keys, s, dt), CellVertices(keys, s), FactorAssignment(keys, n, s, dv, dt);
    forall i | 0 <= i < |keys| - 1
      ensures gk[i] != gk[i + 1] <==> cv[i] != cv[i + 1] || dev[i] != dev[i + 1]
    {
      AdjacentCells(keys[i], keys[i + 1], n, s, dv, dt);
    }
    ChangesSplit(gk, cv, dev);
  }

  /** And so are the two spatial cuts when vertices are blocked in identity order. */
  lemma SpatialCutsAgree(src: seq<nat>, dst: seq<nat>, snap: seq<nat>, n: nat, s: nat, dv: nat, dt: nat)
    requires SnapGraph(src, dst, snap, n, s) && dv > 0 && dt > 0
    ensures GoodKeys(Cells(src, dst, snap, s), n, s) && EndpointsAreCells(src, dst, snap, n, s)
    ensures SpatialCut(Cells(src, dst, snap, s), CellKeys(src, snap, s), CellKeys(dst, snap, s),
                       FactorAssignment(Cells(src, dst, snap, s), n, s, dv, dt)) ==
            DualSpatialCut(src, dst, Range(n), dv)
  {
    CellsAreEndpoints(src, dst, snap, n, s);
    var all := CellKeys(src + dst, snap + snap, s);
    assert CellKeys(src, snap, s) + CellKeys(dst, snap, s) == all;
    forall e | 0 <= e < |src| ensures CellKeys(src, snap, s)[e] in all && CellKeys(dst, snap, s)[e] in all {
      assert all[e] == CellKeys(src, snap, s)[e] && all[|src| + e] == CellKeys(dst, snap, s)[e];
    }
    EdgesAgree(Cells(src, dst, snap, s), CellKeys(src, snap, s), CellKeys(dst, snap, s), src, dst, snap, n, s, dv, dt);
  }

  ghost predicate EndpointsAreCells(src: seq<nat>, dst: seq<nat>, snap: seq<nat>, n: nat, s: nat)
    requires SnapGraph(src, dst, snap, n, s)
  {
    forall e :: 0 <= e < |src| ==>
      CellKeys(src, snap, s)[e] in Cells(src, dst, snap, s) && CellKeys(dst, snap, s)[e] in Cells(src, dst, snap, s)
  }

  lemma {:induction false} EdgesAgree(keys: seq<int>, ka: seq<int>, kb: seq<int>, src: seq<nat>, dst: seq<nat>,
                                      snap: seq<nat>, n: nat, s: nat, dv: nat, dt: nat)
    requires SnapGraph(src, dst, snap, n, s) && dv > 0 && dt > 0 && GoodKeys(keys, n, s) && Increasing(keys)
    requires |ka| == |kb| == |src|
    requires forall e :: 0 <= e < |src| ==> ka[e] == Pack(src[e], snap[e], s) && kb[e] == Pack(dst[e], snap[e], s)
    requires forall e :: 0 <= e < |src| ==> ka[e] in keys && kb[e] in keys
    ensures SpatialCut(keys, ka, kb, FactorAssignment(keys, n, s, dv, dt)) == DualSpatialCut(src, dst, Range(n), dv)
  {
    if src != [] {
      var e := |src| - 1;
      EdgesAgree(keys, ka[..e], kb[..e], src[..e], dst[..e], snap[..e], n, s, dv, dt);
      EdgeAgrees(keys, src[e], dst[e], snap[e], n, s, dv, dt);
      SpatialSnoc(keys, ka, kb, FactorAssignment(keys, n, s, dv, dt));
      assert DualSpatialCut(src, dst, Range(n), dv) ==
             DualSpatialCut(src[..e], dst[..e], Range(n), dv)
             + if Block(src[e], dv, n) != Block(dst[e], dv, n) then 1 else 0;
      hide *;
    }
  }

  lemma SpatialSnoc(keys: seq<int>, ka: seq<int>, kb: seq<int>, dev: seq<int>)
    requires Increasing(keys) && |dev| == |keys| && |ka| == |kb| > 0
    requires forall e :: 0 <= e < |ka| ==> ka[e] in keys && kb[e] in keys
    ensures var n := |ka| - 1;
            var a, b := SearchLeft(keys, ka[n]), SearchLeft(keys, kb[n]);
            a < |keys| && b < |keys| &&
            SpatialCut(keys, ka, kb, dev) ==
            SpatialCut(keys, ka[..n], kb[..n], dev) + if a != b && dev[a] != dev[b] then 1 else 0
  {
    var n := |ka| - 1;
    SearchFinds(keys, ka[n]);
    SearchFinds(keys, kb[n]);
  }

  lemma EdgeAgrees(keys: seq<int>, v: nat, w: nat, t: nat, n: nat, s: nat, dv: nat, dt: nat)
    requires v < n && w < n && t < s && dv > 0 && dt > 0 && GoodKeys(keys, n, s) && Increasing(keys)
    requires Pack(v, t, s) in keys && Pack(w, t, s) in keys
    ensures var dev := FactorAssignment(keys, n, s, dv, dt);
            var a, b := SearchLeft(keys, Pack(v, t, s)), SearchLeft(keys, Pack(w, t, s));
            a < |keys| && b < |keys| && (a != b && dev[a] != dev[b] <==> Block(v, dv, n) != Block(w, dv, n))
  {
    SearchFinds(keys, Pack(v, t, s));
    SearchFinds(keys, Pack(w, t, s));
    KeySplits(v, t, s);
    KeySplits(w, t, s);
    BlockBelow(v, dv, n);
    BlockBelow(w, dv, n);
    BlockBelow(t, dt, s);
    DeviceSplits(Block(v, dv, n), Block(w, dv, n), Block(t, dt, s), Block(t, dt, s), dt);
  }

  // ---------------------------------------------------------------- the factorization ladder

  /** Each rung halves the vertex blocks and doubles the snapshot blocks. */
  ghost predicate Ladder(d: nat, out: seq<(nat, nat)>) {
    && (forall i :: 0 <= i < |out| ==> out[i].0 > 0 && out[i].1 > 0 && out[i].0 * out[i].1 == d)
    && (out != [] ==> out[0] == (d, 1))
    && (forall i :: 0 <= i < |out| - 1 ==> out[i].0 == 2 * out[i + 1].0 && out[i + 1].1 == 2 * out[i].1)
  }

  lemma DivisorOfDouble(d: nat, dt: nat)
    requires dt > 0 && d % (2 * dt) == 0
    ensures d % dt == 0
  {
    var q := d / (2 * dt);
    assert d == 2 * dt * q == dt * (2 * q);
    DivUnique(d, dt, 2 * q);
  }

  lemma NextRung(d: nat, a: nat, b: nat)
    requires b > 0 && a * b == d
    ensures d % (2 * b) == 0 <==> a % 2 == 0
    ensures a % 2 == 0 ==> d / (2 * b) == a / 2
  {
    var h := a / 2;
    if a % 2 == 0 {
      assert d == 2 * b * h by {
        assert a * b == (2 * h) * b;
      }
      DivUnique(d, 2 * b, h);
    } else {
      assert a * b == 2 * b * h + b by {
        assert a * b == (2 * h + 1) * b;
      }
      DivUnique(d, 2 * b, h);
    }
  }

  lemma LadderSnoc(d: nat, out: seq<(nat, nat)>, dt: nat)
    requires Ladder(d, out) && d > 0 && dt > 0 && d % dt == 0
    requires if out == [] then dt == 1 else dt == 2 * out[|out| - 1].1
    ensures Ladder(d, out + [(d / dt, dt)])
  {
    assert d / dt * dt == d;
    if out != [] {
      NextRung(d, out[|out| - 1].0, out[|out| - 1].1);
    }
  }

  /** All splits of `d` devices into `d / dt` vertex blocks times a power of two of snapshot blocks. */
  method Factorizations(d: nat) returns (out: seq<(nat, nat)>)
    ensures Ladder(d, out)
    ensures out == [] <==> d == 0
    ensures out != [] ==> out[|out| - 1].0 % 2 == 1
  {
    out := [];
    var dt := 1;
    while dt <= d
      invariant dt >= 1 && Ladder(d, out)
      invariant out == [] ==> dt == 1
      invariant out != [] ==> d > 0 && (dt == 2 * out[|out| - 1].1 || (d % dt != 0 && out[|out| - 1].0 % 2 == 1))
      decreases d + 1 - dt
    {
      if out != [] {
        NextRung(d, out[|out| - 1].0, out[|out| - 1].1);
      }
      if d % (2 * dt) == 0 {
        DivisorOfDouble(d, dt);
      }
      if d % dt == 0 {
        LadderSnoc(d, out, dt);
        out := out + [(d / dt, dt)];
      }
      dt := dt * 2;
    }
    if out != [] {
      LastRung(d, out[|out| - 1].0, out[|out| - 1].1, dt);
    }
  }

  lemma LastRung(d: nat, a: nat, b: nat, dt: nat)
    requires a > 0 && b > 0 && a * b == d && dt > d && (dt == 2 * b || a % 2 == 1)
    ensures a % 2 == 1
  {
    if dt == 2 * b {
      BelowOneMultiple(b, a - 1);
      assert b * (a - 1) == a * b - b;
    }
  }

  /** Coarser vertex blocks never cut more edges. */
  lemma {:induction false} SpatialRefines(src: seq<nat>, dst: seq<nat>, newid: seq<nat>, dv: nat)
    requires |src| == |dst| && |newid| > 0 && Below(src, |newid|) && Below(dst, |newid|)
    ensures DualSpatialCut(src, dst, newid, dv) <= DualSpatialCut(src, dst, newid, 2 * dv)
  {
    if src != [] {
      var e := |src| - 1;
      SpatialRefines(src[..e], dst[..e], newid, dv);
      BlockRefines(newid[src[e]], dv, |newid|);
      BlockRefines(newid[dst[e]], dv, |newid|);
    }
  }

  lemma {:induction false} ChangesRefine(a: seq<int>, b: seq<int>)
    requires |a| == |b| && forall i :: 0 <= i < |a| - 1 ==> a[i] != a[i + 1] ==> b[i] != b[i + 1]
    ensures Changes(a) <= Changes(b)
  {
    if |a| >= 2 {
      var n := |a| - 1;
      ChangesRefine(a[..n], b[..n]);
      assert a[n - 1] != a[n - 1 + 1] ==> b[n - 1] != b[n - 1 + 1];
    }
  }

  lemma BlockKeyIs(k: nat, s: nat, dt: nat)
    requires s > 0 && dt > 0
    ensures BlockKey(k, s, dt) == Pack(k / s, Block(k % s, dt, s), dt) && Block(k % s, dt, s) < dt
  {
    BlockBelow(k % s, dt, s);
  }

  lemma BlockKeyRefines(k: nat, l: nat, s: nat, dt: nat)
    requires s > 0 && dt > 0 && BlockKey(k, s, dt) != BlockKey(l, s, dt)
    ensures BlockKey(k, s, 2 * dt) != BlockKey(l, s, 2 * dt)
  {
    hide *;
    var x := FinerKey(k, s, dt);
    var y := FinerKey(l, s, dt);
    RefinedKeys(k / s, l / s, x, y, dt);
  }

  /** The finer block of a cell, whose half is the coarser one. */
  lemma FinerKey(k: nat, s: nat, dt: nat) returns (x: nat)
    requires s > 0 && dt > 0
    ensures x < 2 * dt
    ensures BlockKey(k, s, 2 * dt) == Pack(k / s, x, 2 * dt) && BlockKey(k, s, dt) == Pack(k / s, x / 2, dt)
  {
    hide *;
    BlockKeyIs(k, s, dt);
    BlockKeyIs(k, s, 2 * dt);
    BlockRefines(k % s, dt, s);
    x := Block(k % s, 2 * dt, s);
  }

  lemma RefinedKeys(a: nat, b: nat, x: nat, y: nat, dt: nat)
    requires x < 2 * dt && y < 2 * dt && Pack(a, x / 2, dt) != Pack(b, y / 2, dt)
    ensures Pack(a, x, 2 * dt) != Pack(b, y, 2 * dt)
  {
    DeviceSplits(a, b, x / 2, y / 2, dt);
    DeviceSplits(a, b, x, y, 2 * dt);
  }

  /** Finer snapshot blocks never break fewer timelines. */
  lemma TemporalRefines(src: seq<nat>, dst: seq<nat>, snap: seq<nat>, n: nat, s: nat, dt: nat)
    requires SnapGraph(src, dst, snap, n, s) && dt > 0
    ensures DualTemporalCut(src, dst, snap, n, s, dt) <= DualTemporalCut(src, dst, snap, n, s, 2 * dt)
  {
    DualTemporalIsChanges(src, dst, snap, n, s, dt);
    DualTemporalIsChanges(src, dst, snap, n, s, 2 * dt);
    var keys := Cells(src, dst, snap, s);
    var a, b := BlockKeysOf(keys, s, dt), BlockKeysOf(keys, s, 2 * dt);
    forall i | 0 <= i < |keys| - 1 && a[i] != a[i + 1] ensures b[i] != b[i + 1] {
      BlockKeyRefines(keys[i], keys[i + 1], s, dt);
    }
    ChangesRefine(a, b);
  }

  /** Down the ladder the spatial cut never grows and the temporal cut never shrinks. */
  lemma {:induction false} LadderMonotone(src: seq<nat>, dst: seq<nat>, snap: seq<nat>, newid: seq<nat>, s: nat,
                                          d: nat, out: seq<(nat, nat)>, i: nat, j: nat)
    requires SnapGraph(src, dst, snap, |newid|, s) && Ladder(d, out) && i <= j < |out|
    ensures DualSpatialCut(src, dst, newid, out[j].0) <= DualSpatialCut(src, dst, newid, out[i].0)
    ensures DualTemporalCut(src, dst, snap, |newid|, s, out[i].1)
            <= DualTemporalCut(src, dst, snap, |newid|, s, out[j].1)
  {
    hide *;
    if i < j {
      LadderMonotone(src, dst, snap, newid, s, d, out, i, j - 1);
      RungShape(d, out, j - 1);
      SnapParts(src, dst, snap, |newid|, s);
      SpatialRefines(src, dst, newid, out[j].0);
      TemporalRefines(src, dst, snap, |newid|, s, out[j - 1].1);
    }
  }

  lemma SnapParts(src: seq<nat>, dst: seq<nat>, snap: seq<nat>, n: nat, s: nat)
    requires SnapGraph(src, dst, snap, n, s)
    ensures |src| == |dst| && n > 0 && Below(src, n) && Below(dst, n)
  {
  }

  lemma RungShape(d: nat, out: seq<(nat, nat)>, i: nat)
    requires Ladder(d, out) && i + 1 < |out|
    ensures out[i].0 == 2 * out[i + 1].0 && out[i + 1].1 == 2 * out[i].1 && out[i].1 > 0
  {
  }

  /** The corners: one vertex block cuts no edge, one snapshot block breaks no timeline. */
  lemma {:induction false} PssCorner(src: seq<nat>, dst: seq<nat>, newid: seq<nat>)
    requires |src| == |dst| && |newid| > 0 && Below(src, |newid|) && Below(dst, |newid|) && Below(newid, |newid|)
    ensures DualSpatialCut(src, dst, newid, 1) == 0
  {
    if src != [] {
      var e := |src| - 1;
      PssCorner(src[..e], dst[..e], newid);
      BlockBelow(newid[src[e]], 1, |newid|);
      BlockBelow(newid[dst[e]], 1, |newid|);
    }
  }

  lemma PtsCorner(src: seq<nat>, dst: seq<nat>, snap: seq<nat>, n: nat, s: nat)
    requires SnapGraph(src, dst, snap, n, s)
    ensures DualTemporalCut(src, dst, snap, n, s, 1) == 0
  {
    DualTemporalIsChanges(src, dst, snap, n, s, 1);
    var keys := Cells(src, dst, snap, s);
    forall i | 0 <= i < |keys| ensures BlockKey(keys[i], s, 1) == keys[i] / s {
      BlockBelow(keys[i] % s, 1, s);
    }
    assert BlockKeysOf(keys, s, 1) == CellVertices(keys, s);
  }

  // ---------------------------------------------------------------- the opposite corners

  /** Which edges join different vertices. */
  function DifferentEnds(src: seq<nat>, dst: seq<nat>): (r: seq<bool>)
    requires |src| == |dst|
    ensures |r| == |src| && forall e :: 0 <= e < |r| ==> r[e] == (src[e] != dst[e])
  {
    seq(|src|, e requires 0 <= e < |src| => src[e] != dst[e])
  }

  /** With a block for every vertex, every edge between different vertices is cut. */
  lemma OneVertexBlocks(src: seq<nat>, dst: seq<nat>, newid: seq<nat>)
    requires newid != [] && Permutation(newid, |newid|) && Graph(src, dst, |newid|)
    ensures DualSpatialCut(src, dst, newid, |newid|) == |Where(DifferentEnds(src, dst))|
  {
    OneVertexCut(src, dst, newid);
    CountTrueIsWhere(DifferentEnds(src, dst), Where(DifferentEnds(src, dst)));
  }

  lemma {:induction false} OneVertexCut(src: seq<nat>, dst: seq<nat>, newid: seq<nat>)
    requires newid != [] && Permutation(newid, |newid|) && Graph(src, dst, |newid|)
    ensures DualSpatialCut(src, dst, newid, |newid|) == CountTrue(DifferentEnds(src, dst))
  {
    if src != [] {
      var e := |src| - 1;
      OneVertexCut(src[..e], dst[..e], newid);
      OwnBlock(newid[src[e]], |newid|);
      OwnBlock(newid[dst[e]], |newid|);
      assert DifferentEnds(src, dst)[..e] == DifferentEnds(src[..e], dst[..e]);
    }
  }

  /** With a block for every snapshot, every cell of a timeline but the first is a break. */
  lemma OneSnapshotBlocks(src: seq<nat>, dst: seq<nat>, snap: seq<nat>, n: nat, s: nat)
    requires SnapGraph(src, dst, snap, n, s)
    ensures DualTemporalCut(src, dst, snap, n, s, s) == |Cells(src, dst, snap, s)| - |Unique(src + dst)|
  {
    hide Unique, Cells, Changes, Ascending, BlockKeys, DualTemporalCut;
    DualTemporalIsChanges(src, dst, snap, n, s, s);
    CellsAreEndpoints(src, dst, snap, n, s);
    var keys := Cells(src, dst, snap, s);
    var cellV := CellVertices(keys, s);
    forall i | 0 <= i < |keys| ensures BlockKey(keys[i], s, s) == keys[i] {
      WholeKey(keys[i], s);
    }
    assert BlockKeysOf(keys, s, s) == keys;
    BlocksAscend(keys, n, s, s);
    DistinctOfSorted(keys);
    DistinctOfSorted(cellV);
    UniqueOfIncreasing(keys);
    ActiveVertices(src, dst, snap, n, s);
    UniqueSame(cellV, src + dst);
  }

  lemma WholeKey(key: nat, s: nat)
    requires s > 0
    ensures BlockKey(key, s, s) == key
  {
    OwnBlock(key % s, s);
  }

  lemma UniqueOfIncreasing(xs: seq<int>)
    requires Increasing(xs)
    ensures Unique(xs) == xs
  {
    IncreasingUnique(Unique(xs), xs);
  }

  /** The vertices with a cell are the ends of the edges. */
  lemma ActiveVertices(src: seq<nat>, dst: seq<nat>, snap: seq<nat>, n: nat, s: nat)
    requires SnapGraph(src, dst, snap, n, s) && GoodKeys(Cells(src, dst, snap, s), n, s)
    ensures forall x :: x in CellVertices(Cells(src, dst, snap, s), s) <==> x in src + dst
  {
    hide Cells, Pack;
    CellsAreEndpoints(src, dst, snap, n, s);
    var keys, all := Cells(src, dst, snap, s), CellKeys(src + dst, snap + snap, s);
    var cellV, ends := CellVertices(keys, s), src + dst;
    forall e | 0 <= e < |ends| ensures all[e] / s == ends[e] {
      KeySplits(ends[e], (snap + snap)[e], s);
    }
    forall x ensures x in cellV <==> x in ends {
      if x in cellV {
        var i :| 0 <= i < |cellV| && cellV[i] == x;
        assert keys[i] in all;
        var e :| 0 <= e < |all| && all[e] == keys[i];
      }
      if x in ends {
        var e :| 0 <= e < |ends| && ends[e] == x;
        assert all[e] in keys;
        var i :| 0 <= i < |keys| && keys[i] == all[e];
        assert cellV[i] == x;
      }
    }
  }

  // ---------------------------------------------------------------- balance

  /** One vertex's cells in every snapshot, on the devices of its vertex block. */
  function GridRow(v: nat, n: nat, s: nat, dv: nat, dt: nat): (r: seq<int>)
    requires v < n && s > 0 && dv > 0 && dt > 0
    ensures |r| == s && forall t :: 0 <= t < s ==> r[t] == Pack(Block(v, dv, n), Block(t, dt, s), dt)
  {
    seq(s, (t: nat) => Pack(Block(v, dv, n), Block(t, dt, s), dt))
  }

  /** Vertex `v` in snapshot `t` is cell `v * s + t` of the grid. */
  lemma GridCell(v: nat, t: nat, n: nat, s: nat, dv: nat, dt: nat)
    requires v < n && t < s && dv > 0 && dt > 0
    ensures Pack(v, t, s) < n * s
    ensures FactorDevice(Pack(v, t, s), n, s, dv, dt) == GridRow(v, n, s, dv, dt)[t]
  {
    KeySplits(v, t, s);
    assert (v + 1) * s <= n * s && (v + 1) * s == v * s + s;
  }

  lemma {:induction false} RowShare(v: nat, n: nat, s: nat, dv: nat, dt: nat, a: nat, b: nat, m: nat)
    requires v < n && dv > 0 && b < dt && m <= s && s > 0
    ensures Count(GridRow(v, n, s, dv, dt)[..m], Pack(a, b, dt))
         == if Block(v, dv, n) == a then Count(Blocks(s, dt)[..m], b) else 0
  {
    hide Count, Pack;
    var row, blocks := GridRow(v, n, s, dv, dt), Blocks(s, dt);
    if m == 0 {
      CountAbsent(row[..0], Pack(a, b, dt));
      CountAbsent(blocks[..0], b);
    } else {
      RowShare(v, n, s, dv, dt, a, b, m - 1);
      BlockBelow(m - 1, dt, s);
      DeviceSplits(Block(v, dv, n), a, Block(m - 1, dt, s), b, dt);
      assert row[..m] == row[..m - 1] + [row[m - 1]] && blocks[..m] == blocks[..m - 1] + [blocks[m - 1]];
      CountSnoc(row[..m - 1], row[m - 1], Pack(a, b, dt));
      CountSnoc(blocks[..m - 1], blocks[m - 1], b);
    }
  }

  /** The devices of the cells of the first `m` vertices. */
  function GridRows(n: nat, s: nat, dv: nat, dt: nat, m: nat): (r: seq<int>)
    requires m <= n && s > 0 && dv > 0 && dt > 0
  {
    if m == 0 then [] else GridRows(n, s, dv, dt, m - 1) + GridRow(m - 1, n, s, dv, dt)
  }

  lemma {:induction false} GridRowsAre(n: nat, s: nat, dv: nat, dt: nat, m: nat)
    requires 0 < n && m <= n && s > 0 && dv > 0 && dt > 0
    ensures m * s <= n * s && GridRows(n, s, dv, dt, m) == FactorAssignment(Range(n * s), n, s, dv, dt)[..m * s]
  {
    hide FactorDevice;
    RowsWithin(m, n, s);
    var dev := FactorAssignment(Range(n * s), n, s, dv, dt);
    if m > 0 {
      GridRowsAre(n, s, dv, dt, m - 1);
      RowsWithin(m - 1, m, s);
      assert m * s == (m - 1) * s + s;
      var row := GridRow(m - 1, n, s, dv, dt);
      forall t | 0 <= t < s ensures dev[(m - 1) * s + t] == row[t] {
        GridCell(m - 1, t, n, s, dv, dt);
      }
    }
  }

  lemma RowsWithin(a: nat, b: nat, s: nat)
    requires a <= b
    ensures a * s <= b * s
  {
  }

  function Product(x: nat, y: nat): nat {
    x * y
  }

  lemma ProductIs(x: nat, y: nat)
    ensures Product(x, y) == x * y && (x > 0 && y > 0 ==> x * y > 0)
  {
  }

  lemma GridRowsStep(n: nat, s: nat, dv: nat, dt: nat, m: nat)
    requires m <= n && s > 0 && dv > 0 && dt > 0
    ensures m == 0 ==> GridRows(n, s, dv, dt, m) == []
    ensures m > 0 ==> GridRows(n, s, dv, dt, m) == GridRows(n, s, dv, dt, m - 1) + GridRow(m - 1, n, s, dv, dt)
  {
  }

  lemma ProductStep(x: nat, y: nat)
    ensures Product(0, y) == 0 && Product(x + 1, y) == Product(x, y) + y
  {
  }

  /** On a grid where every vertex is active in every snapshot, device `a * dt + b` gets a cell for
      every vertex of its vertex block and every snapshot of its snapshot block. */
  lemma {:induction false} GridShare(n: nat, s: nat, dv: nat, dt: nat, a: nat, b: nat, m: nat)
    requires n > 0 && s > 0 && dv > 0 && b < dt && m <= n
    ensures Count(GridRows(n, s, dv, dt, m), Pack(a, b, dt))
         == Product(Count(Blocks(n, dv)[..m], a), Count(Blocks(s, dt), b))
  {
    hide *;
    GridRowsStep(n, s, dv, dt, m);
    var blocks, wide := Blocks(n, dv), Count(Blocks(s, dt), b);
    if m == 0 {
      CountAbsent(GridRows(n, s, dv, dt, 0), Pack(a, b, dt));
      CountAbsent(blocks[..0], a);
      ProductStep(0, wide);
    } else {
      GridShare(n, s, dv, dt, a, b, m - 1);
      var row := GridRow(m - 1, n, s, dv, dt);
      CountConcat(GridRows(n, s, dv, dt, m - 1), row, Pack(a, b, dt));
      RowShare(m - 1, n, s, dv, dt, a, b, s);
      assert row[..s] == row && Blocks(s, dt)[..s] == Blocks(s, dt);
      assert blocks[..m] == blocks[..m - 1] + [blocks[m - 1]];
      CountSnoc(blocks[..m - 1], blocks[m - 1], a);
      ProductStep(Count(blocks[..m - 1], a), wide);
    }
  }

  /** The split of the grid is balanced: every device's cells are a block of vertices times a block
      of snapshots, and neither is a whole item away from its equal part. */
  lemma SplitBalanced(n: nat, s: nat, dv: nat, dt: nat, a: nat, b: nat) returns (verts: nat, snaps: nat)
    requires n > 0 && s > 0 && a < dv && b < dt
    ensures Count(FactorAssignment(Range(n * s), n, s, dv, dt), a * dt + b) == verts * snaps
    ensures dv * (verts - 1) < n < dv * (verts + 1) && dt * (snaps - 1) < s < dt * (snaps + 1)
    ensures dv <= n && dt <= s ==> verts * snaps > 0
  {
    hide *;
    verts, snaps := Count(Blocks(n, dv), a), Count(Blocks(s, dt), b);
    BlockSize(n, dv, a);
    BlockSize(s, dt, b);
    GridShare(n, s, dv, dt, a, b, n);
    GridRowsAre(n, s, dv, dt, n);
    ProductIs(verts, snaps);
    PackIs(a, b, dt);
    var dev := FactorAssignment(Range(n * s), n, s, dv, dt);
    assert dev[..n * s] == dev && Blocks(n, dv)[..n] == Blocks(n, dv);
  }

  lemma PackIs(a: nat, b: nat, dt: nat)
    ensures Pack(a, b, dt) == a * dt + b
  {
  }
}
