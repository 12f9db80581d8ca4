/** Column-parallel execution: every device holds all vertices but only a block of feature columns;
    with a weight matrix the full-width partial products are summed on one device. */
module TensorSplit {
  import opened Arrays
  import H = HaloExecution
  import WL = WeightedLoads

  type Matrix = seq<seq<real>>

  ghost predicate Shape(x: Matrix, n: nat, f: nat) {
    |x| == n && forall i :: 0 <= i < n ==> |x[i]| == f
  }

  // ---------------------------------------------------------------- column blocks

  /** First column of block `d` of `array_split(arange(f), devices)`: the remainder goes one each
      to the first blocks. */
  function Start(f: nat, devices: nat, d: nat): nat
    requires devices > 0
  {
    d * (f / devices) + if d <= f % devices then d else f % devices
  }

  lemma StartEnds(f: nat, devices: nat)
    requires devices > 0
    ensures Start(f, devices, 0) == 0 && Start(f, devices, devices) == f
  {
    var q, r := f / devices, f % devices;
    assert f == devices * q + r;
  }

  lemma StartStep(f: nat, devices: nat, d: nat)
    requires devices > 0
    ensures Start(f, devices, d + 1) == Start(f, devices, d) + f / devices + if d < f % devices then 1 else 0
  {
    assert (d + 1) * (f / devices) == d * (f / devices) + f / devices;
  }

  lemma {:induction false} StartWithin(f: nat, devices: nat, d: nat)
    requires devices > 0 && d <= devices
    ensures Start(f, devices, d) <= f
    decreases devices - d
  {
    StartEnds(f, devices);
    if d < devices {
      StartWithin(f, devices, d + 1);
      StartStep(f, devices, d);
    }
  }

  lemma QuotientPositive(f: nat, devices: nat)
    requires devices > 0
    ensures f / devices > 0 <==> devices <= f
    ensures devices > f ==> f % devices == f < devices
  {
    if devices <= f {
      assert f == devices * (f / devices) + f % devices;
    }
  }

  /** Every block has a column exactly when there are no more devices than columns. */
  lemma BlocksNonempty(f: nat, devices: nat)
    requires devices > 0
    ensures devices <= f ==> forall d :: 0 <= d < devices ==> Start(f, devices, d) < Start(f, devices, d + 1)
    ensures devices > f ==> Start(f, devices, f) == Start(f, devices, f + 1)
  {
    QuotientPositive(f, devices);
    forall d | 0 <= d < devices
      ensures Start(f, devices, d + 1) == Start(f, devices, d) + f / devices + if d < f % devices then 1 else 0
    {
      StartStep(f, devices, d);
    }
  }

  /** `x[:, lo:hi]`. */
  function Columns(x: Matrix, lo: nat, hi: nat): (r: Matrix)
    requires lo <= hi && forall i :: 0 <= i < |x| ==> hi <= |x[i]|
    ensures |r| == |x| && forall i :: 0 <= i < |r| ==> r[i] == x[i][lo..hi]
  {
    seq(|x|, i requires 0 <= i < |x| => x[i][lo..hi])
  }

  // ---------------------------------------------------------------- aggregation

  function Times(a: real, b: real): real {
    a * b
  }

  /** One entry of the sparse product: the weighted column entries of the neighbours, in order. */
  function Gather(x: Matrix, nbrs: seq<nat>, weight: real, c: nat): real
    requires Below(nbrs, |x|) && forall i :: 0 <= i < |x| ==> c < |x[i]|
  {
    if nbrs == [] then 0.0
    else Gather(x, nbrs[..|nbrs| - 1], weight, c) + Times(weight, x[nbrs[|nbrs| - 1]][c])
  }

  /** Aggregation is column by column. */
  lemma {:induction false} GatherColumn(x: Matrix, nbrs: seq<nat>, weight: real, lo: nat, hi: nat, c: nat)
    requires Below(nbrs, |x|) && lo <= hi && (forall i :: 0 <= i < |x| ==> hi <= |x[i]|) && c < hi - lo
    ensures Gather(Columns(x, lo, hi), nbrs, weight, c) == Gather(x, nbrs, weight, lo + c)
  {
    if nbrs != [] {
      GatherColumn(x, nbrs[..|nbrs| - 1], weight, lo, hi, c);
    }
  }

  function GatherRow(x: Matrix, nbrs: seq<nat>, weight: real, width: nat): (r: seq<real>)
    requires Below(nbrs, |x|) && forall i :: 0 <= i < |x| ==> width <= |x[i]|
    ensures |r| == width && forall c :: 0 <= c < width ==> r[c] == Gather(x, nbrs, weight, c)
  {
    seq(width, c requires 0 <= c < width => Gather(x, nbrs, weight, c))
  }

  lemma GatherRowColumns(x: Matrix, nbrs: seq<nat>, weight: real, f: nat, lo: nat, hi: nat)
    requires Shape(x, |x|, f) && Below(nbrs, |x|) && lo <= hi <= f
    ensures GatherRow(Columns(x, lo, hi), nbrs, weight, hi - lo) == GatherRow(x, nbrs, weight, f)[lo..hi]
  {
    var part, whole := GatherRow(Columns(x, lo, hi), nbrs, weight, hi - lo), GatherRow(x, nbrs, weight, f);
    hide Gather;
    forall c | 0 <= c < hi - lo ensures part[c] == whole[lo..hi][c] {
      GatherColumn(x, nbrs, weight, lo, hi, c);
    }
  }

  // ---------------------------------------------------------------- the weight mix

  /** One entry of `h @ w`. */
  function Mix(h: seq<real>, w: Matrix, g: nat): real
    requires |h| == |w| && forall f :: 0 <= f < |w| ==> g < |w[f]|
  {
    if h == [] then 0.0
    else
      var n := |h| - 1;
      Mix(h[..n], w[..n], g) + Times(h[n], w[n][g])
  }

  /** The products of a row with one column of the weight. */
  function Products(h: seq<real>, w: Matrix, g: nat): (r: seq<real>)
    requires |h| == |w| && forall f :: 0 <= f < |w| ==> g < |w[f]|
    ensures |r| == |h| && forall c :: 0 <= c < |r| ==> r[c] == h[c] * w[c][g]
  {
    seq(|h|, c requires 0 <= c < |h| => h[c] * w[c][g])
  }

  /** An entry of `h @ w` is the sum of the products. */
  lemma {:induction false} MixIsSum(h: seq<real>, w: Matrix, g: nat)
    requires |h| == |w| && forall f :: 0 <= f < |w| ==> g < |w[f]|
    ensures Mix(h, w, g) == WL.Total(Products(h, w, g))
  {
    if h != [] {
      var n := |h| - 1;
      MixIsSum(h[..n], w[..n], g);
      var front := Products(h[..n], w[..n], g);
      forall c | 0 <= c < n ensures Products(h, w, g)[c] == front[c] {
        assert h[..n][c] == h[c] && w[..n][c] == w[c];
      }
      assert Products(h, w, g)[..n] == front;
    }
  }

  lemma {:induction false} MixConcat(a: seq<real>, v: Matrix, b: seq<real>, u: Matrix, g: nat)
    requires |a| == |v| && |b| == |u|
    requires (forall f :: 0 <= f < |v| ==> g < |v[f]|) && (forall f :: 0 <= f < |u| ==> g < |u[f]|)
    ensures forall f :: 0 <= f < |v + u| ==> g < |(v + u)[f]|
    ensures Mix(a + b, v + u, g) == Mix(a, v, g) + Mix(b, u, g)
  {
    hide Times;
    if b == [] {
      assert a + b == a && v + u == v;
    } else {
      var n := |b| - 1;
      MixConcat(a, v, b[..n], u[..n], g);
      assert (a + b)[..|a + b| - 1] == a + b[..n] && (v + u)[..|v + u| - 1] == v + u[..n];
    }
  }

  /** The block `[lo, hi)` adds its own products to the prefix. */
  lemma MixBlock(h: seq<real>, w: Matrix, g: nat, lo: nat, hi: nat)
    requires |h| == |w| && (forall f :: 0 <= f < |w| ==> g < |w[f]|) && lo <= hi <= |h|
    ensures Mix(h[..hi], w[..hi], g) == Mix(h[..lo], w[..lo], g) + Mix(h[lo..hi], w[lo..hi], g)
  {
    assert h[..hi] == h[..lo] + h[lo..hi] && w[..hi] == w[..lo] + w[lo..hi];
    MixConcat(h[..lo], w[..lo], h[lo..hi], w[lo..hi], g);
  }

  function Relu(x: real): (r: real)
    ensures r >= 0.0 && r >= x && (r == 0.0 || r == x)
  {
    if x > 0.0 then x else 0.0
  }

  /** `relu` of a whole matrix. */
  function ReluAll(x: Matrix): (r: Matrix)
    ensures |r| == |x| && forall i :: 0 <= i < |r| ==> |r[i]| == |x[i]|
    ensures forall i, c :: 0 <= i < |r| && 0 <= c < |r[i]| ==> r[i][c] == Relu(x[i][c])
  {
    seq(|x|, i requires 0 <= i < |x| => seq(|x[i]|, c requires 0 <= c < |x[i]| => Relu(x[i][c])))
  }

  lemma ReluColumns(x: Matrix, f: nat, lo: nat, hi: nat)
    requires Shape(x, |x|, f) && lo <= hi <= f
    ensures Columns(ReluAll(x), lo, hi) == ReluAll(Columns(x, lo, hi))
  {
    var a, b := Columns(ReluAll(x), lo, hi), ReluAll(Columns(x, lo, hi));
    forall i | 0 <= i < |x| ensures a[i] == b[i] {
      forall c | 0 <= c < hi - lo ensures a[i][c] == b[i][c] {
        assert a[i][c] == ReluAll(x)[i][lo + c];
      }
    }
  }

  // ---------------------------------------------------------------- the single-device layer

  ghost predicate GoodRows(a: Csr, n: nat) {
    |a.deg| == n && forall i :: 0 <= i < n ==> RowOk(a, i) && Below(Row(a, i), n)
  }

  /** `1 / max(deg, 1)`. */
  function DegreeWeight(deg: nat): (r: real)
    ensures deg > 0 ==> r * deg as real == 1.0
    ensures deg == 0 ==> r == 1.0
  {
    1.0 / (if deg > 1 then deg as real else 1.0)
  }

  function RowWeight(a: Csr, i: nat): real
    requires i < |a.deg|
  {
    DegreeWeight(a.deg[i])
  }

  /** The sparse product, `width` columns wide. */
  function Aggregate(a: Csr, x: Matrix, n: nat, width: nat): (r: Matrix)
    requires GoodRows(a, n) && Shape(x, n, width)
    ensures Shape(r, n, width)
    ensures forall i :: 0 <= i < n ==> r[i] == GatherRow(x, Row(a, i), RowWeight(a, i), width)
  {
    seq(n, i requires 0 <= i < n => GatherRow(x, Row(a, i), RowWeight(a, i), width))
  }

  /** `h @ w`. */
  function Mixed(h: Matrix, w: Matrix, n: nat, k: nat, width: nat): (r: Matrix)
    requires Shape(h, n, k) && Shape(w, k, width)
    ensures Shape(r, n, width)
    ensures forall i, g :: 0 <= i < n && 0 <= g < width ==> r[i][g] == Mix(h[i], w, g)
  {
    seq(n, i requires 0 <= i < n => seq(width, g requires 0 <= g < width => Mix(h[i], w, g)))
  }

  /** One layer of the reference: aggregate, mix when there is a weight, relu. */
  function Layer(a: Csr, x: Matrix, w: Option<Matrix>, n: nat, f: nat): (r: Matrix)
    requires GoodRows(a, n) && Shape(x, n, f) && (w.Some? ==> Shape(w.value, f, f))
    ensures Shape(r, n, f)
  {
    var h := Aggregate(a, x, n, f);
    match w
    case None => ReluAll(h)
    case Some(m) => ReluAll(Mixed(h, m, n, f, f))
  }

  function Layers(a: Csr, x: Matrix, w: Option<Matrix>, n: nat, f: nat, layers: nat): (r: Matrix)
    requires GoodRows(a, n) && Shape(x, n, f) && (w.Some? ==> Shape(w.value, f, f))
    ensures Shape(r, n, f)
  {
    if layers == 0 then x else Layer(a, Layers(a, x, w, n, f, layers - 1), w, n, f)
  }

  lemma RowsAreGood(a: Csr, u: seq<nat>, v: seq<nat>, n: nat)
    requires Graph(u, v, n) && IsCsrOf(a, u, v, n)
    ensures GoodRows(a, n)
  {
    forall i | 0 <= i < n ensures RowOk(a, i) && Below(Row(a, i), n) {
      assert Row(a, i) == Select<nat>(v, Indices(u, i));
    }
  }

  // ---------------------------------------------------------------- the same rows by vertex

  predicate Wide(rows: Matrix, f: nat) {
    forall i :: 0 <= i < |rows| ==> |rows[i]| == f
  }

  /** The row a vertex of degree `deg` computes from the rows of its neighbours: their weighted sum,
      the mix when there is a weight, relu. */
  function RowLayer(w: Option<Matrix>, f: nat): H.RowFn<seq<real>>
    requires w.Some? ==> Shape(w.value, f, f)
  {
    (deg: nat, rows: Matrix) => if Wide(rows, f) then MixedRow(MeanRow(deg, rows, f), w, f) else []
  }

  function MeanRow(deg: nat, rows: Matrix, f: nat): (r: seq<real>)
    requires Wide(rows, f)
    ensures |r| == f
  {
    GatherRow(rows, Range(|rows|), DegreeWeight(deg), f)
  }

  function MixedRow(h: seq<real>, w: Option<Matrix>, f: nat): (r: seq<real>)
    requires |h| == f && (w.Some? ==> Shape(w.value, f, f))
    ensures |r| == f
  {
    seq(f, g requires 0 <= g < f => Relu(match w case None => h[g] case Some(m) => Mix(h, m, g)))
  }

  /** The entries of column `c`. */
  function Column(rows: Matrix, c: nat): (r: seq<real>)
    requires forall i :: 0 <= i < |rows| ==> c < |rows[i]|
    ensures |r| == |rows| && forall i :: 0 <= i < |r| ==> r[i] == rows[i][c]
  {
    seq(|rows|, i requires 0 <= i < |rows| => rows[i][c])
  }

  /** A gathered entry is the weight times the sum of the entries. */
  lemma {:induction false} GatherIsSum(rows: Matrix, weight: real, c: nat, k: nat)
    requires k <= |rows| && forall i :: 0 <= i < |rows| ==> c < |rows[i]|
    ensures Gather(rows, Range(k), weight, c) == weight * WL.Total(Column(rows, c)[..k])
  {
    if k > 0 {
      GatherIsSum(rows, weight, c, k - 1);
      assert Range(k)[..k - 1] == Range(k - 1);
      WL.PrefixStep(Column(rows, c), k - 1);
      Distributes(weight, WL.Total(Column(rows, c)[..k - 1]), rows[k - 1][c]);
    }
  }

  lemma Distributes(a: real, b: real, c: real)
    ensures a * b + Times(a, c) == a * (b + c)
  {
  }

  /** `mean` is the mean of the neighbour rows, column by column. */
  ghost predicate IsMean(mean: seq<real>, rows: Matrix, f: nat)
    requires Wide(rows, f)
  {
    |mean| == f && forall c :: 0 <= c < f ==> mean[c] * |rows| as real == WL.Total(Column(rows, c))
  }

  lemma MeanRowIsMean(rows: Matrix, f: nat)
    requires Wide(rows, f) && rows != []
    ensures IsMean(MeanRow(|rows|, rows, f), rows, f)
  {
    hide Gather;
    var weight, n := DegreeWeight(|rows|), |rows| as real;
    forall c | 0 <= c < f ensures MeanRow(|rows|, rows, f)[c] * n == WL.Total(Column(rows, c)) {
      GatherIsSum(rows, weight, c, |rows|);
      assert Column(rows, c)[..|rows|] == Column(rows, c);
      Cancels(weight, n, WL.Total(Column(rows, c)));
    }
  }

  lemma Cancels(a: real, n: real, t: real)
    requires a * n == 1.0
    ensures a * t * n == t
  {
    assert a * t * n == a * n * t;
  }

  /** What a vertex with neighbours computes: from the mean of their rows, mixed when there is a
      weight, every entry that is not positive becomes zero. */
  lemma RowLayerIs(w: Option<Matrix>, f: nat, rows: Matrix) returns (mean: seq<real>)
    requires (w.Some? ==> Shape(w.value, f, f)) && Wide(rows, f) && rows != []
    ensures IsMean(mean, rows, f) && |RowLayer(w, f)(|rows|, rows)| == f
    ensures forall g :: 0 <= g < f ==>
              var y := if w.None? then mean[g] else WL.Total(Products(mean, w.value, g));
              RowLayer(w, f)(|rows|, rows)[g] == if y > 0.0 then y else 0.0
  {
    mean := MeanRow(|rows|, rows, f);
    MeanRowIsMean(rows, f);
    hide MeanRow, Mix;
    if w.Some? {
      forall g | 0 <= g < f ensures Mix(mean, w.value, g) == WL.Total(Products(mean, w.value, g)) {
        MixIsSum(mean, w.value, g);
      }
    }
    assert RowLayer(w, f)(|rows|, rows) == MixedRow(mean, w, f);
  }

  /** Gathering by index is gathering the selected rows in turn. */
  lemma {:induction false} GatherSelected(x: Matrix, nbrs: seq<nat>, weight: real, c: nat)
    requires Below(nbrs, |x|) && forall i :: 0 <= i < |x| ==> c < |x[i]|
    ensures Gather(x, nbrs, weight, c) == Gather(Select<seq<real>>(x, nbrs), Range(|nbrs|), weight, c)
  {
    if nbrs != [] {
      var n := |nbrs| - 1;
      GatherSelected(x, nbrs[..n], weight, c);
      GatherPrefix(Select<seq<real>>(x, nbrs), Select<seq<real>>(x, nbrs[..n]), n, weight, c);
      assert Range(n + 1)[..n] == Range(n);
    }
  }

  lemma {:induction false} GatherPrefix(x: Matrix, y: Matrix, k: nat, weight: real, c: nat)
    requires k <= |x| && k <= |y| && forall i :: 0 <= i < k ==> x[i] == y[i]
    requires (forall i :: 0 <= i < |x| ==> c < |x[i]|) && forall i :: 0 <= i < |y| ==> c < |y[i]|
    ensures Gather(x, Range(k), weight, c) == Gather(y, Range(k), weight, c)
  {
    if k > 0 {
      GatherPrefix(x, y, k - 1, weight, c);
      assert Range(k)[..k - 1] == Range(k - 1);
    }
  }

  lemma RowSelected(x: Matrix, nbrs: seq<nat>, weight: real, f: nat)
    requires Below(nbrs, |x|) && Shape(x, |x|, f)
    ensures GatherRow(x, nbrs, weight, f) == GatherRow(Select<seq<real>>(x, nbrs), Range(|nbrs|), weight, f)
  {
    hide Gather;
    forall c | 0 <= c < f
      ensures Gather(x, nbrs, weight, c) == Gather(Select<seq<real>>(x, nbrs), Range(|nbrs|), weight, c)
    {
      GatherSelected(x, nbrs, weight, c);
    }
  }

  /** One layer over the stored rows is one layer of the graph semantics. */
  lemma LayerIsReference(a: Csr, u: seq<nat>, v: seq<nat>, x: Matrix, w: Option<Matrix>, n: nat, f: nat)
    requires Graph(u, v, n) && IsCsrOf(a, u, v, n) && GoodRows(a, n) && Shape(x, n, f)
    requires (w.Some? ==> Shape(w.value, f, f))
    ensures Layer(a, x, w, n, f) == H.Layer(RowLayer(w, f), u, v, x)
  {
    var whole, byVertex := Layer(a, x, w, n, f), H.Layer(RowLayer(w, f), u, v, x);
    forall i | 0 <= i < n ensures whole[i] == byVertex[i] {
      RowIsReference(a, u, v, x, w, n, f, i);
    }
  }

  lemma RowIsReference(a: Csr, u: seq<nat>, v: seq<nat>, x: Matrix, w: Option<Matrix>, n: nat, f: nat, i: nat)
    requires Graph(u, v, n) && IsCsrOf(a, u, v, n) && GoodRows(a, n) && Shape(x, n, f)
    requires (w.Some? ==> Shape(w.value, f, f))
    requires i < n
    ensures Layer(a, x, w, n, f)[i] == H.Layer(RowLayer(w, f), u, v, x)[i]
  {
    hide Mix, Gather, GatherRow, Relu;
    var nbrs := H.Nbrs(u, v, i);
    assert Row(a, i) == nbrs && a.deg[i] == Count(u, i);
    RowSelected(x, nbrs, RowWeight(a, i), f);
    var mine := Layer(a, x, w, n, f)[i];
    var mean := MeanRow(Count(u, i), Select<seq<real>>(x, nbrs), f);
    assert Aggregate(a, x, n, f)[i] == mean;
    assert mine == MixedRow(mean, w, f);
  }

  /** The single-device run over the stored rows computes the layers of the graph semantics. */
  lemma {:induction false} LayersAreReference(a: Csr, u: seq<nat>, v: seq<nat>, x: Matrix, w: Option<Matrix>,
                                              n: nat, f: nat, layers: nat)
    requires Graph(u, v, n) && IsCsrOf(a, u, v, n) && GoodRows(a, n) && Shape(x, n, f)
    requires (w.Some? ==> Shape(w.value, f, f))
    ensures Layers(a, x, w, n, f, layers) == H.Layers(RowLayer(w, f), u, v, x, layers)
  {
    hide Layer, H.Layer, IsCsrOf, GoodRows;
    if layers > 0 {
      LayersAreReference(a, u, v, x, w, n, f, layers - 1);
      LayerIsReference(a, u, v, Layers(a, x, w, n, f, layers - 1), w, n, f);
    }
  }

  // ---------------------------------------------------------------- the devices

  /** Device `d` holds its column block of `x`. */
  ghost predicate Holds(feats: seq<Matrix>, x: Matrix, n: nat, f: nat, devices: nat)
    requires devices > 0 && Shape(x, n, f)
  {
    && |feats| == devices
    && forall d :: 0 <= d < devices ==> HoldsBlock(feats[d], x, n, f, devices, d)
  }

  ghost predicate HoldsBlock(m: Matrix, x: Matrix, n: nat, f: nat, devices: nat, d: nat)
    requires devices > 0 && Shape(x, n, f) && d < devices
  {
    && Start(f, devices, d) <= Start(f, devices, d + 1) <= f
    && m == Columns(x, Start(f, devices, d), Start(f, devices, d + 1))
  }

  lemma BlockOrdered(f: nat, devices: nat, d: nat)
    requires devices > 0 && d < devices
    ensures Start(f, devices, d) <= Start(f, devices, d + 1) <= f
  {
    StartStep(f, devices, d);
    StartWithin(f, devices, d + 1);
  }

  /** The aggregated block is the block of the aggregated whole. */
  lemma AggregateBlock(a: Csr, x: Matrix, n: nat, f: nat, lo: nat, hi: nat)
    requires GoodRows(a, n) && Shape(x, n, f) && lo <= hi <= f
    ensures Shape(Columns(x, lo, hi), n, hi - lo)
    ensures Aggregate(a, Columns(x, lo, hi), n, hi - lo) == Columns(Aggregate(a, x, n, f), lo, hi)
  {
    hide Gather, RowWeight;
    var part, whole := Aggregate(a, Columns(x, lo, hi), n, hi - lo), Columns(Aggregate(a, x, n, f), lo, hi);
    forall i | 0 <= i < n ensures part[i] == whole[i] {
      GatherRowColumns(x, Row(a, i), RowWeight(a, i), f, lo, hi);
    }
  }

  // ---------------------------------------------------------------- one sweep

  /** The mix over the first `upto` columns only. */
  ghost predicate PrefixMixed(z: Matrix, h: Matrix, w: Matrix, n: nat, f: nat, upto: nat)
    requires Shape(h, n, f) && Shape(w, f, f) && upto <= f
  {
    && Shape(z, n, f)
    && forall i, g :: 0 <= i < n && 0 <= g < f ==> z[i][g] == Mix(h[i][..upto], w[..upto], g)
  }

  function Plus(x: Matrix, y: Matrix, n: nat, f: nat): (r: Matrix)
    requires Shape(x, n, f) && Shape(y, n, f)
    ensures Shape(r, n, f)
    ensures forall i, g :: 0 <= i < n && 0 <= g < f ==> r[i][g] == x[i][g] + y[i][g]
  {
    seq(n, i requires 0 <= i < n => seq(f, g requires 0 <= g < f => x[i][g] + y[i][g]))
  }

  /** A block's partial product extends the mixed prefix by that block. */
  lemma AddPartial(z: Matrix, part: Matrix, h: Matrix, w: Matrix, n: nat, f: nat, lo: nat, hi: nat)
    requires Shape(h, n, f) && Shape(w, f, f) && lo <= hi <= f && PrefixMixed(z, h, w, n, f, lo)
    requires Shape(Columns(h, lo, hi), n, hi - lo) && Shape(w[lo..hi], hi - lo, f)
    requires part == Mixed(Columns(h, lo, hi), w[lo..hi], n, hi - lo, f)
    ensures PrefixMixed(Plus(z, part, n, f), h, w, n, f, hi)
  {
    hide Mix, Mixed;
    var s := Plus(z, part, n, f);
    forall i, g | 0 <= i < n && 0 <= g < f ensures s[i][g] == Mix(h[i][..hi], w[..hi], g) {
      MixBlock(h[i], w, g, lo, hi);
      assert part[i][g] == Mix(Columns(h, lo, hi)[i], w[lo..hi], g);
    }
  }

  lemma FirstPartial(part: Matrix, h: Matrix, w: Matrix, n: nat, f: nat, hi: nat)
    requires Shape(h, n, f) && Shape(w, f, f) && hi <= f
    requires Shape(Columns(h, 0, hi), n, hi) && Shape(w[0..hi], hi, f)
    requires part == Mixed(Columns(h, 0, hi), w[0..hi], n, hi, f)
    ensures PrefixMixed(part, h, w, n, f, hi)
  {
    hide Mix, Mixed;
    forall i, g | 0 <= i < n && 0 <= g < f ensures part[i][g] == Mix(h[i][..hi], w[..hi], g) {
      assert part[i][g] == Mix(Columns(h, 0, hi)[i], w[0..hi], g);
      assert h[i][0..hi] == h[i][..hi] && w[0..hi] == w[..hi];
    }
  }

  lemma AllMixed(z: Matrix, h: Matrix, w: Matrix, n: nat, f: nat)
    requires Shape(h, n, f) && Shape(w, f, f) && PrefixMixed(z, h, w, n, f, f)
    ensures z == Mixed(h, w, n, f, f)
  {
    hide Mix, Mixed;
    var m := Mixed(h, w, n, f, f);
    assert w[..f] == w;
    forall i | 0 <= i < n ensures z[i] == m[i] {
      assert h[i][..f] == h[i];
      forall g | 0 <= g < f ensures z[i][g] == m[i][g] {
      }
    }
  }

  /** A device's partial product from its own columns and its own rows of the weight. */
  method Partial(a: Csr, feat: Matrix, wd: Matrix, n: nat, f: nat, lo: nat, hi: nat, ghost x: Matrix, ghost w: Matrix)
    returns (part: Matrix)
    requires GoodRows(a, n) && Shape(x, n, f) && Shape(w, f, f) && lo <= hi <= f
    requires feat == Columns(x, lo, hi) && wd == w[lo..hi]
    ensures Shape(Columns(Aggregate(a, x, n, f), lo, hi), n, hi - lo) && Shape(w[lo..hi], hi - lo, f)
    ensures part == Mixed(Columns(Aggregate(a, x, n, f), lo, hi), w[lo..hi], n, hi - lo, f)
  {
    hide Aggregate, Mixed;
    AggregateBlock(a, x, n, f, lo, hi);
    part := Mixed(Aggregate(a, feat, n, hi - lo), wd, n, hi - lo, f);
  }

  /** All partial products added up on the first device. */
  method SumPartials(a: Csr, feats: seq<Matrix>, w: Matrix, n: nat, f: nat, devices: nat, ghost x: Matrix)
    returns (z: Matrix)
    requires devices > 0 && GoodRows(a, n) && Shape(x, n, f) && Shape(w, f, f) && Holds(feats, x, n, f, devices)
    ensures z == Mixed(Aggregate(a, x, n, f), w, n, f, f)
  {
    hide Aggregate, Mixed, PrefixMixed, Start;
    ghost var h := Aggregate(a, x, n, f);
    StartEnds(f, devices);
    assert HoldsBlock(feats[0], x, n, f, devices, 0);
    var hi := Start(f, devices, 1);
    z := Partial(a, feats[0], w[0..hi], n, f, 0, hi, x, w);
    FirstPartial(z, h, w, n, f, hi);
    MixedPrefixShape(z, h, w, n, f, hi);
    for d := 1 to devices
      invariant Start(f, devices, d) <= f && PrefixMixed(z, h, w, n, f, Start(f, devices, d)) && Shape(z, n, f)
    {
      assert HoldsBlock(feats[d], x, n, f, devices, d);
      var lo, top := Start(f, devices, d), Start(f, devices, d + 1);
      var part := Partial(a, feats[d], w[lo..top], n, f, lo, top, x, w);
      AddPartial(z, part, h, w, n, f, lo, top);
      z := Plus(z, part, n, f);
    }
    AllMixed(z, h, w, n, f);
  }

  lemma MixedPrefixShape(z: Matrix, h: Matrix, w: Matrix, n: nat, f: nat, upto: nat)
    requires Shape(h, n, f) && Shape(w, f, f) && upto <= f && PrefixMixed(z, h, w, n, f, upto)
    ensures Shape(z, n, f)
  {
  }

  /** `z[:, cols[d][0] : cols[d][-1] + 1]` for every device; an empty block has no first column. */
  method Rescatter(z: Matrix, n: nat, f: nat, devices: nat) returns (feats: Option<seq<Matrix>>)
    requires devices > 0 && Shape(z, n, f)
    ensures feats.None? <==> devices > f
    ensures feats.Some? ==> Holds(feats.value, z, n, f, devices)
  {
    BlocksNonempty(f, devices);
    hide Start;
    var out: seq<Matrix> := [];
    for d := 0 to devices
      invariant |out| == d && forall e :: 0 <= e < d ==> HoldsBlock(out[e], z, n, f, devices, e)
      invariant forall e :: 0 <= e < d ==> Start(f, devices, e) < Start(f, devices, e + 1)
    {
      BlockOrdered(f, devices, d);
      var lo, hi := Start(f, devices, d), Start(f, devices, d + 1);
      if lo == hi {
        return None;
      }
      out := out + [Columns(z, lo, hi)];
    }
    feats := Some(out);
  }

  /** Without a weight every device just aggregates its own columns. */
  method PlainSweep(a: Csr, feats: seq<Matrix>, n: nat, f: nat, devices: nat, ghost x: Matrix)
    returns (next: seq<Matrix>)
    requires devices > 0 && GoodRows(a, n) && Shape(x, n, f) && Holds(feats, x, n, f, devices)
    ensures Holds(next, Layer(a, x, None, n, f), n, f, devices)
  {
    hide Start, Aggregate;
    ghost var h := Aggregate(a, x, n, f);
    next := [];
    for d := 0 to devices
      invariant |next| == d && forall e :: 0 <= e < d ==> HoldsBlock(next[e], ReluAll(h), n, f, devices, e)
    {
      assert HoldsBlock(feats[d], x, n, f, devices, d);
      ghost var lo, hi := Start(f, devices, d), Start(f, devices, d + 1);
      AggregateBlock(a, x, n, f, lo, hi);
      ReluColumns(h, f, lo, hi);
      next := next + [ReluAll(Aggregate(a, feats[d], n, BlockWidth(f, devices, d)))];
    }
  }

  function BlockWidth(f: nat, devices: nat, d: nat): nat
    requires devices > 0 && d < devices
  {
    BlockOrdered(f, devices, d);
    Start(f, devices, d + 1) - Start(f, devices, d)
  }

  /** One sweep of all devices; with a weight it fails exactly when some device has no column. */
  method Sweep(a: Csr, feats: seq<Matrix>, w: Option<Matrix>, n: nat, f: nat, devices: nat, ghost x: Matrix)
    returns (next: Option<seq<Matrix>>)
    requires devices > 0 && GoodRows(a, n) && Shape(x, n, f) && Holds(feats, x, n, f, devices)
    requires w.Some? ==> Shape(w.value, f, f)
    ensures next.None? <==> w.Some? && devices > f
    ensures next.Some? ==> Holds(next.value, Layer(a, x, w, n, f), n, f, devices)
  {
    hide Holds, Aggregate, Mixed;
    if w.None? {
      var plain := PlainSweep(a, feats, n, f, devices, x);
      return Some(plain);
    }
    var z := SumPartials(a, feats, w.value, n, f, devices, x);
    next := Rescatter(ReluAll(z), n, f, devices);
  }

  // ---------------------------------------------------------------- the run

  /** Rows side by side. */
  function Beside(x: Matrix, y: Matrix): (r: Matrix)
    requires |x| == |y|
    ensures |r| == |x| && forall i :: 0 <= i < |r| ==> r[i] == x[i] + y[i]
  {
    seq(|x|, i requires 0 <= i < |x| => x[i] + y[i])
  }

  ghost predicate Tall(feats: seq<Matrix>, n: nat) {
    forall e :: 0 <= e < |feats| ==> |feats[e]| == n
  }

  /** `out[:, cols[d]] = feats[d]` for every device. */
  function Assembled(feats: seq<Matrix>, n: nat, d: nat): (r: Matrix)
    requires d <= |feats| && Tall(feats, n)
    ensures |r| == n
  {
    if d == 0 then seq(n, _ => []) else Beside(Assembled(feats, n, d - 1), feats[d - 1])
  }

  lemma HoldsAll(feats: seq<Matrix>, x: Matrix, n: nat, f: nat, devices: nat)
    requires devices > 0 && Shape(x, n, f) && Holds(feats, x, n, f, devices)
    ensures |feats| == devices && Tall(feats, n)
  {
    forall d | 0 <= d < devices ensures |feats[d]| == n {
      assert HoldsBlock(feats[d], x, n, f, devices, d);
    }
  }

  lemma BesideBlock(x: Matrix, n: nat, f: nat, lo: nat, hi: nat)
    requires Shape(x, n, f) && lo <= hi <= f
    ensures Beside(Columns(x, 0, lo), Columns(x, lo, hi)) == Columns(x, 0, hi)
  {
    var a, b := Beside(Columns(x, 0, lo), Columns(x, lo, hi)), Columns(x, 0, hi);
    forall i | 0 <= i < n ensures a[i] == b[i] {
      assert a[i] == x[i][0..lo] + x[i][lo..hi];
    }
  }

  lemma NoColumns(x: Matrix, feats: seq<Matrix>, n: nat, f: nat)
    requires Shape(x, n, f) && Tall(feats, n)
    ensures Assembled(feats, n, 0) == Columns(x, 0, 0)
  {
  }

  lemma {:induction false} AssembledPrefix(feats: seq<Matrix>, x: Matrix, n: nat, f: nat, devices: nat, d: nat)
    requires devices > 0 && Shape(x, n, f) && Holds(feats, x, n, f, devices) && d <= devices
    requires |feats| == devices && Tall(feats, n)
    ensures Start(f, devices, d) <= f && Assembled(feats, n, d) == Columns(x, 0, Start(f, devices, d))
  {
    hide Start, Tall;
    StartEnds(f, devices);
    if d == 0 {
      NoColumns(x, feats, n, f);
    } else {
      AssembledPrefix(feats, x, n, f, devices, d - 1);
      assert HoldsBlock(feats[d - 1], x, n, f, devices, d - 1);
      BesideBlock(x, n, f, Start(f, devices, d - 1), Start(f, devices, d));
    }
  }

  /** `layers` sweeps one after another. */
  method Sweeps(a: Csr, start: seq<Matrix>, w: Option<Matrix>, n: nat, f: nat, devices: nat, layers: nat,
                ghost x: Matrix)
    returns (feats: Option<seq<Matrix>>)
    requires devices > 0 && GoodRows(a, n) && Shape(x, n, f) && Holds(start, x, n, f, devices)
    requires w.Some? ==> Shape(w.value, f, f)
    ensures feats.None? <==> w.Some? && devices > f && layers > 0
    ensures feats.Some? ==> Holds(feats.value, Layers(a, x, w, n, f, layers), n, f, devices)
  {
    hide Holds, Layer;
    var now := start;
    ghost var h := x;
    for k := 0 to layers
      invariant h == Layers(a, x, w, n, f, k) && Holds(now, h, n, f, devices)
      invariant k > 0 ==> !(w.Some? && devices > f)
    {
      var next := Sweep(a, now, w, n, f, devices, h);
      if next.None? {
        return None;
      }
      h := Layer(a, h, w, n, f);
      now := next.value;
    }
    feats := Some(now);
  }

  /** The column-parallel run: rows of the two-way graph with self-loops, warm-up and timed
      repetitions from the same columns, then the columns side by side. */
  method RunTensor(src: seq<nat>, dst: seq<nat>, x: Matrix, w: Option<Matrix>, f: nat, devices: nat, layers: nat)
    returns (out: Option<Matrix>)
    requires devices > 0 && Graph(src, dst, |x|) && Shape(x, |x|, f) && (w.Some? ==> Shape(w.value, f, f))
    ensures out.None? <==> w.Some? && devices > f && layers > 0
    ensures out.Some? ==> out.value == H.TwoWayLayers(RowLayer(w, f), src, dst, x, layers)
    ensures out.Some? ==> |out.value| == |x|
    ensures out.Some? && layers == 1 ==>
              forall v :: 0 <= v < |x| ==> out.value[v] == H.HeardRow(RowLayer(w, f), src, dst, x, v)
    ensures out.Some? ==>
      out.value == H.Layers(RowLayer(w, f), H.WithSelfLoops(src, dst, |x|), H.WithSelfLoops(dst, src, |x|), x, layers)
  {
    var n, u, v := |x|, H.WithSelfLoops(src, dst, |x|), H.WithSelfLoops(dst, src, |x|);
    assert Graph(u, v, n);
    var a := BuildCsr(u, v, n);
    RowsAreGood(a, u, v, n);
    LayersAreReference(a, u, v, x, w, n, f, layers);
    H.LayersAreTwoWay(RowLayer(w, f), src, dst, x, layers);
    hide H.HeardRow, RowLayer;
    hide Start, Holds, GoodRows, IsCsrOf, Layers, H.Layers;
    var feats := SplitColumns(x, n, f, devices);
    for r := 0 to H.WARMUP
      invariant Holds(feats, x, n, f, devices) && (r > 0 ==> !(w.Some? && devices > f && layers > 0))
    {
      var warm := Sweeps(a, feats, w, n, f, devices, layers, x);
      if warm.None? {
        return None;
      }
      feats := SplitColumns(x, n, f, devices);
    }
    for r := 0 to H.TIMED
      invariant r > 0 ==> Holds(feats, Layers(a, x, w, n, f, layers), n, f, devices)
    {
      feats := SplitColumns(x, n, f, devices);
      var timed := Sweeps(a, feats, w, n, f, devices, layers, x);
      feats := timed.value;
    }
    var r := Assemble(feats, n, f, devices, Layers(a, x, w, n, f, layers));
    out := Some(r);
  }

  method Assemble(feats: seq<Matrix>, n: nat, f: nat, devices: nat, ghost h: Matrix) returns (r: Matrix)
    requires devices > 0 && Shape(h, n, f) && Holds(feats, h, n, f, devices)
    ensures r == h
  {
    hide Start;
    HoldsAll(feats, h, n, f, devices);
    AssembledPrefix(feats, h, n, f, devices, devices);
    StartEnds(f, devices);
    r := Assembled(feats, n, devices);
    WholeWidth(h, n, f);
  }

  lemma WholeWidth(x: Matrix, n: nat, f: nat)
    requires Shape(x, n, f)
    ensures Columns(x, 0, f) == x
  {
    forall i | 0 <= i < n ensures x[i][0..f] == x[i] {
    }
  }

  method SplitColumns(x: Matrix, n: nat, f: nat, devices: nat) returns (feats: seq<Matrix>)
    requires devices > 0 && Shape(x, n, f)
    ensures Holds(feats, x, n, f, devices)
  {
    hide Start;
    feats := [];
    for d := 0 to devices
      invariant |feats| == d && forall e :: 0 <= e < d ==> HoldsBlock(feats[e], x, n, f, devices, e)
    {
      BlockOrdered(f, devices, d);
      feats := feats + [Columns(x, Start(f, devices, d), Start(f, devices, d + 1))];
    }
  }
}
