/** Partitioned execution of an L-layer row aggregation on D devices with halo exchange.

    The row function is arbitrary: it receives the degree of a vertex and the rows of its
    neighbours in stored order, so nothing below depends on addition being associative. */
module HaloExecution {
  import opened Arrays

  // ---------------------------------------------------------------- reference semantics

  /** Degree and neighbour rows in stored order to the new row (mean, weight mix, activation). */
  type RowFn<!T> = (nat, seq<T>) -> T

  /** The neighbours of `w` in edge-list order. */
  function Nbrs(u: seq<nat>, v: seq<nat>, w: nat): (r: seq<nat>)
    requires |u| == |v|
  {
    Select<nat>(v, Indices(u, w))
  }

  /** One layer on the whole graph. */
  function Layer<T>(f: RowFn<T>, u: seq<nat>, v: seq<nat>, h: seq<T>): (r: seq<T>)
    requires Graph(u, v, |h|)
    ensures |r| == |h|
  {
    seq(|h|, w requires 0 <= w < |h| => f(Count(u, w), Select<T>(h, Nbrs(u, v, w))))
  }

  function Layers<T>(f: RowFn<T>, u: seq<nat>, v: seq<nat>, x: seq<T>, k: nat): (r: seq<T>)
    requires Graph(u, v, |x|)
    ensures |r| == |x|
  {
    if k == 0 then x else Layer(f, u, v, Layers(f, u, v, x, k - 1))
  }

  /** One layer through compressed rows over a local table. */
  function SpMM<T>(f: RowFn<T>, a: Csr, table: seq<T>): (r: seq<T>)
    requires |a.crow| == |a.deg| + 1 && Below(a.col, |table|)
    requires forall i :: 0 <= i < |a.deg| ==> RowOk(a, i)
    ensures |r| == |a.deg|
  {
    seq(|a.deg|, i requires 0 <= i < |a.deg| => f(a.deg[i], Select<T>(table, Row(a, i))))
  }

  /** The single-device run: one CSR of the whole graph, rebuilt rows layer after layer. */
  method RunReference<T>(f: RowFn<T>, u: seq<nat>, v: seq<nat>, x: seq<T>, layers: nat) returns (h: seq<T>)
    requires Graph(u, v, |x|)
    ensures h == Layers(f, u, v, x, layers)
  {
    var a := BuildCsr(u, v, |x|);
    h := x;
    for l := 0 to layers
      invariant h == Layers(f, u, v, x, l)
    {
      SpMMIsLayer(f, a, u, v, h);
      h := SpMM(f, a, h);
    }
  }

  lemma SpMMIsLayer<T>(f: RowFn<T>, a: Csr, u: seq<nat>, v: seq<nat>, h: seq<T>)
    requires Graph(u, v, |h|) && IsCsrOf(a, u, v, |h|)
    ensures SpMM(f, a, h) == Layer(f, u, v, h)
  {
    forall i | 0 <= i < |h| ensures SpMM(f, a, h)[i] == Layer(f, u, v, h)[i] {
      assert Row(a, i) == Nbrs(u, v, i);
    }
  }

  // ---------------------------------------------------------------- vertex ownership

  /** `lidx[x]` is the place of `x` among the vertices of its own device. */
  ghost predicate LocalIndex(part: seq<nat>, lidx: seq<nat>) {
    && |lidx| == |part|
    && forall x :: 0 <= x < |part| ==> PlacedAt(part, x, lidx[x])
  }

  ghost predicate PlacedAt(part: seq<nat>, x: nat, i: int)
    requires x < |part|
  {
    0 <= i < Count(part, part[x]) && Indices(part, part[x])[i] == x
  }

  lemma LocalIndexOfLocal(part: seq<nat>, lidx: seq<nat>, d: nat, i: nat)
    requires LocalIndex(part, lidx) && i < Count(part, d)
    ensures lidx[Indices(part, d)[i]] == i
  {
    var g := Indices(part, d);
    assert g[lidx[g[i]]] == g[i];
  }

  /** Numbers the vertices of one device in ascending order. */
  method NumberDevice(a: array<int>, g: seq<nat>)
    requires Below(g, a.Length) && Increasing(g)
    modifies a
    ensures forall i :: 0 <= i < |g| ==> a[g[i]] == i
    ensures forall x :: 0 <= x < a.Length && x !in g ==> a[x] == old(a[x])
  {
    for i := 0 to |g|
      invariant forall j :: 0 <= j < i ==> a[g[j]] == j
      invariant forall x :: 0 <= x < a.Length && x !in g ==> a[x] == old(a[x])
    {
      a[g[i]] := i;
    }
  }

  /** Lists every device's vertices and numbers them, device after device. */
  method NumberLocals(part: seq<nat>, devices: nat) returns (lidx: seq<nat>)
    requires Below(part, devices)
    ensures LocalIndex(part, lidx)
  {
    var a := new int[|part|](_ => -1);
    for d := 0 to devices
      invariant forall x :: 0 <= x < |part| && part[x] < d ==> PlacedAt(part, x, a[x])
    {
      var g := Indices(part, d);
      NumberDevice(a, g);
      forall x | 0 <= x < |part| && part[x] == d ensures PlacedAt(part, x, a[x]) {
        assert x in g;
      }
    }
    assert forall x :: 0 <= x < |part| ==> PlacedAt(part, x, a[x]);
    lidx := a[..];
  }

  // ---------------------------------------------------------------- shards

  /** Rows to pull from one owner: its row numbers and the table slots they land in. */
  datatype Pull = Pull(owner: nat, rows: seq<nat>, slots: seq<nat>)

  /** A device's vertices, the remote neighbours it needs, its rows and its halo plan. */
  datatype Shard = Shard(locals: seq<nat>, halo: seq<nat>, csr: Csr, plan: seq<Pull>) {
    /** Table slot to vertex: local vertices first, then the halo. */
    function Slots(): seq<nat> { locals + halo }
  }

  /** The edges whose aggregating endpoint lives on device `d`. */
  function OwnEdges(part: seq<nat>, u: seq<nat>, d: nat): (r: seq<nat>)
    requires Below(u, |part|)
    ensures Below(r, |u|)
  {
    Indices(Select<nat>(part, u), d)
  }

  /** Device `d` must import vertex `x`. */
  ghost predicate RemoteNeighbour(part: seq<nat>, u: seq<nat>, v: seq<nat>, d: nat, x: nat)
    requires Graph(u, v, |part|)
  {
    exists e :: 0 <= e < |u| && part[u[e]] == d && v[e] == x && part[x] != d
  }

  ghost predicate ValidPull(p: Pull, d: nat, part: seq<nat>, lidx: seq<nat>, slots: seq<nat>)
    requires LocalIndex(part, lidx) && Below(slots, |part|)
  {
    && |p.rows| == |p.slots| && p.owner != d
    && forall k :: 0 <= k < |p.rows| ==>
         && Count(part, d) <= p.slots[k] < |slots|
         && part[slots[p.slots[k]]] == p.owner
         && p.rows[k] == lidx[slots[p.slots[k]]]
  }

  ghost predicate Covered(plan: seq<Pull>, s: nat) {
    exists j, k :: 0 <= j < |plan| && 0 <= k < |plan[j].slots| && plan[j].slots[k] == s
  }

  ghost predicate ValidPlan(sh: Shard, d: nat, part: seq<nat>, lidx: seq<nat>)
    requires LocalIndex(part, lidx) && Below(sh.Slots(), |part|)
  {
    && (forall j :: 0 <= j < |sh.plan| ==> ValidPull(sh.plan[j], d, part, lidx, sh.Slots()))
    && (forall j :: 0 <= j < |sh.plan| ==> sh.plan[j].rows != [])
    && (forall s :: |sh.locals| <= s < |sh.Slots()| ==> Covered(sh.plan, s))
  }

  /** Row `i` lists, through the slots, the neighbours of `locals[i]` in edge order. */
  ghost predicate ValidRows(csr: Csr, locals: seq<nat>, slots: seq<nat>, u: seq<nat>, v: seq<nat>)
    requires |u| == |v|
  {
    && |csr.deg| == |locals| && |csr.crow| == |locals| + 1
    && Below(csr.col, |slots|)
    && (forall i :: 0 <= i < |locals| ==>
         RowOk(csr, i) && Select<nat>(slots, Row(csr, i)) == Nbrs(u, v, locals[i]))
    && (forall i :: 0 <= i < |locals| ==> csr.deg[i] == Count(u, locals[i]))
  }

  ghost predicate ValidShard(sh: Shard, d: nat, part: seq<nat>, lidx: seq<nat>, u: seq<nat>, v: seq<nat>)
    requires Graph(u, v, |part|) && LocalIndex(part, lidx)
  {
    && sh.locals == Indices(part, d)
    && Increasing(sh.halo) && Below(sh.halo, |part|)
    && (forall x: nat :: x in sh.halo <==> RemoteNeighbour(part, u, v, d, x))
    && ValidRows(sh.csr, sh.locals, sh.Slots(), u, v)
    && ValidPlan(sh, d, part, lidx)
  }

  /** Restricting the edge list to one device and renumbering its rows keeps the positions
      of each vertex's edges. */
  lemma OwnPositions(part: seq<nat>, lidx: seq<nat>, u: seq<nat>, w: nat, sel: seq<nat>, rows: seq<nat>)
    requires Below(u, |part|) && LocalIndex(part, lidx) && w < |part|
    requires sel == OwnEdges(part, u, part[w])
    requires |rows| == |sel| && forall j :: 0 <= j < |sel| ==> rows[j] == lidx[u[sel[j]]]
    ensures Select<nat>(sel, Indices(rows, lidx[w])) == Indices(u, w)
  {
    var mine := Indices(rows, lidx[w]);
    var k := Select<nat>(sel, mine);
    forall p ensures p in k <==> p in Indices(u, w) {
      if p in Indices(u, w) {
        assert Select<nat>(part, u)[p] == part[w];
        var j :| 0 <= j < |sel| && sel[j] == p;
        assert rows[j] == lidx[w];
        var t :| 0 <= t < |mine| && mine[t] == j;
        assert k[t] == p;
      }
      if t :| 0 <= t < |k| && k[t] == p {
        OwnRow(part, lidx, w, u[p]);
      }
    }
    IncreasingUnique(k, Indices(u, w));
  }

  /** Within one device the row number identifies the vertex. */
  lemma OwnRow(part: seq<nat>, lidx: seq<nat>, w: nat, x: nat)
    requires LocalIndex(part, lidx) && w < |part| && x < |part|
    requires part[x] == part[w]
    ensures lidx[x] == lidx[w] ==> x == w
  {
    assert Indices(part, part[w])[lidx[w]] == w;
    assert Indices(part, part[x])[lidx[x]] == x;
  }

  /** So each row keeps its neighbour sequence and degree. */
  lemma FilteredRow(part: seq<nat>, lidx: seq<nat>, u: seq<nat>, v: seq<nat>, w: nat, sel: seq<nat>, rows: seq<nat>)
    requires Graph(u, v, |part|) && LocalIndex(part, lidx) && w < |part|
    requires sel == OwnEdges(part, u, part[w]) && rows == Select<nat>(lidx, Select<nat>(u, sel))
    ensures Select<nat>(Select<nat>(v, sel), Indices(rows, lidx[w])) == Nbrs(u, v, w)
    ensures Count(rows, lidx[w]) == Count(u, w)
  {
    OwnPositions(part, lidx, u, w, sel, rows);
    var mine := Indices(rows, lidx[w]);
    assert |mine| == |Indices(u, w)|;
    forall t | 0 <= t < |mine|
      ensures Select<nat>(Select<nat>(v, sel), mine)[t] == Nbrs(u, v, w)[t]
    {
      assert Select<nat>(sel, mine)[t] == Indices(u, w)[t];
    }
  }

  // ---------------------------------------------------------------- shard construction

  /** The distinct remote neighbours of device `d`, ascending. */
  method FindHalo(d: nat, part: seq<nat>, u: seq<nat>, v: seq<nat>) returns (halo: seq<nat>)
    requires Graph(u, v, |part|)
    ensures Increasing(halo) && Below(halo, |part|)
    ensures forall x: nat :: x in halo <==> RemoteNeighbour(part, u, v, d, x)
  {
    var sel := OwnEdges(part, u, d);
    var gv := Select<nat>(v, sel);
    var away := AwayEnds(d, part, gv);
    var remote := Select<nat>(gv, away);
    var distinct := Unique(remote);
    forall i | 0 <= i < |distinct| ensures 0 <= distinct[i] < |part| {
      assert distinct[i] in remote;
    }
    halo := distinct;
    forall x: nat ensures x in remote <==> RemoteNeighbour(part, u, v, d, x) {
      RemoteExact(d, part, u, v, gv, away, remote, x);
    }
  }

  /** `part[gv] != d`. */
  function AwayEnds(d: nat, part: seq<nat>, gv: seq<nat>): (away: seq<nat>)
    requires Below(gv, |part|)
    ensures forall i :: 0 <= i < |away| ==> away[i] < |gv|
    ensures forall j: nat :: j in away <==> j < |gv| && part[gv[j]] != d
  {
    var mask := seq(|gv|, e requires 0 <= e < |gv| => part[gv[e]] != d);
    assert forall j: nat :: j < |gv| && part[gv[j]] != d ==> mask[j];
    Where(mask)
  }

  lemma RemoteExact(d: nat, part: seq<nat>, u: seq<nat>, v: seq<nat>,
                    gv: seq<nat>, away: seq<nat>, remote: seq<nat>, x: nat)
    requires Graph(u, v, |part|) && gv == Select<nat>(v, OwnEdges(part, u, d))
    requires Below(away, |gv|) && remote == Select<nat>(gv, away)
    requires forall j: nat :: j in away <==> j < |gv| && part[gv[j]] != d
    ensures x in remote <==> RemoteNeighbour(part, u, v, d, x)
  {
    if x in remote {
      var i :| 0 <= i < |remote| && remote[i] == x;
      assert away[i] in away;
      RemoteSound(d, part, u, v, OwnEdges(part, u, d), away[i]);
    }
    if RemoteNeighbour(part, u, v, d, x) {
      var j := RemoteComplete(d, part, u, v, x);
      assert part[gv[j]] != d;
      var i :| 0 <= i < |away| && away[i] == j;
      assert remote[i] == x;
    }
  }

  lemma RemoteSound(d: nat, part: seq<nat>, u: seq<nat>, v: seq<nat>, sel: seq<nat>, j: nat)
    requires Graph(u, v, |part|) && sel == OwnEdges(part, u, d)
    requires j < |sel| && part[v[sel[j]]] != d
    ensures RemoteNeighbour(part, u, v, d, v[sel[j]])
  {
    assert Select<nat>(part, u)[sel[j]] == d;
  }

  lemma RemoteComplete(d: nat, part: seq<nat>, u: seq<nat>, v: seq<nat>, x: nat) returns (j: nat)
    requires Graph(u, v, |part|) && RemoteNeighbour(part, u, v, d, x)
    ensures var sel := OwnEdges(part, u, d); j < |sel| && v[sel[j]] == x && part[x] != d
  {
    var e :| 0 <= e < |u| && part[u[e]] == d && v[e] == x && part[x] != d;
    assert Select<nat>(part, u)[e] == d;
    j :| 0 <= j < |OwnEdges(part, u, d)| && OwnEdges(part, u, d)[j] == e;
  }

  /** Vertex to table slot: `tpos[locals] = arange(nl)`, then `tpos[halo] = nl + arange(nh)`. */
  method NumberSlots(n: nat, locals: seq<nat>, halo: seq<nat>) returns (tpos: seq<int>)
    requires Below(locals + halo, n) && Below(halo, n) && Distinct(locals + halo)
    ensures |tpos| == n
    ensures forall s :: 0 <= s < |locals + halo| ==> tpos[(locals + halo)[s]] == s
    ensures forall i :: 0 <= i < |halo| ==> tpos[halo[i]] == |locals| + i
  {
    var a := new int[n](_ => -1);
    var slots := locals + halo;
    for i := 0 to |locals|
      invariant forall s :: 0 <= s < i ==> a[slots[s]] == s
    {
      assert locals[i] == slots[i];
      a[locals[i]] := i;
    }
    for i := 0 to |halo|
      invariant forall s :: 0 <= s < |locals| + i ==> a[slots[s]] == s
    {
      assert halo[i] == slots[|locals| + i];
      a[halo[i]] := |locals| + i;
    }
    assert forall i :: 0 <= i < |halo| ==> slots[|locals| + i] == halo[i];
    tpos := a[..];
  }

  /** The table's slots, numbered by `tpos`, with the halo on other devices. */
  ghost predicate Numbered(d: nat, part: seq<nat>, tpos: seq<int>, locals: seq<nat>, halo: seq<nat>) {
    && |tpos| == |part| && locals == Indices(part, d) && Below(halo, |part|)
    && (forall i :: 0 <= i < |halo| ==> tpos[halo[i]] == |locals| + i)
    && (forall i :: 0 <= i < |halo| ==> part[halo[i]] != d)
  }

  /** The rows device `d` pulls from owner `o`: the halo vertices `o` owns. */
  method PullFrom(o: nat, d: nat, part: seq<nat>, lidx: seq<nat>, tpos: seq<int>, locals: seq<nat>, halo: seq<nat>)
    returns (pull: Pull)
    requires LocalIndex(part, lidx) && Numbered(d, part, tpos, locals, halo) && o != d
    ensures ValidPull(pull, d, part, lidx, locals + halo) && pull.owner == o
    ensures forall i :: 0 <= i < |halo| && part[halo[i]] == o ==> |locals| + i in pull.slots
  {
    hide *;
    NumberedFacts(d, part, lidx, tpos, locals, halo);
    var mine := Indices(Select<nat>(part, halo), o);
    MineBelow(part, halo, o, mine);
    var sel := Select<nat>(halo, mine);
    pull := Pull(o, Select<nat>(lidx, sel), SlotsOf(tpos, |locals|, halo, mine));
    PullIsValid(o, d, part, lidx, locals, halo, mine, pull);
    PullReaches(o, part, |locals|, halo, mine, pull);
  }

  lemma NumberedFacts(d: nat, part: seq<nat>, lidx: seq<nat>, tpos: seq<int>, locals: seq<nat>, halo: seq<nat>)
    requires LocalIndex(part, lidx) && Numbered(d, part, tpos, locals, halo)
    ensures |lidx| == |tpos| == |part| && locals == Indices(part, d) && Below(locals + halo, |part|)
    ensures Below(halo, |part|) && forall i :: 0 <= i < |halo| ==> halo[i] < |part| && tpos[halo[i]] == |locals| + i
  {
  }

  lemma MineBelow(part: seq<nat>, halo: seq<nat>, o: nat, mine: seq<nat>)
    requires Below(halo, |part|) && mine == Indices(Select<nat>(part, halo), o)
    ensures Below(mine, |halo|) && forall i :: 0 <= i < |mine| ==> mine[i] < |halo| && halo[mine[i]] < |part|
  {
    hide Indices;
  }

  /** `tpos[halo[mine]]`. */
  function SlotsOf(tpos: seq<int>, nl: nat, halo: seq<nat>, mine: seq<nat>): (r: seq<nat>)
    requires Below(halo, |tpos|) && Below(mine, |halo|)
    requires forall i :: 0 <= i < |halo| ==> tpos[halo[i]] == nl + i
    ensures |r| == |mine| && forall k :: 0 <= k < |mine| ==> r[k] == nl + mine[k]
  {
    Select<int>(tpos, Select<nat>(halo, mine))
  }

  lemma PullIsValid(o: nat, d: nat, part: seq<nat>, lidx: seq<nat>, locals: seq<nat>, halo: seq<nat>,
                    mine: seq<nat>, pull: Pull)
    requires LocalIndex(part, lidx) && o != d && locals == Indices(part, d)
    requires Below(halo, |part|) && mine == Indices(Select<nat>(part, halo), o)
    requires pull.owner == o && |pull.rows| == |pull.slots| == |mine|
    requires forall k :: 0 <= k < |mine| ==>
               pull.rows[k] == lidx[halo[mine[k]]] && pull.slots[k] == |locals| + mine[k]
    ensures ValidPull(pull, d, part, lidx, locals + halo)
  {
    hide LocalIndex;
    var slots := locals + halo;
    forall k | 0 <= k < |mine|
      ensures |locals| <= pull.slots[k] < |slots| && slots[pull.slots[k]] == halo[mine[k]]
      ensures part[halo[mine[k]]] == o
    {
      assert Select<nat>(part, halo)[mine[k]] == o;
    }
  }

  lemma PullReaches(o: nat, part: seq<nat>, nl: nat, halo: seq<nat>, mine: seq<nat>, pull: Pull)
    requires Below(halo, |part|) && mine == Indices(Select<nat>(part, halo), o)
    requires |pull.slots| == |mine| && forall k :: 0 <= k < |mine| ==> pull.slots[k] == nl + mine[k]
    ensures forall i :: 0 <= i < |halo| && part[halo[i]] == o ==> nl + i in pull.slots
  {
    forall i | 0 <= i < |halo| && part[halo[i]] == o ensures nl + i in pull.slots {
      assert Select<nat>(part, halo)[i] == o;
      var k :| 0 <= k < |mine| && mine[k] == i;
      assert pull.slots[k] == nl + i;
    }
  }

  /** One gather per remote owner, in ascending owner order; owners with nothing to send are skipped. */
  method PlanPulls(d: nat, devices: nat, part: seq<nat>, lidx: seq<nat>, tpos: seq<int>, locals: seq<nat>,
                   halo: seq<nat>)
    returns (plan: seq<Pull>)
    requires LocalIndex(part, lidx) && Below(part, devices) && Numbered(d, part, tpos, locals, halo)
    ensures forall j :: 0 <= j < |plan| ==> ValidPull(plan[j], d, part, lidx, locals + halo)
    ensures forall j :: 0 <= j < |plan| ==> plan[j].rows != []
    ensures forall s :: |locals| <= s < |locals + halo| ==> Covered(plan, s)
  {
    hide LocalIndex;
    hide ValidPull;
    plan := [];
    ghost var slots := locals + halo;
    for o := 0 to devices
      invariant forall j :: 0 <= j < |plan| ==> ValidPull(plan[j], d, part, lidx, slots)
      invariant forall j :: 0 <= j < |plan| ==> plan[j].rows != []
      invariant forall i :: 0 <= i < |halo| && part[halo[i]] < o ==> Covered(plan, |locals| + i)
    {
      if o != d {
        var pull := PullFrom(o, d, part, lidx, tpos, locals, halo);
        PullSizes(pull, d, part, lidx, slots);
        if pull.rows != [] {
          CoveredSnoc(plan, pull);
          plan := plan + [pull];
        }
      }
    }
    forall s | |locals| <= s < |slots| ensures Covered(plan, s) {
      var i := s - |locals|;
      assert part[halo[i]] < devices;
      assert Covered(plan, |locals| + i);
    }
  }

  lemma PullSizes(p: Pull, d: nat, part: seq<nat>, lidx: seq<nat>, slots: seq<nat>)
    requires LocalIndex(part, lidx) && Below(slots, |part|) && ValidPull(p, d, part, lidx, slots)
    ensures |p.rows| == |p.slots|
  {
  }

  lemma CoveredSnoc(plan: seq<Pull>, p: Pull)
    ensures forall s :: Covered(plan, s) || s in p.slots ==> Covered(plan + [p], s)
  {
    forall s | Covered(plan, s) || s in p.slots ensures Covered(plan + [p], s) {
      if Covered(plan, s) {
        var j, k :| 0 <= j < |plan| && 0 <= k < |plan[j].slots| && plan[j].slots[k] == s;
        assert (plan + [p])[j] == plan[j];
      } else {
        var k :| 0 <= k < |p.slots| && p.slots[k] == s;
        assert (plan + [p])[|plan|] == p;
      }
    }
  }

  /** The device's edges, renumbered to local rows and table slots and compressed by row. */
  method BuildRows(d: nat, part: seq<nat>, lidx: seq<nat>, u: seq<nat>, v: seq<nat>, tpos: seq<int>, slots: seq<nat>)
    returns (csr: Csr)
    requires Graph(u, v, |part|) && LocalIndex(part, lidx) && |tpos| == |part| && Below(slots, |part|)
    requires forall s :: 0 <= s < |slots| ==> tpos[slots[s]] == s
    requires forall j :: 0 <= j < |OwnEdges(part, u, d)| ==> v[OwnEdges(part, u, d)[j]] in slots
    ensures ValidRows(csr, Indices(part, d), slots, u, v)
  {
    var sel := OwnEdges(part, u, d);
    var gu, gv := Select<nat>(u, sel), Select<nat>(v, sel);
    forall j | 0 <= j < |gv| ensures 0 <= tpos[gv[j]] < |slots| && slots[tpos[gv[j]]] == gv[j] {
      var s :| 0 <= s < |slots| && slots[s] == gv[j];
    }
    var ei, ej := Select<nat>(lidx, gu), Select<int>(tpos, gv);
    RowsBelow(d, part, lidx, u, sel, ei);
    csr := BuildCsr(ei, ej, Count(part, d));
    forall i | 0 <= i < Count(part, d)
      ensures Select<nat>(slots, Row(csr, i)) == Nbrs(u, v, Indices(part, d)[i])
      ensures csr.deg[i] == Count(u, Indices(part, d)[i])
    {
      RowCorrect(slots, d, part, lidx, u, v, sel, ei, ej, i);
    }
  }

  /** Builds device `d`'s slots, compressed rows and halo plan. */
  method BuildShard(d: nat, devices: nat, part: seq<nat>, lidx: seq<nat>, u: seq<nat>, v: seq<nat>)
    returns (sh: Shard)
    requires Graph(u, v, |part|) && LocalIndex(part, lidx) && Below(part, devices)
    ensures ValidShard(sh, d, part, lidx, u, v)
  {
    var locals := Indices(part, d);
    var halo := FindHalo(d, part, u, v);
    HaloApart(d, part, u, v, locals, halo);
    var tpos := NumberSlots(|part|, locals, halo);
    EndpointSlots(d, part, u, v, OwnEdges(part, u, d), locals + halo, halo);
    var csr := BuildRows(d, part, lidx, u, v, tpos, locals + halo);
    var plan := PlanPulls(d, devices, part, lidx, tpos, locals, halo);
    sh := Shard(locals, halo, csr, plan);
  }

  lemma HaloApart(d: nat, part: seq<nat>, u: seq<nat>, v: seq<nat>, locals: seq<nat>, halo: seq<nat>)
    requires Graph(u, v, |part|) && locals == Indices(part, d) && Increasing(halo) && Below(halo, |part|)
    requires forall x: nat :: x in halo <==> RemoteNeighbour(part, u, v, d, x)
    ensures forall i :: 0 <= i < |halo| ==> part[halo[i]] != d
    ensures Below(locals + halo, |part|) && Distinct(locals + halo)
  {
    forall i | 0 <= i < |halo| ensures part[halo[i]] != d {
      assert halo[i] in halo;
    }
  }

  lemma EndpointSlots(d: nat, part: seq<nat>, u: seq<nat>, v: seq<nat>, sel: seq<nat>, slots: seq<nat>, halo: seq<nat>)
    requires Graph(u, v, |part|) && sel == OwnEdges(part, u, d) && slots == Indices(part, d) + halo
    requires forall x: nat :: x in halo <==> RemoteNeighbour(part, u, v, d, x)
    ensures forall j :: 0 <= j < |sel| ==> v[sel[j]] in slots
  {
    forall j | 0 <= j < |sel| ensures v[sel[j]] in slots {
      var x := v[sel[j]];
      assert Select<nat>(part, u)[sel[j]] == d;
      if part[x] == d {
        assert x in Indices(part, d);
      } else {
        assert RemoteNeighbour(part, u, v, d, x);
      }
    }
  }

  lemma RowsBelow(d: nat, part: seq<nat>, lidx: seq<nat>, u: seq<nat>, sel: seq<nat>, ei: seq<nat>)
    requires Below(u, |part|) && LocalIndex(part, lidx) && sel == OwnEdges(part, u, d)
    requires ei == Select<nat>(lidx, Select<nat>(u, sel))
    ensures Below(ei, Count(part, d))
  {
    forall j | 0 <= j < |ei| ensures ei[j] < Count(part, d) {
      assert Select<nat>(part, u)[sel[j]] == d;
      assert PlacedAt(part, u[sel[j]], ei[j]);
    }
  }

  /** Reading a row's columns through the slots gives the vertex's neighbours. */
  lemma RowCorrect(slots: seq<nat>, d: nat, part: seq<nat>, lidx: seq<nat>, u: seq<nat>, v: seq<nat>,
                   sel: seq<nat>, ei: seq<nat>, ej: seq<nat>, i: nat)
    requires Graph(u, v, |part|) && LocalIndex(part, lidx)
    requires i < Count(part, d) && sel == OwnEdges(part, u, d)
    requires ei == Select<nat>(lidx, Select<nat>(u, sel)) && |ej| == |ei| && Below(ej, |slots|)
    requires forall j :: 0 <= j < |sel| ==> slots[ej[j]] == v[sel[j]]
    ensures Below(Select<nat>(ej, Indices(ei, i)), |slots|)
    ensures Select<nat>(slots, Select<nat>(ej, Indices(ei, i))) == Nbrs(u, v, Indices(part, d)[i])
    ensures Count(ei, i) == Count(u, Indices(part, d)[i])
  {
    LocalIndexOfLocal(part, lidx, d, i);
    FilteredRow(part, lidx, u, v, Indices(part, d)[i], sel, ei);
    ReadThrough(slots, ej, Select<nat>(v, sel), Indices(ei, i));
  }

  lemma ReadThrough(slots: seq<nat>, ej: seq<nat>, ends: seq<nat>, mine: seq<nat>)
    requires |ej| == |ends| && Below(mine, |ej|)
    requires forall j :: 0 <= j < |ej| ==> ej[j] < |slots| && slots[ej[j]] == ends[j]
    ensures Below(Select<nat>(ej, mine), |slots|)
    ensures Select<nat>(slots, Select<nat>(ej, mine)) == Select<nat>(ends, mine)
  {
  }

  /** Every device has its shard. */
  ghost predicate BuiltShards(devices: nat, part: seq<nat>, lidx: seq<nat>, u: seq<nat>, v: seq<nat>,
                              shards: seq<Shard>) {
    && Graph(u, v, |part|) && LocalIndex(part, lidx) && Below(part, devices) && |shards| == devices
    && forall d :: 0 <= d < devices ==> ValidShard(shards[d], d, part, lidx, u, v)
  }

  /** The local numbering and every device's shard. */
  method BuildShards(devices: nat, part: seq<nat>, u: seq<nat>, v: seq<nat>)
    returns (lidx: seq<nat>, shards: seq<Shard>)
    requires Graph(u, v, |part|) && Below(part, devices)
    ensures BuiltShards(devices, part, lidx, u, v, shards)
  {
    hide ValidShard;
    lidx := NumberLocals(part, devices);
    shards := [];
    for d := 0 to devices
      invariant |shards| == d && forall i :: 0 <= i < d ==> ValidShard(shards[i], i, part, lidx, u, v)
    {
      var sh := BuildShard(d, devices, part, lidx, u, v);
      shards := shards + [sh];
    }
  }

  // ---------------------------------------------------------------- the running cluster

  /** `tables[d][:nl] = feats[d]`. */
  method FillLocal<T>(t: array<T>, rows: seq<T>)
    requires |rows| <= t.Length
    modifies t
    ensures forall i :: 0 <= i < |rows| ==> t[i] == rows[i]
    ensures forall i :: |rows| <= i < t.Length ==> t[i] == old(t[i])
  {
    for i := 0 to |rows|
      invariant forall j :: 0 <= j < i ==> t[j] == rows[j]
      invariant forall j :: i <= j < t.Length ==> t[j] == old(t[j])
    {
      t[i] := rows[i];
    }
  }

  /** `index_copy_(0, slots, rows)`: row after row, so a later row wins. */
  function SpreadRows<T>(table: seq<T>, slots: seq<nat>, rows: seq<T>): (r: seq<T>)
    requires |slots| == |rows| && Below(slots, |table|)
    ensures |r| == |table|
    ensures forall s :: 0 <= s < |table| && s !in slots ==> r[s] == table[s]
    ensures forall s :: s in slots ==> exists k :: 0 <= k < |slots| && slots[k] == s && r[s] == rows[k]
  {
    if slots == [] then table
    else
      var n := |slots| - 1;
      assert slots == slots[..n] + [slots[n]];
      var front := SpreadRows(table, slots[..n], rows[..n]);
      assert forall k :: 0 <= k < n ==> slots[..n][k] == slots[k] && rows[..n][k] == rows[k];
      front[slots[n] := rows[n]]
  }

  method IndexCopy<T>(t: array<T>, slots: seq<nat>, rows: seq<T>)
    requires |slots| == |rows| && Below(slots, t.Length)
    modifies t
    ensures t[..] == SpreadRows<T>(old(t[..]), slots, rows)
    ensures forall s :: 0 <= s < t.Length && s !in slots ==> t[s] == old(t[s])
    ensures forall s :: s in slots ==> exists k :: 0 <= k < |slots| && slots[k] == s && t[s] == rows[k]
  {
    ghost var was := t[..];
    for i := 0 to |slots|
      invariant t[..] == SpreadRows<T>(was, slots[..i], rows[..i])
    {
      assert slots[..i + 1][..i] == slots[..i] && rows[..i + 1][..i] == rows[..i];
      t[slots[i]] := rows[i];
    }
    assert slots[..|slots|] == slots && rows[..|rows|] == rows;
    assert forall s :: 0 <= s < t.Length ==> t[s] == t[..][s];
  }

  datatype Mode = Legacy | Direct

  /** D devices, each with its shard, its `[local | halo]` table buffer and its current rows. */
  class Cluster<T(0)> {
    const devices: nat
    const part: seq<nat>
    const lidx: seq<nat>
    const shards: seq<Shard>
    const tables: seq<array<T>>
    var feats: seq<seq<T>>

    ghost predicate Built(u: seq<nat>, v: seq<nat>) {
      && Graph(u, v, |part|) && LocalIndex(part, lidx) && Below(part, devices)
      && |shards| == |tables| == devices
      && (forall d :: 0 <= d < devices ==> ValidShard(shards[d], d, part, lidx, u, v))
      && (forall d :: 0 <= d < devices ==> tables[d].Length == |shards[d].Slots()|)
      && (forall d, e :: 0 <= d < e < devices ==> tables[d] != tables[e])
    }

    /** The devices hold exactly the rows of `h`, each vertex on its owner. */
    ghost predicate Represents(h: seq<T>)
      reads this
    {
      Owned(part, devices, feats, h)
    }

    constructor (devices: nat, part: seq<nat>, u: seq<nat>, v: seq<nat>)
      requires Graph(u, v, |part|) && Below(part, devices)
      ensures Built(u, v) && this.part == part && this.devices == devices
      ensures fresh(tables)
    {
      hide ValidShard;
      var ids, built := BuildShards(devices, part, u, v);
      var bufs: seq<array<T>> := [];
      for d := 0 to devices
        invariant |bufs| == d
        invariant forall i :: 0 <= i < d ==> fresh(bufs[i]) && bufs[i].Length == |built[i].Slots()|
        invariant forall i, j :: 0 <= i < j < d ==> bufs[i] != bufs[j]
      {
        var buf := new T[|built[d].Slots()|];
        bufs := bufs + [buf];
      }
      this.devices, this.part, this.lidx, this.shards, this.tables := devices, part, ids, built, bufs;
      this.feats := [];
    }

    /** Every device takes its own rows of `x`. */
    method Scatter(x: seq<T>)
      requires |x| == |part| && Below(part, devices)
      modifies this
      ensures Represents(x)
    {
      feats := [];
      for d := 0 to devices
        invariant |feats| == d
        invariant forall i :: 0 <= i < d ==> feats[i] == Select<T>(x, Indices(part, i))
      {
        feats := feats + [Select<T>(x, Indices(part, d))];
      }
    }

    /** Slot `s` of device `d` holds its vertex's row of `h`. */
    ghost predicate SlotFilled(d: nat, s: nat, h: seq<T>)
      reads if d < |tables| then {tables[d]} else {}
    {
      && d < |shards| == |tables| && s < |shards[d].Slots()| == tables[d].Length
      && shards[d].Slots()[s] < |h| && tables[d][s] == h[shards[d].Slots()[s]]
    }

    ghost predicate TableFilled(d: nat, h: seq<T>)
      reads if d < |tables| then {tables[d]} else {}
    {
      d < |tables| && forall s :: 0 <= s < tables[d].Length ==> SlotFilled(d, s, h)
    }

    /** The rows a pull gathers from its owner are the rows of the slots it fills. */
    lemma PullRows(d: nat, p: Pull, h: seq<T>, u: seq<nat>, v: seq<nat>)
      requires Built(u, v) && d < devices && Represents(h)
      requires ValidPull(p, d, part, lidx, shards[d].Slots()) && p.rows != []
      ensures p.owner < devices && Below(p.rows, |feats[p.owner]|)
      ensures forall k :: 0 <= k < |p.rows| ==>
                feats[p.owner][p.rows[k]] == h[shards[d].Slots()[p.slots[k]]]
    {
      var x0 := shards[d].Slots()[p.slots[0]];
      assert part[x0] == p.owner;
      forall k | 0 <= k < |p.rows|
        ensures p.rows[k] < |feats[p.owner]|
        ensures feats[p.owner][p.rows[k]] == h[shards[d].Slots()[p.slots[k]]]
      {
        var x := shards[d].Slots()[p.slots[k]];
        assert PlacedAt(part, x, lidx[x]);
      }
    }

    /** One gather, one copy and one scatter: fills the slots of `p`, disturbing no filled slot. */
    method PullInto(d: nat, p: Pull, ghost h: seq<T>, ghost u: seq<nat>, ghost v: seq<nat>)
      requires Built(u, v) && d < devices && Represents(h)
      requires ValidPull(p, d, part, lidx, shards[d].Slots()) && p.rows != []
      modifies tables[d]
      ensures forall s :: 0 <= s < tables[d].Length && old(SlotFilled(d, s, h)) ==> SlotFilled(d, s, h)
      ensures forall k :: 0 <= k < |p.slots| ==> SlotFilled(d, p.slots[k], h)
    {
      PullRows(d, p, h, u, v);
      IndexCopy(tables[d], p.slots, Select<T>(feats[p.owner], p.rows));
      assert forall k :: 0 <= k < |p.slots| ==> p.slots[k] in p.slots;
    }

    /** Device `d` copies its own rows, then pulls each owner's rows one after another. */
    method FillTable(d: nat, ghost h: seq<T>, ghost u: seq<nat>, ghost v: seq<nat>)
      requires Built(u, v) && d < devices && Represents(h)
      modifies tables[d]
      ensures TableFilled(d, h)
    {
      FillOwn(d, h, u, v);
      PullAll(d, h, u, v);
    }

    method PullAll(d: nat, ghost h: seq<T>, ghost u: seq<nat>, ghost v: seq<nat>)
      requires Built(u, v) && d < devices && Represents(h)
      requires LocalsFilled(d, h)
      modifies tables[d]
      ensures TableFilled(d, h)
    {
      var plan := shards[d].plan;
      for j := 0 to |plan|
        invariant forall s :: 0 <= s < |shards[d].locals| ==> SlotFilled(d, s, h)
        invariant forall i, k :: 0 <= i < j && 0 <= k < |plan[i].slots| ==> SlotFilled(d, plan[i].slots[k], h)
      {
        PullInto(d, plan[j], h, u, v);
      }
      forall s | |shards[d].locals| <= s < |shards[d].Slots()| ensures SlotFilled(d, s, h) {
        assert Covered(plan, s);
      }
    }

    /** The blocking exchange: device after device. */
    method ExchangeLegacy(ghost h: seq<T>, ghost u: seq<nat>, ghost v: seq<nat>)
      requires Built(u, v) && Represents(h)
      modifies tables
      ensures forall d :: 0 <= d < devices ==> TableFilled(d, h)
    {
      hide ValidShard;
      for d := 0 to devices
        invariant forall e :: 0 <= e < d ==> TableFilled(e, h)
      {
        FillTable(d, h, u, v);
        forall e | 0 <= e < d ensures TableFilled(e, h) {
          assert tables[e] != tables[d];
        }
      }
    }

    /** The overlapped exchange: local rows everywhere, then every copy is launched into its own
        buffer, and only then are the buffers scattered. */
    method ExchangeDirect(ghost h: seq<T>, ghost u: seq<nat>, ghost v: seq<nat>)
      requires Built(u, v) && Represents(h)
      modifies tables
      ensures forall d :: 0 <= d < devices ==> TableFilled(d, h)
    {
      hide ValidShard;
      FillLocals(h, u, v);
      var pending := LaunchCopies(h, u, v);
      for d := 0 to devices
        invariant forall e :: 0 <= e < d ==> TableFilled(e, h)
        invariant forall e :: d <= e < devices ==> LocalsFilled(e, h)
      {
        ScatterPending(d, pending[d], h, u, v);
        forall e | 0 <= e < d ensures TableFilled(e, h) {
          assert tables[e] != tables[d];
        }
        forall e | d < e < devices ensures LocalsFilled(e, h) {
          assert tables[e] != tables[d];
        }
      }
    }

    ghost predicate LocalsFilled(d: nat, h: seq<T>)
      reads if d < |tables| then {tables[d]} else {}
    {
      d < |shards| && forall s :: 0 <= s < |shards[d].locals| ==> SlotFilled(d, s, h)
    }

    method FillLocals(ghost h: seq<T>, ghost u: seq<nat>, ghost v: seq<nat>)
      requires Built(u, v) && Represents(h)
      modifies tables
      ensures forall d :: 0 <= d < devices ==> LocalsFilled(d, h)
    {
      hide ValidShard;
      for d := 0 to devices
        invariant forall e :: 0 <= e < d ==> LocalsFilled(e, h)
      {
        FillOwn(d, h, u, v);
        forall e | 0 <= e < d ensures LocalsFilled(e, h) {
          assert tables[e] != tables[d];
        }
      }
    }

    method FillOwn(d: nat, ghost h: seq<T>, ghost u: seq<nat>, ghost v: seq<nat>)
      requires Built(u, v) && Represents(h) && d < devices
      modifies tables[d]
      ensures LocalsFilled(d, h)
    {
      FillLocal(tables[d], feats[d]);
      forall s | 0 <= s < |shards[d].locals| ensures SlotFilled(d, s, h) {
        assert tables[d][s] == feats[d][s];
      }
    }

    /** The gathered rows of every pull of every device. */
    method LaunchCopies(ghost h: seq<T>, ghost u: seq<nat>, ghost v: seq<nat>) returns (pending: seq<seq<seq<T>>>)
      requires Built(u, v) && Represents(h)
      ensures |pending| == devices
      ensures forall d :: 0 <= d < devices ==> Launched(pending[d], d, h)
    {
      pending := [];
      for d := 0 to devices
        invariant |pending| == d
        invariant forall e :: 0 <= e < d ==> Launched(pending[e], e, h)
      {
        var bufs := LaunchFor(d, h, u, v);
        pending := pending + [bufs];
      }
    }

    method LaunchFor(d: nat, ghost h: seq<T>, ghost u: seq<nat>, ghost v: seq<nat>) returns (bufs: seq<seq<T>>)
      requires Built(u, v) && Represents(h) && d < devices
      ensures Launched(bufs, d, h)
    {
      bufs := [];
      var plan := shards[d].plan;
      for j := 0 to |plan|
        invariant |bufs| == j
        invariant forall i :: 0 <= i < j ==> BufferFor(bufs[i], d, plan[i], h)
      {
        PullRows(d, plan[j], h, u, v);
        bufs := bufs + [Select<T>(feats[plan[j].owner], plan[j].rows)];
      }
    }

    ghost predicate BufferFor(buf: seq<T>, d: nat, p: Pull, h: seq<T>)
      requires d < |shards|
    {
      |buf| == |p.slots| && forall k :: 0 <= k < |buf| ==>
        p.slots[k] < |shards[d].Slots()| && shards[d].Slots()[p.slots[k]] < |h| &&
        buf[k] == h[shards[d].Slots()[p.slots[k]]]
    }

    ghost predicate Launched(bufs: seq<seq<T>>, d: nat, h: seq<T>)
      requires d < |shards|
    {
      |bufs| == |shards[d].plan| && forall j :: 0 <= j < |bufs| ==> BufferFor(bufs[j], d, shards[d].plan[j], h)
    }

    method ScatterPending(d: nat, bufs: seq<seq<T>>, ghost h: seq<T>, ghost u: seq<nat>, ghost v: seq<nat>)
      requires Built(u, v) && |h| == |part| && d < devices && Launched(bufs, d, h)
      requires LocalsFilled(d, h)
      modifies tables[d]
      ensures TableFilled(d, h)
    {
      var plan := shards[d].plan;
      for j := 0 to |plan|
        invariant forall s :: 0 <= s < |shards[d].locals| ==> SlotFilled(d, s, h)
        invariant forall i, k :: 0 <= i < j && 0 <= k < |plan[i].slots| ==> SlotFilled(d, plan[i].slots[k], h)
      {
        ScatterOne(d, plan[j], bufs[j], h);
      }
      forall s | |shards[d].locals| <= s < |shards[d].Slots()| ensures SlotFilled(d, s, h) {
        assert Covered(plan, s);
      }
    }

    method ScatterOne(d: nat, p: Pull, buf: seq<T>, ghost h: seq<T>)
      requires d < |shards| == |tables| && tables[d].Length == |shards[d].Slots()| && BufferFor(buf, d, p, h)
      modifies tables[d]
      ensures forall s :: 0 <= s < tables[d].Length && old(SlotFilled(d, s, h)) ==> SlotFilled(d, s, h)
      ensures forall k :: 0 <= k < |p.slots| ==> SlotFilled(d, p.slots[k], h)
    {
      IndexCopy(tables[d], p.slots, buf);
      assert forall k :: 0 <= k < |p.slots| ==> p.slots[k] in p.slots;
    }

    /** Aggregates device `d`'s filled table: its rows of the next layer. */
    method ComputeDevice(d: nat, f: RowFn<T>, ghost h: seq<T>, ghost u: seq<nat>, ghost v: seq<nat>)
      returns (rows: seq<T>)
      requires Built(u, v) && |h| == |part| && d < devices && TableFilled(d, h)
      ensures rows == Select<T>(Layer(f, u, v, h), Indices(part, d))
    {
      hide ValidPlan;
      var sh := shards[d];
      var table := tables[d][..];
      forall s | 0 <= s < |table| ensures table[s] == h[sh.Slots()[s]] {
        assert SlotFilled(d, s, h);
      }
      rows := SpMM(f, sh.csr, table);
      ShardLayer(f, sh, part, u, v, h, table, rows);
    }

    /** One layer: exchange everywhere, synchronise, then overwrite every device's rows. */
    method Step(mode: Mode, f: RowFn<T>, ghost h: seq<T>, ghost u: seq<nat>, ghost v: seq<nat>)
      requires Built(u, v) && Represents(h)
      modifies this, tables
      ensures Represents(Layer(f, u, v, h))
    {
      hide ValidShard;
      match mode {
        case Legacy => ExchangeLegacy(h, u, v);
        case Direct => ExchangeDirect(h, u, v);
      }
      for d := 0 to devices
        invariant |feats| == devices
        invariant forall e :: 0 <= e < devices ==> TableFilled(e, h)
        invariant forall e :: 0 <= e < d ==> feats[e] == Select<T>(Layer(f, u, v, h), Indices(part, e))
      {
        var rows := ComputeDevice(d, f, h, u, v);
        feats := feats[d := rows];
      }
    }

    method RunLayers(mode: Mode, f: RowFn<T>, layers: nat, x: seq<T>, ghost u: seq<nat>, ghost v: seq<nat>)
      requires Built(u, v) && Represents(x)
      modifies this, tables
      ensures Represents(Layers(f, u, v, x, layers))
    {
      for l := 0 to layers
        invariant Represents(Layers(f, u, v, x, l))
      {
        Step(mode, f, Layers(f, u, v, x, l), u, v);
      }
    }
  }

  /** `feats` are the rows of `h`, each vertex's on its owner. */
  ghost predicate Owned<T>(part: seq<nat>, devices: nat, feats: seq<seq<T>>, h: seq<T>) {
    && |h| == |part| && Below(part, devices) && |feats| == devices
    && forall d :: 0 <= d < devices ==> feats[d] == Select<T>(h, Indices(part, d))
  }

  /** `out[locals_g[d]] = feats[d]` for every device. */
  method Reassemble<T(0)>(part: seq<nat>, devices: nat, feats: seq<seq<T>>, ghost h: seq<T>) returns (out: seq<T>)
    requires Owned(part, devices, feats, h)
    ensures out == h
  {
    var a := new T[|part|];
    for d := 0 to devices
      invariant forall x :: 0 <= x < |part| && part[x] < d ==> a[x] == h[x]
    {
      PlaceRows(a, part, d, feats[d], h);
    }
    out := a[..];
  }

  method PlaceRows<T>(a: array<T>, part: seq<nat>, d: nat, rows: seq<T>, ghost h: seq<T>)
    requires a.Length == |part| == |h| && rows == Select<T>(h, Indices(part, d))
    modifies a
    ensures forall x :: 0 <= x < |part| && part[x] == d ==> a[x] == h[x]
    ensures forall x :: 0 <= x < |part| && part[x] != d ==> a[x] == old(a[x])
  {
    var g := Indices(part, d);
    for i := 0 to |g|
      invariant forall j :: 0 <= j < i ==> a[g[j]] == h[g[j]]
      invariant forall x :: 0 <= x < |part| && part[x] != d ==> a[x] == old(a[x])
    {
      a[g[i]] := rows[i];
    }
    forall x | 0 <= x < |part| && part[x] == d ensures a[x] == h[x] {
      assert x in g;
    }
  }

  /** Compressed rows over a filled table compute the device's rows of the next layer. */
  lemma ShardLayer<T>(f: RowFn<T>, sh: Shard, part: seq<nat>, u: seq<nat>, v: seq<nat>, h: seq<T>, table: seq<T>,
                      rows: seq<T>)
    requires Graph(u, v, |part|) && |h| == |part| && Below(sh.locals, |part|) && Below(sh.Slots(), |part|)
    requires ValidRows(sh.csr, sh.locals, sh.Slots(), u, v) && table == Select<T>(h, sh.Slots())
    requires rows == SpMM(f, sh.csr, table)
    ensures rows == Select<T>(Layer(f, u, v, h), sh.locals)
  {
    forall i | 0 <= i < |rows| ensures rows[i] == Layer(f, u, v, h)[sh.locals[i]] {
      RowThroughTable(sh.Slots(), h, Row(sh.csr, i), Nbrs(u, v, sh.locals[i]));
    }
  }

  lemma RowThroughTable<T>(slots: seq<nat>, h: seq<T>, row: seq<nat>, nbrs: seq<nat>)
    requires Below(slots, |h|) && Below(row, |slots|) && Select<nat>(slots, row) == nbrs
    ensures Below(nbrs, |h|)
    ensures Select<T>(Select<T>(h, slots), row) == Select<T>(h, nbrs)
  {
    forall i | 0 <= i < |row| ensures Select<T>(Select<T>(h, slots), row)[i] == h[nbrs[i]] {
      assert Select<nat>(slots, row)[i] == nbrs[i];
    }
  }

  const WARMUP: nat := 3
  const TIMED: nat := 10

  /** `np.concatenate([src, dst, arange(N)])`: both directions plus self-loops. */
  function WithSelfLoops(a: seq<nat>, b: seq<nat>, n: nat): seq<nat> {
    a + b + Range(n)
  }

  /** The vertices that `w` hears over undirected edges: the other end of every edge that starts at
      it, then of every edge that ends at it, and itself last. */
  function Heard(src: seq<nat>, dst: seq<nat>, n: nat, w: nat): (r: seq<nat>)
    requires Graph(src, dst, n) && w < n
    ensures Below(r, n)
  {
    Select<nat>(dst, Indices(src, w)) + Select<nat>(src, Indices(dst, w)) + [w]
  }

  /** What `w` computes: its degree counts both kinds of edges and the self-loop. */
  function HeardRow<T>(f: RowFn<T>, src: seq<nat>, dst: seq<nat>, h: seq<T>, w: nat): T
    requires Graph(src, dst, |h|) && w < |h|
  {
    f(Count(src, w) + Count(dst, w) + 1, Select<T>(h, Heard(src, dst, |h|, w)))
  }

  function TwoWayLayer<T>(f: RowFn<T>, src: seq<nat>, dst: seq<nat>, h: seq<T>): (r: seq<T>)
    requires Graph(src, dst, |h|)
    ensures |r| == |h|
    ensures forall w :: 0 <= w < |h| ==> r[w] == HeardRow(f, src, dst, h, w)
  {
    seq(|h|, w requires 0 <= w < |h| => HeardRow(f, src, dst, h, w))
  }

  function TwoWayLayers<T>(f: RowFn<T>, src: seq<nat>, dst: seq<nat>, x: seq<T>, k: nat): (r: seq<T>)
    requires Graph(src, dst, |x|)
    ensures |r| == |x|
  {
    if k == 0 then x else TwoWayLayer(f, src, dst, TwoWayLayers(f, src, dst, x, k - 1))
  }

  /** What the doubled edge list says of a vertex. */
  lemma SelfLoopNeighbours(src: seq<nat>, dst: seq<nat>, n: nat, w: nat)
    requires Graph(src, dst, n) && w < n
    ensures var u, v := WithSelfLoops(src, dst, n), WithSelfLoops(dst, src, n);
            && Graph(u, v, n) && Count(u, w) == Count(src, w) + Count(dst, w) + 1
            && Nbrs(u, v, w) == Heard(src, dst, n, w)
  {
    CountConcat(src, dst, w);
    CountConcat(src + dst, Range(n), w);
    ValuesAtConcat<nat>(src, dst, dst, src, w);
    ValuesAtConcat<nat>(src + dst, Range(n), dst + src, Range(n), w);
    OneOfRange(n, w);
  }

  lemma OneOfRange(n: nat, w: nat)
    requires w < n
    ensures Indices(Range(n), w) == [w] && Count(Range(n), w) == 1
  {
    IncreasingUnique(Indices(Range(n), w), [w]);
  }

  lemma {:induction false} LayersAreTwoWay<T>(f: RowFn<T>, src: seq<nat>, dst: seq<nat>, x: seq<T>, k: nat)
    requires Graph(src, dst, |x|)
    ensures var u, v := WithSelfLoops(src, dst, |x|), WithSelfLoops(dst, src, |x|);
            Graph(u, v, |x|) && Layers(f, u, v, x, k) == TwoWayLayers(f, src, dst, x, k)
  {
    if k > 0 {
      hide WithSelfLoops, Layer, TwoWayLayer;
      LayersAreTwoWay(f, src, dst, x, k - 1);
      LayerIsTwoWay(f, src, dst, TwoWayLayers(f, src, dst, x, k - 1));
    }
  }

  lemma LayerIsTwoWay<T>(f: RowFn<T>, src: seq<nat>, dst: seq<nat>, h: seq<T>)
    requires Graph(src, dst, |h|)
    ensures var u, v := WithSelfLoops(src, dst, |h|), WithSelfLoops(dst, src, |h|);
            Graph(u, v, |h|) && Layer(f, u, v, h) == TwoWayLayer(f, src, dst, h)
  {
    var u, v := WithSelfLoops(src, dst, |h|), WithSelfLoops(dst, src, |h|);
    assert Graph(u, v, |h|);
    hide WithSelfLoops, Count, Nbrs, Heard;
    forall w | 0 <= w < |h| ensures Layer(f, u, v, h)[w] == TwoWayLayer(f, src, dst, h)[w] {
      SelfLoopNeighbours(src, dst, |h|, w);
    }
  }

  /** The partitioned run, warm-up rounds included, reassembled by vertex. */
  method RunCell<T(0)>(mode: Mode, f: RowFn<T>, src: seq<nat>, dst: seq<nat>, part: seq<nat>, devices: nat,
                       x: seq<T>, layers: nat)
    returns (out: seq<T>)
    requires |x| == |part| && Below(part, devices) && Graph(src, dst, |part|)
    ensures out == TwoWayLayers(f, src, dst, x, layers)
    ensures layers == 1 ==> |out| == |x| && forall w :: 0 <= w < |x| ==> out[w] == HeardRow(f, src, dst, x, w)
    ensures out == Layers(f, WithSelfLoops(src, dst, |x|), WithSelfLoops(dst, src, |x|), x, layers)
  {
    LayersAreTwoWay(f, src, dst, x, layers);
    hide HeardRow;
    var u, v := WithSelfLoops(src, dst, |x|), WithSelfLoops(dst, src, |x|);
    var c := new Cluster<T>(devices, part, u, v);
    c.Scatter(x);
    for r := 0 to WARMUP
      invariant c.Represents(x)
    {
      c.RunLayers(mode, f, layers, x, u, v);
      c.Scatter(x);
    }
    for r := 0 to TIMED
      invariant 0 < r ==> c.Represents(Layers(f, u, v, x, layers))
    {
      c.Scatter(x);
      c.RunLayers(mode, f, layers, x, u, v);
    }
    out := Reassemble(c.part, c.devices, c.feats, Layers(f, u, v, x, layers));
  }
}
