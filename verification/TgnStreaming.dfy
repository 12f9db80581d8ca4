/** Streaming evaluation of the memory model: every device keeps the memory of its own vertices,
    gathers remote rows, averages messages in arrival order and scores its own edges. */
module TgnStreaming {
  import opened Arrays
  import opened HaloExecution

  // ---------------------------------------------------------------- undoing the owner order

  /** `sharded` holds device by device the rows of `rows`. */
  ghost predicate Sharded<T>(sharded: seq<seq<T>>, rows: seq<T>, part: seq<nat>, devices: nat) {
    && |sharded| == devices && |rows| == |part|
    && forall d :: 0 <= d < devices ==> sharded[d] == Select<T>(rows, Indices(part, d))
  }

  lemma PermutationOfSort(keys: seq<int>)
    ensures Below(Argsort(keys), |keys|) && Distinct(Argsort(keys))
  {
    var o := Argsort(keys);
    forall i, j | 0 <= i < j < |o| ensures o[i] != o[j] {
      assert Precedes(keys, o[i], o[j]);
    }
  }

  /** Reading `target` in the order of `o` and then in the order that sorts `o` gives it back. */
  lemma SortUndoes<T>(target: seq<T>, keys: seq<int>)
    requires |target| == |keys|
    ensures var o: seq<nat> := Argsort(keys);
            Select<T>(Select<T>(target, o), Argsort(o)) == target
  {
    var o: seq<nat> := Argsort(keys);
    PermutationOfSort(keys);
    var inv := Argsort(o);
    forall i | 0 <= i < |target| ensures o[inv[i]] == i {
      InverseSorted(o, inv, i);
    }
  }

  /** The owners that hold some of the requested vertices, in device order. */
  ghost predicate Collected<T>(pieces: seq<seq<T>>, orders: seq<seq<nat>>, target: seq<T>, owner: seq<nat>, upto: nat)
    requires |target| == |owner|
  {
    && Concat<nat>(orders) == Concat<nat>(Buckets(owner, upto))
    && Below(Concat<nat>(orders), |target|)
    && Concat<T>(pieces) == Select<T>(target, Concat<nat>(orders))
  }

  lemma CollectedNone<T>(target: seq<T>, owner: seq<nat>)
    requires |target| == |owner|
    ensures Collected<T>([], [], target, owner, 0)
  {
  }

  lemma BucketsMore(owner: seq<nat>, d: nat)
    ensures Concat<nat>(Buckets(owner, d + 1)) == Concat<nat>(Buckets(owner, d)) + Indices(owner, d)
  {
    assert Buckets(owner, d + 1) == Buckets(owner, d) + [Indices(owner, d)];
    ConcatSnoc<nat>(Buckets(owner, d), Indices(owner, d));
  }

  lemma CollectedMore<T>(pieces: seq<seq<T>>, orders: seq<seq<nat>>, target: seq<T>, owner: seq<nat>, d: nat)
    requires |target| == |owner| && Collected(pieces, orders, target, owner, d)
    ensures Collected(pieces + [Select<T>(target, Indices(owner, d))], orders + [Indices(owner, d)],
                      target, owner, d + 1)
    ensures Indices(owner, d) == [] ==> Collected(pieces, orders, target, owner, d + 1)
  {
    hide Concat, Buckets, Indices;
    var sel := Indices(owner, d);
    BucketsMore(owner, d);
    ConcatSnoc<nat>(orders, sel);
    ConcatSnoc<T>(pieces, Select<T>(target, sel));
    SelectAppend<T>(target, Concat<nat>(orders), sel);
    assert sel == [] ==> Concat<nat>(orders) + sel == Concat<nat>(orders);
  }

  /** Concatenating by owner and sorting the positions restores the request order. */
  lemma Restored<T>(pieces: seq<seq<T>>, orders: seq<seq<nat>>, target: seq<T>, owner: seq<nat>, devices: nat)
    requires |target| == |owner| && Below(owner, devices) && Collected(pieces, orders, target, owner, devices)
    ensures |Concat<nat>(orders)| == |Concat<T>(pieces)| == |target|
    ensures Select<T>(Concat<T>(pieces), Argsort(Concat<nat>(orders))) == target
  {
    ArgsortIsBuckets(owner, devices);
    SortUndoes(target, owner);
  }

  /** What one owner contributes: its local rows are the requested vertices' rows. */
  lemma OwnerPiece<T>(tables: seq<seq<T>>, rows: seq<T>, part: seq<nat>, lidx: seq<nat>, devices: nat, verts: seq<nat>,
                      d: nat)
    requires Sharded(tables, rows, part, devices) && LocalIndex(part, lidx) && Below(verts, |part|) && d < devices
    ensures var sel := Indices(Select<nat>(part, verts), d);
            Below(sel, |verts|) && Below(Select<nat>(verts, sel), |lidx|)
            && Below(Select<nat>(lidx, Select<nat>(verts, sel)), |tables[d]|)
            && Select<T>(tables[d], Select<nat>(lidx, Select<nat>(verts, sel)))
               == Select<T>(Select<T>(rows, verts), sel)
  {
    var owner := Select<nat>(part, verts);
    var sel := Indices(owner, d);
    forall j | 0 <= j < |sel|
      ensures lidx[verts[sel[j]]] < |tables[d]| && tables[d][lidx[verts[sel[j]]]] == rows[verts[sel[j]]]
    {
      assert PlacedAt(part, verts[sel[j]], lidx[verts[sel[j]]]);
    }
  }

  /** Rows for vertex ids, fetched owner by owner and put back in request order. An empty request
      has nothing to concatenate and fails. */
  method GatherRows<T>(tables: seq<seq<T>>, verts: seq<nat>, part: seq<nat>, lidx: seq<nat>, devices: nat,
                       ghost rows: seq<T>)
    returns (r: Option<seq<T>>)
    requires Sharded(tables, rows, part, devices) && LocalIndex(part, lidx)
    requires Below(part, devices) && Below(verts, |part|)
    ensures r == if verts == [] then None else Some(Select<T>(rows, verts))
  {
    var owner := Select<nat>(part, verts);
    ghost var target := Select<T>(rows, verts);
    var pieces: seq<seq<T>> := [];
    var orders: seq<seq<nat>> := [];
    CollectedNone(target, owner);
    hide Collected, Sharded, LocalIndex;
    for d := 0 to devices
      invariant Collected(pieces, orders, target, owner, d)
      invariant orders == [] <==> Concat<nat>(orders) == []
    {
      var sel := Indices(owner, d);
      CollectedMore(pieces, orders, target, owner, d);
      OwnerPiece(tables, rows, part, lidx, devices, verts, d);
      if sel != [] {
        ConcatSnoc<nat>(orders, sel);
        pieces := pieces + [Select<T>(tables[d], Select<nat>(lidx, Select<nat>(verts, sel)))];
        orders := orders + [sel];
      }
    }
    Restored(pieces, orders, target, owner, devices);
    if orders == [] {
      return None;
    }
    r := Some(Select<T>(Concat<T>(pieces), Argsort(Concat<nat>(orders))));
  }

  // ---------------------------------------------------------------- the reference

  /** The model's arithmetic, row by row. `mean` weighs the message rows in their order; `embed`
      adds the projected message when there is one. */
  datatype Net<!T> = Net(join: (T, T) -> T, mean: seq<T> -> T, gru: (T, T) -> T, embed: (T, Option<T>) -> T,
                         score: (T, T) -> T)

  /** Feature row next to memory row. */
  function Joined<T>(net: Net<T>, x: seq<T>, mem: seq<T>): (r: seq<T>)
    requires |x| == |mem|
    ensures |r| == |x| && forall v :: 0 <= v < |r| ==> r[v] == net.join(x[v], mem[v])
  {
    seq(|x|, v requires 0 <= v < |x| => net.join(x[v], mem[v]))
  }

  ghost predicate Pairs(tgt: seq<nat>, sv: seq<nat>, n: nat) {
    |tgt| == |sv| && Below(tgt, n) && Below(sv, n)
  }

  /** The rows sent to `v`, in arrival order. */
  function Messages<T>(rows: seq<T>, tgt: seq<nat>, sv: seq<nat>, v: nat): seq<T>
    requires Pairs(tgt, sv, |rows|)
  {
    Select<T>(rows, Select<nat>(sv, Indices(tgt, v)))
  }

  /** The message of `v`, if anything was sent. */
  function Message<T>(net: Net<T>, rows: seq<T>, tgt: seq<nat>, sv: seq<nat>, v: nat): Option<T>
    requires Pairs(tgt, sv, |rows|)
  {
    if v in tgt then Some(net.mean(Messages(rows, tgt, sv, v))) else None
  }

  datatype Batch = Batch(eu: seq<nat>, ev: seq<nat>)

  ghost predicate BatchOk(b: Batch, n: nat) {
    Pairs(b.eu, b.ev, n)
  }

  /** Both ends receive: targets and the sources sent to them. */
  function Targets(b: Batch): (r: seq<nat>) { b.eu + b.ev }

  function Sources(b: Batch): (r: seq<nat>) { b.ev + b.eu }

  lemma EndsArePairs(b: Batch, n: nat)
    requires BatchOk(b, n)
    ensures Pairs(Targets(b), Sources(b), n)
  {
  }

  /** A receiving vertex passes its message through the recurrent cell; the others keep theirs. */
  function MemoryRow<T>(net: Net<T>, rows: seq<T>, mem: seq<T>, b: Batch, v: nat): T
    requires |rows| == |mem| && v < |mem| && Pairs(Targets(b), Sources(b), |mem|)
  {
    if v in Targets(b) then net.gru(net.mean(Messages(rows, Targets(b), Sources(b), v)), mem[v]) else mem[v]
  }

  /** `mem_update` on a single device. */
  function MemoryAfter<T>(net: Net<T>, x: seq<T>, mem: seq<T>, b: Batch): (r: seq<T>)
    requires |x| == |mem| && BatchOk(b, |mem|)
    ensures |r| == |mem| && Pairs(Targets(b), Sources(b), |mem|)
    ensures forall v :: 0 <= v < |r| ==> r[v] == MemoryRow(net, Joined(net, x, mem), mem, b, v)
  {
    EndsArePairs(b, |mem|);
    var rows := Joined(net, x, mem);
    seq(|mem|, v requires 0 <= v < |mem| => MemoryRow(net, rows, mem, b, v))
  }

  /** What the previous batch sends to `v`. */
  function Recent<T>(net: Net<T>, rows: seq<T>, prev: Option<Batch>, v: nat): Option<T>
    requires prev.Some? ==> BatchOk(prev.value, |rows|)
  {
    match prev
    case None => None
    case Some(b) =>
      EndsArePairs(b, |rows|);
      Message(net, rows, Targets(b), Sources(b), v)
  }

  /** `encode` on a single device: the embedding adds the projected mean when there is one. */
  function Encoded<T>(net: Net<T>, x: seq<T>, mem: seq<T>, prev: Option<Batch>): (r: seq<T>)
    requires |x| == |mem| && (prev.Some? ==> BatchOk(prev.value, |mem|))
    ensures |r| == |mem|
    ensures forall v :: 0 <= v < |r| ==>
              r[v] == net.embed(Joined(net, x, mem)[v], Recent(net, Joined(net, x, mem), prev, v))
  {
    var rows := Joined(net, x, mem);
    seq(|mem|, v requires 0 <= v < |mem| => net.embed(rows[v], Recent(net, rows, prev, v)))
  }

  // ---------------------------------------------------------------- who hears whom

  /** The other ends of the edges at `v`: first of those that start there, then of those that end
      there. */
  ghost function OtherEnds(b: Batch, v: nat): (r: seq<nat>)
    requires |b.eu| == |b.ev|
  {
    Select<nat>(b.ev, Indices(b.eu, v)) + Select<nat>(b.eu, Indices(b.ev, v))
  }

  /** Their feature rows next to their memory rows. */
  ghost function EndRows<T>(net: Net<T>, x: seq<T>, mem: seq<T>, b: Batch, v: nat): (r: seq<T>)
    requires |x| == |mem| && BatchOk(b, |mem|)
  {
    var ends := OtherEnds(b, v);
    seq(|ends|, i requires 0 <= i < |ends| => net.join(x[ends[i]], mem[ends[i]]))
  }

  lemma MessagesAre<T>(net: Net<T>, x: seq<T>, mem: seq<T>, b: Batch, v: nat)
    requires |x| == |mem| && BatchOk(b, |mem|)
    ensures Pairs(Targets(b), Sources(b), |mem|)
    ensures Messages(Joined(net, x, mem), Targets(b), Sources(b), v) == EndRows(net, x, mem, b, v)
    ensures v in Targets(b) <==> v in b.eu || v in b.ev
  {
    EndsArePairs(b, |mem|);
    ValuesAtConcat<nat>(b.eu, b.ev, b.ev, b.eu, v);
  }

  /** A vertex at some edge passes the mean of the rows of the other ends through the cell; any other
      vertex keeps its memory. */
  ghost predicate MemoryHears<T>(after: seq<T>, net: Net<T>, x: seq<T>, mem: seq<T>, b: Batch)
    requires |x| == |mem| && BatchOk(b, |mem|)
  {
    |after| == |mem| && forall v :: 0 <= v < |mem| ==>
      after[v] == if v in b.eu || v in b.ev then net.gru(net.mean(EndRows(net, x, mem, b, v)), mem[v]) else mem[v]
  }

  lemma UpdateHears<T>(net: Net<T>, x: seq<T>, mem: seq<T>, b: Batch)
    requires |x| == |mem| && BatchOk(b, |mem|)
    ensures MemoryHears(MemoryAfter(net, x, mem, b), net, x, mem, b)
  {
    hide Messages, Targets, Sources, EndRows;
    EndsArePairs(b, |mem|);
    forall v: nat | v < |mem|
      ensures Messages(Joined(net, x, mem), Targets(b), Sources(b), v) == EndRows(net, x, mem, b, v)
      ensures v in Targets(b) <==> v in b.eu || v in b.ev
    {
      MessagesAre(net, x, mem, b, v);
    }
  }

  /** The embedding takes a vertex's own row and, when it is at some edge of the batch before, the
      mean over the other ends. */
  ghost predicate EmbeddingHears<T>(z: seq<T>, net: Net<T>, x: seq<T>, mem: seq<T>, prev: Option<Batch>)
    requires |x| == |mem| && (prev.Some? ==> BatchOk(prev.value, |mem|))
  {
    |z| == |mem| && forall v :: 0 <= v < |mem| ==>
      z[v] == net.embed(net.join(x[v], mem[v]),
                        if prev.Some? && (v in prev.value.eu || v in prev.value.ev)
                        then Some(net.mean(EndRows(net, x, mem, prev.value, v))) else None)
  }

  lemma EncodeHears<T>(net: Net<T>, x: seq<T>, mem: seq<T>, prev: Option<Batch>)
    requires |x| == |mem| && (prev.Some? ==> BatchOk(prev.value, |mem|))
    ensures EmbeddingHears(Encoded(net, x, mem, prev), net, x, mem, prev)
  {
    hide Messages, Targets, Sources, EndRows;
    if prev.Some? {
      var b := prev.value;
      EndsArePairs(b, |mem|);
      forall v: nat | v < |mem|
        ensures Messages(Joined(net, x, mem), Targets(b), Sources(b), v) == EndRows(net, x, mem, b, v)
        ensures v in Targets(b) <==> v in b.eu || v in b.ev
      {
        MessagesAre(net, x, mem, b, v);
      }
    }
  }

  /** The score of every edge, in edge order. */
  function Scores<T>(net: Net<T>, z: seq<T>, eu: seq<nat>, ev: seq<nat>): (r: seq<T>)
    requires Pairs(eu, ev, |z|)
    ensures |r| == |eu| && forall e :: 0 <= e < |r| ==> r[e] == net.score(z[eu[e]], z[ev[e]])
  {
    seq(|eu|, e requires 0 <= e < |eu| => net.score(z[eu[e]], z[ev[e]]))
  }

  // ---------------------------------------------------------------- the means of one device

  /** `unique(..., return_inverse=True)`: the place of every key. */
  function Inverse(keys: seq<nat>, u: seq<int>): (r: seq<nat>)
    requires Increasing(u) && forall y :: y in keys ==> y in u
    ensures |r| == |keys| && Below(r, |u|)
    ensures forall i :: 0 <= i < |r| ==> u[r[i]] == keys[i]
  {
    seq(|keys|, i requires 0 <= i < |keys| => PlaceIn(u, keys[i]))
  }

  function PlaceIn(u: seq<int>, y: int): (k: nat)
    requires Increasing(u) && y in u
    ensures k < |u| && u[k] == y
  {
    var n := |u| - 1;
    if u[n] == y then n
    else
      assert u == u[..n] + [u[n]];
      PlaceIn(u[..n], y)
  }

  /** A device's own pairs for one of its vertices are all of that vertex's pairs, in order. */
  lemma OwnPairs(part: seq<nat>, tgt: seq<nat>, own: seq<nat>, u: seq<int>, inv: seq<nat>, d: nat, k: nat)
    requires Below(tgt, |part|) && own == Indices(Select<nat>(part, tgt), d) && Increasing(u)
    requires |inv| == |own| && Below(inv, |u|) && (forall j :: 0 <= j < |inv| ==> u[inv[j]] == tgt[own[j]])
    requires k < |u| && 0 <= u[k] < |part| && part[u[k]] == d
    ensures Select<nat>(own, Indices(inv, k)) == Indices(tgt, u[k])
  {
    hide Indices;
    var mine := Indices(inv, k);
    var r := Select<nat>(own, mine);
    forall p ensures p in r <==> p in Indices(tgt, u[k]) {
      if p in Indices(tgt, u[k]) {
        assert Select<nat>(part, tgt)[p] == d;
        var j :| 0 <= j < |own| && own[j] == p;
        PlacesDiffer(u, inv[j], k);
        var t :| 0 <= t < |mine| && mine[t] == j;
        assert r[t] == p;
      }
      if t :| 0 <= t < |r| && r[t] == p {
        assert inv[mine[t]] == k;
      }
    }
    IncreasingUnique(r, Indices(tgt, u[k]));
  }

  lemma PlacesDiffer(u: seq<int>, i: nat, j: nat)
    requires Increasing(u) && i < |u| && j < |u| && u[i] == u[j]
    ensures i == j
  {
  }

  /** Local row numbers of the receiving vertices and their means. */
  datatype Means<T> = Means(idx: seq<nat>, rows: seq<T>)

  /** `ut` lists the receiving vertices of device `d`; each has its local number and its mean. */
  ghost predicate MeansOf<T>(m: Means<T>, ut: seq<nat>, net: Net<T>, rows: seq<T>, tgt: seq<nat>, sv: seq<nat>,
                             part: seq<nat>, lidx: seq<nat>, d: nat)
    requires Pairs(tgt, sv, |rows|) && |part| == |rows| == |lidx|
  {
    && |m.idx| == |m.rows| == |ut| && Increasing(ut) && Below(ut, |rows|)
    && (forall v: nat :: v in ut <==> v in tgt && part[v] == d)
    && (forall k :: 0 <= k < |ut| ==> m.idx[k] == lidx[ut[k]])
    && (forall k :: 0 <= k < |ut| ==> m.rows[k] == net.mean(Messages(rows, tgt, sv, ut[k])))
  }

  lemma MessageRows<T>(rows: seq<T>, tgt: seq<nat>, sv: seq<nat>, part: seq<nat>, own: seq<nat>, u: seq<int>,
                       inv: seq<nat>, d: nat, k: nat)
    requires Pairs(tgt, sv, |rows|) && |part| == |rows|
    requires own == Indices(Select<nat>(part, tgt), d) && Increasing(u)
    requires forall y :: y in Select<nat>(tgt, own) ==> y in u
    requires inv == Inverse(Select<nat>(tgt, own), u)
    requires k < |u| && 0 <= u[k] < |part| && part[u[k]] == d
    ensures Select<T>(Select<T>(rows, Select<nat>(sv, own)), Indices(inv, k)) == Messages(rows, tgt, sv, u[k])
  {
    OwnPairs(part, tgt, own, u, inv, d, k);
    var mine := Indices(inv, k);
    var all := Indices(tgt, u[k]);
    assert |mine| == |all|;
    forall t | 0 <= t < |mine| ensures own[mine[t]] == all[t] {
      assert Select<nat>(own, mine)[t] == all[t];
    }
  }

  /** A target of the selected pairs is a target whose vertex the device owns. */
  lemma SelectedReceives(part: seq<nat>, tgt: seq<nat>, own: seq<nat>, d: nat, gt: seq<nat>, v: nat)
    requires Below(tgt, |part|) && own == Indices(Select<nat>(part, tgt), d) && gt == Select<nat>(tgt, own) && v in gt
    ensures v in tgt && v < |part| && part[v] == d
  {
    hide Indices;
    var j :| 0 <= j < |gt| && gt[j] == v;
    assert Select<nat>(part, tgt)[own[j]] == d;
  }

  lemma ReceiverSelected(part: seq<nat>, tgt: seq<nat>, own: seq<nat>, d: nat, gt: seq<nat>, v: nat)
    requires Below(tgt, |part|) && own == Indices(Select<nat>(part, tgt), d) && gt == Select<nat>(tgt, own)
    requires v in tgt && part[v] == d
    ensures v in gt
  {
    hide Indices;
    var p :| 0 <= p < |tgt| && tgt[p] == v;
    assert Select<nat>(part, tgt)[p] == d;
    var j :| 0 <= j < |own| && own[j] == p;
    assert gt[j] == v;
  }

  /** The receiving vertices of a device, ascending. */
  lemma Receivers(part: seq<nat>, tgt: seq<nat>, own: seq<nat>, d: nat) returns (ut: seq<nat>)
    requires Below(tgt, |part|) && own == Indices(Select<nat>(part, tgt), d)
    ensures ut == Unique(Select<nat>(tgt, own)) && Increasing(ut) && Below(ut, |part|)
    ensures forall v: nat :: v in ut <==> v in tgt && part[v] == d
  {
    hide Indices, Unique;
    var gt := Select<nat>(tgt, own);
    ut := UniqueNats(gt, |part|) by {
      forall i | 0 <= i < |gt| ensures gt[i] < |part| {
        SelectedReceives(part, tgt, own, d, gt, gt[i]);
      }
    }
    forall v: nat ensures v in gt <==> v in tgt && part[v] == d {
      if v in gt {
        SelectedReceives(part, tgt, own, d, gt, v);
      }
      if v in tgt && part[v] == d {
        ReceiverSelected(part, tgt, own, d, gt, v);
      }
    }
  }

  lemma UniqueNats(xs: seq<nat>, n: nat) returns (u: seq<nat>)
    requires Below(xs, n)
    ensures u == Unique(xs) && Below(u, n) && forall v: nat :: v in u <==> v in xs
  {
    var r := Unique(xs);
    forall i | 0 <= i < |r| ensures 0 <= r[i] < n {
      assert r[i] in r;
      var j :| 0 <= j < |xs| && xs[j] == r[i];
    }
    u := r;
  }

  /** The sparse product: row `k` of the mean is taken over its stored positions, in order. */
  method RowMeans<T>(net: Net<T>, got: seq<T>, csr: Csr, inv: seq<nat>, rows: nat) returns (means: seq<T>)
    requires Below(inv, rows) && |got| == |inv| && IsCsrOf(csr, inv, Range(|inv|), rows)
    ensures |means| == rows
    ensures forall k :: 0 <= k < rows ==> means[k] == net.mean(Select<T>(got, Indices(inv, k)))
  {
    means := [];
    for k := 0 to rows
      invariant |means| == k
      invariant forall j :: 0 <= j < k ==> means[j] == net.mean(Select<T>(got, Indices(inv, j)))
    {
      assert Row(csr, k) == Select<nat>(Range(|inv|), Indices(inv, k)) == Indices(inv, k);
      means := means + [net.mean(Select<T>(got, Row(csr, k)))];
    }
  }

  lemma MeansAre<T>(net: Net<T>, tgt: seq<nat>, sv: seq<nat>, part: seq<nat>, lidx: seq<nat>, d: nat, rows: seq<T>,
                    own: seq<nat>, ut: seq<nat>, u: seq<int>, inv: seq<nat>, m: Means<T>)
    requires Pairs(tgt, sv, |rows|) && |part| == |rows| == |lidx| && own == Indices(Select<nat>(part, tgt), d)
    requires Increasing(u) && u == ut && Below(ut, |rows|) && forall y :: y in Select<nat>(tgt, own) ==> y in u
    requires inv == Inverse(Select<nat>(tgt, own), u)
    requires forall v: nat :: v in ut <==> v in tgt && part[v] == d
    requires m.idx == Select<nat>(lidx, ut) && |m.rows| == |ut|
    requires forall k :: 0 <= k < |ut| ==>
               m.rows[k] == net.mean(Select<T>(Select<T>(rows, Select<nat>(sv, own)), Indices(inv, k)))
    ensures MeansOf(m, ut, net, rows, tgt, sv, part, lidx, d)
  {
    forall k | 0 <= k < |ut| ensures m.rows[k] == net.mean(Messages(rows, tgt, sv, ut[k])) {
      assert ut[k] in ut;
      MessageRows(rows, tgt, sv, part, own, u, inv, d, k);
    }
  }

  /** The per-vertex means of the pairs one device owns; none when it owns no pair. */
  method MeanCsr<T>(net: Net<T>, tgt: seq<nat>, sv: seq<nat>, tables: seq<seq<T>>, part: seq<nat>, lidx: seq<nat>,
                    devices: nat, d: nat, ghost rows: seq<T>)
    returns (r: Option<Means<T>>, ghost ut: seq<nat>)
    requires Sharded(tables, rows, part, devices) && LocalIndex(part, lidx) && Below(part, devices) && d < devices
    requires Pairs(tgt, sv, |rows|)
    ensures r.None? ==> forall v :: v in tgt ==> part[v] != d
    ensures r.Some? ==> MeansOf(r.value, ut, net, rows, tgt, sv, part, lidx, d)
  {
    assert |lidx| == |part|;
    hide LocalIndex, IsCsrOf, MeansOf, Inverse, Unique, Messages;
    var own := Indices(Select<nat>(part, tgt), d);
    ut := Receivers(part, tgt, own, d);
    var gt, gs := Select<nat>(tgt, own), Select<nat>(sv, own);
    if gt == [] {
      NoReceivers(part, tgt, own, d);
      return None, ut;
    }
    var u := Unique(gt);
    var inv := Inverse(gt, u);
    var got := GatherRows(tables, gs, part, lidx, devices, rows);
    var csr := BuildCsr(inv, Range(|gt|), |u|);
    var means := RowMeans(net, got.value, csr, inv, |u|);
    var found := Means(Select<nat>(lidx, Nats(u, |part|)), means);
    MeansAre(net, tgt, sv, part, lidx, d, rows, own, ut, u, inv, found);
    r := Some(found);
  }

  lemma NoReceivers(part: seq<nat>, tgt: seq<nat>, own: seq<nat>, d: nat)
    requires Below(tgt, |part|) && own == Indices(Select<nat>(part, tgt), d) && own == []
    ensures forall v :: v in tgt ==> part[v] != d
  {
    forall v | v in tgt ensures part[v] != d {
      var p :| 0 <= p < |tgt| && tgt[p] == v;
      assert Select<nat>(part, tgt)[p] == part[v];
    }
  }

  function Nats(u: seq<int>, n: nat): (r: seq<nat>)
    requires forall i :: 0 <= i < |u| ==> 0 <= u[i] < n
    ensures r == u && Below(r, n)
  {
    u
  }

  // ---------------------------------------------------------------- memory, embedding

  /** `base.index_copy(0, idx, rows)`. */
  method IndexCopy<T>(base: seq<T>, idx: seq<nat>, rows: seq<T>) returns (r: seq<T>)
    requires |idx| == |rows| && Below(idx, |base|) && Distinct(idx)
    ensures |r| == |base|
    ensures forall k :: 0 <= k < |idx| ==> r[idx[k]] == rows[k]
    ensures forall i :: 0 <= i < |base| && i !in idx ==> r[i] == base[i]
  {
    r := base;
    for k := 0 to |idx|
      invariant |r| == |base|
      invariant forall j :: 0 <= j < k ==> r[idx[j]] == rows[j]
      invariant forall i :: 0 <= i < |base| && i !in idx[..k] ==> r[i] == base[i]
    {
      assert idx[..k + 1] == idx[..k] + [idx[k]];
      r := r[idx[k] := rows[k]];
    }
    assert idx[..|idx|] == idx;
  }

  /** The receiving rows of one device are distinct and local, and cover its receiving vertices. */
  lemma MeansPlaces<T>(m: Means<T>, ut: seq<nat>, net: Net<T>, rows: seq<T>, tgt: seq<nat>, sv: seq<nat>,
                       part: seq<nat>, lidx: seq<nat>, d: nat)
    requires Pairs(tgt, sv, |rows|) && |part| == |rows| && LocalIndex(part, lidx)
    requires MeansOf(m, ut, net, rows, tgt, sv, part, lidx, d)
    ensures |m.idx| == |m.rows| && Below(m.idx, Count(part, d)) && Distinct(m.idx)
    ensures forall k :: 0 <= k < |m.idx| ==>
              Indices(part, d)[m.idx[k]] in tgt
              && Some(m.rows[k]) == Message(net, rows, tgt, sv, Indices(part, d)[m.idx[k]])
    ensures forall i :: 0 <= i < Count(part, d) && Indices(part, d)[i] in tgt ==> i in m.idx
  {
    var locals := Indices(part, d);
    forall k | 0 <= k < |ut| ensures m.idx[k] < |locals| && locals[m.idx[k]] == ut[k] {
      assert ut[k] in ut;
      assert PlacedAt(part, ut[k], lidx[ut[k]]);
    }
    forall i | 0 <= i < |locals| && locals[i] in tgt ensures i in m.idx {
      assert locals[i] in ut;
      var k :| 0 <= k < |ut| && ut[k] == locals[i];
      LocalIndexOfLocal(part, lidx, d, i);
      assert m.idx[k] == i;
    }
    forall k | 0 <= k < |ut| ensures ut[k] in tgt {
      assert ut[k] in ut;
    }
  }

  /** Everything a device needs to know about the run. */
  ghost predicate World<T>(x: seq<T>, xd: seq<seq<T>>, part: seq<nat>, lidx: seq<nat>, devices: nat) {
    Sharded(xd, x, part, devices) && LocalIndex(part, lidx) && Below(part, devices)
  }

  /** Every device joins its own feature and memory rows. */
  method JoinShards<T>(net: Net<T>, xd: seq<seq<T>>, md: seq<seq<T>>, devices: nat, ghost x: seq<T>, ghost mem: seq<T>,
                       ghost part: seq<nat>)
    returns (tabs: seq<seq<T>>)
    requires Sharded(xd, x, part, devices) && Sharded(md, mem, part, devices)
    ensures Sharded(tabs, Joined(net, x, mem), part, devices)
  {
    tabs := [];
    for d := 0 to devices
      invariant |tabs| == d
      invariant forall e :: 0 <= e < d ==> tabs[e] == Select<T>(Joined(net, x, mem), Indices(part, e))
    {
      tabs := tabs + [Joined(net, xd[d], md[d])];
      assert tabs[d] == Select<T>(Joined(net, x, mem), Indices(part, d));
    }
  }

  /** One device's new memory. */
  method UpdateDevice<T>(net: Net<T>, tabs: seq<seq<T>>, own: seq<T>, b: Batch, part: seq<nat>, lidx: seq<nat>,
                         devices: nat, d: nat, ghost x: seq<T>, ghost mem: seq<T>) returns (out: seq<T>)
    requires |x| == |mem| == |part| && LocalIndex(part, lidx) && Below(part, devices) && d < devices
    requires Sharded(tabs, Joined(net, x, mem), part, devices) && own == Select<T>(mem, Indices(part, d))
    requires BatchOk(b, |mem|)
    ensures out == Select<T>(MemoryAfter(net, x, mem, b), Indices(part, d))
  {
    ghost var rows := Joined(net, x, mem);
    var tgt, sv := Targets(b), Sources(b);
    EndsArePairs(b, |mem|);
    var m, ut := MeanCsr(net, tgt, sv, tabs, part, lidx, devices, d, rows);
    hide MeansOf, Sharded, LocalIndex, Messages, Message;
    if m.None? {
      out := own;
      SilentDevice(net, x, mem, b, part, d);
    } else {
      MeansPlaces(m.value, ut, net, rows, tgt, sv, part, lidx, d);
      var upd := seq(|m.value.idx|, k requires 0 <= k < |m.value.idx| => net.gru(m.value.rows[k], own[m.value.idx[k]]));
      out := IndexCopy(own, m.value.idx, upd);
      UpdatedDevice(net, x, mem, b, part, d, m.value, own, out);
    }
  }

  lemma SilentDevice<T>(net: Net<T>, x: seq<T>, mem: seq<T>, b: Batch, part: seq<nat>, d: nat)
    requires |x| == |mem| == |part| && BatchOk(b, |mem|)
    requires forall v :: v in Targets(b) ==> part[v] != d
    ensures Select<T>(MemoryAfter(net, x, mem, b), Indices(part, d)) == Select<T>(mem, Indices(part, d))
  {
    var locals := Indices(part, d);
    forall i | 0 <= i < |locals| ensures MemoryAfter(net, x, mem, b)[locals[i]] == mem[locals[i]] {
      MemoryRowOf(net, x, mem, b, locals[i]);
    }
  }

  lemma MemoryRowOf<T>(net: Net<T>, x: seq<T>, mem: seq<T>, b: Batch, v: nat)
    requires |x| == |mem| && BatchOk(b, |mem|) && v < |mem|
    ensures Pairs(Targets(b), Sources(b), |mem|)
    ensures v !in Targets(b) ==> MemoryAfter(net, x, mem, b)[v] == mem[v]
    ensures v in Targets(b) ==>
              MemoryAfter(net, x, mem, b)[v]
              == net.gru(net.mean(Messages(Joined(net, x, mem), Targets(b), Sources(b), v)), mem[v])
  {
  }

  lemma UpdatedDevice<T>(net: Net<T>, x: seq<T>, mem: seq<T>, b: Batch, part: seq<nat>, d: nat, m: Means<T>,
                         own: seq<T>, out: seq<T>)
    requires |x| == |mem| == |part| && BatchOk(b, |mem|) && Pairs(Targets(b), Sources(b), |mem|)
    requires own == Select<T>(mem, Indices(part, d)) && |out| == |own|
    requires |m.idx| == |m.rows| && Below(m.idx, |own|)
    requires forall k :: 0 <= k < |m.idx| ==>
               Indices(part, d)[m.idx[k]] in Targets(b)
               && Some(m.rows[k])
                  == Message(net, Joined(net, x, mem), Targets(b), Sources(b), Indices(part, d)[m.idx[k]])
    requires forall i :: 0 <= i < |own| && Indices(part, d)[i] in Targets(b) ==> i in m.idx
    requires forall k :: 0 <= k < |m.idx| ==> out[m.idx[k]] == net.gru(m.rows[k], own[m.idx[k]])
    requires forall i :: 0 <= i < |own| && i !in m.idx ==> out[i] == own[i]
    ensures out == Select<T>(MemoryAfter(net, x, mem, b), Indices(part, d))
  {
    hide MemoryAfter, Messages, Joined;
    var locals := Indices(part, d);
    forall i | 0 <= i < |own| ensures out[i] == MemoryAfter(net, x, mem, b)[locals[i]] {
      MemoryRowOf(net, x, mem, b, locals[i]);
      if i in m.idx {
        var k :| 0 <= k < |m.idx| && m.idx[k] == i;
        assert Some(m.rows[k]) == Message(net, Joined(net, x, mem), Targets(b), Sources(b), locals[i]);
      }
    }
  }

  /** `mem_update`: the shards of the new memory. */
  method MemUpdate<T>(net: Net<T>, xd: seq<seq<T>>, md: seq<seq<T>>, b: Batch, part: seq<nat>, lidx: seq<nat>,
                      devices: nat, ghost x: seq<T>, ghost mem: seq<T>)
    returns (out: seq<seq<T>>)
    requires World(x, xd, part, lidx, devices) && Sharded(md, mem, part, devices) && BatchOk(b, |mem|)
    ensures Sharded(out, MemoryAfter(net, x, mem, b), part, devices)
    ensures MemoryHears(MemoryAfter(net, x, mem, b), net, x, mem, b)
  {
    UpdateHears(net, x, mem, b);
    hide MemoryHears;
    var tabs := JoinShards(net, xd, md, devices, x, mem, part);
    ghost var after := MemoryAfter(net, x, mem, b);
    hide MemoryAfter, LocalIndex, Joined, BatchOk;
    out := [];
    for d := 0 to devices
      invariant |out| == d
      invariant forall e :: 0 <= e < d ==> out[e] == Select<T>(after, Indices(part, e))
    {
      var row := UpdateDevice(net, tabs, md[d], b, part, lidx, devices, d, x, mem);
      out := out + [row];
    }
  }

  /** `opts` holds, for every local row of device `d`, what the previous batch sends it. */
  ghost predicate RecentOf<T>(opts: seq<Option<T>>, net: Net<T>, rows: seq<T>, prev: Option<Batch>, part: seq<nat>,
                              d: nat)
    requires |part| == |rows| && (prev.Some? ==> BatchOk(prev.value, |rows|))
  {
    && |opts| == Count(part, d)
    && forall i :: 0 <= i < |opts| ==> opts[i] == Recent(net, rows, prev, Indices(part, d)[i])
  }

  /** The neighbour term of one device: nothing, then the receiving rows copied in. */
  method RecentRows<T>(net: Net<T>, tabs: seq<seq<T>>, prev: Option<Batch>, part: seq<nat>, lidx: seq<nat>,
                       devices: nat, d: nat, ghost rows: seq<T>) returns (opts: seq<Option<T>>)
    requires Sharded(tabs, rows, part, devices) && LocalIndex(part, lidx) && Below(part, devices) && d < devices
    requires prev.Some? ==> BatchOk(prev.value, |rows|)
    ensures RecentOf(opts, net, rows, prev, part, d)
  {
    var none: seq<Option<T>> := seq(Count(part, d), _ => None);
    opts := none;
    if prev.Some? && prev.value.eu != [] {
      var b := prev.value;
      EndsArePairs(b, |rows|);
      var m, ut := MeanCsr(net, Targets(b), Sources(b), tabs, part, lidx, devices, d, rows);
      hide MeansOf, Sharded, LocalIndex, Messages;
      if m.Some? {
        MeansPlaces(m.value, ut, net, rows, Targets(b), Sources(b), part, lidx, d);
        var vals := seq(|m.value.rows|, k requires 0 <= k < |m.value.rows| => Some(m.value.rows[k]));
        opts := IndexCopy(none, m.value.idx, vals);
        FilledIn(net, rows, b, part, d, m.value, opts);
      }
    }
  }

  lemma FilledIn<T>(net: Net<T>, rows: seq<T>, b: Batch, part: seq<nat>, d: nat, m: Means<T>, opts: seq<Option<T>>)
    requires |part| == |rows| && BatchOk(b, |rows|) && Pairs(Targets(b), Sources(b), |rows|)
    requires |opts| == Count(part, d) && |m.idx| == |m.rows| && Below(m.idx, |opts|)
    requires forall k :: 0 <= k < |m.idx| ==>
               Indices(part, d)[m.idx[k]] in Targets(b)
               && Some(m.rows[k]) == Message(net, rows, Targets(b), Sources(b), Indices(part, d)[m.idx[k]])
    requires forall i :: 0 <= i < |opts| && Indices(part, d)[i] in Targets(b) ==> i in m.idx
    requires forall k :: 0 <= k < |m.idx| ==> opts[m.idx[k]] == Some(m.rows[k])
    requires forall i :: 0 <= i < |opts| && i !in m.idx ==> opts[i] == None
    ensures RecentOf(opts, net, rows, Some(b), part, d)
  {
    forall i | 0 <= i < |opts| ensures opts[i] == Recent(net, rows, Some(b), Indices(part, d)[i]) {
      if i in m.idx {
        var k :| 0 <= k < |m.idx| && m.idx[k] == i;
        assert opts[i] == Some(m.rows[k]);
      }
    }
  }

  /** `encode`: the shards of the embedding. */
  method Encode<T>(net: Net<T>, xd: seq<seq<T>>, md: seq<seq<T>>, prev: Option<Batch>, part: seq<nat>, lidx: seq<nat>,
                   devices: nat, ghost x: seq<T>, ghost mem: seq<T>) returns (z: seq<seq<T>>)
    requires World(x, xd, part, lidx, devices) && Sharded(md, mem, part, devices)
    requires prev.Some? ==> BatchOk(prev.value, |mem|)
    ensures Sharded(z, Encoded(net, x, mem, prev), part, devices)
    ensures EmbeddingHears(Encoded(net, x, mem, prev), net, x, mem, prev)
  {
    EncodeHears(net, x, mem, prev);
    hide EmbeddingHears;
    var tabs := JoinShards(net, xd, md, devices, x, mem, part);
    ghost var rows, goal := Joined(net, x, mem), Encoded(net, x, mem, prev);
    z := [];
    for d := 0 to devices
      invariant |z| == d
      invariant forall e :: 0 <= e < d ==> z[e] == Select<T>(goal, Indices(part, e))
    {
      var opts := RecentRows(net, tabs, prev, part, lidx, devices, d, rows);
      assert tabs[d] == Select<T>(rows, Indices(part, d));
      var zd := EmbedDevice(net, tabs[d], opts, x, mem, prev, part, d);
      z := z + [zd];
    }
  }

  method EmbedDevice<T>(net: Net<T>, tab: seq<T>, opts: seq<Option<T>>, ghost x: seq<T>, ghost mem: seq<T>,
                        ghost prev: Option<Batch>, ghost part: seq<nat>, ghost d: nat) returns (zd: seq<T>)
    requires |x| == |mem| == |part| && (prev.Some? ==> BatchOk(prev.value, |mem|))
    requires tab == Select<T>(Joined(net, x, mem), Indices(part, d))
    requires RecentOf(opts, net, Joined(net, x, mem), prev, part, d)
    ensures zd == Select<T>(Encoded(net, x, mem, prev), Indices(part, d))
  {
    zd := seq(|tab|, i requires 0 <= i < |tab| => net.embed(tab[i], opts[i]));
  }

  // ---------------------------------------------------------------- scores

  /** One device's scores for its own edges. */
  method ScoreDevice<T>(net: Net<T>, zs: seq<seq<T>>, own: seq<nat>, eu: seq<nat>, ev: seq<nat>, part: seq<nat>,
                        lidx: seq<nat>, devices: nat, d: nat, ghost z: seq<T>)
    returns (s: seq<T>)
    requires Sharded(zs, z, part, devices) && LocalIndex(part, lidx) && Below(part, devices) && d < devices
    requires Pairs(eu, ev, |z|) && own == Indices(Select<nat>(part, eu), d) && own != []
    ensures s == Select<T>(Scores(net, z, eu, ev), own)
  {
    OwnerPiece(zs, z, part, lidx, devices, eu, d);
    var zu := Select<T>(zs[d], Select<nat>(lidx, Select<nat>(eu, own)));
    var zp := GatherRows(zs, Select<nat>(ev, own), part, lidx, devices, z);
    hide Sharded, LocalIndex;
    s := seq(|own|, i requires 0 <= i < |own| => net.score(zu[i], zp.value[i]));
  }

  /** The scores of a batch, collected device by device and put back in edge order. An empty batch
      leaves nothing to concatenate and fails. */
  method ScoreEdges<T>(net: Net<T>, zs: seq<seq<T>>, eu: seq<nat>, ev: seq<nat>, part: seq<nat>, lidx: seq<nat>,
                       devices: nat, ghost z: seq<T>) returns (r: Option<seq<T>>)
    requires Sharded(zs, z, part, devices) && LocalIndex(part, lidx) && Below(part, devices)
    requires Pairs(eu, ev, |z|)
    ensures r == if eu == [] then None else Some(Scores(net, z, eu, ev))
  {
    var owner := Select<nat>(part, eu);
    ghost var target := Scores(net, z, eu, ev);
    var pieces: seq<seq<T>> := [];
    var orders: seq<seq<nat>> := [];
    CollectedNone(target, owner);
    hide Collected, Sharded, LocalIndex, Scores, Concat;
    NothingYet();
    for d := 0 to devices
      invariant Collected(pieces, orders, target, owner, d)
      invariant orders == [] <==> Concat<nat>(orders) == []
    {
      var own := Indices(owner, d);
      CollectedMore(pieces, orders, target, owner, d);
      if own != [] {
        ConcatSnoc<nat>(orders, own);
        var s := ScoreDevice(net, zs, own, eu, ev, part, lidx, devices, d, z);
        pieces, orders := pieces + [s], orders + [own];
      }
    }
    Restored(pieces, orders, target, owner, devices);
    if orders == [] {
      return None;
    }
    r := Some(Select<T>(Concat<T>(pieces), Argsort(Concat<nat>(orders))));
  }

  lemma NothingYet()
    ensures forall orders: seq<seq<nat>> :: orders == [] ==> Concat<nat>(orders) == []
  {
  }

  // ---------------------------------------------------------------- the evaluation stream

  /** A batch of edges with one negative target for each. */
  datatype Trial = Trial(edges: Batch, negatives: seq<nat>)

  datatype Scored<T> = Scored(positive: seq<T>, negative: seq<T>)

  ghost predicate TrialOk(t: Trial, n: nat) {
    BatchOk(t.edges, n) && Pairs(t.edges.eu, t.negatives, n)
  }

  ghost predicate TrialsOk(trials: seq<Trial>, n: nat) {
    forall i :: 0 <= i < |trials| ==> TrialOk(trials[i], n)
  }

  /** The batch before trial `k`. */
  function Before(trials: seq<Trial>, prev: Option<Batch>, k: nat): Option<Batch>
    requires k <= |trials|
  {
    if k == 0 then prev else Some(trials[k - 1].edges)
  }

  function Step<T>(net: Net<T>, x: seq<T>, mem: seq<T>, prev: Option<Batch>): (r: seq<T>)
    requires |x| == |mem| && (prev.Some? ==> BatchOk(prev.value, |mem|))
    ensures |r| == |mem|
  {
    match prev
    case None => mem
    case Some(b) => MemoryAfter(net, x, mem, b)
  }

  /** The single-device memory at the start of trial `k`. */
  ghost function MemoryAt<T>(net: Net<T>, x: seq<T>, mem: seq<T>, prev: Option<Batch>, trials: seq<Trial>,
                             k: nat): (r: seq<T>)
    requires |x| == |mem| && (prev.Some? ==> BatchOk(prev.value, |mem|)) && TrialsOk(trials, |mem|) && k <= |trials|
    ensures |r| == |mem|
  {
    if k == 0 then mem else Step(net, x, MemoryAt(net, x, mem, prev, trials, k - 1), Before(trials, prev, k - 1))
  }

  /** The single-device scores of trial `k`. */
  ghost function TrialScores<T>(net: Net<T>, x: seq<T>, mem: seq<T>, prev: Option<Batch>, trials: seq<Trial>,
                                k: nat): (s: Scored<T>)
    requires |x| == |mem| && (prev.Some? ==> BatchOk(prev.value, |mem|)) && TrialsOk(trials, |mem|) && k < |trials|
  {
    var now := MemoryAt(net, x, mem, prev, trials, k + 1);
    var z := Encoded(net, x, now, Before(trials, prev, k));
    assert TrialOk(trials[k], |mem|);
    Scored(Scores(net, z, trials[k].edges.eu, trials[k].edges.ev),
           Scores(net, z, trials[k].edges.eu, trials[k].negatives))
  }

  /** One trial on the devices: update, encode, score. */
  method RunTrial<T>(net: Net<T>, xd: seq<seq<T>>, md: seq<seq<T>>, prev: Option<Batch>, t: Trial,
                     part: seq<nat>, lidx: seq<nat>, devices: nat, ghost x: seq<T>, ghost mem: seq<T>)
    returns (next: seq<seq<T>>, s: Option<Scored<T>>)
    requires World(x, xd, part, lidx, devices) && Sharded(md, mem, part, devices)
    requires (prev.Some? ==> BatchOk(prev.value, |mem|)) && TrialOk(t, |mem|)
    ensures Sharded(next, Step(net, x, mem, prev), part, devices)
    ensures s.None? <==> t.edges.eu == []
    ensures var z := Encoded(net, x, Step(net, x, mem, prev), prev);
            s.Some? ==>
              s.value == Scored(Scores(net, z, t.edges.eu, t.edges.ev), Scores(net, z, t.edges.eu, t.negatives))
  {
    next := md;
    if prev.Some? {
      next := MemUpdate(net, xd, md, prev.value, part, lidx, devices, x, mem);
    }
    ghost var now := Step(net, x, mem, prev);
    ghost var z := Encoded(net, x, now, prev);
    var zs := Encode(net, xd, next, prev, part, lidx, devices, x, now);
    hide Sharded, Scores, Encoded, Step;
    var sp := ScoreEdges(net, zs, t.edges.eu, t.edges.ev, part, lidx, devices, z);
    var sn := ScoreEdges(net, zs, t.edges.eu, t.negatives, part, lidx, devices, z);
    s := if sp.None? || sn.None? then None else Some(Scored(sp.value, sn.value));
  }

  /** The streaming evaluation. It fails exactly when some batch is empty; otherwise every score of
      every batch, in edge order, is the single-device one, whatever the partition. */
  method Evaluate<T>(net: Net<T>, xd: seq<seq<T>>, md: seq<seq<T>>, prev: Option<Batch>, trials: seq<Trial>,
                     part: seq<nat>, lidx: seq<nat>, devices: nat, ghost x: seq<T>, ghost mem: seq<T>)
    returns (r: Option<seq<Scored<T>>>, last: seq<seq<T>>)
    requires World(x, xd, part, lidx, devices) && Sharded(md, mem, part, devices)
    requires (prev.Some? ==> BatchOk(prev.value, |mem|)) && TrialsOk(trials, |mem|)
    ensures r.Some? <==> forall k :: 0 <= k < |trials| ==> trials[k].edges.eu != []
    ensures r.Some? ==> |r.value| == |trials|
    ensures r.Some? ==> forall k :: 0 <= k < |trials| ==> r.value[k] == TrialScores(net, x, mem, prev, trials, k)
    ensures r.Some? ==> Sharded(last, MemoryAt(net, x, mem, prev, trials, |trials|), part, devices)
  {
    hide *;
    WorldParts(x, xd, part, lidx, devices, md, mem);
    last := md;
    var recent := prev;
    var scored: seq<Scored<T>> := [];
    TrialUnfold(net, x, mem, prev, trials, 0);
    for k := 0 to |trials|
      invariant |scored| == k && recent == Before(trials, prev, k)
      invariant Sharded(last, MemoryAt(net, x, mem, prev, trials, k), part, devices)
      invariant forall i :: 0 <= i < k ==> trials[i].edges.eu != []
      invariant forall i :: 0 <= i < k ==> scored[i] == TrialScores(net, x, mem, prev, trials, i)
    {
      ghost var now := MemoryAt(net, x, mem, prev, trials, k);
      TrialUnfold(net, x, mem, prev, trials, k);
      BeforeOk(trials, prev, k, |mem|);
      var s;
      last, s := RunTrial(net, xd, last, recent, trials[k], part, lidx, devices, x, now);
      if s.None? {
        return None, last;
      }
      scored := scored + [s.value];
      recent := Some(trials[k].edges);
    }
    r := Some(scored);
  }

  lemma WorldParts<T>(x: seq<T>, xd: seq<seq<T>>, part: seq<nat>, lidx: seq<nat>, devices: nat, md: seq<seq<T>>,
                      mem: seq<T>)
    requires World(x, xd, part, lidx, devices) && Sharded(md, mem, part, devices)
    ensures |x| == |mem|
  {
  }

  /** The definitions at trial `k`. */
  lemma TrialUnfold<T>(net: Net<T>, x: seq<T>, mem: seq<T>, prev: Option<Batch>, trials: seq<Trial>, k: nat)
    requires |x| == |mem| && (prev.Some? ==> BatchOk(prev.value, |mem|)) && TrialsOk(trials, |mem|) && k <= |trials|
    ensures MemoryAt(net, x, mem, prev, trials, 0) == mem && Before(trials, prev, 0) == prev
    ensures Before(trials, prev, k).Some? ==> BatchOk(Before(trials, prev, k).value, |mem|)
    ensures k < |trials| ==>
      var now := MemoryAt(net, x, mem, prev, trials, k + 1);
      var z := Encoded(net, x, now, Before(trials, prev, k));
      && TrialOk(trials[k], |mem|) && Pairs(trials[k].edges.eu, trials[k].edges.ev, |z|)
      && Pairs(trials[k].edges.eu, trials[k].negatives, |z|)
      && now == Step(net, x, MemoryAt(net, x, mem, prev, trials, k), Before(trials, prev, k))
      && Before(trials, prev, k + 1) == Some(trials[k].edges)
      && TrialScores(net, x, mem, prev, trials, k)
         == Scored(Scores(net, z, trials[k].edges.eu, trials[k].edges.ev),
                   Scores(net, z, trials[k].edges.eu, trials[k].negatives))
  {
    hide Encoded, Scores, Step;
    BeforeOk(trials, prev, k, |mem|);
    if k < |trials| {
      assert TrialOk(trials[k], |mem|);
    }
  }

  lemma BeforeOk(trials: seq<Trial>, prev: Option<Batch>, k: nat, n: nat)
    requires k <= |trials| && TrialsOk(trials, n) && (prev.Some? ==> BatchOk(prev.value, n))
    ensures Before(trials, prev, k).Some? ==> BatchOk(Before(trials, prev, k).value, n)
  {
    if k > 0 {
      assert TrialOk(trials[k - 1], n);
    }
  }
}
