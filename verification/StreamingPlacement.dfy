/** Streaming placement of arriving vertices: batches in order of first appearance, every vertex of
    a batch scored against the assignment left by the batches before it. */
module StreamingPlacement {
  import opened Arrays
  import opened ChangedCone
  import opened IncrementalVotes
  import opened LabelPropagation
  import opened StreamOrder
  import opened LabelMatching
  import G = GreedyPlacement

  // ---------------------------------------------------------------- the stream

  /** Edge ends in time order: source, target, source, target, and so on. */
  function Interleaved(src: seq<nat>, dst: seq<nat>): (r: seq<nat>)
    requires |src| == |dst|
    ensures forall v :: v in r <==> v in src || v in dst
  {
    if src == [] then []
    else
      var n := |src| - 1;
      assert src == src[..n] + [src[n]] && dst == dst[..n] + [dst[n]];
      Interleaved(src[..n], dst[..n]) + [src[n], dst[n]]
  }

  /** `ends[is_new[ends]]`. */
  function NewOnly(ends: seq<nat>, start: seq<int>): (r: seq<nat>)
    requires Below(ends, |start|)
    ensures Below(r, |start|) && forall v :: v in r <==> v in ends && start[v] < 0
  {
    if ends == [] then []
    else
      var n := |ends| - 1;
      assert ends == ends[..n] + [ends[n]];
      var front := NewOnly(ends[..n], start);
      if start[ends[n]] < 0 then front + [ends[n]] else front
  }

  /** New vertices without an edge, by id. */
  function Isolated(newNodes: seq<nat>, seen: seq<nat>): (r: seq<nat>)
    ensures forall v :: v in r <==> v in newNodes && v !in seen
    ensures Distinct(newNodes) ==> Distinct(r)
  {
    if newNodes == [] then []
    else
      var n := |newNodes| - 1;
      assert newNodes == newNodes[..n] + [newNodes[n]];
      var front := Isolated(newNodes[..n], seen);
      if newNodes[n] in seen then front else front + [newNodes[n]]
  }

  /** Vertex `v` is the `t`-th edge end: edge `t / 2` starts there if `t` is even, else ends there. */
  ghost predicate TouchedAt(src: seq<nat>, dst: seq<nat>, v: nat, t: nat)
    requires |src| == |dst|
  {
    t / 2 < |src| && v == if t % 2 == 0 then src[t / 2] else dst[t / 2]
  }

  ghost predicate TouchedBefore(src: seq<nat>, dst: seq<nat>, v: nat, t: nat)
    requires |src| == |dst|
  {
    exists q :: 0 <= q < t && TouchedAt(src, dst, v, q)
  }

  /** The vertices come in the order in which edges first touch them; those no edge touches come last,
      by id. */
  ghost predicate ArrivalOrder(stream: seq<nat>, src: seq<nat>, dst: seq<nat>)
    requires |src| == |dst|
  {
    && (forall i, j, t: nat :: 0 <= i < j < |stream| && TouchedAt(src, dst, stream[j], t) ==>
          TouchedBefore(src, dst, stream[i], t))
    && forall i, j :: 0 <= i < j < |stream| && stream[i] !in src && stream[i] !in dst ==> stream[i] < stream[j]
  }

  lemma {:induction false} InterleavedAt(src: seq<nat>, dst: seq<nat>, t: nat)
    requires |src| == |dst|
    ensures |Interleaved(src, dst)| == 2 * |src|
    ensures t < 2 * |src| ==> TouchedAt(src, dst, Interleaved(src, dst)[t], t)
  {
    if src != [] {
      var n := |src| - 1;
      InterleavedAt(src[..n], dst[..n], t);
      assert t < 2 * n ==> src[..n][t / 2] == src[t / 2] && dst[..n][t / 2] == dst[t / 2];
    }
  }

  /** In the list of first appearances, whatever stands before a value appears before it. */
  lemma {:induction false} AppearsFirst(ends: seq<nat>, start: seq<int>, i: nat, j: nat, t: nat)
    requires Below(ends, |start|)
    requires var seen := FirstSeen(NewOnly(ends, start)); i < j < |seen| && t < |ends| && ends[t] == seen[j]
    ensures var seen := FirstSeen(NewOnly(ends, start)); exists q :: 0 <= q < t && ends[q] == seen[i]
  {
    hide FirstSeen, NewOnly;
    var n := |ends| - 1;
    var seen, front := FirstSeen(NewOnly(ends, start)), FirstSeen(NewOnly(ends[..n], start));
    SeenStep(ends, start);
    if j < |front| {
      if t < n {
        AppearsFirst(ends[..n], start, i, j, t);
      } else {
        var r := SeenSomewhere(ends[..n], start, j);
        AppearsFirst(ends[..n], start, i, j, r);
      }
      var q :| 0 <= q < t && ends[..n][q] == seen[i];
      assert ends[q] == seen[i];
    } else {
      var q := SeenSomewhere(ends[..n], start, i);
      assert ends[q] == seen[i];
    }
  }

  lemma SeenStep(ends: seq<nat>, start: seq<int>)
    requires Below(ends, |start|) && ends != []
    ensures var n := |ends| - 1;
            var seen, front := FirstSeen(NewOnly(ends, start)), FirstSeen(NewOnly(ends[..n], start));
            if start[ends[n]] < 0 && ends[n] !in front then seen == front + [ends[n]] else seen == front
  {
    hide FirstSeen, NewOnly;
    var n := |ends| - 1;
    NewOnlyStep(ends, start);
    FirstSeenSnoc(NewOnly(ends[..n], start), ends[n]);
  }

  lemma NewOnlyStep(ends: seq<nat>, start: seq<int>)
    requires Below(ends, |start|) && ends != []
    ensures var n := |ends| - 1;
            && (start[ends[n]] < 0 ==> NewOnly(ends, start) == NewOnly(ends[..n], start) + [ends[n]])
            && (start[ends[n]] >= 0 ==> NewOnly(ends, start) == NewOnly(ends[..n], start))
  {
  }

  lemma FirstSeenSnoc(xs: seq<nat>, x: nat)
    ensures x in FirstSeen(xs) ==> FirstSeen(xs + [x]) == FirstSeen(xs)
    ensures x !in FirstSeen(xs) ==> FirstSeen(xs + [x]) == FirstSeen(xs) + [x]
  {
    assert (xs + [x])[..|xs|] == xs;
  }

  lemma SeenSomewhere(ends: seq<nat>, start: seq<int>, i: nat) returns (q: nat)
    requires Below(ends, |start|) && i < |FirstSeen(NewOnly(ends, start))|
    ensures q < |ends| && ends[q] == FirstSeen(NewOnly(ends, start))[i] && start[ends[q]] < 0
  {
    hide FirstSeen, NewOnly;
    var v := FirstSeen(NewOnly(ends, start))[i];
    assert v in FirstSeen(NewOnly(ends, start));
    q :| 0 <= q < |ends| && ends[q] == v;
  }

  /** First appearances, then the rest by id: the arrival order. */
  lemma StreamOrdered(src: seq<nat>, dst: seq<nat>, start: seq<int>, seen: seq<nat>, isolated: seq<nat>)
    requires Graph(src, dst, |start|) && seen == FirstSeen(NewOnly(EndsOf(src, dst, |start|), start))
    requires Increasing(isolated) && Below(isolated, |start|)
    requires forall v :: v in isolated ==> start[v] < 0 && v !in seen
    ensures ArrivalOrder(seen + isolated, src, dst)
  {
    hide FirstSeen, NewOnly, TouchedAt, TouchedBefore;
    var ends, stream := EndsOf(src, dst, |start|), seen + isolated;
    forall i, j, t: nat | 0 <= i < j < |stream| && TouchedAt(src, dst, stream[j], t)
      ensures TouchedBefore(src, dst, stream[i], t)
    {
      EndAt(src, dst, |start|, stream[j], t);
      TouchedIsSeen(ends, start, seen, isolated, j, t);
      AppearsFirst(ends, start, i, j, t);
      var q :| 0 <= q < t && ends[q] == seen[i];
      TouchedEarlier(src, dst, |start|, stream[i], q, t);
    }
    forall i, j | 0 <= i < j < |stream| && stream[i] !in src && stream[i] !in dst ensures stream[i] < stream[j] {
    }
  }

  lemma TouchedIsSeen(ends: seq<nat>, start: seq<int>, seen: seq<nat>, isolated: seq<nat>, j: nat, t: nat)
    requires Below(ends, |start|) && seen == FirstSeen(NewOnly(ends, start))
    requires forall v :: v in isolated ==> v < |start| && start[v] < 0 && v !in seen
    requires j < |seen + isolated| && t < |ends| && ends[t] == (seen + isolated)[j]
    ensures j < |seen|
  {
    hide FirstSeen, NewOnly;
    assert ends[t] in ends;
    assert forall i :: 0 <= i < |isolated| ==> isolated[i] in isolated;
  }

  lemma EndAt(src: seq<nat>, dst: seq<nat>, n: nat, v: nat, t: nat)
    requires Graph(src, dst, n) && TouchedAt(src, dst, v, t)
    ensures t < |EndsOf(src, dst, n)| && EndsOf(src, dst, n)[t] == v
  {
    InterleavedAt(src, dst, t);
  }

  lemma TouchedEarlier(src: seq<nat>, dst: seq<nat>, n: nat, v: nat, q: nat, t: nat)
    requires Graph(src, dst, n) && q < |EndsOf(src, dst, n)| && EndsOf(src, dst, n)[q] == v && q < t
    ensures TouchedBefore(src, dst, v, t)
  {
    InterleavedAt(src, dst, q);
  }

  /** The arrival order: first appearance in the edges, then the isolated vertices. */
  method Arrivals(src: seq<nat>, dst: seq<nat>, start: seq<int>) returns (stream: seq<nat>)
    requires Graph(src, dst, |start|)
    ensures Distinct(stream) && Below(stream, |start|)
    ensures forall v :: v in stream <==> 0 <= v < |start| && start[v] < 0
    ensures FirstSeen(NewOnly(EndsOf(src, dst, |start|), start)) <= stream
    ensures ArrivalOrder(stream, src, dst)
  {
    hide ArrivalOrder, FirstSeen, NewOnly, EndsOf, NewNodes, Isolated;
    var ends := EndsOf(src, dst, |start|);
    var newEnds := NewOnly(ends, start);
    var seen := StreamInOrder(newEnds);
    var newNodes := NewNodes(start);
    var isolated := Isolated(newNodes, seen);
    stream := seen + isolated;
    StreamComplete(start, newEnds, seen, newNodes, isolated, stream);
    IsolatedIncreases(newNodes, seen);
    assert forall i :: 0 <= i < |isolated| ==> isolated[i] in isolated;
    StreamOrdered(src, dst, start, seen, isolated);
  }

  function EndsOf(src: seq<nat>, dst: seq<nat>, n: nat): (r: seq<nat>)
    requires Graph(src, dst, n)
    ensures Below(r, n)
  {
    var r := Interleaved(src, dst);
    assert forall i :: 0 <= i < |r| ==> r[i] in r;
    r
  }

  /** `where(assignment < 0)`. */
  function NewNodes(start: seq<int>): (r: seq<nat>)
    ensures Increasing(r) && Below(r, |start|) && forall v :: v in r <==> 0 <= v < |start| && start[v] < 0
  {
    if start == [] then []
    else
      var n := |start| - 1;
      var front := NewNodes(start[..n]);
      if start[n] < 0 then front + [n] else front
  }

  lemma StreamComplete(start: seq<int>, newEnds: seq<nat>, seen: seq<nat>, newNodes: seq<nat>, isolated: seq<nat>,
                       stream: seq<nat>)
    requires Below(newEnds, |start|) && (forall v :: v in newEnds ==> start[v] < 0) && seen == FirstSeen(newEnds)
    requires newNodes == NewNodes(start) && isolated == Isolated(newNodes, seen) && stream == seen + isolated
    ensures Distinct(stream) && Below(stream, |start|)
    ensures forall v :: v in stream <==> 0 <= v < |start| && start[v] < 0
  {
    hide FirstSeen, NewNodes, Isolated;
    forall v ensures v in stream <==> 0 <= v < |start| && start[v] < 0 {
      assert v in stream <==> v in seen || v in isolated;
      if v in newEnds {
        var i :| 0 <= i < |newEnds| && newEnds[i] == v;
      }
    }
    forall i | 0 <= i < |stream| ensures stream[i] < |start| {
      assert stream[i] in stream;
    }
    forall i, j | 0 <= i < j < |stream| ensures stream[i] != stream[j] {
      if i < |seen| <= j {
        assert stream[i] in seen && stream[j] in isolated;
      }
    }
  }

  lemma {:induction false} IsolatedIncreases(newNodes: seq<nat>, seen: seq<nat>)
    requires Increasing(newNodes)
    ensures Increasing(Isolated(newNodes, seen))
  {
    if newNodes != [] {
      var n := |newNodes| - 1;
      var front := Isolated(newNodes[..n], seen);
      IsolatedIncreases(newNodes[..n], seen);
      forall i | 0 <= i < |front| ensures front[i] < newNodes[n] {
        assert front[i] in front && front[i] in newNodes[..n];
      }
    }
  }

  // ---------------------------------------------------------------- votes of a batch

  function Zipped(a: seq<nat>, b: seq<nat>): (r: seq<Pair>)
    requires |a| == |b|
    ensures |r| == |a| && forall i :: 0 <= i < |r| ==> r[i] == Pair(a[i], b[i])
  {
    seq(|a|, i requires 0 <= i < |a| => Pair(a[i], b[i]))
  }

  /** Both directions of every edge. */
  lemma {:induction false} BothDirections(device: seq<int>, src: seq<nat>, dst: seq<nat>, v: nat, d: int)
    requires Graph(src, dst, |device|)
    ensures PairsBelow(Zipped(src, dst), |device|) && PairsBelow(Zipped(dst, src), |device|)
    ensures PairVotes(device, Zipped(src, dst), v, d) + PairVotes(device, Zipped(dst, src), v, d)
         == Votes(device, src, dst, v, d)
  {
    if src != [] {
      var n := |src| - 1;
      BothDirections(device, src[..n], dst[..n], v, d);
      assert Zipped(src, dst)[..n] == Zipped(src[..n], dst[..n]) && Zipped(dst, src)[..n] == Zipped(dst[..n], src[..n]);
    }
  }

  /** A vertex's row of the two-way CSR holds exactly its votes. */
  lemma RowVotes(device: seq<int>, src: seq<nat>, dst: seq<nat>, m: Csr, v: nat, d: int)
    requires Graph(src, dst, |device|) && IsCsrOf(m, src + dst, dst + src, |device|) && v < |device|
    ensures RowOk(m, v) && Below(Row(m, v), |device|)
    ensures Count(Select<int>(device, Row(m, v)), d) == Votes(device, src, dst, v, d)
  {
    hide *;
    TwoWay(src, dst, |device|);
    var ps := Zipped(src, dst) + Zipped(dst, src);
    BothDirections(device, src, dst, v, d);
    PairVotesConcat(device, Zipped(src, dst), Zipped(dst, src), v, d);
    SlicedVotes(device, ps, v, d);
    PartnersAre(device, ps, v);
    RowIs(m, src + dst, dst + src, |device|, v);
    BelowAt(Row(m, v), |device|);
  }

  lemma TwoWay(src: seq<nat>, dst: seq<nat>, n: nat)
    requires Graph(src, dst, n)
    ensures |src| == |dst|
    ensures Owners(Zipped(src, dst) + Zipped(dst, src)) == src + dst
    ensures Others(Zipped(src, dst) + Zipped(dst, src)) == dst + src
  {
  }

  lemma RowIs(m: Csr, own: seq<nat>, nbr: seq<nat>, n: nat, v: nat)
    requires |own| == |nbr| && IsCsrOf(m, own, nbr, n) && v < n
    ensures RowOk(m, v) && Row(m, v) == Select<nat>(nbr, Indices(own, v))
  {
  }

  lemma PartnersAre(device: seq<int>, ps: seq<Pair>, v: nat)
    requires PairsBelow(ps, |device|)
    ensures Below(Select<nat>(Others(ps), Indices(Owners(ps), v)), |device|)
    ensures Partners(device, ps, v) == Select<int>(device, Select<nat>(Others(ps), Indices(Owners(ps), v)))
  {
  }

  // ---------------------------------------------------------------- flat votes

  ghost predicate RowsOk(m: Csr, batch: seq<nat>, n: nat) {
    forall r :: 0 <= r < |batch| ==> batch[r] < n && RowOk(m, batch[r]) && Below(Row(m, batch[r]), n)
  }

  /** The rows of the batch end to end. */
  function RowsOf(m: Csr, batch: seq<nat>): seq<nat>
    requires forall r :: 0 <= r < |batch| ==> RowOk(m, batch[r])
  {
    if batch == [] then []
    else
      var n := |batch| - 1;
      RowsOf(m, batch[..n]) + Row(m, batch[n])
  }

  function RowBegin(m: Csr, v: nat): nat
    requires RowOk(m, v)
  {
    m.crow[v]
  }

  function RowLength(m: Csr, v: nat): (n: nat)
    requires RowOk(m, v)
    ensures n == |Row(m, v)|
  {
    m.crow[v + 1] - m.crow[v]
  }

  /** `off[batch]`. */
  function StartsOf(m: Csr, batch: seq<nat>): (r: seq<int>)
    requires forall r :: 0 <= r < |batch| ==> RowOk(m, batch[r])
    ensures |r| == |batch| && forall i :: 0 <= i < |r| ==> r[i] == RowBegin(m, batch[i])
  {
    seq(|batch|, i requires 0 <= i < |batch| => RowBegin(m, batch[i]))
  }

  /** `off[batch + 1] - off[batch]`. */
  function LensOf(m: Csr, batch: seq<nat>): (r: seq<nat>)
    requires forall r :: 0 <= r < |batch| ==> RowOk(m, batch[r])
    ensures |r| == |batch| && forall i :: 0 <= i < |r| ==> r[i] == RowLength(m, batch[i])
  {
    seq(|batch|, i requires 0 <= i < |batch| => RowLength(m, batch[i]))
  }

  lemma RunReadsRow(m: Csr, v: nat)
    requires RowOk(m, v)
    ensures var run := Run(RowBegin(m, v), RowLength(m, v));
            && |run| == |Row(m, v)|
            && forall q :: 0 <= q < |run| ==> 0 <= run[q] < |m.col| && m.col[run[q]] == Row(m, v)[q]
  {
  }

  /** Expanding the starts and lengths selects exactly the rows. */
  lemma {:induction false} ExpandedRows(m: Csr, batch: seq<nat>)
    requires forall r :: 0 <= r < |batch| ==> RowOk(m, batch[r])
    ensures var idx := Expanded(StartsOf(m, batch), LensOf(m, batch));
            && |idx| == |RowsOf(m, batch)|
            && forall p :: 0 <= p < |idx| ==> 0 <= idx[p] < |m.col| && m.col[idx[p]] == RowsOf(m, batch)[p]
  {
    if batch != [] {
      var n := |batch| - 1;
      hide Row, RowOk, RowBegin, RowLength, Run;
      ExpandedRows(m, batch[..n]);
      RunReadsRow(m, batch[n]);
      assert StartsOf(m, batch)[..n] == StartsOf(m, batch[..n]) && LensOf(m, batch)[..n] == LensOf(m, batch[..n]);
    }
  }

  /** `repeat(arange(B), lens)`. */
  function OwnersOf(lens: seq<nat>): (r: seq<nat>)
    ensures |r| == Sum(lens) && forall i :: 0 <= i < |r| ==> r[i] < |lens|
  {
    if lens == [] then []
    else
      var n := |lens| - 1;
      OwnersOf(lens[..n]) + seq(lens[n], _ => n)
  }

  /** `owner[keep] * D + nb_dev[keep]` for the neighbours already placed. */
  function KeepPlaced(owner: seq<nat>, dev: seq<int>, devices: nat): seq<int>
    requires |owner| == |dev|
  {
    if owner == [] then []
    else
      var n := |owner| - 1;
      var rest := KeepPlaced(owner[..n], dev[..n], devices);
      if dev[n] >= 0 then rest + [owner[n] * devices + dev[n]] else rest
  }

  lemma {:induction false} KeepConcat(a: seq<nat>, x: seq<int>, b: seq<nat>, y: seq<int>, devices: nat)
    requires |a| == |x| && |b| == |y|
    ensures KeepPlaced(a + b, x + y, devices) == KeepPlaced(a, x, devices) + KeepPlaced(b, y, devices)
  {
    if b == [] {
      assert a + b == a && x + y == x;
    } else {
      var n := |b| - 1;
      KeepConcat(a, x, b[..n], y[..n], devices);
      assert (a + b)[..|a + b| - 1] == a + b[..n] && (x + y)[..|x + y| - 1] == x + y[..n];
    }
  }

  lemma KeepPlacedStep(owner: seq<nat>, dev: seq<int>, devices: nat)
    requires |owner| == |dev|
    ensures owner == [] ==> KeepPlaced(owner, dev, devices) == []
    ensures owner != [] ==>
      var n := |owner| - 1;
      var rest := KeepPlaced(owner[..n], dev[..n], devices);
      && (0 <= dev[n] < devices ==> KeepPlaced(owner, dev, devices) == rest + [Cell(owner[n], dev[n], devices)])
      && (dev[n] < 0 ==> KeepPlaced(owner, dev, devices) == rest)
  {
  }

  /** One row's entries all fall in that row of the table. */
  lemma {:induction false} KeepRow(owner: seq<nat>, dev: seq<int>, devices: nat, k: nat, r: nat, d: nat)
    requires |owner| == |dev| && (forall i :: 0 <= i < |owner| ==> owner[i] == k) && d < devices
    requires forall i :: 0 <= i < |dev| ==> dev[i] < devices
    ensures Count(KeepPlaced(owner, dev, devices), Cell(r, d, devices)) == if r == k then Count(dev, d) else 0
  {
    hide Count, Cell, KeepPlaced;
    KeepPlacedStep(owner, dev, devices);
    if owner == [] {
      CountAbsent([], Cell(r, d, devices));
      CountAbsent(dev, d);
    } else {
      var n := |owner| - 1;
      KeepRow(owner[..n], dev[..n], devices, k, r, d);
      var rest := KeepPlaced(owner[..n], dev[..n], devices);
      assert dev == dev[..n] + [dev[n]];
      CountSnoc(dev[..n], dev[n], d);
      if dev[n] >= 0 {
        CellSnoc(rest, k, dev[n], r, d, devices);
      }
    }
  }

  lemma CellSnoc(flat: seq<int>, k: nat, x: nat, r: nat, d: nat, devices: nat)
    requires d < devices && x < devices
    ensures Count(flat + [Cell(k, x, devices)], Cell(r, d, devices))
         == Count(flat, Cell(r, d, devices)) + if k == r && x == d then 1 else 0
  {
    hide Count;
    FlatSnoc(flat, k, x, r, d, devices);
  }

  ghost predicate DevicesBelow(device: seq<int>, devices: nat) {
    forall v :: 0 <= v < |device| ==> device[v] < devices
  }

  lemma RowsBelow(m: Csr, batch: seq<nat>, n: nat)
    requires RowsOk(m, batch, n)
    ensures Below(RowsOf(m, batch), n)
  {
    if batch != [] {
      RowsBelow(m, batch[..|batch| - 1], n);
    }
  }

  lemma {:induction false} OwnersLength(m: Csr, batch: seq<nat>)
    requires forall r :: 0 <= r < |batch| ==> RowOk(m, batch[r])
    ensures |OwnersOf(LensOf(m, batch))| == |RowsOf(m, batch)|
  {
    if batch != [] {
      var n := |batch| - 1;
      OwnersLength(m, batch[..n]);
      assert LensOf(m, batch)[..n] == LensOf(m, batch[..n]);
    }
  }

  /** The flat votes of a batch. */
  function BatchFlat(device: seq<int>, m: Csr, batch: seq<nat>, devices: nat): seq<int>
    requires RowsOk(m, batch, |device|)
  {
    RowsBelow(m, batch, |device|);
    OwnersLength(m, batch);
    KeepPlaced(OwnersOf(LensOf(m, batch)), Select<int>(device, RowsOf(m, batch)), devices)
  }

  lemma FrontOk(m: Csr, batch: seq<nat>, n: nat)
    requires RowsOk(m, batch, n) && batch != []
    ensures var k := |batch| - 1;
            RowsOk(m, batch[..k], n) && batch[k] < n && RowOk(m, batch[k]) && Below(Row(m, batch[k]), n)
  {
    hide Row, RowOk;
  }

  /** The last row of the batch adds its own entries. */
  lemma BatchFlatSnoc(device: seq<int>, m: Csr, batch: seq<nat>, devices: nat)
    requires RowsOk(m, batch, |device|) && batch != []
    ensures var n := |batch| - 1;
            && RowsOk(m, batch[..n], |device|)
            && BatchFlat(device, m, batch, devices)
            == BatchFlat(device, m, batch[..n], devices)
               + KeepPlaced(seq(|Row(m, batch[n])|, _ => n), Select<int>(device, Row(m, batch[n])), devices)
  {
    hide KeepPlaced, Sum, Row, RowOk;
    var n := |batch| - 1;
    var front := batch[..n];
    FrontOk(m, batch, |device|);
    RowsBelow(m, front, |device|);
    OwnersLength(m, front);
    assert LensOf(m, batch)[..n] == LensOf(m, front);
    var a, x := OwnersOf(LensOf(m, front)), Select<int>(device, RowsOf(m, front));
    var b, y := seq(|Row(m, batch[n])|, _ => n), Select<int>(device, Row(m, batch[n]));
    SelectAppend<int>(device, RowsOf(m, front), Row(m, batch[n]));
    assert Select<int>(device, RowsOf(m, batch)) == x + y;
    assert OwnersOf(LensOf(m, batch)) == a + b;
    KeepConcat(a, x, b, y, devices);
  }

  /** A cell of the batch histogram counts the placed neighbours of one vertex on one device. */
  lemma {:induction false} BatchCell(device: seq<int>, m: Csr, batch: seq<nat>, devices: nat, r: nat, d: nat)
    requires RowsOk(m, batch, |device|) && DevicesBelow(device, devices) && d < devices
    ensures Count(BatchFlat(device, m, batch, devices), Cell(r, d, devices))
         == if r < |batch| then Count(Select<int>(device, Row(m, batch[r])), d) else 0
  {
    hide Count, Cell, KeepPlaced, BatchFlat;
    if batch == [] {
      EmptyFlat(device, m, batch, devices);
      CountAbsent([], Cell(r, d, devices));
    } else {
      var n := |batch| - 1;
      BatchFlatSnoc(device, m, batch, devices);
      BatchCell(device, m, batch[..n], devices, r, d);
      var b, y := seq(|Row(m, batch[n])|, _ => n), Select<int>(device, Row(m, batch[n]));
      CountConcat(BatchFlat(device, m, batch[..n], devices), KeepPlaced(b, y, devices), Cell(r, d, devices));
      KeepRow(b, y, devices, n, r, d);
    }
  }

  lemma EmptyFlat(device: seq<int>, m: Csr, batch: seq<nat>, devices: nat)
    requires batch == []
    ensures RowsOk(m, batch, |device|) && BatchFlat(device, m, batch, devices) == []
  {
    assert LensOf(m, batch) == [];
  }

  /** The batch's vote table: one flat histogram, zeros when the batch has no edge. */
  method BatchVotes(device: seq<int>, m: Csr, batch: seq<nat>, devices: nat) returns (table: seq<nat>)
    requires RowsOk(m, batch, |device|) && DevicesBelow(device, devices)
    ensures |table| == TableSize(|batch|, devices)
    ensures forall r, d :: 0 <= r < |batch| && 0 <= d < devices ==>
              TableRow(table, r, |batch|, devices)[d] == Count(Select<int>(device, Row(m, batch[r])), d)
  {
    var starts, lens := StartsOf(m, batch), LensOf(m, batch);
    var idx := ExpandCsr(starts, lens);
    ExpandedRows(m, batch);
    var nb := Taken(m.col, idx);
    assert nb == RowsOf(m, batch);
    RowsBelow(m, batch, |device|);
    OwnersLength(m, batch);
    var flat := KeepPlaced(OwnersOf(lens), Select<int>(device, nb), devices);
    var zeros := seq(TableSize(|batch|, devices), _ => 0);
    table := if |idx| > 0 then AddVotes(zeros, flat) else zeros;
    NothingKept(OwnersOf(lens), Select<int>(device, nb), devices);
    TableAgrees(table, device, m, batch, devices, zeros, flat, |idx| > 0);
  }

  lemma NothingKept(owner: seq<nat>, dev: seq<int>, devices: nat)
    requires |owner| == |dev|
    ensures |owner| == 0 ==> KeepPlaced(owner, dev, devices) == []
  {
  }

  lemma TableAgrees(table: seq<nat>, device: seq<int>, m: Csr, batch: seq<nat>, devices: nat, zeros: seq<nat>,
                    flat: seq<int>, some: bool)
    requires RowsOk(m, batch, |device|) && DevicesBelow(device, devices) && flat == BatchFlat(device, m, batch, devices)
    requires |zeros| == TableSize(|batch|, devices) && forall c :: 0 <= c < |zeros| ==> zeros[c] == 0
    requires table == (if some then AddVotes(zeros, flat) else zeros) && (!some ==> flat == [])
    ensures |table| == TableSize(|batch|, devices)
    ensures forall r, d :: 0 <= r < |batch| && 0 <= d < devices ==>
              TableRow(table, r, |batch|, devices)[d] == Count(Select<int>(device, Row(m, batch[r])), d)
  {
    hide Count, Cell, BatchFlat, TableSize;
    forall r, d | 0 <= r < |batch| && 0 <= d < devices
      ensures TableRow(table, r, |batch|, devices)[d] == Count(Select<int>(device, Row(m, batch[r])), d)
    {
      BatchCell(device, m, batch, devices, r, d);
      TableEntry(table, zeros, flat, r, |batch|, d, devices, some);
    }
  }

  lemma TableEntry(table: seq<nat>, zeros: seq<nat>, flat: seq<int>, r: nat, rows: nat, d: nat, devices: nat,
                   some: bool)
    requires r < rows && d < devices && |zeros| == TableSize(rows, devices)
    requires forall c :: 0 <= c < |zeros| ==> zeros[c] == 0
    requires table == (if some then AddVotes(zeros, flat) else zeros) && (!some ==> flat == [])
    ensures |table| == TableSize(rows, devices)
    ensures TableRow(table, r, rows, devices)[d] == Count(flat, Cell(r, d, devices))
  {
    CellInTable(r, d, rows, devices);
    if !some {
      CountAbsent(flat, Cell(r, d, devices));
    }
  }

  /** `nbr_s[idx]`. */
  function Taken(xs: seq<nat>, idx: seq<int>): (r: seq<nat>)
    requires forall i :: 0 <= i < |idx| ==> 0 <= idx[i] < |xs|
    ensures |r| == |idx| && forall i :: 0 <= i < |r| ==> r[i] == xs[idx[i]]
  {
    seq(|idx|, i requires 0 <= i < |idx| => xs[idx[i]])
  }

  // ---------------------------------------------------------------- scores

  /** The equal capacity target and the weight of the load penalty. */
  datatype Rule = Rule(cap: real, alpha: real)

  /** `clip(1 - load / cap, 0, None)`. */
  function Room(rule: Rule, load: nat): (r: real)
    requires rule.cap > 0.0
    ensures r >= 0.0 && (r > 0.0 <==> load as real < rule.cap)
  {
    LoadRatio(load as real, rule.cap);
    var left := 1.0 - load as real / rule.cap;
    if left > 0.0 then left else 0.0
  }

  lemma LoadRatio(x: real, c: real)
    requires c > 0.0
    ensures x / c < 1.0 <==> x < c
  {
    var q := x / c;
    assert q * c == x;
    if q < 1.0 {
      assert q * c < 1.0 * c;
    } else {
      assert q * c >= 1.0 * c;
    }
  }

  /** Placed neighbours damped by the remaining room, minus the load penalty. */
  function Score(rule: Rule, votes: nat, load: nat): real
    requires rule.cap > 0.0
  {
    votes as real * Room(rule, load) - rule.alpha * (load as real / rule.cap)
  }

  ghost predicate SomeRoom(rule: Rule, load: seq<nat>) {
    exists d :: 0 <= d < |load| && load[d] as real < rule.cap
  }

  /** Device `d` is the first with the best score among those with room, or, when there is no room
      anywhere, the first of the least loaded. */
  ghost predicate Best(rule: Rule, votes: seq<nat>, load: seq<nat>, d: nat)
    requires rule.cap > 0.0 && |votes| == |load|
  {
    d < |load| &&
    if SomeRoom(rule, load) then
      && load[d] as real < rule.cap
      && (forall e :: 0 <= e < |load| && load[e] as real < rule.cap ==>
            Score(rule, votes[e], load[e]) <= Score(rule, votes[d], load[d]))
      && (forall e :: 0 <= e < d && load[e] as real < rule.cap ==>
            Score(rule, votes[e], load[e]) < Score(rule, votes[d], load[d]))
    else
      && (forall e :: 0 <= e < |load| ==> load[d] <= load[e])
      && (forall e :: 0 <= e < d ==> load[d] < load[e])
  }

  /** What a device offers: the placed neighbours times the room left, less the penalty for its
      load, all in vertices. */
  function Offer(rule: Rule, votes: nat, load: nat): real {
    votes as real * (rule.cap - load as real) - rule.alpha * load as real
  }

  /** Among the devices with room, `d` is the first that offers most. */
  ghost predicate OffersMost(rule: Rule, votes: seq<nat>, load: seq<nat>, d: nat)
    requires |votes| == |load|
  {
    && d < |load| && load[d] as real < rule.cap
    && forall e :: 0 <= e < |load| && load[e] as real < rule.cap ==>
         && Offer(rule, votes[e], load[e]) <= Offer(rule, votes[d], load[d])
         && (e < d ==> Offer(rule, votes[e], load[e]) < Offer(rule, votes[d], load[d]))
  }

  lemma ScoreIsOffer(rule: Rule, votes: nat, load: nat)
    requires rule.cap > 0.0 && load as real < rule.cap
    ensures Score(rule, votes, load) * rule.cap == Offer(rule, votes, load)
  {
    var c, q := rule.cap, load as real / rule.cap;
    LoadRatio(load as real, c);
    assert Room(rule, load) == 1.0 - q && q * c == load as real;
    Expand(votes as real, q, rule.alpha, c);
  }

  lemma Expand(v: real, q: real, alpha: real, c: real)
    ensures (v * (1.0 - q) - alpha * q) * c == v * (c - q * c) - alpha * (q * c)
  {
    assert v * (1.0 - q) * c == v * (c - q * c);
    assert alpha * q * c == alpha * (q * c);
  }

  lemma ScaledOrder(a: real, b: real, c: real)
    requires c > 0.0
    ensures a <= b <==> a * c <= b * c
    ensures a < b <==> a * c < b * c
  {
  }

  /** The scored choice trades neighbours against load. */
  lemma BestOffersMost(rule: Rule, votes: seq<nat>, load: seq<nat>, d: nat)
    requires rule.cap > 0.0 && |votes| == |load| && Best(rule, votes, load, d) && SomeRoom(rule, load)
    ensures OffersMost(rule, votes, load, d)
  {
    hide Score, Offer;
    ScoreIsOffer(rule, votes[d], load[d]);
    forall e | 0 <= e < |load| && load[e] as real < rule.cap
      ensures Offer(rule, votes[e], load[e]) <= Offer(rule, votes[d], load[d])
      ensures e < d ==> Offer(rule, votes[e], load[e]) < Offer(rule, votes[d], load[d])
    {
      ScoreIsOffer(rule, votes[e], load[e]);
      ScaledOrder(Score(rule, votes[e], load[e]), Score(rule, votes[d], load[d]), rule.cap);
    }
  }

  /** Between equal loads the placed neighbours decide; without neighbours the lighter load does. */
  lemma NeighboursThenLoad(rule: Rule, votes: seq<nat>, load: seq<nat>, d: nat, e: nat)
    requires |votes| == |load| && OffersMost(rule, votes, load, d)
    requires e < |load| && load[e] as real < rule.cap
    ensures load[e] == load[d] ==> votes[e] <= votes[d]
    ensures votes[e] == votes[d] == 0 && rule.alpha > 0.0 ==> load[d] <= load[e]
  {
    var room := rule.cap - load[d] as real;
    if load[e] == load[d] {
      assert Offer(rule, votes[e], load[e]) <= Offer(rule, votes[d], load[d]);
      ScaledOrder(votes[e] as real, votes[d] as real, room);
    }
    if votes[e] == votes[d] == 0 && rule.alpha > 0.0 {
      assert Offer(rule, 0, load[e]) <= Offer(rule, 0, load[d]);
      ScaledOrder(load[d] as real, load[e] as real, rule.alpha);
    }
  }

  /** `room.max() > 0`. */
  method AnyRoom(rule: Rule, load: seq<nat>) returns (some: bool)
    requires rule.cap > 0.0
    ensures some <==> SomeRoom(rule, load)
  {
    some := false;
    for d := 0 to |load|
      invariant some <==> exists e :: 0 <= e < d && load[e] as real < rule.cap
    {
      if Room(rule, load[d]) > 0.0 {
        some := true;
      }
    }
  }

  /** `argmax` over the devices that score above minus infinity. */
  method BestWithRoom(rule: Rule, votes: seq<nat>, load: seq<nat>) returns (d: nat)
    requires rule.cap > 0.0 && |votes| == |load| && SomeRoom(rule, load)
    ensures Best(rule, votes, load, d)
  {
    hide Score, Room;
    var found := false;
    d := 0;
    for e := 0 to |load|
      invariant found ==> d < e && load[d] as real < rule.cap
      invariant !found ==> d == 0 && forall i :: 0 <= i < e ==> load[i] as real >= rule.cap
      invariant found ==> forall i :: 0 <= i < e && load[i] as real < rule.cap ==>
                  Score(rule, votes[i], load[i]) <= Score(rule, votes[d], load[d])
      invariant found ==> forall i :: 0 <= i < d && load[i] as real < rule.cap ==>
                  Score(rule, votes[i], load[i]) < Score(rule, votes[d], load[d])
    {
      if Room(rule, load[e]) > 0.0 {
        if !found || Score(rule, votes[e], load[e]) > Score(rule, votes[d], load[d]) {
          d, found := e, true;
        }
      }
    }
  }

  /** The device for one row of the vote table. */
  method Place(rule: Rule, votes: seq<nat>, load: seq<nat>) returns (d: nat)
    requires rule.cap > 0.0 && |votes| == |load| && load != []
    ensures Best(rule, votes, load, d)
    ensures (exists e :: 0 <= e < |load| && load[e] as real < rule.cap) ==> OffersMost(rule, votes, load, d)
    ensures d < |load|
    ensures (forall e :: 0 <= e < |load| ==> load[e] as real >= rule.cap) ==>
              forall e :: 0 <= e < |load| ==> load[d] <= load[e] && (e < d ==> load[d] < load[e])
  {
    var some := AnyRoom(rule, load);
    if some {
      d := BestWithRoom(rule, votes, load);
      BestOffersMost(rule, votes, load, d);
    } else {
      var negative := Negated(load);
      d := ArgMax(negative);
      forall e | 0 <= e < |load| ensures load[d] <= load[e] && (e < d ==> load[d] < load[e]) {
        assert negative[e] <= negative[d];
      }
    }
  }

  // ---------------------------------------------------------------- one batch

  /** Every vertex of the batch was waiting and goes to its best device by the assignment before the batch; no other
      vertex changes. */
  ghost predicate BatchStep(before: seq<int>, after: seq<int>, src: seq<nat>, dst: seq<nat>, devices: nat, rule: Rule,
                            batch: seq<nat>)
    requires Graph(src, dst, |before|) && rule.cap > 0.0
  {
    && |after| == |before| && batch != [] && Below(batch, |before|) && Distinct(batch)
    && (forall r :: 0 <= r < |batch| ==> before[batch[r]] == UNPLACED)
    && (forall v :: 0 <= v < |before| && v !in batch ==> after[v] == before[v])
    && forall r :: 0 <= r < |batch| ==>
         && 0 <= after[batch[r]] < devices
         && Best(rule, G.VotesOf(before, src, dst, batch[r], devices), Loads(before, devices), after[batch[r]])
  }

  lemma TableRowVotes(device: seq<int>, src: seq<nat>, dst: seq<nat>, m: Csr, batch: seq<nat>, devices: nat,
                      table: seq<nat>, r: nat)
    requires Graph(src, dst, |device|) && IsCsrOf(m, src + dst, dst + src, |device|) && RowsOk(m, batch, |device|)
    requires r < |batch| && |table| == TableSize(|batch|, devices)
    requires forall r, d :: 0 <= r < |batch| && 0 <= d < devices ==>
               TableRow(table, r, |batch|, devices)[d] == Count(Select<int>(device, Row(m, batch[r])), d)
    ensures TableRow(table, r, |batch|, devices) == G.VotesOf(device, src, dst, batch[r], devices)
  {
    hide Votes, Count, TableSize, Row, RowOk, IsCsrOf, Cell;
    var a, b := TableRow(table, r, |batch|, devices), G.VotesOf(device, src, dst, batch[r], devices);
    forall d | 0 <= d < devices ensures a[d] == b[d] {
      RowVotes(device, src, dst, m, batch[r], d);
    }
  }

  /** Scores a whole batch against the same assignment. */
  method PlaceBatch(device: seq<int>, m: Csr, load: seq<nat>, batch: seq<nat>, devices: nat, rule: Rule,
                    ghost src: seq<nat>, ghost dst: seq<nat>) returns (place: seq<nat>)
    requires Graph(src, dst, |device|) && IsCsrOf(m, src + dst, dst + src, |device|) && RowsOk(m, batch, |device|)
    requires DevicesBelow(device, devices) && devices > 0 && rule.cap > 0.0 && load == Loads(device, devices)
    ensures |place| == |batch| && forall r :: 0 <= r < |batch| ==> place[r] < devices
    ensures forall r :: 0 <= r < |batch| ==>
              Best(rule, G.VotesOf(device, src, dst, batch[r], devices), Loads(device, devices), place[r])
  {
    hide *;
    var table := BatchVotes(device, m, batch, devices);
    place := [];
    for r := 0 to |batch|
      invariant |place| == r && forall i :: 0 <= i < r ==> place[i] < devices
      invariant forall i :: 0 <= i < r ==>
                  Best(rule, G.VotesOf(device, src, dst, batch[i], devices), Loads(device, devices), place[i])
    {
      TableRowVotes(device, src, dst, m, batch, devices, table, r);
      var d := Place(rule, TableRow(table, r, |batch|, devices), load);
      BestBelow(rule, TableRow(table, r, |batch|, devices), load, d);
      place := place + [d];
    }
  }

  lemma BestBelow(rule: Rule, votes: seq<nat>, load: seq<nat>, d: nat)
    requires rule.cap > 0.0 && |votes| == |load| && Best(rule, votes, load, d)
    ensures d < |load|
  {
  }

  /** `assignment[batch] = place`. */
  method Commit(device: seq<int>, batch: seq<nat>, place: seq<nat>) returns (after: seq<int>)
    requires |place| == |batch| && Distinct(batch) && Below(batch, |device|)
    ensures |after| == |device|
    ensures forall r :: 0 <= r < |batch| ==> after[batch[r]] == place[r]
    ensures forall v :: 0 <= v < |device| && v !in batch ==> after[v] == device[v]
  {
    after := device;
    for r := 0 to |batch|
      invariant |after| == |device|
      invariant forall i :: 0 <= i < r ==> after[batch[i]] == place[i]
      invariant forall v :: 0 <= v < |device| && v !in batch[..r] ==> after[v] == device[v]
    {
      assert batch[..r + 1] == batch[..r] + [batch[r]];
      after := after[batch[r] := place[r]];
    }
    assert batch[..|batch|] == batch;
  }

  /** Committing a batch of unplaced vertices adds its histogram to the loads. */
  lemma {:induction false} CommitLoads(before: seq<int>, after: seq<int>, batch: seq<nat>, place: seq<nat>, d: int)
    requires |after| == |before| && |place| == |batch| && Distinct(batch) && Below(batch, |before|) && d >= 0
    requires forall r :: 0 <= r < |batch| ==> before[batch[r]] == UNPLACED && after[batch[r]] == place[r]
    requires forall v :: 0 <= v < |before| && v !in batch ==> after[v] == before[v]
    ensures Count(after, d) == Count(before, d) + Count(place, d)
    decreases |batch|
  {
    hide *;
    BelowAt(batch, |before|);
    if batch == [] {
      assert after == before;
      CountAbsent(place, d);
    } else {
      var n := |batch| - 1;
      var mid: seq<int> := after[batch[n] := UNPLACED];
      CommitMid(before, after, mid, batch, place);
      CommitLoads(before, mid, batch[..n], place[..n], d);
      CountUpdate(mid, batch[n], after[batch[n]], d);
      assert place == place[..n] + [place[n]];
      CountSnoc(place[..n], place[n], d);
    }
  }

  /** Taking back the last vertex of the batch leaves the smaller commit. */
  lemma CommitMid(before: seq<int>, after: seq<int>, mid: seq<int>, batch: seq<nat>, place: seq<nat>)
    requires |after| == |before| && |place| == |batch| && Distinct(batch) && Below(batch, |before|) && batch != []
    requires forall r :: 0 <= r < |batch| ==> before[batch[r]] == UNPLACED && after[batch[r]] == place[r]
    requires forall v :: 0 <= v < |before| && v !in batch ==> after[v] == before[v]
    requires mid == after[batch[|batch| - 1] := UNPLACED]
    ensures var n := |batch| - 1;
            && Distinct(batch[..n]) && Below(batch[..n], |before|)
            && (forall r :: 0 <= r < n ==> mid[batch[r]] == place[r])
            && (forall v :: 0 <= v < |before| && v !in batch[..n] ==> mid[v] == before[v])
            && mid[batch[n]] < 0 && mid[batch[n] := after[batch[n]]] == after
  {
    var n := |batch| - 1;
    assert batch == batch[..n] + [batch[n]];
  }

  // ---------------------------------------------------------------- the stream of batches

  lemma CsrRows(m: Csr, src: seq<nat>, dst: seq<nat>, batch: seq<nat>, n: nat)
    requires Graph(src, dst, n) && IsCsrOf(m, src + dst, dst + src, n) && Below(batch, n)
    ensures RowsOk(m, batch, n)
  {
    forall r | 0 <= r < |batch| ensures batch[r] < n && RowOk(m, batch[r]) && Below(Row(m, batch[r]), n) {
      assert Row(m, batch[r]) == Select<nat>(dst + src, Indices(src + dst, batch[r]));
    }
  }

  /** `load += bincount(place, minlength=D)`. */
  function AddLoads(load: seq<nat>, place: seq<nat>): (r: seq<nat>)
    ensures |r| == |load| && forall d :: 0 <= d < |r| ==> r[d] == load[d] + Count(place, d)
  {
    seq(|load|, d requires 0 <= d < |load| => load[d] + Count(place, d))
  }

  /** What holds between two batches: everything streamed so far is placed, the rest waits. */
  ghost predicate Midway(start: seq<int>, device: seq<int>, stream: seq<nat>, b: nat, devices: nat) {
    && |device| == |start| && b <= |stream| && Below(stream, |start|)
    && (forall v :: 0 <= v < |start| && v !in stream ==> device[v] == start[v])
    && (forall i :: 0 <= i < b ==> 0 <= device[stream[i]] < devices)
    && (forall i :: b <= i < |stream| ==> device[stream[i]] == UNPLACED)
    && DevicesBelow(device, devices)
  }

  lemma MidwayStart(start: seq<int>, stream: seq<nat>, devices: nat)
    requires Below(stream, |start|) && DevicesBelow(start, devices)
    requires forall v :: 0 <= v < |start| ==> start[v] >= UNPLACED
    requires forall v :: v in stream <==> 0 <= v < |start| && start[v] < 0
    ensures Midway(start, start, stream, 0, devices)
  {
    forall i | 0 <= i < |stream| ensures start[stream[i]] == UNPLACED {
      assert stream[i] in stream;
    }
  }

  lemma MidwayStep(start: seq<int>, before: seq<int>, after: seq<int>, stream: seq<nat>, b: nat, hi: nat, devices: nat,
                   place: seq<nat>)
    requires Midway(start, before, stream, b, devices) && b <= hi <= |stream| && Distinct(stream)
    requires |after| == |before| && |place| == hi - b && forall r :: 0 <= r < |place| ==> place[r] < devices
    requires forall r :: 0 <= r < hi - b ==> after[stream[b..hi][r]] == place[r]
    requires forall v :: 0 <= v < |before| && v !in stream[b..hi] ==> after[v] == before[v]
    ensures Midway(start, after, stream, hi, devices)
  {
    var batch := stream[b..hi];
    forall i | b <= i < hi ensures 0 <= after[stream[i]] < devices {
      assert batch[i - b] == stream[i];
    }
    forall i | 0 <= i < |stream| && !(b <= i < hi) ensures after[stream[i]] == before[stream[i]] {
    }
    forall v | 0 <= v < |before| && v !in stream ensures after[v] == start[v] {
      assert v !in batch;
    }
    forall v | 0 <= v < |after| ensures after[v] < devices {
      if v in batch {
        var r :| 0 <= r < |batch| && batch[r] == v;
      }
    }
  }

  lemma BatchOk(start: seq<int>, device: seq<int>, stream: seq<nat>, b: nat, hi: nat, devices: nat)
    requires Midway(start, device, stream, b, devices) && b <= hi <= |stream| && Distinct(stream)
    ensures Distinct(stream[b..hi]) && Below(stream[b..hi], |device|)
    ensures forall r :: 0 <= r < hi - b ==> device[stream[b..hi][r]] == UNPLACED
    ensures DevicesBelow(device, devices) && |device| == |start|
  {
  }

  lemma LoadsAfter(before: seq<int>, after: seq<int>, batch: seq<nat>, place: seq<nat>, load: seq<nat>, devices: nat)
    requires |after| == |before| && |place| == |batch| && Distinct(batch) && Below(batch, |before|)
    requires forall r :: 0 <= r < |batch| ==> before[batch[r]] == UNPLACED && after[batch[r]] == place[r]
    requires forall v :: 0 <= v < |before| && v !in batch ==> after[v] == before[v]
    requires load == Loads(before, devices)
    ensures AddLoads(load, place) == Loads(after, devices)
  {
    hide Count;
    forall d | 0 <= d < devices ensures AddLoads(load, place)[d] == Loads(after, devices)[d] {
      CommitLoads(before, after, batch, place, d);
    }
  }

  lemma StepMade(before: seq<int>, after: seq<int>, src: seq<nat>, dst: seq<nat>, devices: nat, rule: Rule,
                 batch: seq<nat>, place: seq<nat>)
    requires Graph(src, dst, |before|) && rule.cap > 0.0 && |after| == |before| && |place| == |batch|
    requires batch != [] && Below(batch, |before|) && Distinct(batch)
    requires forall r :: 0 <= r < |batch| ==> before[batch[r]] == UNPLACED
    requires forall r :: 0 <= r < |batch| ==> place[r] < devices && after[batch[r]] == place[r]
    requires forall v :: 0 <= v < |before| && v !in batch ==> after[v] == before[v]
    requires forall r :: 0 <= r < |batch| ==>
               Best(rule, G.VotesOf(before, src, dst, batch[r], devices), Loads(before, devices), place[r])
    ensures BatchStep(before, after, src, dst, devices, rule, batch)
  {
    hide Best;
  }

  /** The batches make up the stream and each follows the rule. */
  ghost predicate Online(trace: seq<seq<int>>, batches: seq<seq<nat>>, n: nat, src: seq<nat>, dst: seq<nat>,
                         devices: nat, rule: Rule)
    requires Graph(src, dst, n) && rule.cap > 0.0
  {
    && |trace| == |batches| + 1
    && (forall k :: 0 <= k < |trace| ==> |trace[k]| == n)
    && forall k :: 0 <= k < |batches| ==> BatchStep(trace[k], trace[k + 1], src, dst, devices, rule, batches[k])
  }

  lemma OnlineSnoc(trace: seq<seq<int>>, batches: seq<seq<nat>>, after: seq<int>, batch: seq<nat>, n: nat,
                   src: seq<nat>, dst: seq<nat>, devices: nat, rule: Rule)
    requires Graph(src, dst, n) && rule.cap > 0.0 && Online(trace, batches, n, src, dst, devices, rule)
    requires BatchStep(trace[|batches|], after, src, dst, devices, rule, batch)
    ensures Online(trace + [after], batches + [batch], n, src, dst, devices, rule)
  {
    hide Best;
    var t, bs := trace + [after], batches + [batch];
    forall k | 0 <= k < |bs| ensures BatchStep(t[k], t[k + 1], src, dst, devices, rule, bs[k]) {
      if k < |batches| {
        assert BatchStep(trace[k], trace[k + 1], src, dst, devices, rule, batches[k]);
      }
    }
  }

  /** Every vertex of the batch went to the device that offered most before the batch, if any had
      room. */
  ghost predicate OfferedMost(before: seq<int>, after: seq<int>, src: seq<nat>, dst: seq<nat>, devices: nat, rule: Rule,
                              batch: seq<nat>)
    requires Graph(src, dst, |before|)
  {
    |after| == |before| && SomeRoom(rule, Loads(before, devices)) ==> forall r :: 0 <= r < |batch| ==>
      && batch[r] < |before| && 0 <= after[batch[r]] < devices
      && OffersMost(rule, G.VotesOf(before, src, dst, batch[r], devices), Loads(before, devices), after[batch[r]])
  }

  lemma StepOffers(before: seq<int>, after: seq<int>, src: seq<nat>, dst: seq<nat>, devices: nat, rule: Rule,
                   batch: seq<nat>)
    requires Graph(src, dst, |before|) && rule.cap > 0.0 && BatchStep(before, after, src, dst, devices, rule, batch)
    ensures OfferedMost(before, after, src, dst, devices, rule, batch)
  {
    hide Best, OffersMost, SomeRoom, Loads;
    if SomeRoom(rule, Loads(before, devices)) {
      forall r | 0 <= r < |batch|
        ensures OffersMost(rule, G.VotesOf(before, src, dst, batch[r], devices), Loads(before, devices),
                           after[batch[r]])
      {
        BestOffersMost(rule, G.VotesOf(before, src, dst, batch[r], devices), Loads(before, devices), after[batch[r]]);
      }
    }
  }

  /** Over the whole run. */
  lemma OnlineOffers(trace: seq<seq<int>>, batches: seq<seq<nat>>, n: nat, src: seq<nat>, dst: seq<nat>,
                     devices: nat, rule: Rule)
    requires Graph(src, dst, n) && rule.cap > 0.0 && Online(trace, batches, n, src, dst, devices, rule)
    ensures |trace| == |batches| + 1 && forall k :: 0 <= k < |trace| ==> |trace[k]| == n
    ensures forall k :: 0 <= k < |batches| ==> OfferedMost(trace[k], trace[k + 1], src, dst, devices, rule, batches[k])
  {
    hide BatchStep, OfferedMost;
    forall k | 0 <= k < |batches| ensures OfferedMost(trace[k], trace[k + 1], src, dst, devices, rule, batches[k]) {
      StepOffers(trace[k], trace[k + 1], src, dst, devices, rule, batches[k]);
    }
  }

  /** One batch on the running state. */
  method StreamBatch(start: seq<int>, device: seq<int>, load: seq<nat>, stream: seq<nat>, b: nat, hi: nat, m: Csr,
                     devices: nat, rule: Rule, ghost src: seq<nat>, ghost dst: seq<nat>)
    returns (after: seq<int>, loadAfter: seq<nat>)
    requires Graph(src, dst, |device|) && IsCsrOf(m, src + dst, dst + src, |device|)
    requires devices > 0 && rule.cap > 0.0 && load == Loads(device, devices) && Distinct(stream)
    requires b < hi <= |stream| && Midway(start, device, stream, b, devices)
    ensures |after| == |device| && Midway(start, after, stream, hi, devices)
    ensures loadAfter == Loads(after, devices)
    ensures BatchStep(device, after, src, dst, devices, rule, stream[b..hi])
  {
    hide *;
    BatchOk(start, device, stream, b, hi, devices);
    var batch := stream[b..hi];
    CsrRows(m, src, dst, batch, |device|);
    var place := PlaceBatch(device, m, load, batch, devices, rule, src, dst);
    after := Commit(device, batch, place);
    loadAfter := AddLoads(load, place);
    LoadsAfter(device, after, batch, place, load, devices);
    MidwayStep(start, device, after, stream, b, hi, devices, place);
    StepMade(device, after, src, dst, devices, rule, batch, place);
  }

  /** At most 64 batches of about 256 vertices or more. */
  function BatchSize(n: nat): (size: nat)
    requires n > 0
    ensures size > 0 && (n < 512 ==> size == n)
    ensures 512 <= n < 16384 ==> n / 256 * (size - 1) < n <= n / 256 * size
    ensures n >= 16384 ==> 64 * (size - 1) < n <= 64 * size
  {
    var wanted := n / 256;
    var count := if wanted < 1 then 1 else if wanted > 64 then 64 else wanted;
    assert n + count - 1 >= count;
    RoundUp(n, count);
    (n + count - 1) / count
  }

  lemma RoundUp(n: nat, count: nat)
    requires n > 0 && count > 0
    ensures var size := (n + count - 1) / count; count * (size - 1) < n <= count * size
  {
    var size := (n + count - 1) / count;
    assert n + count - 1 == count * size + (n + count - 1) % count;
    assert count * (size - 1) == count * size - count;
  }

  /** The online partitioner: old vertices keep their device, arriving ones are streamed. */
  method PartitionOnline(src: seq<nat>, dst: seq<nat>, n: nat, devices: nat, prior: seq<int>, alpha: real, slack: real)
    returns (after: seq<int>, stream: seq<nat>, ghost trace: seq<seq<int>>, ghost batches: seq<seq<nat>>,
             ghost rule: Rule)
    requires Graph(src, dst, n) && devices > 0 && Labels(prior, devices) && slack > 0.0
    ensures rule.cap > 0.0 && (n > 0 ==> rule == Rule(EqualTarget(slack, n, devices), alpha))
    ensures Online(trace, batches, n, src, dst, devices, rule)
    ensures trace[0] == Reused(prior, n) && trace[|batches|] == after && Concat<nat>(batches) == stream
    ensures Distinct(stream) && forall v :: v in stream <==> |prior| <= v < n
    ensures FirstSeen(NewOnly(EndsOf(src, dst, n), Reused(prior, n))) <= stream && ArrivalOrder(stream, src, dst)
    ensures |after| == n && Labels(after, devices)
    ensures forall v :: 0 <= v < |prior| && v < n ==> after[v] == prior[v]
    ensures forall k :: 0 <= k < |batches| ==> stream != [] && |batches[k]| <= BatchSize(|stream|)
    ensures forall k :: 0 <= k < |batches| ==> OfferedMost(trace[k], trace[k + 1], src, dst, devices, rule, batches[k])
    ensures slack >= 1.0 ==> forall k :: 0 <= k < |batches| ==> SomeRoom(rule, Loads(trace[k], devices))
    ensures slack >= 1.0 && stream != [] ==>
      forall d :: 0 <= d < devices ==> BatchOver(Reused(prior, n), after, rule, BatchSize(|stream|), d)
  {
    hide Online, ArrivalOrder, OfferedMost, BatchOver, SomeRoom, Best, BatchStep, Loads, IsCsrOf, Count, Votes;
    hide FirstSeen, NewOnly, EndsOf, Reused;
    var start := Reused(prior, n);
    StartOk(prior, n, devices);
    stream := Arrivals(src, dst, start);
    batches := [];
    trace := [start];
    after := start;
    if stream == [] {
      rule := Rule(if n > 0 then EqualTarget(slack, n, devices) else 1.0, alpha);
      CapPositive(slack, n, devices);
      NothingOnline(trace, n, src, dst, devices, rule);
      OnlineOffers(trace, batches, n, src, dst, devices, rule);
      AllStay(start, after, stream, prior, n, devices);
      return;
    }
    assert stream[0] in stream;
    CapPositive(slack, n, devices);
    var target := Rule(EqualTarget(slack, n, devices), alpha);
    rule := target;
    NothingOnline(trace, n, src, dst, devices, rule);
    MidwayStart(start, stream, devices);
    var m := BuildTwoWay(src, dst, n);
    after, trace, batches := StreamAll(start, stream, m, devices, target, src, dst);
    Finished(start, after, stream, prior, n, devices);
    OnlineOffers(trace, batches, n, src, dst, devices, rule);
    if slack >= 1.0 {
      StartPlaced(prior, n, devices);
      NeverFull(trace, batches, n, src, dst, devices, slack, alpha);
      BatchesOver(trace, batches, n, src, dst, devices, rule, BatchSize(|stream|));
    }
  }

  method BuildTwoWay(src: seq<nat>, dst: seq<nat>, n: nat) returns (m: Csr)
    requires Graph(src, dst, n)
    ensures IsCsrOf(m, src + dst, dst + src, n)
  {
    assert Below(src + dst, n);
    m := BuildCsr(src + dst, dst + src, n);
  }

  /** All batches in turn. */
  method StreamAll(start: seq<int>, stream: seq<nat>, m: Csr, devices: nat, rule: Rule, ghost src: seq<nat>,
                   ghost dst: seq<nat>)
    returns (after: seq<int>, ghost trace: seq<seq<int>>, ghost batches: seq<seq<nat>>)
    requires Graph(src, dst, |start|) && IsCsrOf(m, src + dst, dst + src, |start|)
    requires devices > 0 && rule.cap > 0.0 && stream != [] && Distinct(stream)
    requires Midway(start, start, stream, 0, devices)
    ensures Online(trace, batches, |start|, src, dst, devices, rule)
    ensures |trace| == |batches| + 1 && trace[0] == start && trace[|batches|] == after && Concat<nat>(batches) == stream
    ensures |after| == |start| && Midway(start, after, stream, |stream|, devices)
    ensures forall k :: 0 <= k < |batches| ==> |batches[k]| <= BatchSize(|stream|)
  {
    hide *;
    var size := BatchSize(|stream|);
    var load := Loads(start, devices);
    after, trace, batches := start, [start], [];
    NothingOnline(trace, |start|, src, dst, devices, rule);
    NoBatches();
    var b := 0;
    while b < |stream|
      invariant b <= |stream| && |after| == |start| && Midway(start, after, stream, b, devices)
      invariant load == Loads(after, devices)
      invariant Online(trace, batches, |start|, src, dst, devices, rule)
      invariant |trace| == |batches| + 1 && trace[0] == start && trace[|batches|] == after
      invariant Concat<nat>(batches) == stream[..b]
      invariant forall k :: 0 <= k < |batches| ==> |batches[k]| <= size
    {
      var hi := if b + size <= |stream| then b + size else |stream|;
      ghost var batch := stream[b..hi];
      after, load := StreamBatch(start, after, load, stream, b, hi, m, devices, rule, src, dst);
      OnlineSnoc(trace, batches, after, batch, |start|, src, dst, devices, rule);
      ConcatSnoc<nat>(batches, batch);
      assert stream[..hi] == stream[..b] + batch;
      trace, batches := trace + [after], batches + [batch];
      b := hi;
    }
    assert stream[..|stream|] == stream;
  }

  lemma NoBatches()
    ensures Concat<nat>([]) == []
  {
  }

  lemma NothingOnline(trace: seq<seq<int>>, n: nat, src: seq<nat>, dst: seq<nat>, devices: nat, rule: Rule)
    requires Graph(src, dst, n) && rule.cap > 0.0 && |trace| == 1 && |trace[0]| == n
    ensures Online(trace, [], n, src, dst, devices, rule) && Concat<nat>([]) == []
  {
  }

  lemma CapPositive(slack: real, n: nat, devices: nat)
    requires slack > 0.0 && devices > 0
    ensures n > 0 ==> EqualTarget(slack, n, devices) > 0.0
  {
    if n > 0 {
      assert slack * n as real > 0.0;
    }
  }

  lemma StartOk(prior: seq<int>, n: nat, devices: nat)
    requires Labels(prior, devices)
    ensures DevicesBelow(Reused(prior, n), devices)
    ensures forall v :: 0 <= v < n ==> Reused(prior, n)[v] >= UNPLACED && (Reused(prior, n)[v] < 0 <==> v >= |prior|)
    ensures forall v :: 0 <= v < n && v < |prior| ==> Reused(prior, n)[v] == prior[v]
  {
  }

  lemma AllStay(start: seq<int>, after: seq<int>, stream: seq<nat>, prior: seq<int>, n: nat, devices: nat)
    requires |start| == n && after == start && stream == [] && Labels(prior, devices)
    requires forall v :: v in stream <==> 0 <= v < |start| && start[v] < 0
    requires DevicesBelow(start, devices)
    ensures Labels(after, devices)
  {
    forall v | 0 <= v < n ensures start[v] >= 0 {
      assert v !in stream;
    }
  }

  lemma Finished(start: seq<int>, after: seq<int>, stream: seq<nat>, prior: seq<int>, n: nat, devices: nat)
    requires |start| == n && Midway(start, after, stream, |stream|, devices)
    requires forall v :: v in stream <==> 0 <= v < |start| && start[v] < 0
    requires forall v :: 0 <= v < n ==> (start[v] < 0 <==> v >= |prior|)
    requires forall v :: 0 <= v < n && v < |prior| ==> start[v] == prior[v]
    ensures |after| == n && Labels(after, devices)
    ensures forall v :: 0 <= v < |prior| && v < n ==> after[v] == prior[v]
  {
    forall v | 0 <= v < n ensures 0 <= after[v] < devices {
      if v in stream {
        var i :| 0 <= i < |stream| && stream[i] == v;
      }
    }
  }

  // ---------------------------------------------------------------- balance

  lemma {:induction false} SumAtLeastReal(xs: seq<int>, c: real)
    requires forall i :: 0 <= i < |xs| ==> xs[i] as real >= c
    ensures Sum(xs) as real >= c * |xs| as real
  {
    if xs != [] {
      SumAtLeastReal(xs[..|xs| - 1], c);
    }
  }

  /** The equal target of every device. */
  function EqualTarget(slack: real, n: nat, devices: nat): (r: real)
    requires devices > 0
    ensures r * devices as real == slack * n as real
  {
    slack * n as real / devices as real
  }

  /** Targets with slack at least one hold all the vertices. */
  lemma TargetsCover(slack: real, n: nat, devices: nat, total: int)
    requires devices > 0 && slack >= 1.0 && total as real >= EqualTarget(slack, n, devices) * devices as real
    ensures total >= n
  {
    assert EqualTarget(slack, n, devices) * devices as real == slack * n as real;
    assert (slack - 1.0) * n as real >= 0.0;
  }

  lemma AllAtTarget(device: seq<int>, devices: nat, cap: real)
    requires G.PartlyPlaced(device, devices)
    requires forall d :: 0 <= d < devices ==> Count(device, d) as real >= cap
    ensures (|device| - Count(device, UNPLACED)) as real >= cap * devices as real
  {
    hide Count, Sum;
    G.PlacedTotal(device, devices);
    SumAtLeastReal(Histogram(device, devices), cap);
  }

  /** With slack at least one, a device has room as long as a vertex waits: vertices never overflow
      onto the least-loaded device. */
  lemma RoomWhileWaiting(device: seq<int>, devices: nat, slack: real, alpha: real)
    requires devices > 0 && slack >= 1.0 && G.PartlyPlaced(device, devices) && Count(device, UNPLACED) > 0
    ensures SomeRoom(Rule(EqualTarget(slack, |device|, devices), alpha), Loads(device, devices))
  {
    var cap := EqualTarget(slack, |device|, devices);
    hide Count, EqualTarget;
    if forall d :: 0 <= d < devices ==> Count(device, d) as real >= cap {
      AllAtTarget(device, devices, cap);
      TargetsCover(slack, |device|, devices, |device| - Count(device, UNPLACED));
      assert false;
    }
    var d :| 0 <= d < devices && (Count(device, d) as real < cap);
    assert Loads(device, devices)[d] as real < cap;
  }

  lemma {:induction false} CountAtMost(place: seq<int>, d: int)
    ensures Count(place, d) <= |place|
  {
    if place != [] {
      CountAtMost(place[..|place| - 1], d);
    }
  }

  /** A batch that finds room leaves every device it touches less than the batch above its target. */
  lemma BatchLoad(before: seq<int>, after: seq<int>, src: seq<nat>, dst: seq<nat>, devices: nat, rule: Rule,
                  batch: seq<nat>, d: nat)
    requires Graph(src, dst, |before|) && rule.cap > 0.0 && BatchStep(before, after, src, dst, devices, rule, batch)
    requires SomeRoom(rule, Loads(before, devices)) && d < devices
    ensures Count(after, d) == Count(before, d) || (Count(after, d) as real) < rule.cap + |batch| as real
  {
    var place := PlacesOf(before, after, src, dst, devices, rule, batch);
    hide *;
    CommitLoads(before, after, batch, place, d);
    CountAtMost(place, d);
    if d in place {
      var r :| 0 <= r < |place| && place[r] == d;
      BestHasRoom(rule, G.VotesOf(before, src, dst, batch[r], devices), Loads(before, devices), d);
    } else {
      CountAbsent(place, d);
    }
  }

  // ---------------------------------------------------------------- balance over the run

  lemma StartPlaced(prior: seq<int>, n: nat, devices: nat)
    requires Labels(prior, devices)
    ensures G.PartlyPlaced(Reused(prior, n), devices)
  {
  }

  lemma StepPlaced(before: seq<int>, after: seq<int>, src: seq<nat>, dst: seq<nat>, devices: nat, rule: Rule,
                   batch: seq<nat>)
    requires Graph(src, dst, |before|) && rule.cap > 0.0 && BatchStep(before, after, src, dst, devices, rule, batch)
    requires G.PartlyPlaced(before, devices)
    ensures |after| == |before| && G.PartlyPlaced(after, devices) && Count(before, UNPLACED) > 0
  {
    hide Best, Count;
    CountPositive(before, batch[0]);
    forall v | 0 <= v < |after| ensures UNPLACED <= after[v] < devices {
      if v in batch {
        var r :| 0 <= r < |batch| && batch[r] == v;
      }
    }
  }

  lemma {:induction false} StillPartlyPlaced(trace: seq<seq<int>>, batches: seq<seq<nat>>, n: nat, src: seq<nat>,
                                             dst: seq<nat>, devices: nat, rule: Rule, k: nat)
    requires Graph(src, dst, n) && rule.cap > 0.0 && Online(trace, batches, n, src, dst, devices, rule)
    requires k <= |batches| && G.PartlyPlaced(trace[0], devices)
    ensures G.PartlyPlaced(trace[k], devices)
  {
    if k > 0 {
      StillPartlyPlaced(trace, batches, n, src, dst, devices, rule, k - 1);
      hide Best, G.PartlyPlaced;
      StepPlaced(trace[k - 1], trace[k], src, dst, devices, rule, batches[k - 1]);
    }
  }

  /** With slack at least one the whole run never meets a batch with every device full. */
  lemma NeverFull(trace: seq<seq<int>>, batches: seq<seq<nat>>, n: nat, src: seq<nat>, dst: seq<nat>,
                  devices: nat, slack: real, alpha: real)
    requires devices > 0 && slack >= 1.0 && EqualTarget(slack, n, devices) > 0.0 && Graph(src, dst, n)
    requires Online(trace, batches, n, src, dst, devices, Rule(EqualTarget(slack, n, devices), alpha))
    requires G.PartlyPlaced(trace[0], devices)
    ensures forall k :: 0 <= k < |batches| ==>
              SomeRoom(Rule(EqualTarget(slack, n, devices), alpha), Loads(trace[k], devices))
  {
    var rule := Rule(EqualTarget(slack, n, devices), alpha);
    forall k | 0 <= k < |batches| ensures SomeRoom(rule, Loads(trace[k], devices)) {
      StillPartlyPlaced(trace, batches, n, src, dst, devices, rule, k);
      hide Best, EqualTarget, Count, G.PartlyPlaced, SomeRoom;
      assert BatchStep(trace[k], trace[k + 1], src, dst, devices, rule, batches[k]);
      StepPlaced(trace[k], trace[k + 1], src, dst, devices, rule, batches[k]);
      RoomWhileWaiting(trace[k], devices, slack, alpha);
    }
  }

  /** The device has what it had, or less than one batch more than its target. */
  ghost predicate BatchOver(before: seq<int>, after: seq<int>, rule: Rule, size: nat, d: nat) {
    Count(after, d) == Count(before, d) || (Count(after, d) as real) < rule.cap + size as real
  }

  lemma {:induction false} BatchOverAt(trace: seq<seq<int>>, batches: seq<seq<nat>>, n: nat, src: seq<nat>,
                                       dst: seq<nat>, devices: nat, rule: Rule, size: nat, k: nat, d: nat)
    requires Graph(src, dst, n) && rule.cap > 0.0 && Online(trace, batches, n, src, dst, devices, rule)
    requires forall i :: 0 <= i < |batches| ==> SomeRoom(rule, Loads(trace[i], devices)) && |batches[i]| <= size
    requires k <= |batches| && d < devices
    ensures BatchOver(trace[0], trace[k], rule, size, d)
  {
    hide Best, Count, SomeRoom;
    if k > 0 {
      BatchOverAt(trace, batches, n, src, dst, devices, rule, size, k - 1, d);
      hide BatchStep;
      assert BatchStep(trace[k - 1], trace[k], src, dst, devices, rule, batches[k - 1]);
      BatchLoad(trace[k - 1], trace[k], src, dst, devices, rule, batches[k - 1], d);
    }
  }

  /** Over the whole run a device only exceeds its target by less than one batch. */
  lemma BatchesOver(trace: seq<seq<int>>, batches: seq<seq<nat>>, n: nat, src: seq<nat>, dst: seq<nat>,
                    devices: nat, rule: Rule, size: nat)
    requires Graph(src, dst, n) && rule.cap > 0.0 && Online(trace, batches, n, src, dst, devices, rule)
    requires forall i :: 0 <= i < |batches| ==> SomeRoom(rule, Loads(trace[i], devices)) && |batches[i]| <= size
    ensures forall d :: 0 <= d < devices ==> BatchOver(trace[0], trace[|batches|], rule, size, d)
  {
    hide *;
    OnlineSize(trace, batches, n, src, dst, devices, rule);
    forall d | 0 <= d < devices ensures BatchOver(trace[0], trace[|batches|], rule, size, d) {
      BatchOverAt(trace, batches, n, src, dst, devices, rule, size, |batches|, d);
    }
  }

  lemma OnlineSize(trace: seq<seq<int>>, batches: seq<seq<nat>>, n: nat, src: seq<nat>, dst: seq<nat>, devices: nat,
                   rule: Rule)
    requires Graph(src, dst, n) && rule.cap > 0.0 && Online(trace, batches, n, src, dst, devices, rule)
    ensures |trace| == |batches| + 1
  {
  }

  /** Where a batch step put its vertices. */
  lemma PlacesOf(before: seq<int>, after: seq<int>, src: seq<nat>, dst: seq<nat>, devices: nat, rule: Rule,
                 batch: seq<nat>)
    returns (place: seq<nat>)
    requires Graph(src, dst, |before|) && rule.cap > 0.0 && BatchStep(before, after, src, dst, devices, rule, batch)
    ensures |after| == |before| && Below(batch, |before|) && |place| == |batch|
    ensures forall r :: 0 <= r < |batch| ==> batch[r] < |before| && after[batch[r]] == place[r]
    ensures forall r :: 0 <= r < |batch| ==>
              Best(rule, G.VotesOf(before, src, dst, batch[r], devices), Loads(before, devices), place[r])
    ensures forall v :: 0 <= v < |before| && v !in batch ==> after[v] == before[v]
  {
    hide Best;
    place := seq(|batch|, r requires 0 <= r < |batch| => after[batch[r]]);
  }

  lemma BestHasRoom(rule: Rule, votes: seq<nat>, load: seq<nat>, d: nat)
    requires rule.cap > 0.0 && |votes| == |load| && Best(rule, votes, load, d) && SomeRoom(rule, load)
    ensures d < |load| && load[d] as real < rule.cap
  {
  }
}
