/** The SPMD boundary exchange: a count handshake, an id handshake, then one variable-size
    all-to-all per step that refreshes every rank's halo rows. All ranks run the same code,
    so each collective is modelled as one operation on the buffers of all ranks. */
module BoundaryExchange {
  import opened Arrays
  import opened HaloExecution

  // ---------------------------------------------------------------- the collective

  /** Piece `k` of a buffer cut into consecutive pieces of the given sizes. */
  function Piece<T>(buf: seq<T>, sizes: seq<nat>, k: nat): seq<T>
    requires k < |sizes| && Sum(sizes) == |buf|
  {
    PieceFits(sizes, k);
    buf[Sum(sizes[..k])..Sum(sizes[..k + 1])]
  }

  lemma {:induction false} PieceFits(sizes: seq<nat>, k: nat)
    requires k < |sizes|
    ensures 0 <= Sum(sizes[..k]) <= Sum(sizes[..k + 1]) <= Sum(sizes)
    ensures Sum(sizes[..k + 1]) == Sum(sizes[..k]) + sizes[k]
  {
    assert sizes[..k + 1][..k] == sizes[..k];
    SumNat(sizes[..k]);
    assert sizes == sizes[..k + 1] + sizes[k + 1..];
    SumConcat(sizes[..k + 1], sizes[k + 1..]);
    SumNat(sizes[k + 1..]);
  }

  lemma {:induction false} SumNat(xs: seq<nat>)
    ensures Sum(xs) >= 0
  {
    if xs != [] {
      SumNat(xs[..|xs| - 1]);
    }
  }

  /** `all_to_all_single` is well posed: every buffer is exactly split, and what `j` sends to `i`
      is what `i` expects from `j`. A mismatch would hang or corrupt the collective. */
  ghost predicate WellPosed<T>(send: seq<seq<T>>, inSplit: seq<seq<nat>>, outSplit: seq<seq<nat>>) {
    && |send| == |inSplit| == |outSplit|
    && (forall j :: 0 <= j < |send| ==> |inSplit[j]| == |outSplit[j]| == |send|)
    && (forall j :: 0 <= j < |send| ==> Sum(inSplit[j]) == |send[j]|)
    && (forall i, j :: 0 <= i < |send| && 0 <= j < |send| ==> inSplit[j][i] == outSplit[i][j])
  }

  /** Rank `i` receives piece `i` of every rank's buffer, in rank order. */
  function Received<T>(send: seq<seq<T>>, inSplit: seq<seq<nat>>, i: nat): seq<T>
    requires |send| == |inSplit|
    requires forall j :: 0 <= j < |send| ==> i < |inSplit[j]| && Sum(inSplit[j]) == |send[j]|
  {
    if send == [] then []
    else
      var n := |send| - 1;
      Received(send[..n], inSplit[..n], i) + Piece(send[n], inSplit[n], i)
  }

  method AllToAll<T>(send: seq<seq<T>>, inSplit: seq<seq<nat>>, outSplit: seq<seq<nat>>) returns (recv: seq<seq<T>>)
    requires WellPosed(send, inSplit, outSplit)
    ensures |recv| == |send|
    ensures forall i :: 0 <= i < |send| ==> recv[i] == Received(send, inSplit, i)
  {
    recv := [];
    for i := 0 to |send|
      invariant |recv| == i
      invariant forall k :: 0 <= k < i ==> recv[k] == Received(send, inSplit, k)
    {
      recv := recv + [Received(send, inSplit, i)];
    }
  }

  /** `blocks[j][i]` is what rank `j` has for rank `i`. */
  ghost predicate SplitAs<T>(send: seq<T>, sizes: seq<nat>, blocks: seq<seq<T>>) {
    && send == Concat(blocks) && |sizes| == |blocks|
    && forall i :: 0 <= i < |blocks| ==> sizes[i] == |blocks[i]|
  }

  lemma {:induction false} SizesSum<T>(sizes: seq<nat>, blocks: seq<seq<T>>, k: nat)
    requires |sizes| == |blocks| && k <= |blocks|
    requires forall i :: 0 <= i < |blocks| ==> sizes[i] == |blocks[i]|
    ensures Sum(sizes[..k]) == Offset(blocks, k)
  {
    if k > 0 {
      SizesSum(sizes, blocks, k - 1);
      assert sizes[..k][..k - 1] == sizes[..k - 1];
      ConcatBlock(blocks, k - 1);
    }
  }

  lemma SplitPiece<T>(send: seq<T>, sizes: seq<nat>, blocks: seq<seq<T>>, k: nat)
    requires SplitAs(send, sizes, blocks) && k < |blocks|
    ensures Sum(sizes) == |send| && Piece(send, sizes, k) == blocks[k]
  {
    SizesSum(sizes, blocks, |blocks|);
    assert sizes[..|sizes|] == sizes && blocks[..|blocks|] == blocks;
    SizesSum(sizes, blocks, k);
    SizesSum(sizes, blocks, k + 1);
    ConcatBlock(blocks, k);
  }

  lemma SplitTotal<T>(send: seq<T>, sizes: seq<nat>, blocks: seq<seq<T>>)
    requires SplitAs(send, sizes, blocks)
    ensures Sum(sizes) == |send|
  {
    SizesSum(sizes, blocks, |blocks|);
    assert sizes[..|sizes|] == sizes && blocks[..|blocks|] == blocks;
  }

  /** The collective transposes the block matrix. */
  lemma {:induction false} Transposed<T>(send: seq<seq<T>>, inSplit: seq<seq<nat>>, blocks: seq<seq<seq<T>>>,
                                         i: nat, column: seq<seq<T>>)
    requires |send| == |inSplit| == |blocks| == |column|
    requires forall j :: 0 <= j < |send| ==> SplitAs(send[j], inSplit[j], blocks[j]) && i < |blocks[j]|
    requires forall j :: 0 <= j < |send| ==> column[j] == blocks[j][i]
    ensures forall j :: 0 <= j < |send| ==> i < |inSplit[j]| && Sum(inSplit[j]) == |send[j]|
    ensures Received(send, inSplit, i) == Concat(column)
  {
    forall j | 0 <= j < |send| ensures i < |inSplit[j]| && Sum(inSplit[j]) == |send[j]| {
      SplitTotal(send[j], inSplit[j], blocks[j]);
    }
    if send != [] {
      var n := |send| - 1;
      Transposed(send[..n], inSplit[..n], blocks[..n], i, column[..n]);
      SplitPiece(send[n], inSplit[n], blocks[n], i);
    }
  }

  // ---------------------------------------------------------------- one rank's shard

  /** What a rank knows after building its shard. */
  datatype ShardFields = ShardInfo(nl: nat, remoteIds: seq<nat>, remoteOwner: seq<nat>, g2l: seq<int>)

  type ShardInfo = s: ShardFields | |s.remoteOwner| == |s.remoteIds| witness ShardInfo(0, [], [], [])

  ghost predicate ValidInfo(s: ShardInfo, rank: nat, part: seq<nat>, es: seq<nat>, ed: seq<nat>)
    requires Graph(es, ed, |part|)
  {
    && s.nl == Count(part, rank)
    && Increasing(s.remoteIds) && Below(s.remoteIds, |part|)
    && (forall x: nat :: x in s.remoteIds <==> RemoteNeighbour(part, es, ed, rank, x))
    && s.remoteOwner == Select<nat>(part, s.remoteIds)
    && OwnRows(s.g2l, rank, part)
  }

  /** The global-to-local map numbers exactly the rank's own vertices. */
  ghost predicate OwnRows(g2l: seq<int>, rank: nat, part: seq<nat>) {
    && |g2l| == |part|
    && (forall x :: 0 <= x < |part| && part[x] == rank ==>
          0 <= g2l[x] < Count(part, rank) && Indices(part, rank)[g2l[x]] == x)
    && (forall x :: 0 <= x < |part| && part[x] != rank ==> g2l[x] == -1)
  }

  method BuildInfo(rank: nat, part: seq<nat>, es: seq<nat>, ed: seq<nat>) returns (s: ShardInfo)
    requires Graph(es, ed, |part|)
    ensures ValidInfo(s, rank, part, es, ed)
  {
    var mine := Indices(part, rank);
    var g2l := new int[|part|](_ => -1);
    NumberDevice(g2l, mine);
    forall x | 0 <= x < |part| && part[x] == rank ensures 0 <= g2l[x] < |mine| && mine[g2l[x]] == x {
      assert x in mine;
    }
    var remote := FindHalo(rank, part, es, ed);
    s := ShardInfo(|mine|, remote, Select<nat>(part, remote), g2l[..]);
  }

  ghost predicate ValidInfos(infos: seq<ShardInfo>, part: seq<nat>, es: seq<nat>, ed: seq<nat>) {
    && Graph(es, ed, |part|) && Below(part, |infos|)
    && forall r :: 0 <= r < |infos| ==> ValidInfo(infos[r], r, part, es, ed)
  }

  lemma OwnersBelow(infos: seq<ShardInfo>, part: seq<nat>, es: seq<nat>, ed: seq<nat>, i: nat)
    requires ValidInfos(infos, part, es, ed) && i < |infos|
    ensures Below(infos[i].remoteOwner, |infos|)
  {
    assert ValidInfo(infos[i], i, part, es, ed);
  }

  // ---------------------------------------------------------------- requests

  /** The remote ids rank `s` wants from `owner`, ascending. */
  function Wanted(s: ShardInfo, owner: nat): (r: seq<nat>)
  {
    Select<nat>(s.remoteIds, Indices(s.remoteOwner, owner))
  }

  /** The remote ids grouped by owner, in the order the rank requests them. */
  function Requests(s: ShardInfo): (r: seq<nat>)
  {
    Select<nat>(s.remoteIds, Argsort(s.remoteOwner))
  }

  /** How many rows the rank pulls from each peer. */
  function RequestCounts(s: ShardInfo, world: nat): (r: seq<nat>)
    ensures |r| == world
  {
    var owners := Select<nat>(s.remoteOwner, Argsort(s.remoteOwner));
    seq(world, j => Count(owners, j))
  }

  /** Selecting any per-slot data in request order groups it by owner, with the counts as sizes. */
  lemma RequestBlocks<T>(s: ShardInfo, world: nat, xs: seq<T>, blocks: seq<seq<T>>)
    requires |s.remoteIds| == |xs| && Below(s.remoteOwner, world) && |blocks| == world
    requires forall j :: 0 <= j < world ==> blocks[j] == Select<T>(xs, Indices(s.remoteOwner, j))
    ensures SplitAs(Select<T>(xs, Argsort(s.remoteOwner)), RequestCounts(s, world), blocks)
  {
    var owners := s.remoteOwner;
    ArgsortIsBuckets(owners, world);
    SelectConcat<T>(xs, Buckets(owners, world), blocks);
    forall j | 0 <= j < world ensures RequestCounts(s, world)[j] == |blocks[j]| {
      CountSorted(owners, Select<nat>(owners, Argsort(owners)), world, j);
    }
  }

  // ---------------------------------------------------------------- the handshakes

  /** What each rank keeps from the handshakes: the local rows it ships, the slots it fills and
      the split sizes of both directions. */
  datatype Route = Route(sendRows: seq<nat>, haloSlots: seq<nat>, sendSplit: seq<nat>, recvSplit: seq<nat>)

  /** The rows rank `j` ships to rank `i`: its own rows of the ids `i` wants, in `i`'s order. */
  ghost predicate ShipsTo(rows: seq<nat>, owner: ShardInfo, j: nat, asker: ShardInfo)
  {
    var ids := Wanted(asker, j);
    |rows| == |ids| && forall t :: 0 <= t < |ids| ==>
      ids[t] < |owner.g2l| && rows[t] == owner.g2l[ids[t]] && rows[t] < owner.nl
  }

  /** Rank `j`'s route; `blocks[i]` is the part of its rows that goes to rank `i`. */
  ghost predicate RouteOf(route: Route, infos: seq<ShardInfo>, j: nat, blocks: seq<seq<nat>>)
    requires j < |infos|
  {
    && |blocks| == |infos|
    && SplitAs<nat>(route.sendRows, route.sendSplit, blocks)
    && (forall i :: 0 <= i < |infos| ==> ShipsTo(blocks[i], infos[j], j, infos[i]))
    && route.recvSplit == RequestCounts(infos[j], |infos|)
    && |route.haloSlots| == |infos[j].remoteIds|
    && (forall k :: 0 <= k < |infos[j].remoteIds| ==>
          route.haloSlots[k] == infos[j].nl + Argsort(infos[j].remoteOwner)[k])
  }

  /** (H1) Every rank tells every peer how many rows it will pull from it. */
  method CountHandshake(counts: seq<seq<nat>>) returns (recv: seq<seq<nat>>)
    requires forall j :: 0 <= j < |counts| ==> |counts[j]| == |counts|
    ensures |recv| == |counts|
    ensures forall i :: 0 <= i < |counts| ==> |recv[i]| == |counts|
    ensures forall i, j :: 0 <= i < |counts| && 0 <= j < |counts| ==> recv[i][j] == counts[j][i]
  {
    var ones: seq<nat> := seq(|counts|, _ => 1);
    var split := seq(|counts|, _ => ones);
    SumConst(ones, 1);
    recv := AllToAll<nat>(counts, split, split);
    forall i | 0 <= i < |counts|
      ensures |recv[i]| == |counts| && forall j :: 0 <= j < |counts| ==> recv[i][j] == counts[j][i]
    {
      CountsTransposed(counts, split, i);
    }
  }

  lemma CountsTransposed(counts: seq<seq<nat>>, split: seq<seq<nat>>, i: nat)
    requires |split| == |counts| && i < |counts|
    requires forall j :: 0 <= j < |counts| ==> |counts[j]| == |counts| == |split[j]| == Sum(split[j])
    requires forall j, k :: 0 <= j < |counts| && 0 <= k < |split[j]| ==> split[j][k] == 1
    ensures |Received<nat>(counts, split, i)| == |counts|
    ensures forall j :: 0 <= j < |counts| ==> Received<nat>(counts, split, i)[j] == counts[j][i]
  {
    var blocks := seq(|counts|, j requires 0 <= j < |counts| => Singletons(counts[j]));
    forall j | 0 <= j < |counts| ensures SplitAs<nat>(counts[j], split[j], blocks[j]) {
      SingletonsConcat(counts[j]);
    }
    var column: seq<nat> := seq(|counts|, j requires 0 <= j < |counts| => counts[j][i]);
    Transposed<nat>(counts, split, blocks, i, Singletons(column));
    SingletonsConcat(column);
  }

  ghost function Singletons(xs: seq<nat>): (r: seq<seq<nat>>)
    ensures |r| == |xs| && forall i :: 0 <= i < |xs| ==> r[i] == [xs[i]]
  {
    seq(|xs|, i requires 0 <= i < |xs| => [xs[i]])
  }

  lemma {:induction false} SingletonsConcat(xs: seq<nat>)
    ensures Concat<nat>(Singletons(xs)) == xs
  {
    if xs != [] {
      var n := |xs| - 1;
      SingletonsConcat(xs[..n]);
      assert Singletons(xs)[..n] == Singletons(xs[..n]);
    }
  }

  /** The counts and the grouped ids every rank puts into the handshakes. */
  ghost predicate Asked(infos: seq<ShardInfo>, counts: seq<seq<nat>>, req: seq<seq<nat>>) {
    && |counts| == |req| == |infos|
    && (forall j :: 0 <= j < |infos| ==> counts[j] == RequestCounts(infos[j], |infos|))
    && (forall j :: 0 <= j < |infos| ==> req[j] == Requests(infos[j]))
  }

  ghost function WantedBlocks(s: ShardInfo, world: nat): (r: seq<seq<nat>>)
    ensures |r| == world && forall j :: 0 <= j < world ==> r[j] == Wanted(s, j)
  {
    seq(world, (j: nat) => Wanted(s, j))
  }

  ghost function AllWanted(infos: seq<ShardInfo>): (r: seq<seq<seq<nat>>>)
    ensures |r| == |infos| && forall i :: 0 <= i < |infos| ==> r[i] == WantedBlocks(infos[i], |infos|)
  {
    seq(|infos|, i requires 0 <= i < |infos| => WantedBlocks(infos[i], |infos|))
  }

  /** A rank's requests, cut by its counts, are the ids it wants from each peer. */
  lemma AskedBlocks(infos: seq<ShardInfo>, part: seq<nat>, es: seq<nat>, ed: seq<nat>,
                    counts: seq<seq<nat>>, req: seq<seq<nat>>, i: nat)
    requires ValidInfos(infos, part, es, ed) && Asked(infos, counts, req) && i < |infos|
    ensures SplitAs<nat>(req[i], counts[i], WantedBlocks(infos[i], |infos|))
    ensures Sum(counts[i]) == |req[i]| && |counts[i]| == |infos|
  {
    hide ValidInfos;
    OwnersBelow(infos, part, es, ed, i);
    RequestBlocks<nat>(infos[i], |infos|, infos[i].remoteIds, WantedBlocks(infos[i], |infos|));
    SplitTotal<nat>(req[i], counts[i], WantedBlocks(infos[i], |infos|));
  }

  /** The id handshake's buffers are well posed: both sides agree on every size. */
  lemma RequestsWellPosed(infos: seq<ShardInfo>, part: seq<nat>, es: seq<nat>, ed: seq<nat>,
                          counts: seq<seq<nat>>, recv: seq<seq<nat>>, req: seq<seq<nat>>)
    requires ValidInfos(infos, part, es, ed) && Asked(infos, counts, req) && |recv| == |infos|
    requires forall i :: 0 <= i < |infos| ==> |recv[i]| == |infos|
    requires forall i, j :: 0 <= i < |infos| && 0 <= j < |infos| ==>
               j < |recv[i]| && i < |counts[j]| && recv[i][j] == counts[j][i]
    ensures WellPosed<nat>(req, counts, recv)
  {
    hide ValidInfos;
    forall j | 0 <= j < |infos| ensures Sum(counts[j]) == |req[j]| && |counts[j]| == |infos| {
      AskedBlocks(infos, part, es, ed, counts, req, j);
    }
  }

  /** After the id handshake rank `j` holds, peer by peer, the ids each peer wants from it. */
  lemma WantedFromMe(infos: seq<ShardInfo>, part: seq<nat>, es: seq<nat>, ed: seq<nat>,
                     counts: seq<seq<nat>>, req: seq<seq<nat>>, j: nat, column: seq<seq<nat>>)
    requires ValidInfos(infos, part, es, ed) && Asked(infos, counts, req) && j < |infos| == |column|
    requires forall i :: 0 <= i < |infos| ==> column[i] == Wanted(infos[i], j)
    ensures forall i :: 0 <= i < |infos| ==> j < |counts[i]| && Sum(counts[i]) == |req[i]|
    ensures Received<nat>(req, counts, j) == Concat<nat>(column)
  {
    assert |counts| == |req| == |infos|;
    hide *;
    var blocks := AllWanted(infos);
    forall i | 0 <= i < |infos| ensures SplitAs<nat>(req[i], counts[i], blocks[i]) {
      AskedBlocks(infos, part, es, ed, counts, req, i);
    }
    Transposed<nat>(req, counts, blocks, j, column);
  }

  /** Every requested id belongs to the rank it was requested from. */
  lemma RequestedAreMine(infos: seq<ShardInfo>, part: seq<nat>, es: seq<nat>, ed: seq<nat>, i: nat, j: nat)
    requires ValidInfos(infos, part, es, ed) && i < |infos| && j < |infos|
    ensures forall t :: 0 <= t < |Wanted(infos[i], j)| ==>
              Wanted(infos[i], j)[t] < |infos[j].g2l| && 0 <= infos[j].g2l[Wanted(infos[i], j)[t]] < infos[j].nl
  {
    assert ValidInfo(infos[i], i, part, es, ed) && ValidInfo(infos[j], j, part, es, ed);
    forall t | 0 <= t < |Wanted(infos[i], j)|
      ensures Wanted(infos[i], j)[t] < |part| && part[Wanted(infos[i], j)[t]] == j
    {
      assert infos[i].remoteOwner[Indices(infos[i].remoteOwner, j)[t]] == j;
    }
  }

  /** `g2l[ids]` for ids the rank owns. */
  function LocalRows(g2l: seq<int>, ids: seq<nat>): (r: seq<nat>)
    requires forall t :: 0 <= t < |ids| ==> ids[t] < |g2l| && g2l[ids[t]] >= 0
    ensures |r| == |ids| && forall t :: 0 <= t < |ids| ==> r[t] == g2l[ids[t]]
  {
    Select<int>(g2l, ids)
  }

  lemma {:induction false} LocalRowsConcat(g2l: seq<int>, column: seq<seq<nat>>) returns (blocks: seq<seq<nat>>)
    requires forall i, t :: 0 <= i < |column| && 0 <= t < |column[i]| ==>
               column[i][t] < |g2l| && g2l[column[i][t]] >= 0
    ensures |blocks| == |column|
    ensures forall i :: 0 <= i < |column| ==> |blocks[i]| == |column[i]|
    ensures forall i, t :: 0 <= i < |column| && 0 <= t < |column[i]| ==> blocks[i][t] == g2l[column[i][t]]
    ensures forall t :: 0 <= t < |Concat<nat>(column)| ==>
              Concat<nat>(column)[t] < |g2l| && g2l[Concat<nat>(column)[t]] >= 0
    ensures Concat<nat>(blocks) == LocalRows(g2l, Concat<nat>(column))
  {
    if column == [] {
      blocks := [];
    } else {
      var n := |column| - 1;
      var front := LocalRowsConcat(g2l, column[..n]);
      blocks := front + [LocalRows(g2l, column[n])];
      assert blocks[..n] == front;
    }
  }

  method RouteFor(infos: seq<ShardInfo>, ghost part: seq<nat>, ghost es: seq<nat>, ghost ed: seq<nat>,
                  counts: seq<nat>, recv: seq<nat>, wanted: seq<nat>, j: nat, ghost column: seq<seq<nat>>)
    returns (route: Route, ghost blocks: seq<seq<nat>>)
    requires ValidInfos(infos, part, es, ed) && j < |infos| == |column| == |recv|
    requires forall i :: 0 <= i < |infos| ==> column[i] == Wanted(infos[i], j)
    requires counts == RequestCounts(infos[j], |infos|) && wanted == Concat<nat>(column)
    requires forall i :: 0 <= i < |infos| ==> recv[i] == |column[i]|
    ensures RouteOf(route, infos, j, blocks)
  {
    hide ValidInfos;
    hide Wanted;
    hide RequestCounts;
    forall i | 0 <= i < |infos|
      ensures forall t :: 0 <= t < |column[i]| ==>
                column[i][t] < |infos[j].g2l| && 0 <= infos[j].g2l[column[i][t]] < infos[j].nl
    {
      RequestedAreMine(infos, part, es, ed, i, j);
    }
    blocks := LocalRowsConcat(infos[j].g2l, column);
    var sendRows := LocalRows(infos[j].g2l, wanted);
    var order := Argsort(infos[j].remoteOwner);
    var halo := seq(|order|, k requires 0 <= k < |order| => infos[j].nl + order[k]);
    route := Route(sendRows, halo, recv, counts);
  }

  /** The size of each piece rank `j` must ship is the count its peer announced. */
  lemma CountIsWanted(infos: seq<ShardInfo>, part: seq<nat>, es: seq<nat>, ed: seq<nat>, i: nat, j: nat)
    requires ValidInfos(infos, part, es, ed) && i < |infos| && j < |infos|
    ensures RequestCounts(infos[i], |infos|)[j] == |Wanted(infos[i], j)|
  {
    hide ValidInfos;
    OwnersBelow(infos, part, es, ed, i);
    RequestBlocks<nat>(infos[i], |infos|, infos[i].remoteIds, WantedBlocks(infos[i], |infos|));
  }

  /** (H1) then (H2): the routing every rank keeps for the steps. */
  method MakeBoundaryExchange(infos: seq<ShardInfo>, ghost part: seq<nat>, ghost es: seq<nat>, ghost ed: seq<nat>)
    returns (routes: seq<Route>, ghost blocks: seq<seq<seq<nat>>>)
    requires ValidInfos(infos, part, es, ed)
    ensures Routed(routes, infos, blocks)
    ensures Matched(routes, infos)
  {
    hide ValidInfos, RequestCounts, Requests, Wanted, WellPosed, RouteOf, Matched, Sum;
    var world := |infos|;
    var counts := seq(world, j requires 0 <= j < world => RequestCounts(infos[j], world));
    var req := seq(world, j requires 0 <= j < world => Requests(infos[j]));
    var recv := CountHandshake(counts);
    RequestsWellPosed(infos, part, es, ed, counts, recv, req);
    var wanted := AllToAll<nat>(req, counts, recv);
    routes, blocks := [], [];
    for j := 0 to world
      invariant |routes| == |blocks| == j
      invariant forall k :: 0 <= k < j ==> RouteOf(routes[k], infos, k, blocks[k])
    {
      ghost var column: seq<seq<nat>> := seq(world, i requires 0 <= i < world => Wanted(infos[i], j));
      WantedFromMe(infos, part, es, ed, counts, req, j, column);
      forall i | 0 <= i < world ensures recv[j][i] == |column[i]| {
        CountIsWanted(infos, part, es, ed, i, j);
      }
      var route, b := RouteFor(infos, part, es, ed, counts[j], recv[j], wanted[j], j, column);
      routes, blocks := routes + [route], blocks + [b];
    }
    RoutesMatched(routes, infos, blocks, part, es, ed);
  }

  /** Rank `i` receives one row per remote id, ships the rows it keeps ready, and agrees with every
      peer on both sizes. */
  ghost predicate Matched(routes: seq<Route>, infos: seq<ShardInfo>) {
    && |routes| == |infos|
    && (forall i :: 0 <= i < |infos| ==> MatchedRank(routes[i], infos[i], |infos|))
    && forall i, j :: 0 <= i < |infos| && 0 <= j < |infos| ==> routes[j].sendSplit[i] == routes[i].recvSplit[j]
  }

  ghost predicate MatchedRank(route: Route, info: ShardInfo, world: nat) {
    && |route.sendSplit| == |route.recvSplit| == world
    && Sum(route.recvSplit) == |info.remoteIds| == |route.haloSlots| && Sum(route.sendSplit) == |route.sendRows|
  }

  lemma RoutesMatched(routes: seq<Route>, infos: seq<ShardInfo>, blocks: seq<seq<seq<nat>>>,
                      part: seq<nat>, es: seq<nat>, ed: seq<nat>)
    requires ValidInfos(infos, part, es, ed) && Routed(routes, infos, blocks)
    ensures Matched(routes, infos)
  {
    hide ValidInfos, RouteOf, Sum;
    forall i | 0 <= i < |infos| ensures MatchedRank(routes[i], infos[i], |infos|) {
      SplitsAgree(routes, infos, blocks, part, es, ed, i, i);
      TrafficIsDistinctRemotes(routes, infos, blocks, part, es, ed, i);
      SlotCount(routes, infos, blocks, i);
    }
    forall i, j | 0 <= i < |infos| && 0 <= j < |infos| ensures routes[j].sendSplit[i] == routes[i].recvSplit[j] {
      SplitsAgree(routes, infos, blocks, part, es, ed, i, j);
    }
  }

  lemma SlotCount(routes: seq<Route>, infos: seq<ShardInfo>, blocks: seq<seq<seq<nat>>>, i: nat)
    requires Routed(routes, infos, blocks) && i < |infos|
    ensures |routes[i].haloSlots| == |infos[i].remoteIds|
  {
    assert RouteOf(routes[i], infos, i, blocks[i]);
  }

  ghost predicate Routed(routes: seq<Route>, infos: seq<ShardInfo>, blocks: seq<seq<seq<nat>>>) {
    && |routes| == |infos| == |blocks|
    && forall j :: 0 <= j < |infos| ==> RouteOf(routes[j], infos, j, blocks[j])
  }

  // ---------------------------------------------------------------- the per-step exchange

  /** Every rank's feature buffer `[local rows | halo rows]`, which has a spare row when it would be
      empty, and its receive buffer. */
  ghost predicate Buffers<T>(infos: seq<ShardInfo>, x: seq<array<T>>, recvBuf: seq<array<T>>) {
    && |x| == |recvBuf| == |infos|
    && (forall i :: 0 <= i < |infos| ==> x[i].Length >= infos[i].nl + |infos[i].remoteIds|)
    && (forall i :: 0 <= i < |infos| ==> recvBuf[i].Length >= |infos[i].remoteIds|)
    && (forall i, j :: 0 <= i < j < |infos| ==> x[i] != x[j])
    && (forall i, j :: 0 <= i < j < |infos| ==> recvBuf[i] != recvBuf[j])
    && (forall i, j :: 0 <= i < |infos| && 0 <= j < |infos| ==> x[i] != recvBuf[j])
  }

  /** The owners' current rows of the remote vertices of rank `i`. */
  ghost function OwnersRows<T>(infos: seq<ShardInfo>, rows: seq<seq<T>>, i: nat): (r: seq<T>)
    requires i < |infos| == |rows| && Fetchable(infos, rows, i)
    ensures |r| == |infos[i].remoteIds|
    ensures forall k :: 0 <= k < |r| ==> r[k] == RowOf(infos, rows, infos[i].remoteOwner[k], infos[i].remoteIds[k])
  {
    FirstOwnersRows(infos, rows, i, |infos[i].remoteIds|)
  }

  ghost function FirstOwnersRows<T>(infos: seq<ShardInfo>, rows: seq<seq<T>>, i: nat, n: nat): (r: seq<T>)
    requires i < |infos| == |rows| && Fetchable(infos, rows, i) && n <= |infos[i].remoteIds|
    ensures |r| == n
    ensures forall k :: 0 <= k < n ==> r[k] == RowOf(infos, rows, infos[i].remoteOwner[k], infos[i].remoteIds[k])
  {
    if n == 0 then []
    else FirstOwnersRows(infos, rows, i, n - 1) +
         [RowOf(infos, rows, infos[i].remoteOwner[n - 1], infos[i].remoteIds[n - 1])]
  }

  ghost predicate RowThere<T>(infos: seq<ShardInfo>, rows: seq<seq<T>>, owner: nat, id: nat) {
    owner < |infos| == |rows| && id < |infos[owner].g2l| && 0 <= infos[owner].g2l[id] < |rows[owner]|
  }

  ghost function RowOf<T>(infos: seq<ShardInfo>, rows: seq<seq<T>>, owner: nat, id: nat): T
    requires RowThere(infos, rows, owner, id)
  {
    rows[owner][infos[owner].g2l[id]]
  }

  ghost predicate Fetchable<T>(infos: seq<ShardInfo>, rows: seq<seq<T>>, i: nat)
    requires i < |infos|
  {
    forall k :: 0 <= k < |infos[i].remoteIds| ==>
      RowThere(infos, rows, infos[i].remoteOwner[k], infos[i].remoteIds[k])
  }

  lemma AllFetchable<T>(infos: seq<ShardInfo>, part: seq<nat>, es: seq<nat>, ed: seq<nat>, rows: seq<seq<T>>, i: nat)
    requires ValidInfos(infos, part, es, ed) && i < |infos| == |rows|
    requires forall j :: 0 <= j < |infos| ==> |rows[j]| >= infos[j].nl
    ensures Fetchable(infos, rows, i)
  {
    assert ValidInfo(infos[i], i, part, es, ed);
    forall k | 0 <= k < |infos[i].remoteIds|
      ensures RowThere(infos, rows, infos[i].remoteOwner[k], infos[i].remoteIds[k])
    {
      assert ValidInfo(infos[infos[i].remoteOwner[k]], infos[i].remoteOwner[k], part, es, ed);
    }
  }

  /** What rank `j` ships to rank `i` is exactly `i`'s wanted slice of its owners' rows. */
  lemma ShippedSlice<T>(infos: seq<ShardInfo>, rows: seq<seq<T>>, i: nat, j: nat, block: seq<nat>)
    requires i < |infos| == |rows| && j < |infos| && Fetchable(infos, rows, i)
    requires ShipsTo(block, infos[j], j, infos[i]) && |rows[j]| >= infos[j].nl
    ensures Below(block, |rows[j]|)
    ensures Select<T>(rows[j], block) == Select<T>(OwnersRows(infos, rows, i), Indices(infos[i].remoteOwner, j))
  {
    var mine := Indices(infos[i].remoteOwner, j);
    var want := OwnersRows(infos, rows, i);
    forall t | 0 <= t < |block|
      ensures block[t] < |rows[j]| && rows[j][block[t]] == want[mine[t]]
    {
      assert Wanted(infos[i], j)[t] == infos[i].remoteIds[mine[t]];
      assert RowThere(infos, rows, infos[i].remoteOwner[mine[t]], infos[i].remoteIds[mine[t]]);
    }
  }

  /** The pieces rank `j` sends. */
  lemma SentPieces<T>(route: Route, infos: seq<ShardInfo>, rows: seq<T>, j: nat, blocks: seq<seq<nat>>)
    returns (pieces: seq<seq<T>>)
    requires j < |infos| && RouteOf(route, infos, j, blocks) && |rows| >= infos[j].nl
    ensures Below(route.sendRows, |rows|) && |pieces| == |infos| == |blocks|
    ensures forall i :: 0 <= i < |infos| ==> Below(blocks[i], |rows|) && pieces[i] == Select<T>(rows, blocks[i])
    ensures SplitAs<T>(Select<T>(rows, route.sendRows), route.sendSplit, pieces)
  {
    forall i | 0 <= i < |infos| ensures Below(blocks[i], |rows|) {
      assert ShipsTo(blocks[i], infos[j], j, infos[i]);
    }
    pieces := seq(|infos|, i requires 0 <= i < |infos| => Select<T>(rows, blocks[i]));
    SelectConcat<T>(rows, blocks, pieces);
  }

  /** Both directions of every pair agree on how many rows travel. */
  lemma SplitsAgree(routes: seq<Route>, infos: seq<ShardInfo>, blocks: seq<seq<seq<nat>>>,
                    part: seq<nat>, es: seq<nat>, ed: seq<nat>, i: nat, j: nat)
    requires ValidInfos(infos, part, es, ed) && Routed(routes, infos, blocks) && i < |infos| && j < |infos|
    ensures |routes[j].sendSplit| == |routes[i].recvSplit| == |infos|
    ensures routes[j].sendSplit[i] == routes[i].recvSplit[j]
  {
    hide ValidInfos;
    assert RouteOf(routes[j], infos, j, blocks[j]) && RouteOf(routes[i], infos, i, blocks[i]);
    CountIsWanted(infos, part, es, ed, i, j);
    assert ShipsTo(blocks[j][i], infos[j], j, infos[i]);
  }

  /** Every rank gathers the rows its peers asked for. */
  method GatherSends<T>(routes: seq<Route>, ghost infos: seq<ShardInfo>, rows: seq<seq<T>>,
                        ghost blocks: seq<seq<seq<nat>>>)
    returns (send: seq<seq<T>>, ghost pieces: seq<seq<seq<T>>>)
    requires Routed(routes, infos, blocks) && |rows| == |infos|
    requires forall j :: 0 <= j < |infos| ==> |rows[j]| >= infos[j].nl
    ensures |send| == |pieces| == |infos|
    ensures forall j :: 0 <= j < |infos| ==> SplitAs<T>(send[j], routes[j].sendSplit, pieces[j])
    ensures forall j :: 0 <= j < |infos| ==> PiecesOf(pieces[j], rows[j], blocks[j])
  {
    hide RouteOf;
    send, pieces := [], [];
    for j := 0 to |routes|
      invariant |send| == |pieces| == j
      invariant forall k :: 0 <= k < j ==> SplitAs<T>(send[k], routes[k].sendSplit, pieces[k])
      invariant forall k :: 0 <= k < j ==> PiecesOf(pieces[k], rows[k], blocks[k])
    {
      ghost var p := SentPieces<T>(routes[j], infos, rows[j], j, blocks[j]);
      send, pieces := send + [Select<T>(rows[j], routes[j].sendRows)], pieces + [p];
    }
  }

  ghost predicate PiecesOf<T>(pieces: seq<seq<T>>, rows: seq<T>, blocks: seq<seq<nat>>) {
    |pieces| == |blocks| && forall i :: 0 <= i < |pieces| ==>
      Below(blocks[i], |rows|) && pieces[i] == Select<T>(rows, blocks[i])
  }

  /** The owners' rows of rank `i` in the order it requested them. */
  ghost predicate InRequestOrder<T>(recv: seq<T>, infos: seq<ShardInfo>, rows: seq<seq<T>>, i: nat) {
    && i < |infos| == |rows| && Fetchable(infos, rows, i)
    && recv == Select<T>(OwnersRows(infos, rows, i), Argsort(infos[i].remoteOwner))
  }

  /** What rank `i` receives: its owners' rows in request order. */
  lemma ReceivedRows<T>(infos: seq<ShardInfo>, part: seq<nat>, es: seq<nat>, ed: seq<nat>, rows: seq<seq<T>>,
                        blocks: seq<seq<seq<nat>>>, send: seq<seq<T>>, splits: seq<seq<nat>>,
                        pieces: seq<seq<seq<T>>>, i: nat)
    requires ValidInfos(infos, part, es, ed) && i < |infos|
    requires |rows| == |blocks| == |send| == |splits| == |pieces| == |infos| && Fetchable(infos, rows, i)
    requires forall j :: 0 <= j < |infos| ==> |rows[j]| >= infos[j].nl
    requires forall j :: 0 <= j < |infos| ==> SplitAs<T>(send[j], splits[j], pieces[j])
    requires forall j :: 0 <= j < |infos| ==> |blocks[j]| == |infos| && PiecesOf<T>(pieces[j], rows[j], blocks[j])
    requires forall j :: 0 <= j < |infos| ==> ShipsTo(blocks[j][i], infos[j], j, infos[i])
    ensures forall j :: 0 <= j < |infos| ==> i < |splits[j]| && Sum(splits[j]) == |send[j]|
    ensures InRequestOrder<T>(Received<T>(send, splits, i), infos, rows, i)
  {
    hide ValidInfos;
    hide SplitAs;
    hide ShipsTo;
    hide Received;
    hide Fetchable;
    OwnersBelow(infos, part, es, ed, i);
    var owners, want := infos[i].remoteOwner, OwnersRows(infos, rows, i);
    var column := seq(|infos|, j requires 0 <= j < |infos| => pieces[j][i]);
    forall j | 0 <= j < |infos|
      ensures Below(Indices(owners, j), |want|) && column[j] == Select<T>(want, Indices(owners, j))
    {
      ShippedSlice<T>(infos, rows, i, j, blocks[j][i]);
    }
    Transposed<T>(send, splits, pieces, i, column);
    GroupedRows<T>(want, owners, |infos|, column);
  }

  lemma GroupedRows<T>(want: seq<T>, owners: seq<nat>, world: nat, column: seq<seq<T>>)
    requires |want| == |owners| && Below(owners, world) && |column| == world
    requires forall j :: 0 <= j < world ==> column[j] == Select<T>(want, Indices(owners, j))
    ensures Concat<T>(column) == Select<T>(want, Argsort(owners))
  {
    ArgsortIsBuckets(owners, world);
    SelectConcat<T>(want, Buckets(owners, world), column);
  }

  /** Receive, then scatter into the halo region: local rows stay, every halo row is refreshed. */
  method Scatter<T>(x: array<T>, buf: array<T>, recv: seq<T>, slots: seq<nat>, ghost s: ShardInfo, ghost want: seq<T>)
    requires x != buf && |want| == |s.remoteIds| == |slots| == |recv| <= buf.Length
    requires x.Length >= s.nl + |want|
    requires recv == Select<T>(want, Argsort(s.remoteOwner))
    requires forall k :: 0 <= k < |slots| ==> slots[k] == s.nl + Argsort(s.remoteOwner)[k]
    modifies x, buf
    ensures x[..] == old(x[..])[..s.nl] + want + old(x[..])[s.nl + |want|..]
  {
    hide SpreadRows, Argsort;
    ghost var was := x[..];
    FillLocal(buf, recv);
    assert buf[..|recv|] == recv;
    HaloSpread(was, slots, recv, s, want);
    IndexCopy(x, slots, buf[..|recv|]);
  }

  /** Scattered in request order, the received rows are the halo in remote-id order. */
  lemma HaloSpread<T>(table: seq<T>, slots: seq<nat>, recv: seq<T>, s: ShardInfo, want: seq<T>)
    requires |want| == |s.remoteIds| == |slots| == |recv| && |table| >= s.nl + |want|
    requires recv == Select<T>(want, Argsort(s.remoteOwner))
    requires forall k :: 0 <= k < |slots| ==> slots[k] == s.nl + Argsort(s.remoteOwner)[k]
    ensures Below(slots, |table|) && SpreadRows<T>(table, slots, recv) == table[..s.nl] + want + table[s.nl + |want|..]
  {
    hide SpreadRows, Argsort;
    var after := SpreadRows<T>(table, slots, recv);
    forall k | 0 <= k < |want| ensures after[s.nl + k] == want[k] {
      HaloRow(table, slots, recv, s, want, k);
    }
    forall p | 0 <= p < |table| && !(s.nl <= p < s.nl + |want|) ensures after[p] == table[p] {
      NoHaloSlot(slots, s, p);
    }
    Patched(table, after, s.nl, want);
  }

  lemma NoHaloSlot(slots: seq<nat>, s: ShardInfo, p: nat)
    requires |slots| == |s.remoteOwner| && !(s.nl <= p < s.nl + |slots|)
    requires forall i :: 0 <= i < |slots| ==> slots[i] == s.nl + Argsort(s.remoteOwner)[i]
    ensures p !in slots
  {
  }

  lemma Patched<T>(table: seq<T>, after: seq<T>, lo: nat, want: seq<T>)
    requires |after| == |table| >= lo + |want| && forall k :: 0 <= k < |want| ==> after[lo + k] == want[k]
    requires forall p :: 0 <= p < |table| && !(lo <= p < lo + |want|) ==> after[p] == table[p]
    ensures after == table[..lo] + want + table[lo + |want|..]
  {
    var hi := lo + |want|;
    assert after[..lo] == table[..lo] && after[lo..hi] == want && after[hi..] == table[hi..];
    assert after == after[..lo] + after[lo..hi] + after[hi..];
  }

  lemma HaloRow<T>(table: seq<T>, slots: seq<nat>, recv: seq<T>, s: ShardInfo, want: seq<T>, k: nat)
    requires |want| == |s.remoteIds| == |s.remoteOwner| == |slots| == |recv| && |table| >= s.nl + |want| && k < |want|
    requires recv == Select<T>(want, Argsort(s.remoteOwner)) && Below(slots, |table|)
    requires forall i :: 0 <= i < |slots| ==> slots[i] == s.nl + Argsort(s.remoteOwner)[i]
    ensures SpreadRows<T>(table, slots, recv)[s.nl + k] == want[k]
  {
    hide SpreadRows, Argsort;
    HaloPlaced(slots, s, k);
    var after := SpreadRows<T>(table, slots, recv);
    var q :| 0 <= q < |slots| && slots[q] == s.nl + k && after[s.nl + k] == recv[q];
    assert Argsort(s.remoteOwner)[q] == k;
  }

  lemma HaloPlaced(slots: seq<nat>, s: ShardInfo, k: nat)
    requires |slots| == |s.remoteIds| == |s.remoteOwner| && k < |slots|
    requires forall i :: 0 <= i < |slots| ==> slots[i] == s.nl + Argsort(s.remoteOwner)[i]
    ensures s.nl + k in slots
  {
    assert k in Argsort(s.remoteOwner);
    var r :| 0 <= r < |slots| && Argsort(s.remoteOwner)[r] == k;
    assert slots[r] == s.nl + k;
  }

  method Contents<T>(x: seq<array<T>>) returns (rows: seq<seq<T>>)
    ensures |rows| == |x| && forall i :: 0 <= i < |x| ==> rows[i] == x[i][..]
  {
    rows := [];
    for i := 0 to |x|
      invariant |rows| == i && forall k :: 0 <= k < i ==> rows[k] == x[k][..]
    {
      rows := rows + [x[i][..]];
    }
  }

  /** The payload collective of one step is well posed. */
  lemma PayloadWellPosed<T>(routes: seq<Route>, infos: seq<ShardInfo>, blocks: seq<seq<seq<nat>>>,
                            part: seq<nat>, es: seq<nat>, ed: seq<nat>,
                            send: seq<seq<T>>, pieces: seq<seq<seq<T>>>, inS: seq<seq<nat>>, outS: seq<seq<nat>>)
    requires ValidInfos(infos, part, es, ed) && Routed(routes, infos, blocks)
    requires |send| == |pieces| == |inS| == |outS| == |infos|
    requires forall j :: 0 <= j < |infos| ==> inS[j] == routes[j].sendSplit && outS[j] == routes[j].recvSplit
    requires forall j :: 0 <= j < |infos| ==> SplitAs<T>(send[j], inS[j], pieces[j])
    ensures WellPosed<T>(send, inS, outS)
  {
    hide ValidInfos;
    hide Routed;
    hide SplitAs;
    forall j | 0 <= j < |infos| ensures Sum(inS[j]) == |send[j]| {
      SplitTotal<T>(send[j], inS[j], pieces[j]);
    }
    forall i, j | 0 <= i < |infos| && 0 <= j < |infos|
      ensures |inS[j]| == |outS[i]| == |infos| && inS[j][i] == outS[i][j]
    {
      SplitsAgree(routes, infos, blocks, part, es, ed, i, j);
    }
    forall j | 0 <= j < |infos| ensures |inS[j]| == |outS[j]| == |infos| {
      SplitsAgree(routes, infos, blocks, part, es, ed, j, j);
    }
  }

  /** One step on every rank: afterwards each halo row is the row its owner holds, in remote-id
      order, and no local row has changed. Returns the rows each rank pulled. */
  method Exchange<T>(routes: seq<Route>, infos: seq<ShardInfo>, x: seq<array<T>>, recvBuf: seq<array<T>>,
                     ghost blocks: seq<seq<seq<nat>>>, ghost part: seq<nat>, ghost es: seq<nat>, ghost ed: seq<nat>,
                     ghost before: seq<seq<T>>)
    requires ValidInfos(infos, part, es, ed) && Routed(routes, infos, blocks) && Buffers(infos, x, recvBuf)
    requires |before| == |x| && forall i :: 0 <= i < |x| ==> before[i] == x[i][..]
    modifies x, recvBuf
    ensures forall i :: 0 <= i < |infos| ==> Fetchable(infos, before, i)
    ensures forall i :: 0 <= i < |infos| ==> Refreshed(infos, before, i, x[i][..])
  {
    hide ValidInfos;
    hide RouteOf;
    var rows := Contents(x);
    assert rows == before;
    forall i | 0 <= i < |infos| ensures Fetchable(infos, before, i) {
      AllFetchable(infos, part, es, ed, before, i);
    }
    var recv := Collect(routes, infos, rows, blocks, part, es, ed);
    ScatterAll(routes, infos, x, recvBuf, recv, blocks, before);
  }

  /** The buffer of rank `i` after a step that started from `before`. */
  ghost predicate Refreshed<T>(infos: seq<ShardInfo>, before: seq<seq<T>>, i: nat, now: seq<T>) {
    && i < |infos| == |before| && Fetchable(infos, before, i) && infos[i].nl <= |before[i]|
    && var used := infos[i].nl + |infos[i].remoteIds|;
       used <= |before[i]| && now == before[i][..infos[i].nl] + OwnersRows(infos, before, i) + before[i][used..]
  }

  function SendSplits(routes: seq<Route>): (r: seq<seq<nat>>)
    ensures |r| == |routes| && forall j :: 0 <= j < |r| ==> r[j] == routes[j].sendSplit
  {
    seq(|routes|, j requires 0 <= j < |routes| => routes[j].sendSplit)
  }

  function RecvSplits(routes: seq<Route>): (r: seq<seq<nat>>)
    ensures |r| == |routes| && forall j :: 0 <= j < |r| ==> r[j] == routes[j].recvSplit
  {
    seq(|routes|, j requires 0 <= j < |routes| => routes[j].recvSplit)
  }

  /** The gather and the collective of one step. */
  method Collect<T>(routes: seq<Route>, infos: seq<ShardInfo>, rows: seq<seq<T>>, ghost blocks: seq<seq<seq<nat>>>,
                    ghost part: seq<nat>, ghost es: seq<nat>, ghost ed: seq<nat>)
    returns (recv: seq<seq<T>>)
    requires ValidInfos(infos, part, es, ed) && Routed(routes, infos, blocks) && |rows| == |infos|
    requires forall j :: 0 <= j < |infos| ==> |rows[j]| >= infos[j].nl && Fetchable(infos, rows, j)
    ensures |recv| == |infos|
    ensures forall i :: 0 <= i < |infos| ==> InRequestOrder<T>(recv[i], infos, rows, i)
  {
    assert |routes| == |blocks| == |infos|;
    hide *;
    var send; ghost var pieces;
    send, pieces := GatherSends<T>(routes, infos, rows, blocks);
    PayloadWellPosed<T>(routes, infos, blocks, part, es, ed, send, pieces, SendSplits(routes), RecvSplits(routes));
    recv := AllToAll<T>(send, SendSplits(routes), RecvSplits(routes));
    forall i | 0 <= i < |infos| ensures InRequestOrder<T>(recv[i], infos, rows, i) {
      CollectedRows<T>(routes, infos, blocks, part, es, ed, rows, send, pieces, i);
    }
  }

  lemma CollectedRows<T>(routes: seq<Route>, infos: seq<ShardInfo>, blocks: seq<seq<seq<nat>>>,
                         part: seq<nat>, es: seq<nat>, ed: seq<nat>, rows: seq<seq<T>>,
                         send: seq<seq<T>>, pieces: seq<seq<seq<T>>>, i: nat)
    requires ValidInfos(infos, part, es, ed) && Routed(routes, infos, blocks) && i < |infos|
    requires |rows| == |send| == |pieces| == |infos| && Fetchable(infos, rows, i)
    requires forall j :: 0 <= j < |infos| ==> |rows[j]| >= infos[j].nl
    requires forall j :: 0 <= j < |infos| ==> SplitAs<T>(send[j], routes[j].sendSplit, pieces[j])
    requires forall j :: 0 <= j < |infos| ==> PiecesOf<T>(pieces[j], rows[j], blocks[j])
    ensures forall j :: 0 <= j < |infos| ==> i < |SendSplits(routes)[j]| && Sum(SendSplits(routes)[j]) == |send[j]|
    ensures InRequestOrder<T>(Received<T>(send, SendSplits(routes), i), infos, rows, i)
  {
    hide ValidInfos;
    hide Fetchable;
    hide SplitAs;
    hide PiecesOf;
    forall j | 0 <= j < |infos|
      ensures |blocks[j]| == |infos| && ShipsTo(blocks[j][i], infos[j], j, infos[i])
    {
      assert RouteOf(routes[j], infos, j, blocks[j]);
    }
    hide RouteOf;
    ReceivedRows<T>(infos, part, es, ed, rows, blocks, send, SendSplits(routes), pieces, i);
  }

  method ScatterAll<T>(routes: seq<Route>, infos: seq<ShardInfo>, x: seq<array<T>>, recvBuf: seq<array<T>>,
                       recv: seq<seq<T>>, ghost blocks: seq<seq<seq<nat>>>, ghost before: seq<seq<T>>)
    requires Routed(routes, infos, blocks) && Buffers(infos, x, recvBuf) && |recv| == |infos| == |before|
    requires forall i :: 0 <= i < |infos| ==> before[i] == x[i][..] && Fetchable(infos, before, i)
    requires forall i :: 0 <= i < |infos| ==> InRequestOrder<T>(recv[i], infos, before, i)
    modifies x, recvBuf
    ensures forall i :: 0 <= i < |infos| ==> Refreshed(infos, before, i, x[i][..])
  {
    hide Fetchable;
    hide ShipsTo;
    hide SplitAs;
    for i := 0 to |infos|
      invariant forall k :: 0 <= k < i ==> Refreshed(infos, before, k, x[k][..])
      invariant forall k :: i <= k < |infos| ==> x[k][..] == before[k]
    {
      assert RouteOf(routes[i], infos, i, blocks[i]);
      label L:
      Scatter(x[i], recvBuf[i], recv[i], routes[i].haloSlots, infos[i], OwnersRows(infos, before, i));
      forall k | 0 <= k < |infos| && k != i ensures x[k][..] == old@L(x[k][..]) {
        assert x[k] != x[i] && x[k] != recvBuf[i];
      }
    }
  }

  /** Every rank's local rows are its vertices' rows of `h`. */
  ghost predicate LocalsHold<T>(infos: seq<ShardInfo>, part: seq<nat>, before: seq<seq<T>>, h: seq<T>) {
    && |infos| == |before| && |h| == |part|
    && (forall j :: 0 <= j < |infos| ==> infos[j].nl <= |before[j]|)
    && (forall j :: 0 <= j < |infos| ==> before[j][..infos[j].nl] == Select<T>(h, Indices(part, j)))
  }

  /** After a step the halo slot `nl + k` of rank `i` holds the current row of its `k`-th remote
      neighbour, as that vertex's owner has it. */
  lemma HaloRowFresh<T>(infos: seq<ShardInfo>, before: seq<seq<T>>, i: nat, now: seq<T>, h: seq<T>,
                        part: seq<nat>, es: seq<nat>, ed: seq<nat>, k: nat)
    requires ValidInfos(infos, part, es, ed) && Refreshed(infos, before, i, now) && LocalsHold(infos, part, before, h)
    requires k < |infos[i].remoteIds|
    ensures infos[i].remoteIds[k] < |h| && infos[i].nl + k < |now|
    ensures now[infos[i].nl + k] == h[infos[i].remoteIds[k]]
  {
    RefreshedSlot(infos, before, i, now, k);
    OwnersRowFresh(infos, before, i, h, part, es, ed, k);
  }

  lemma RefreshedSlot<T>(infos: seq<ShardInfo>, before: seq<seq<T>>, i: nat, now: seq<T>, k: nat)
    requires Refreshed(infos, before, i, now) && k < |infos[i].remoteIds|
    ensures infos[i].nl + k < |now| && now[infos[i].nl + k] == OwnersRows(infos, before, i)[k]
  {
    hide Fetchable, OwnersRows;
  }

  lemma OwnersRowFresh<T>(infos: seq<ShardInfo>, before: seq<seq<T>>, i: nat, h: seq<T>,
                          part: seq<nat>, es: seq<nat>, ed: seq<nat>, k: nat)
    requires ValidInfos(infos, part, es, ed) && LocalsHold(infos, part, before, h)
    requires i < |infos| && Fetchable(infos, before, i) && k < |infos[i].remoteIds|
    ensures infos[i].remoteIds[k] < |h| && OwnersRows(infos, before, i)[k] == h[infos[i].remoteIds[k]]
  {
    assert ValidInfo(infos[i], i, part, es, ed);
    var id, owner := infos[i].remoteIds[k], infos[i].remoteOwner[k];
    assert ValidInfo(infos[owner], owner, part, es, ed);
    var row := infos[owner].g2l[id];
    assert before[owner][..infos[owner].nl][row] == h[id];
  }

  /** A rank receives one row per distinct remote neighbour, and ships the rows its peers named. */
  lemma TrafficIsDistinctRemotes(routes: seq<Route>, infos: seq<ShardInfo>, blocks: seq<seq<seq<nat>>>,
                                 part: seq<nat>, es: seq<nat>, ed: seq<nat>, i: nat)
    requires ValidInfos(infos, part, es, ed) && Routed(routes, infos, blocks) && i < |infos|
    ensures Sum(routes[i].recvSplit) == |infos[i].remoteIds|
    ensures Sum(routes[i].sendSplit) == |routes[i].sendRows|
  {
    hide ValidInfos;
    assert RouteOf(routes[i], infos, i, blocks[i]);
    OwnersBelow(infos, part, es, ed, i);
    var wanted := WantedBlocks(infos[i], |infos|);
    RequestBlocks<nat>(infos[i], |infos|, infos[i].remoteIds, wanted);
    SplitTotal<nat>(Requests(infos[i]), routes[i].recvSplit, wanted);
    SplitTotal<nat>(routes[i].sendRows, routes[i].sendSplit, blocks[i]);
  }

  // ---------------------------------------------------------------- the traffic of a step

  /** The first `m` rows of a table, each summed over its first `k` columns. */
  function RowSums(table: seq<seq<nat>>, m: nat, k: nat): (r: seq<int>)
    requires m <= |table| && forall i :: 0 <= i < m ==> k <= |table[i]|
    ensures |r| == m && forall i :: 0 <= i < m ==> r[i] == Sum(table[i][..k])
  {
    seq(m, i requires 0 <= i < m => Sum(table[i][..k]))
  }

  /** One more column adds what stands in it. */
  lemma {:induction false} ColumnSum(table: seq<seq<nat>>, column: seq<nat>, m: nat, k: nat)
    requires m <= |table| && m <= |column| && forall i :: 0 <= i < m ==> k < |table[i]| && table[i][k] == column[i]
    ensures Sum(RowSums(table, m, k + 1)) == Sum(RowSums(table, m, k)) + Sum(column[..m])
  {
    if m > 0 {
      ColumnSum(table, column, m - 1, k);
      assert RowSums(table, m, k + 1)[..m - 1] == RowSums(table, m - 1, k + 1);
      assert RowSums(table, m, k)[..m - 1] == RowSums(table, m - 1, k);
      assert table[m - 1][..k + 1][..k] == table[m - 1][..k];
      assert column[..m][..m - 1] == column[..m - 1];
    }
  }

  /** A table summed by rows is its transpose summed by rows. */
  lemma {:induction false} TransposeSum(table: seq<seq<nat>>, flipped: seq<seq<nat>>, m: nat, k: nat)
    requires m <= |table| && forall i :: 0 <= i < m ==> k <= |table[i]|
    requires k <= |flipped| && forall j :: 0 <= j < k ==> m <= |flipped[j]|
    requires forall i, j :: 0 <= i < m && 0 <= j < k ==> table[i][j] == flipped[j][i]
    ensures Sum(RowSums(table, m, k)) == Sum(RowSums(flipped, k, m))
  {
    hide RowSums, Sum;
    if m == 0 {
      NoColumns(flipped, k);
      NoRows(table, k);
    } else {
      TransposeSum(table, flipped, m - 1, k);
      ColumnSum(flipped, table[m - 1], k, m - 1);
      RowSumsStep(table, m, k);
    }
  }

  lemma NoRows(table: seq<seq<nat>>, k: nat)
    ensures Sum(RowSums(table, 0, k)) == 0
  {
  }

  lemma RowSumsStep(table: seq<seq<nat>>, m: nat, k: nat)
    requires 0 < m <= |table| && forall i :: 0 <= i < m ==> k <= |table[i]|
    ensures Sum(RowSums(table, m, k)) == Sum(RowSums(table, m - 1, k)) + Sum(table[m - 1][..k])
  {
    assert RowSums(table, m, k)[..m - 1] == RowSums(table, m - 1, k);
  }

  lemma {:induction false} NoColumns(table: seq<seq<nat>>, m: nat)
    requires m <= |table|
    ensures Sum(RowSums(table, m, 0)) == 0
  {
    if m > 0 {
      NoColumns(table, m - 1);
      assert RowSums(table, m, 0)[..m - 1] == RowSums(table, m - 1, 0);
    }
  }

  /** The rows each rank ships in a step. */
  function Shipped(routes: seq<Route>): (r: seq<int>)
    ensures |r| == |routes| && forall j :: 0 <= j < |r| ==> r[j] == |routes[j].sendRows|
  {
    seq(|routes|, j requires 0 <= j < |routes| => |routes[j].sendRows|)
  }

  /** The distinct remote neighbours of each rank. */
  function Remotes(infos: seq<ShardInfo>): (r: seq<int>)
    ensures |r| == |infos| && forall i :: 0 <= i < |r| ==> r[i] == |infos[i].remoteIds|
  {
    seq(|infos|, i requires 0 <= i < |infos| => |infos[i].remoteIds|)
  }

  /** Over all ranks, exactly the distinct remote rows are shipped: none twice, none for nothing. */
  lemma TotalTraffic(routes: seq<Route>, infos: seq<ShardInfo>)
    requires Matched(routes, infos)
    ensures Sum(Shipped(routes)) == Sum(Remotes(infos))
  {
    hide Sum;
    var world := |infos|;
    var sends, recvs := SendSplits(routes), RecvSplits(routes);
    forall i | 0 <= i < world
      ensures |sends[i]| == |recvs[i]| == world && Sum(sends[i][..world]) == |routes[i].sendRows|
           && Sum(recvs[i][..world]) == |infos[i].remoteIds|
    {
      assert MatchedRank(routes[i], infos[i], world);
      assert sends[i][..world] == sends[i] && recvs[i][..world] == recvs[i];
    }
    TransposeSum(sends, recvs, world, world);
    assert RowSums(sends, world, world) == Shipped(routes);
    assert RowSums(recvs, world, world) == Remotes(infos);
  }
}
