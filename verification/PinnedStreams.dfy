/** The asynchronous execution of the pinned exchange: per-stream queues run in order, waits
    order streams against each other, and everything else interleaves freely. */
module PinnedStreams {
  import opened Arrays
  import opened HaloExecution
  import opened PinnedExchange

  // ---------------------------------------------------------------- streams and queues

  /** A device's default stream, its outgoing copy stream and its incoming copy stream. */
  datatype Stream = Default(d: nat) | CopyOut(o: nat) | CopyIn(dest: nat)

  datatype Op =
    | Await(s: Stream, upto: nat) // resume once stream `s` has finished `upto` operations
    | FillLocals                  // tables[d][:nl] = feats[d]
    | Gather                      // host buffer of the owner = feats[o][sendIdx[o]]
    | Stage(k: nat)               // device buffer k = slice of the owner's host buffer
    | Spread(k: nat)              // scatter device buffer k into the table
    | Aggregate                   // feats[d] = aggregation of tables[d]

  datatype Phase = Exchanging | Computing

  ghost predicate JobOk<T>(job: Job<T>) {
    && BuiltShards(job.devices, job.part, job.lidx, job.u, job.v, job.shards)
    && ValidStaging(job.staging, job.devices, job.part, job.lidx, job.shards)
  }

  function Copies<T>(job: Job<T>, d: nat): nat {
    if d < |job.staging.recvPlan| then |job.staging.recvPlan[d]| else 0
  }

  predicate Sends<T>(job: Job<T>, o: nat) {
    o < |job.staging.sendIdx| && job.staging.sendIdx[o] != []
  }

  /** How many operations the host enqueues on a stream per phase. */
  function Length<T>(job: Job<T>, phase: Phase, s: Stream): nat {
    match (phase, s)
    case (Exchanging, Default(d)) => 2 + Copies(job, d)
    case (Exchanging, CopyOut(o)) => if Sends(job, o) then 2 else 0
    case (Exchanging, CopyIn(d)) => 2 * Copies(job, d)
    case (Computing, Default(_)) => 1
    case (Computing, _) => 0
  }

  /** The `i`-th operation of a stream: the outgoing stream first waits for what the default stream
      held before the exchange (nothing), gathers and records its event; the incoming stream waits
      for each owner's event before its copy; the default stream scatters after all of them. */
  function OpAt<T>(job: Job<T>, phase: Phase, s: Stream, i: nat): Op
    requires i < Length(job, phase, s)
  {
    match (phase, s)
    case (Exchanging, Default(d)) =>
      if i == 0 then FillLocals
      else if i == 1 then Await(CopyIn(d), 2 * Copies(job, d))
      else Spread(i - 2)
    case (Exchanging, CopyOut(o)) =>
      if i == 0 then Await(Default(o), 0) else Gather
    case (Exchanging, CopyIn(d)) =>
      if i % 2 == 0 then Await(CopyOut(job.staging.recvPlan[d][i / 2].owner), 2) else Stage(i / 2)
    case (Computing, Default(d)) => Aggregate
  }

  // ---------------------------------------------------------------- machine state

  datatype State<!T> = State(phase: Phase, round: nat,
                             dflt: seq<nat>, out: seq<nat>, inn: seq<nat>,
                             tables: seq<seq<T>>, feats: seq<seq<T>>, host: seq<seq<T>>, staged: seq<seq<seq<T>>>)

  /** Operations finished so far on a stream. */
  function Head<T>(st: State<T>, s: Stream): nat {
    match s
    case Default(d) => if d < |st.dflt| then st.dflt[d] else 0
    case CopyOut(o) => if o < |st.out| then st.out[o] else 0
    case CopyIn(d) => if d < |st.inn| then st.inn[d] else 0
  }

  function Device(s: Stream): nat {
    match s
    case Default(d) => d
    case CopyOut(o) => o
    case CopyIn(d) => d
  }

  /** Buffer sizes never change and no stream runs past its queue. */
  ghost predicate Shaped<T>(job: Job<T>, st: State<T>)
    requires JobOk(job)
  {
    BuffersSized(job, st) && forall s: Stream :: Device(s) < job.devices ==> Head(st, s) <= Length(job, st.phase, s)
  }

  ghost predicate BuffersSized<T>(job: Job<T>, st: State<T>)
    requires JobOk(job)
  {
    var n := job.devices;
    && |st.dflt| == |st.out| == |st.inn| == |st.tables| == |st.feats| == |st.host| == |st.staged| == n
    && (forall d :: 0 <= d < n ==> |st.tables[d]| == |job.shards[d].Slots()|)
    && (forall d :: 0 <= d < n ==> |st.feats[d]| == |job.shards[d].locals|)
    && (forall o :: 0 <= o < n ==> |st.host[o]| == |job.staging.sendIdx[o]|)
    && (forall d :: 0 <= d < n ==> |st.staged[d]| == Copies(job, d))
    && (forall d, k :: 0 <= d < n && 0 <= k < Copies(job, d) ==>
          |st.staged[d][k]| == |job.staging.recvPlan[d][k].slots|)
  }

  /** The stream's next operation may run now. */
  predicate Ready<T>(job: Job<T>, st: State<T>, s: Stream) {
    && Device(s) < job.devices && Head(st, s) < Length(job, st.phase, s)
    && var op := OpAt(job, st.phase, s, Head(st, s));
       op.Await? ==> op.upto <= Head(st, op.s)
  }

  /** The stream advances by one operation. */
  function Advance<T>(st: State<T>, s: Stream): State<T>
    requires Device(s) < |st.dflt| == |st.out| == |st.inn|
  {
    match s
    case Default(d) => st.(dflt := st.dflt[d := st.dflt[d] + 1])
    case CopyOut(o) => st.(out := st.out[o := st.out[o] + 1])
    case CopyIn(d) => st.(inn := st.inn[d := st.inn[d] + 1])
  }

  /** What the operation does to the buffers. */
  ghost function Effect<T>(job: Job<T>, st: State<T>, s: Stream): State<T>
    requires JobOk(job) && Shaped(job, st) && Ready(job, st, s)
  {
    match OpAt(job, st.phase, s, Head(st, s))
    case Await(_, _) => st
    case FillLocals => st.(tables := st.tables[s.d := Filled(job, st, s.d)])
    case Gather => st.(host := st.host[s.o := Gathered(job, st, s.o)])
    case Stage(k) => st.(staged := st.staged[s.dest := st.staged[s.dest][k := CopiedIn(job, st, s.dest, k)]])
    case Spread(k) => st.(tables := st.tables[s.d := Scattered(job, st, s.d, k)])
    case Aggregate => st.(feats := st.feats[s.d := Aggregated(job, st, s.d)])
  }

  ghost function Filled<T>(job: Job<T>, st: State<T>, d: nat): (r: seq<T>)
    requires JobOk(job) && Shaped(job, st) && d < job.devices
    ensures |r| == |st.tables[d]|
  {
    st.feats[d] + st.tables[d][|st.feats[d]|..]
  }

  ghost function Gathered<T>(job: Job<T>, st: State<T>, o: nat): (r: seq<T>)
    requires JobOk(job) && Shaped(job, st) && o < job.devices
    ensures |r| == |job.staging.sendIdx[o]|
  {
    SendRowsLocal(job, o);
    Select<T>(st.feats[o], job.staging.sendIdx[o])
  }

  ghost function CopiedIn<T>(job: Job<T>, st: State<T>, d: nat, k: nat): (r: seq<T>)
    requires JobOk(job) && Shaped(job, st) && d < job.devices && k < Copies(job, d)
    ensures |r| == |job.staging.recvPlan[d][k].slots|
  {
    TransferFacts(job, d, k);
    var t := job.staging.recvPlan[d][k];
    st.host[t.owner][t.lo..t.lo + |t.slots|]
  }

  ghost function Scattered<T>(job: Job<T>, st: State<T>, d: nat, k: nat): (r: seq<T>)
    requires JobOk(job) && Shaped(job, st) && d < job.devices && k < Copies(job, d)
    ensures |r| == |st.tables[d]|
  {
    TransferFacts(job, d, k);
    SpreadRows<T>(st.tables[d], job.staging.recvPlan[d][k].slots, st.staged[d][k])
  }

  ghost function Aggregated<T>(job: Job<T>, st: State<T>, d: nat): (r: seq<T>)
    requires JobOk(job) && Shaped(job, st) && d < job.devices
    ensures |r| == |st.feats[d]|
  {
    assert ValidShard(job.shards[d], d, job.part, job.lidx, job.u, job.v);
    SpMM(job.f, job.shards[d].csr, st.tables[d])
  }

  lemma SendRowsLocal<T>(job: Job<T>, o: nat)
    requires JobOk(job) && o < job.devices
    ensures o < |job.staging.sendIdx| && o < |job.shards|
    ensures Below(job.staging.sendIdx[o], |job.shards[o].locals|) && |job.shards[o].locals| == Count(job.part, o)
  {
    assert ValidShard(job.shards[o], o, job.part, job.lidx, job.u, job.v);
  }

  /** Where a copy reads and writes. */
  lemma TransferFacts<T>(job: Job<T>, d: nat, k: nat)
    requires JobOk(job) && d < job.devices && k < Copies(job, d)
    ensures d < |job.staging.recvPlan| && k < |job.staging.recvPlan[d]| && d < |job.shards|
    ensures var t := job.staging.recvPlan[d][k];
            && t.owner < job.devices == |job.staging.sendIdx| && Sends(job, t.owner)
            && t.lo + |t.slots| <= |job.staging.sendIdx[t.owner]|
            && Below(t.slots, |job.shards[d].Slots()|)
            && Staged(t, t.owner, job.staging.sendIdx[t.owner], job.part, job.lidx, job.shards[d])
  {
    assert Incoming(job.staging.recvPlan[d], job.staging.sendIdx, job.part, job.lidx, job.shards[d]);
  }

  /** One operation of one stream. */
  ghost predicate StreamStep<T>(job: Job<T>, st: State<T>, st': State<T>, s: Stream) {
    JobOk(job) && Shaped(job, st) && Ready(job, st, s) && st' == Advance(Effect(job, st, s), s)
  }

  /** Every stream of every device has run dry. */
  ghost predicate Drained<T>(job: Job<T>, st: State<T>) {
    forall s: Stream :: Device(s) < job.devices ==> Head(st, s) == Length(job, st.phase, s)
  }

  function Zeros(n: nat): (r: seq<nat>)
    ensures |r| == n && forall i :: 0 <= i < n ==> r[i] == 0
  {
    seq(n, _ => 0)
  }

  /** `torch.cuda.synchronize` on every device, then the host enqueues the other phase. */
  ghost predicate SyncStep<T>(job: Job<T>, st: State<T>, st': State<T>) {
    && JobOk(job) && Shaped(job, st) && Drained(job, st)
    && st' == (match st.phase
               case Exchanging => st.(phase := Computing)
               case Computing => st.(phase := Exchanging, round := st.round + 1))
              .(dflt := Zeros(job.devices), out := Zeros(job.devices), inn := Zeros(job.devices))
  }

  ghost predicate Next<T>(job: Job<T>, st: State<T>, st': State<T>) {
    (exists s: Stream :: StreamStep(job, st, st', s)) || SyncStep(job, st, st')
  }

  /** The first exchange is about to start on the rows of `x`; every buffer holds garbage. */
  ghost predicate Init<T>(job: Job<T>, x: seq<T>, st: State<T>) {
    && JobOk(job) && Shaped(job, st) && |x| == |job.part|
    && st.phase == Exchanging && st.round == 0
    && st.dflt == st.out == st.inn == Zeros(job.devices)
    && forall d :: 0 <= d < job.devices ==> st.feats[d] == Select<T>(x, Indices(job.part, d))
  }

  // ---------------------------------------------------------------- invariant

  /** Slot `s` of device `d`'s table should hold `row`. */
  ghost predicate Holds<T>(job: Job<T>, h: seq<T>, d: nat, s: nat, row: T) {
    && d < |job.shards| && s < |job.shards[d].Slots()| && job.shards[d].Slots()[s] < |h|
    && row == h[job.shards[d].Slots()[s]]
  }

  ghost predicate OutOk<T>(job: Job<T>, h: seq<T>, o: nat, head: nat, buf: seq<T>)
    requires o < |job.staging.sendIdx|
  {
    head == 2 ==>
      && |buf| == |job.staging.sendIdx[o]|
      && forall r :: 0 <= r < |buf| ==> OwnRowAt(job, h, o, job.staging.sendIdx[o][r], buf[r])
  }

  ghost predicate OwnRowAt<T>(job: Job<T>, h: seq<T>, o: nat, i: nat, row: T) {
    i < Count(job.part, o) && Indices(job.part, o)[i] < |h| && row == h[Indices(job.part, o)[i]]
  }

  ghost predicate InOk<T>(job: Job<T>, h: seq<T>, d: nat, head: nat, out: seq<nat>, bufs: seq<seq<T>>)
    requires d < |job.staging.recvPlan|
  {
    |bufs| == Copies(job, d) && forall k :: 0 <= k < Copies(job, d) ==> CopyOk(job, h, d, k, head, out, bufs[k])
  }

  /** Past its wait the owner has gathered; past its copy the device buffer holds the right rows. */
  ghost predicate CopyOk<T>(job: Job<T>, h: seq<T>, d: nat, k: nat, head: nat, out: seq<nat>, buf: seq<T>)
    requires d < |job.staging.recvPlan| && k < |job.staging.recvPlan[d]|
  {
    var t := job.staging.recvPlan[d][k];
    && (head > 2 * k ==> t.owner < |out| && out[t.owner] == 2)
    && (head > 2 * k + 1 ==> |buf| == |t.slots| && forall j :: 0 <= j < |buf| ==> Holds(job, h, d, t.slots[j], buf[j]))
  }

  ghost predicate DfltOk<T>(job: Job<T>, h: seq<T>, d: nat, head: nat, innHead: nat, table: seq<T>)
    requires d < |job.staging.recvPlan| && d < |job.shards|
  {
    && |table| == |job.shards[d].Slots()|
    && (head >= 1 ==> forall s :: 0 <= s < |job.shards[d].locals| ==> Holds(job, h, d, s, table[s]))
    && (head >= 2 ==> innHead == 2 * Copies(job, d) && head - 2 <= Copies(job, d))
    && (head >= 2 ==> CopiesHeld(job, h, d, head - 2, table))
  }

  /** The first `n` copies have been scattered. */
  ghost predicate CopiesHeld<T>(job: Job<T>, h: seq<T>, d: nat, n: nat, table: seq<T>)
    requires d < |job.staging.recvPlan| && n <= Copies(job, d)
  {
    n == 0 || (CopiesHeld(job, h, d, n - 1, table) && SlotsHeld(job, h, d, job.staging.recvPlan[d][n - 1].slots, table))
  }

  lemma {:induction false} CopiesHeldAt<T>(job: Job<T>, h: seq<T>, d: nat, n: nat, table: seq<T>, k: nat)
    requires d < |job.staging.recvPlan| && k < n <= Copies(job, d) && CopiesHeld(job, h, d, n, table)
    ensures SlotsHeld(job, h, d, job.staging.recvPlan[d][k].slots, table)
  {
    if k < n - 1 {
      CopiesHeldAt(job, h, d, n - 1, table, k);
    }
  }

  lemma {:induction false} CopiesStillHeld<T>(job: Job<T>, h: seq<T>, d: nat, n: nat, table: seq<T>, after: seq<T>)
    requires d < |job.staging.recvPlan| && n <= Copies(job, d) && CopiesHeld(job, h, d, n, table) && |table| == |after|
    requires forall s :: 0 <= s < |table| && Holds(job, h, d, s, table[s]) ==> Holds(job, h, d, s, after[s])
    ensures CopiesHeld(job, h, d, n, after)
  {
    if n > 0 {
      CopiesStillHeld(job, h, d, n - 1, table, after);
      StillHeld(job, h, d, job.staging.recvPlan[d][n - 1].slots, table, after);
    }
  }

  ghost predicate SlotsHeld<T>(job: Job<T>, h: seq<T>, d: nat, slots: seq<nat>, table: seq<T>) {
    forall j :: 0 <= j < |slots| ==> slots[j] < |table| && Holds(job, h, d, slots[j], table[slots[j]])
  }

  /** The rows of the current layer, by vertex. */
  ghost function Rows<T>(job: Job<T>, x: seq<T>, round: nat): (h: seq<T>)
    requires JobOk(job) && |x| == |job.part|
    ensures |h| == |x|
  {
    Layers(job.f, job.u, job.v, x, round)
  }

  ghost predicate Inv<T>(job: Job<T>, x: seq<T>, st: State<T>) {
    && JobOk(job) && Shaped(job, st) && |x| == |job.part|
    && match st.phase
       case Exchanging => ExchangeInv(job, Rows(job, x, st.round), st)
       case Computing => ComputeInv(job, Rows(job, x, st.round), st)
  }

  ghost predicate Sized<T>(job: Job<T>, st: State<T>) {
    && |job.staging.sendIdx| == |job.staging.recvPlan| == |job.shards| == job.devices
    && |st.dflt| == |st.out| == |st.inn| == |st.tables| == |st.feats| == |st.host| == |st.staged| == job.devices
  }

  ghost predicate ExchangeInv<T>(job: Job<T>, h: seq<T>, st: State<T>) {
    && Sized(job, st) && FeatsAre(job, h, st)
    && (forall o :: 0 <= o < job.devices ==> OutOk(job, h, o, st.out[o], st.host[o]))
    && (forall d :: 0 <= d < job.devices ==> InOk(job, h, d, st.inn[d], st.out, st.staged[d]))
    && (forall d :: 0 <= d < job.devices ==> DfltOk(job, h, d, st.dflt[d], st.inn[d], st.tables[d]))
  }

  ghost predicate ComputeInv<T>(job: Job<T>, h: seq<T>, st: State<T>) {
    && Sized(job, st) && |h| == |job.part| && Graph(job.u, job.v, |job.part|)
    && (forall d :: 0 <= d < job.devices ==> TableRight(job, h, d, st.tables[d]))
    && (forall d :: 0 <= d < job.devices ==> FeatsRight(job, h, d, st.dflt[d], st.feats[d]))
  }

  ghost predicate FeatsAre<T>(job: Job<T>, h: seq<T>, st: State<T>) {
    && |h| == |job.part| && |st.feats| == job.devices
    && forall d :: 0 <= d < job.devices ==> st.feats[d] == Select<T>(h, Indices(job.part, d))
  }

  /** The table is exactly what the blocking exchange leaves: every slot holds its vertex's row. */
  ghost predicate TableRight<T>(job: Job<T>, h: seq<T>, d: nat, table: seq<T>)
    requires d < |job.shards|
  {
    && Below(job.shards[d].Slots(), |h|)
    && table == Select<T>(h, job.shards[d].Slots())
  }

  ghost predicate FeatsRight<T>(job: Job<T>, h: seq<T>, d: nat, head: nat, rows: seq<T>)
    requires Graph(job.u, job.v, |h|) && |h| == |job.part|
  {
    rows == Select<T>(if head == 0 then h else Layer(job.f, job.u, job.v, h), Indices(job.part, d))
  }

  lemma InitInv<T>(job: Job<T>, x: seq<T>, st: State<T>)
    requires Init(job, x, st)
    ensures Inv(job, x, st)
  {
    FreshHeads(job, Rows(job, x, 0), st);
  }

  /** With every stream at the start of the exchange only the buffer sizes matter. */
  lemma FreshHeads<T>(job: Job<T>, h: seq<T>, st: State<T>)
    requires JobOk(job) && Shaped(job, st) && st.phase == Exchanging
    requires st.dflt == st.out == st.inn == Zeros(job.devices)
    ensures forall o :: 0 <= o < job.devices ==> OutOk(job, h, o, st.out[o], st.host[o])
    ensures forall d :: 0 <= d < job.devices ==> InOk(job, h, d, st.inn[d], st.out, st.staged[d])
    ensures forall d :: 0 <= d < job.devices ==> DfltOk(job, h, d, st.dflt[d], st.inn[d], st.tables[d])
  {
  }

  lemma EffectSized<T>(job: Job<T>, st: State<T>, s: Stream)
    requires JobOk(job) && Shaped(job, st) && Ready(job, st, s)
    ensures BuffersSized(job, Effect(job, st, s))
    ensures Effect(job, st, s).phase == st.phase && Effect(job, st, s).round == st.round
  {
    hide JobOk;
  }

  lemma AdvanceSized<T>(job: Job<T>, st: State<T>, s: Stream)
    requires JobOk(job) && BuffersSized(job, st) && Device(s) < job.devices
    ensures BuffersSized(job, Advance(st, s)) && Advance(st, s).phase == st.phase && Advance(st, s).round == st.round
  {
    hide JobOk;
  }

  /** A step keeps every buffer size and stays inside the queue. */
  lemma StepShaped<T>(job: Job<T>, st: State<T>, st': State<T>, s: Stream)
    requires StreamStep(job, st, st', s)
    ensures Shaped(job, st') && st'.phase == st.phase && st'.round == st.round
  {
    EffectSized(job, st, s);
    AdvanceSized(job, Effect(job, st, s), s);
    hide JobOk, BuffersSized, Effect;
    forall t: Stream | Device(t) < job.devices ensures Head(st', t) <= Length(job, st'.phase, t) {
      StepHead(job, st, st', s, t);
    }
  }

  lemma StepHead<T>(job: Job<T>, st: State<T>, st': State<T>, s: Stream, t: Stream)
    requires StreamStep(job, st, st', s) && Device(t) < job.devices
    ensures Head(st', t) == Head(st, t) + if t == s then 1 else 0
  {
    hide JobOk;
  }

  // ---------------------------------------------------------------- what each operation writes

  lemma GatherRight<T>(job: Job<T>, h: seq<T>, st: State<T>, o: nat)
    requires JobOk(job) && Shaped(job, st) && FeatsAre(job, h, st) && o < job.devices
    ensures OutOk(job, h, o, 2, Gathered(job, st, o))
  {
    SendRowsLocal(job, o);
    var idx := job.staging.sendIdx[o];
    forall r | 0 <= r < |idx| ensures OwnRowAt(job, h, o, idx[r], Gathered(job, st, o)[r]) {
      assert Gathered(job, st, o)[r] == st.feats[o][idx[r]];
    }
  }

  /** A staged row is the row of the slot it is meant for. */
  lemma StagedRowRight<T>(job: Job<T>, h: seq<T>, d: nat, k: nat, j: nat, row: T)
    requires JobOk(job) && |h| == |job.part| && d < job.devices && k < Copies(job, d)
    requires d < |job.staging.recvPlan| && j < |job.staging.recvPlan[d][k].slots|
    requires var t := job.staging.recvPlan[d][k];
             t.owner < |job.staging.sendIdx| && t.lo + j < |job.staging.sendIdx[t.owner]| &&
             OwnRowAt(job, h, t.owner, job.staging.sendIdx[t.owner][t.lo + j], row)
    ensures Holds(job, h, d, job.staging.recvPlan[d][k].slots[j], row)
  {
    TransferFacts(job, d, k);
    var x := job.shards[d].Slots()[job.staging.recvPlan[d][k].slots[j]];
    assert PlacedAt(job.part, x, job.lidx[x]);
  }

  lemma CopyRight<T>(job: Job<T>, h: seq<T>, st: State<T>, d: nat, k: nat)
    requires JobOk(job) && Shaped(job, st) && |h| == |job.part| && d < job.devices && k < Copies(job, d)
    requires d < |job.staging.recvPlan| && job.staging.recvPlan[d][k].owner < job.devices
    requires var o := job.staging.recvPlan[d][k].owner; st.out[o] == 2 && OutOk(job, h, o, st.out[o], st.host[o])
    ensures forall j :: 0 <= j < |job.staging.recvPlan[d][k].slots| ==>
              Holds(job, h, d, job.staging.recvPlan[d][k].slots[j], CopiedIn(job, st, d, k)[j])
  {
    hide JobOk, Shaped, BuffersSized, Staged, Holds, OwnRowAt, CopiedIn;
    var t := job.staging.recvPlan[d][k];
    forall j | 0 <= j < |t.slots| ensures Holds(job, h, d, t.slots[j], CopiedIn(job, st, d, k)[j]) {
      CopiedRow(job, st, d, k, j);
      assert OwnRowAt(job, h, t.owner, job.staging.sendIdx[t.owner][t.lo + j], st.host[t.owner][t.lo + j]);
      StagedRowRight(job, h, d, k, j, st.host[t.owner][t.lo + j]);
    }
  }

  lemma CopiedRow<T>(job: Job<T>, st: State<T>, d: nat, k: nat, j: nat)
    requires JobOk(job) && Shaped(job, st) && d < job.devices && k < Copies(job, d)
    requires d < |job.staging.recvPlan| && j < |job.staging.recvPlan[d][k].slots|
    ensures var t := job.staging.recvPlan[d][k];
            && t.owner < |job.staging.sendIdx| == |st.host|
            && t.lo + j < |job.staging.sendIdx[t.owner]| == |st.host[t.owner]|
            && CopiedIn(job, st, d, k)[j] == st.host[t.owner][t.lo + j]
  {
    hide JobOk, Staged;
    TransferFacts(job, d, k);
  }

  lemma FillRight<T>(job: Job<T>, h: seq<T>, st: State<T>, d: nat)
    requires JobOk(job) && Shaped(job, st) && FeatsAre(job, h, st) && d < job.devices
    ensures forall s :: 0 <= s < |job.shards[d].locals| ==> Holds(job, h, d, s, Filled(job, st, d)[s])
  {
    assert ValidShard(job.shards[d], d, job.part, job.lidx, job.u, job.v);
    forall s | 0 <= s < |job.shards[d].locals| ensures Holds(job, h, d, s, Filled(job, st, d)[s]) {
      assert job.shards[d].Slots()[s] == Indices(job.part, d)[s];
    }
  }

  /** Scattering right rows fills the copy's slots and spoils no slot that was right. */
  lemma ScatterRight<T>(job: Job<T>, h: seq<T>, d: nat, table: seq<T>, slots: seq<nat>, rows: seq<T>)
    requires |slots| == |rows| && Below(slots, |table|)
    requires forall j :: 0 <= j < |slots| ==> Holds(job, h, d, slots[j], rows[j])
    ensures SlotsHeld(job, h, d, slots, SpreadRows<T>(table, slots, rows))
    ensures forall s :: 0 <= s < |table| && Holds(job, h, d, s, table[s]) ==>
              Holds(job, h, d, s, SpreadRows<T>(table, slots, rows)[s])
  {
    forall j | 0 <= j < |slots| ensures Holds(job, h, d, slots[j], SpreadRows<T>(table, slots, rows)[slots[j]]) {
      assert slots[j] in slots;
    }
  }

  lemma StillHeld<T>(job: Job<T>, h: seq<T>, d: nat, slots: seq<nat>, table: seq<T>, after: seq<T>)
    requires SlotsHeld(job, h, d, slots, table) && |table| == |after|
    requires forall s :: 0 <= s < |table| && Holds(job, h, d, s, table[s]) ==> Holds(job, h, d, s, after[s])
    ensures SlotsHeld(job, h, d, slots, after)
  {
    hide Holds;
  }

  lemma DfltAfterSpread<T>(job: Job<T>, h: seq<T>, d: nat, k: nat, innHead: nat, table: seq<T>, rows: seq<T>)
    requires JobOk(job) && d < job.devices && k < Copies(job, d)
    requires d < |job.staging.recvPlan| && d < |job.shards|
    requires DfltOk(job, h, d, k + 2, innHead, table) && |rows| == |job.staging.recvPlan[d][k].slots|
    requires forall j :: 0 <= j < |rows| ==> Holds(job, h, d, job.staging.recvPlan[d][k].slots[j], rows[j])
    ensures Below(job.staging.recvPlan[d][k].slots, |table|)
    ensures DfltOk(job, h, d, k + 3, innHead, SpreadRows<T>(table, job.staging.recvPlan[d][k].slots, rows))
  {
    hide JobOk, Holds, Staged, SlotsHeld, SpreadRows;
    TransferFacts(job, d, k);
    var slots := job.staging.recvPlan[d][k].slots;
    ScatterRight(job, h, d, table, slots, rows);
    var after := SpreadRows<T>(table, slots, rows);
    CopiesStillHeld(job, h, d, k, table, after);
  }

  /** When the default stream has drained, its table is the blocking exchange's table. */
  lemma DrainedTable<T>(job: Job<T>, h: seq<T>, d: nat, innHead: nat, table: seq<T>)
    requires JobOk(job) && |h| == |job.part| && d < job.devices
    requires d < |job.staging.recvPlan| && d < |job.shards|
    requires DfltOk(job, h, d, 2 + Copies(job, d), innHead, table)
    ensures TableRight(job, h, d, table)
  {
    var sh := job.shards[d];
    assert ValidShard(sh, d, job.part, job.lidx, job.u, job.v);
    forall s | 0 <= s < |table| ensures Holds(job, h, d, s, table[s]) {
      if s >= |sh.locals| {
        assert Reached(job.staging.recvPlan[d], s);
        var k, j :| 0 <= k < |job.staging.recvPlan[d]| && 0 <= j < |job.staging.recvPlan[d][k].slots| &&
                    job.staging.recvPlan[d][k].slots[j] == s;
        CopiesHeldAt(job, h, d, Copies(job, d), table, k);
      }
    }
  }

  lemma AggregateRight<T>(job: Job<T>, h: seq<T>, st: State<T>, d: nat)
    requires JobOk(job) && Shaped(job, st) && |h| == |job.part| && d < job.devices
    requires TableRight(job, h, d, st.tables[d])
    ensures FeatsRight(job, h, d, 1, Aggregated(job, st, d))
  {
    var sh := job.shards[d];
    assert ValidShard(sh, d, job.part, job.lidx, job.u, job.v);
    ShardLayer(job.f, sh, job.part, job.u, job.v, h, st.tables[d], Aggregated(job, st, d));
  }

  // ---------------------------------------------------------------- every step keeps the invariant

  /** An outgoing operation touches only its owner's host buffer. */
  ghost predicate OutgoingMove<T>(job: Job<T>, st: State<T>, st': State<T>, o: nat)
    requires JobOk(job) && Shaped(job, st)
  {
    && st.phase == Exchanging && o < job.devices
    && Sized(job, st) && Sized(job, st') && st.out[o] < 2
    && st'.feats == st.feats && st'.tables == st.tables && st'.dflt == st.dflt
    && st'.inn == st.inn && st'.staged == st.staged
    && st'.out == st.out[o := st.out[o] + 1] && st'.host == st.host[o := st'.host[o]]
    && (st.out[o] == 1 ==> st'.host[o] == Gathered(job, st, o))
  }

  lemma OutgoingEffect<T>(job: Job<T>, st: State<T>, st': State<T>, o: nat)
    requires StreamStep(job, st, st', CopyOut(o))
    ensures OutgoingMove(job, st, st', o)
  {
    assert Sized(job, st);
    hide JobOk;
    hide Shaped;
  }

  lemma OutgoingStep<T>(job: Job<T>, h: seq<T>, st: State<T>, st': State<T>, o: nat)
    requires ExchangeInv(job, h, st) && JobOk(job) && Shaped(job, st) && OutgoingMove(job, st, st', o)
    ensures ExchangeInv(job, h, st')
  {
    hide JobOk;
    hide Shaped;
    if st.out[o] == 1 {
      GatherRight(job, h, st, o);
    }
    assert OutOk(job, h, o, st'.out[o], st'.host[o]);
    forall d | 0 <= d < job.devices ensures InOk(job, h, d, st.inn[d], st'.out, st.staged[d]) {
      StillCopied(job, h, d, st.inn[d], st.out, o, st.staged[d]);
    }
    hide *;
    OutgoingFrame(job, h, st, st', o);
  }

  lemma OutgoingFrame<T>(job: Job<T>, h: seq<T>, st: State<T>, st': State<T>, o: nat)
    requires ExchangeInv(job, h, st) && Sized(job, st') && o < job.devices
    requires st'.feats == st.feats && st'.tables == st.tables && st'.dflt == st.dflt
    requires st'.inn == st.inn && st'.staged == st.staged
    requires |st'.out| == |st.out| && st'.host == st.host[o := st'.host[o]]
    requires forall e :: 0 <= e < job.devices && e != o ==> st'.out[e] == st.out[e]
    requires OutOk(job, h, o, st'.out[o], st'.host[o])
    requires forall d :: 0 <= d < job.devices ==> InOk(job, h, d, st.inn[d], st'.out, st.staged[d])
    ensures ExchangeInv(job, h, st')
  {
    hide InOk;
    hide DfltOk;
    forall e | 0 <= e < job.devices ensures OutOk(job, h, e, st'.out[e], st'.host[e]) {
      if e != o {
        assert OutOk(job, h, e, st.out[e], st.host[e]);
      }
    }
  }

  /** An outgoing stream that still moves has not been waited past. */
  lemma StillCopied<T>(job: Job<T>, h: seq<T>, d: nat, head: nat, out: seq<nat>, o: nat, bufs: seq<seq<T>>)
    requires d < |job.staging.recvPlan| && InOk(job, h, d, head, out, bufs) && o < |out| && out[o] < 2
    ensures InOk(job, h, d, head, out[o := out[o] + 1], bufs)
  {
    hide Holds;
    forall k | 0 <= k < Copies(job, d) ensures CopyOk(job, h, d, k, head, out[o := out[o] + 1], bufs[k]) {
      assert CopyOk(job, h, d, k, head, out, bufs[k]);
    }
  }

  /** An incoming operation touches only the landing buffer of its copy. */
  ghost predicate IncomingMove<T>(job: Job<T>, st: State<T>, st': State<T>, d: nat)
    requires JobOk(job) && Shaped(job, st)
  {
    && st.phase == Exchanging && d < job.devices
    && Sized(job, st) && Sized(job, st')
    && st'.feats == st.feats && st'.tables == st.tables && st'.dflt == st.dflt
    && st'.out == st.out && st'.host == st.host && st'.inn == st.inn[d := st.inn[d] + 1]
    && var k := st.inn[d] / 2;
       && k < Copies(job, d) && |st.staged[d]| == Copies(job, d)
       && if st.inn[d] % 2 == 0 then
            st'.staged == st.staged && 2 <= Head(st, CopyOut(job.staging.recvPlan[d][k].owner))
          else
            st'.staged == st.staged[d := st.staged[d][k := CopiedIn(job, st, d, k)]]
  }

  lemma IncomingEffect<T>(job: Job<T>, st: State<T>, st': State<T>, d: nat)
    requires StreamStep(job, st, st', CopyIn(d))
    ensures IncomingMove(job, st, st', d)
  {
    assert Sized(job, st) && |st.staged[d]| == Copies(job, d);
    hide JobOk;
    hide Shaped;
  }

  lemma IncomingStep<T>(job: Job<T>, h: seq<T>, st: State<T>, st': State<T>, d: nat)
    requires ExchangeInv(job, h, st) && JobOk(job) && Shaped(job, st) && IncomingMove(job, st, st', d)
    ensures ExchangeInv(job, h, st')
  {
    hide JobOk;
    hide Shaped;
    var i := st.inn[d];
    assert InOk(job, h, d, i, st.out, st.staged[d]);
    var buf := st'.staged[d][i / 2];
    IncomingCopy(job, h, st, st', d);
    IncomingTable(job, h, d, st.dflt[d], i, st.tables[d]);
    if i % 2 == 0 {
      assert st.staged[d][i / 2 := buf] == st.staged[d];
    }
    assert st'.staged == st.staged[d := st.staged[d][i / 2 := buf]];
    hide *;
    OneMoreCopy(job, h, d, i, st.out, st.staged[d], buf);
    IncomingFrame(job, h, st, st', d);
  }

  lemma IncomingFrame<T>(job: Job<T>, h: seq<T>, st: State<T>, st': State<T>, d: nat)
    requires ExchangeInv(job, h, st) && Sized(job, st') && d < job.devices
    requires st'.feats == st.feats && st'.tables == st.tables && st'.dflt == st.dflt
    requires st'.out == st.out && st'.host == st.host
    requires st'.inn == st.inn[d := st'.inn[d]] && st'.staged == st.staged[d := st'.staged[d]]
    requires InOk(job, h, d, st'.inn[d], st'.out, st'.staged[d])
    requires DfltOk(job, h, d, st'.dflt[d], st'.inn[d], st'.tables[d])
    ensures ExchangeInv(job, h, st')
  {
    hide OutOk;
    forall e | 0 <= e < job.devices
      ensures InOk(job, h, e, st'.inn[e], st'.out, st'.staged[e])
      ensures DfltOk(job, h, e, st'.dflt[e], st'.inn[e], st'.tables[e])
    {
      hide InOk;
      hide DfltOk;
      if e != d {
        assert InOk(job, h, e, st.inn[e], st.out, st.staged[e]);
        assert DfltOk(job, h, e, st.dflt[e], st.inn[e], st.tables[e]);
      }
    }
  }

  /** The default stream has not passed its wait while copies are outstanding. */
  lemma IncomingTable<T>(job: Job<T>, h: seq<T>, d: nat, head: nat, innHead: nat, table: seq<T>)
    requires d < |job.staging.recvPlan| && d < |job.shards|
    requires DfltOk(job, h, d, head, innHead, table) && innHead / 2 < Copies(job, d)
    ensures DfltOk(job, h, d, head, innHead + 1, table)
  {
  }

  /** Only the copy the stream is working on changes. */
  lemma OneMoreCopy<T>(job: Job<T>, h: seq<T>, d: nat, i: nat, out: seq<nat>, bufs: seq<seq<T>>, buf: seq<T>)
    requires d < |job.staging.recvPlan| && InOk(job, h, d, i, out, bufs) && i / 2 < Copies(job, d)
    requires CopyOk(job, h, d, i / 2, i + 1, out, buf)
    ensures InOk(job, h, d, i + 1, out, bufs[i / 2 := buf])
  {
    hide Holds;
    var bufs' := bufs[i / 2 := buf];
    forall n | 0 <= n < Copies(job, d) ensures CopyOk(job, h, d, n, i + 1, out, bufs'[n]) {
      assert CopyOk(job, h, d, n, i, out, bufs[n]);
    }
  }

  lemma IncomingCopy<T>(job: Job<T>, h: seq<T>, st: State<T>, st': State<T>, d: nat)
    requires ExchangeInv(job, h, st) && JobOk(job) && Shaped(job, st) && IncomingMove(job, st, st', d)
    ensures CopyOk(job, h, d, st.inn[d] / 2, st.inn[d] + 1, st.out, st'.staged[d][st.inn[d] / 2])
  {
    var k := st.inn[d] / 2;
    TransferFacts(job, d, k);
    var o := job.staging.recvPlan[d][k].owner;
    assert Head(st, CopyOut(o)) <= Length(job, st.phase, CopyOut(o));
    hide JobOk;
    hide Shaped;
    assert CopyOk(job, h, d, k, st.inn[d], st.out, st.staged[d][k]);
    if st.inn[d] % 2 == 1 {
      CopyRight(job, h, st, d, k);
    }
    hide ExchangeInv;
    hide Holds;
  }

  /** A default-stream operation touches only its device's table. */
  ghost predicate DefaultMove<T>(job: Job<T>, st: State<T>, st': State<T>, d: nat)
    requires JobOk(job) && Shaped(job, st)
  {
    && st.phase == Exchanging && d < job.devices
    && Sized(job, st) && Sized(job, st')
    && st'.feats == st.feats && st'.out == st.out && st'.host == st.host
    && st'.inn == st.inn && st'.staged == st.staged
    && st'.dflt == st.dflt[d := st.dflt[d] + 1] && st'.tables == st.tables[d := st'.tables[d]]
    && (st.dflt[d] == 0 ==> st'.tables[d] == Filled(job, st, d))
    && (st.dflt[d] == 1 ==> st'.tables[d] == st.tables[d] && st.inn[d] >= 2 * Copies(job, d))
    && (st.dflt[d] >= 2 ==> st.dflt[d] - 2 < Copies(job, d) && st'.tables[d] == Scattered(job, st, d, st.dflt[d] - 2))
  }

  lemma DefaultEffect<T>(job: Job<T>, st: State<T>, st': State<T>, d: nat)
    requires StreamStep(job, st, st', Default(d)) && st.phase == Exchanging
    ensures DefaultMove(job, st, st', d)
  {
    hide JobOk, Shaped, BuffersSized;
    ShapedSized(job, st);
  }

  lemma ShapedSized<T>(job: Job<T>, st: State<T>)
    requires JobOk(job) && Shaped(job, st)
    ensures Sized(job, st)
  {
  }

  lemma FillTable<T>(job: Job<T>, h: seq<T>, st: State<T>, d: nat)
    requires JobOk(job) && Shaped(job, st) && FeatsAre(job, h, st) && d < job.devices
    requires d < |job.staging.recvPlan| && d < |job.shards|
    ensures DfltOk(job, h, d, 1, st.inn[d], Filled(job, st, d))
  {
    FillRight(job, h, st, d);
  }

  lemma SpreadTable<T>(job: Job<T>, h: seq<T>, st: State<T>, d: nat, k: nat)
    requires JobOk(job) && Shaped(job, st) && d < job.devices && k < Copies(job, d)
    requires d < |job.staging.recvPlan| && d < |job.shards| && st.dflt[d] == k + 2
    requires DfltOk(job, h, d, st.dflt[d], st.inn[d], st.tables[d]) && InOk(job, h, d, st.inn[d], st.out, st.staged[d])
    ensures DfltOk(job, h, d, k + 3, st.inn[d], Scattered(job, st, d, k))
  {
    assert CopyOk(job, h, d, k, st.inn[d], st.out, st.staged[d][k]);
    DfltAfterSpread(job, h, d, k, st.inn[d], st.tables[d], st.staged[d][k]);
  }

  lemma DefaultStep<T>(job: Job<T>, h: seq<T>, st: State<T>, st': State<T>, d: nat)
    requires ExchangeInv(job, h, st) && JobOk(job) && Shaped(job, st) && DefaultMove(job, st, st', d)
    ensures ExchangeInv(job, h, st')
  {
    hide JobOk;
    hide Shaped;
    assert DfltOk(job, h, d, st.dflt[d], st.inn[d], st.tables[d]) && InOk(job, h, d, st.inn[d], st.out, st.staged[d]);
    if st.dflt[d] == 0 {
      FillTable(job, h, st, d);
      hide *;
      DefaultFrame(job, h, st, st', d, 1, Filled(job, st, d));
    } else if st.dflt[d] == 1 {
      AllCopied(job, st, d);
      hide *;
      AwaitTable(job, h, d, st.inn[d], st.tables[d]);
      DefaultFrame(job, h, st, st', d, 2, st.tables[d]);
    } else {
      hide ExchangeInv;
      hide DfltOk;
      hide InOk;
      SpreadTable(job, h, st, d, st.dflt[d] - 2);
      hide *;
      DefaultFrame(job, h, st, st', d, st.dflt[d] + 1, Scattered(job, st, d, st.dflt[d] - 2));
    }
  }

  lemma AllCopied<T>(job: Job<T>, st: State<T>, d: nat)
    requires JobOk(job) && Shaped(job, st) && st.phase == Exchanging && d < job.devices && d < |st.inn|
    ensures st.inn[d] <= 2 * Copies(job, d)
  {
    assert Head(st, CopyIn(d)) <= Length(job, st.phase, CopyIn(d));
  }

  lemma AwaitTable<T>(job: Job<T>, h: seq<T>, d: nat, innHead: nat, table: seq<T>)
    requires d < |job.staging.recvPlan| && d < |job.shards|
    requires DfltOk(job, h, d, 1, innHead, table) && innHead == 2 * Copies(job, d)
    ensures DfltOk(job, h, d, 2, innHead, table)
  {
  }

  lemma DefaultFrame<T>(job: Job<T>, h: seq<T>, st: State<T>, st': State<T>, d: nat, head: nat, table: seq<T>)
    requires ExchangeInv(job, h, st) && Sized(job, st') && d < job.devices
    requires st'.feats == st.feats && st'.out == st.out && st'.host == st.host
    requires st'.inn == st.inn && st'.staged == st.staged
    requires st'.dflt == st.dflt[d := head] && st'.tables == st.tables[d := table]
    requires DfltOk(job, h, d, head, st.inn[d], table)
    ensures ExchangeInv(job, h, st')
  {
    hide OutOk;
    hide InOk;
    forall e | 0 <= e < job.devices ensures DfltOk(job, h, e, st'.dflt[e], st'.inn[e], st'.tables[e]) {
      hide DfltOk;
      if e != d {
        assert DfltOk(job, h, e, st.dflt[e], st.inn[e], st.tables[e]);
      }
    }
  }

  ghost predicate ComputeMove<T>(job: Job<T>, st: State<T>, st': State<T>, d: nat)
    requires JobOk(job) && Shaped(job, st)
  {
    && st.phase == Computing && d < job.devices
    && Sized(job, st) && Sized(job, st') && st.dflt[d] == 0 && st'.tables == st.tables
    && st'.dflt == st.dflt[d := 1] && st'.feats == st.feats[d := Aggregated(job, st, d)]
  }

  lemma ComputeEffect<T>(job: Job<T>, st: State<T>, st': State<T>, s: Stream)
    requires StreamStep(job, st, st', s) && st.phase == Computing
    ensures s.Default? && ComputeMove(job, st, st', s.d)
  {
    assert Sized(job, st);
    hide JobOk;
    hide Shaped;
  }

  lemma ComputeStep<T>(job: Job<T>, h: seq<T>, st: State<T>, st': State<T>, d: nat)
    requires ComputeInv(job, h, st) && JobOk(job) && Shaped(job, st) && ComputeMove(job, st, st', d)
    ensures ComputeInv(job, h, st')
  {
    hide JobOk;
    hide Shaped;
    AggregateRight(job, h, st, d);
    hide TableRight;
    forall e | 0 <= e < job.devices ensures FeatsRight(job, h, e, st'.dflt[e], st'.feats[e]) {
      hide FeatsRight;
      if e != d {
        assert FeatsRight(job, h, e, st.dflt[e], st.feats[e]);
      }
    }
  }

  /** The end of an exchange: every table is right. */
  lemma ExchangeDone<T>(job: Job<T>, h: seq<T>, st: State<T>)
    requires JobOk(job) && Shaped(job, st) && Drained(job, st) && st.phase == Exchanging && ExchangeInv(job, h, st)
    ensures forall d :: 0 <= d < job.devices ==> TableRight(job, h, d, st.tables[d])
  {
    forall d | 0 <= d < job.devices ensures TableRight(job, h, d, st.tables[d]) {
      assert Head(st, Default(d)) == Length(job, st.phase, Default(d));
      assert DfltOk(job, h, d, st.dflt[d], st.inn[d], st.tables[d]);
      DrainedTable(job, h, d, st.inn[d], st.tables[d]);
    }
  }

  /** The end of a compute phase: every device holds its rows of the next layer. */
  lemma ComputeDone<T>(job: Job<T>, h: seq<T>, st: State<T>)
    requires JobOk(job) && Shaped(job, st) && Drained(job, st) && st.phase == Computing && ComputeInv(job, h, st)
    ensures FeatsAre(job, Layer(job.f, job.u, job.v, h), st)
  {
    forall d | 0 <= d < job.devices
      ensures st.feats[d] == Select<T>(Layer(job.f, job.u, job.v, h), Indices(job.part, d))
    {
      assert Head(st, Default(d)) == Length(job, st.phase, Default(d));
      assert FeatsRight(job, h, d, st.dflt[d], st.feats[d]);
    }
  }

  lemma SyncShaped<T>(job: Job<T>, st: State<T>, st': State<T>)
    requires SyncStep(job, st, st')
    ensures Shaped(job, st')
  {
    hide JobOk;
  }

  lemma ExchangeSync<T>(job: Job<T>, h: seq<T>, st: State<T>, st': State<T>)
    requires SyncStep(job, st, st') && st.phase == Exchanging && ExchangeInv(job, h, st)
    ensures ComputeInv(job, h, st')
  {
    ExchangeDone(job, h, st);
    hide Shaped;
    hide TableRight;
    hide OutOk;
    hide InOk;
    hide DfltOk;
  }

  lemma ComputeSync<T>(job: Job<T>, h: seq<T>, st: State<T>, st': State<T>)
    requires SyncStep(job, st, st') && st.phase == Computing && ComputeInv(job, h, st)
    ensures ExchangeInv(job, Layer(job.f, job.u, job.v, h), st')
  {
    SyncShaped(job, st, st');
    ComputeDone(job, h, st);
    FreshHeads(job, Layer(job.f, job.u, job.v, h), st');
    hide Shaped;
    hide OutOk;
    hide InOk;
    hide DfltOk;
  }

  lemma SyncKeepsInv<T>(job: Job<T>, x: seq<T>, st: State<T>, st': State<T>)
    requires Inv(job, x, st) && SyncStep(job, st, st')
    ensures Inv(job, x, st')
  {
    SyncShaped(job, st, st');
    var h := Rows(job, x, st.round);
    hide Shaped;
    hide ExchangeInv;
    hide ComputeInv;
    if st.phase == Exchanging {
      ExchangeSync(job, h, st, st');
    } else {
      ComputeSync(job, h, st, st');
    }
  }

  /** Whatever stream moves next, the invariant survives. */
  lemma NextInv<T>(job: Job<T>, x: seq<T>, st: State<T>, st': State<T>)
    requires Inv(job, x, st) && Next(job, st, st')
    ensures Inv(job, x, st')
  {
    if SyncStep(job, st, st') {
      SyncKeepsInv(job, x, st, st');
    } else {
      var s: Stream :| StreamStep(job, st, st', s);
      StepShaped(job, st, st', s);
      StreamInv(job, Rows(job, x, st.round), st, st', s);
    }
  }

  lemma StreamInv<T>(job: Job<T>, h: seq<T>, st: State<T>, st': State<T>, s: Stream)
    requires StreamStep(job, st, st', s)
    ensures st.phase == Exchanging && ExchangeInv(job, h, st) ==> ExchangeInv(job, h, st')
    ensures st.phase == Computing && ComputeInv(job, h, st) ==> ComputeInv(job, h, st')
  {
    assert JobOk(job) && Shaped(job, st);
    hide *;
    if st.phase == Exchanging && ExchangeInv(job, h, st) {
      match s {
        case CopyOut(o) =>
          OutgoingEffect(job, st, st', o);
          OutgoingStep(job, h, st, st', o);
        case CopyIn(d) =>
          IncomingEffect(job, st, st', d);
          IncomingStep(job, h, st, st', d);
        case Default(d) =>
          DefaultEffect(job, st, st', d);
          DefaultStep(job, h, st, st', d);
      }
    }
    if st.phase == Computing && ComputeInv(job, h, st) {
      ComputeEffect(job, st, st', s);
      ComputeStep(job, h, st, st', s.d);
    }
  }

  // ---------------------------------------------------------------- every run

  /** Any interleaving of the streams, from the first exchange on. */
  ghost predicate Run<T>(job: Job<T>, x: seq<T>, run: seq<State<T>>) {
    && run != [] && Init(job, x, run[0])
    && forall i :: 0 <= i < |run| - 1 ==> Next(job, run[i], run[i + 1])
  }

  lemma {:induction false} RunInv<T>(job: Job<T>, x: seq<T>, run: seq<State<T>>, i: nat)
    requires Run(job, x, run) && i < |run|
    ensures Inv(job, x, run[i])
  {
    if i == 0 {
      InitInv(job, x, run[0]);
    } else {
      RunInv(job, x, run, i - 1);
      assert Next(job, run[i - 1], run[i - 1 + 1]);
      NextInv(job, x, run[i - 1], run[i]);
    }
  }

  /** Whatever the interleaving: while round `r` is exchanging the devices hold the rows of layer
      `r` of the partition-free reference, and when that exchange ends every table is exactly the
      one the blocking exchange leaves. */
  lemma EveryInterleaving<T>(job: Job<T>, x: seq<T>, run: seq<State<T>>, i: nat, d: nat)
    requires Run(job, x, run) && i < |run| && d < job.devices && run[i].phase == Exchanging
    ensures JobOk(job) && |x| == |job.part| && Shaped(job, run[i])
    ensures run[i].feats[d] == Select<T>(Layers(job.f, job.u, job.v, x, run[i].round), Indices(job.part, d))
    ensures Drained(job, run[i]) ==>
              TableRight(job, Layers(job.f, job.u, job.v, x, run[i].round), d, run[i].tables[d])
  {
    RunInv(job, x, run, i);
    if Drained(job, run[i]) {
      ExchangeDone(job, Rows(job, x, run[i].round), run[i]);
    }
  }

  // ---------------------------------------------------------------- no races

  datatype Buffer = Table(d: nat) | Feats(d: nat) | Host(o: nat) | Landing(d: nat, k: nat)

  ghost function Writes<T>(job: Job<T>, s: Stream, op: Op): set<Buffer> {
    match (op, s)
    case (FillLocals, Default(d)) => {Table(d)}
    case (Gather, CopyOut(o)) => {Host(o)}
    case (Stage(k), CopyIn(d)) => {Landing(d, k)}
    case (Spread(k), Default(d)) => {Table(d)}
    case (Aggregate, Default(d)) => {Feats(d)}
    case _ => {}
  }

  ghost function Reads<T>(job: Job<T>, s: Stream, op: Op): set<Buffer> {
    match (op, s)
    case (FillLocals, Default(d)) => {Feats(d)}
    case (Gather, CopyOut(o)) => {Feats(o)}
    case (Stage(k), CopyIn(d)) => if k < Copies(job, d) then {Host(job.staging.recvPlan[d][k].owner)} else {}
    case (Spread(k), Default(d)) => {Landing(d, k)}
    case (Aggregate, Default(d)) => {Table(d)}
    case _ => {}
  }

  /** An incoming copy runs only after its owner has gathered. */
  lemma OwnerGathered<T>(job: Job<T>, h: seq<T>, st: State<T>, d: nat, k: nat)
    requires ExchangeInv(job, h, st) && d < job.devices && k < Copies(job, d) && st.inn[d] == 2 * k + 1
    ensures var o := job.staging.recvPlan[d][k].owner; o < |st.out| && st.out[o] == 2
  {
    hide Holds;
    assert CopyOk(job, h, d, k, st.inn[d], st.out, st.staged[d][k]);
  }

  /** A scatter runs only after all of its device's copies. */
  lemma CopiesLanded<T>(job: Job<T>, h: seq<T>, st: State<T>, d: nat)
    requires ExchangeInv(job, h, st) && d < job.devices && st.dflt[d] >= 2
    ensures st.inn[d] == 2 * Copies(job, d)
  {
    hide Holds;
    assert DfltOk(job, h, d, st.dflt[d], st.inn[d], st.tables[d]);
  }

  /** Two operations that may run at the same time never touch a common buffer that either writes:
      in particular no buffer is rewritten while another stream still reads it. */
  lemma RaceFree<T>(job: Job<T>, x: seq<T>, run: seq<State<T>>, i: nat, s: Stream, t: Stream)
    requires Run(job, x, run) && i < |run| && s != t && Ready(job, run[i], s) && Ready(job, run[i], t)
    ensures var st := run[i];
            var a, b := OpAt(job, st.phase, s, Head(st, s)), OpAt(job, st.phase, t, Head(st, t));
            Writes(job, s, a) !! (Reads(job, t, b) + Writes(job, t, b))
  {
    RunInv(job, x, run, i);
    var st := run[i];
    var h := Rows(job, x, st.round);
    if st.phase == Exchanging {
      assert Sized(job, st);
      hide JobOk;
      hide Shaped;
      hide Run;
      hide ExchangeInv;
      ExchangeRaceFree(job, h, st, s, t);
    }
  }

  lemma ExchangeRaceFree<T>(job: Job<T>, h: seq<T>, st: State<T>, s: Stream, t: Stream)
    requires ExchangeInv(job, h, st) && st.phase == Exchanging && s != t && Ready(job, st, s) && Ready(job, st, t)
    ensures var a, b := OpAt(job, st.phase, s, Head(st, s)), OpAt(job, st.phase, t, Head(st, t));
            Writes(job, s, a) !! (Reads(job, t, b) + Writes(job, t, b))
  {
    assert Sized(job, st);
    if s.CopyOut? && t.CopyIn? && st.inn[t.dest] % 2 == 1 {
      OwnerGathered(job, h, st, t.dest, st.inn[t.dest] / 2);
    } else if s.CopyIn? && t.Default? && st.dflt[t.d] >= 2 {
      CopiesLanded(job, h, st, t.d);
    }
    hide ExchangeInv;
  }

  /** No scatter starts before its rows have landed. */
  lemma NoEarlyScatter<T>(job: Job<T>, x: seq<T>, run: seq<State<T>>, i: nat, d: nat, k: nat, j: nat)
    requires Run(job, x, run) && i < |run| && Ready(job, run[i], Default(d))
    requires OpAt(job, run[i].phase, Default(d), Head(run[i], Default(d))) == Spread(k)
    requires d < |job.staging.recvPlan| && k < |job.staging.recvPlan[d]| && j < |job.staging.recvPlan[d][k].slots|
    ensures JobOk(job) && |x| == |job.part| && d < |run[i].staged| && k < |run[i].staged[d]|
    ensures j < |run[i].staged[d][k]|
    ensures Holds(job, Rows(job, x, run[i].round), d, job.staging.recvPlan[d][k].slots[j], run[i].staged[d][k][j])
  {
    RunInv(job, x, run, i);
    ScatterFacts(job, run[i], d, k);
    assert ExchangeInv(job, Rows(job, x, run[i].round), run[i]);
    hide *;
    RowsLanded(job, Rows(job, x, run[i].round), run[i], d, k, j);
  }

  lemma ScatterFacts<T>(job: Job<T>, st: State<T>, d: nat, k: nat)
    requires Ready(job, st, Default(d)) && OpAt(job, st.phase, Default(d), Head(st, Default(d))) == Spread(k)
    ensures st.phase == Exchanging && d < job.devices && d < |st.dflt| && st.dflt[d] == k + 2
  {
  }

  lemma RowsLanded<T>(job: Job<T>, h: seq<T>, st: State<T>, d: nat, k: nat, j: nat)
    requires ExchangeInv(job, h, st) && d < job.devices && d < |st.dflt| && st.dflt[d] == k + 2
    requires d < |job.staging.recvPlan| && k < |job.staging.recvPlan[d]| && j < |job.staging.recvPlan[d][k].slots|
    ensures d < |st.staged| && k < |st.staged[d]| && j < |st.staged[d][k]|
    ensures Holds(job, h, d, job.staging.recvPlan[d][k].slots[j], st.staged[d][k][j])
  {
    hide Holds;
    CopiesLanded(job, h, st, d);
    assert CopyOk(job, h, d, k, st.inn[d], st.out, st.staged[d][k]);
  }

  // ---------------------------------------------------------------- no deadlock

  /** While work is left some stream can move: the waits never form a cycle. */
  lemma NoDeadlock<T>(job: Job<T>, x: seq<T>, run: seq<State<T>>, i: nat) returns (s: Stream)
    requires Run(job, x, run) && i < |run| && !Drained(job, run[i])
    ensures Ready(job, run[i], s)
  {
    RunInv(job, x, run, i);
    var st := run[i];
    var t: Stream :| Device(t) < job.devices && Head(st, t) != Length(job, st.phase, t);
    assert JobOk(job) && Shaped(job, st) && Head(st, t) < Length(job, st.phase, t);
    hide *;
    s := UnblockDefault(job, st, t);
  }

  /** A stream that cannot move waits for one that can, or for one that waits for one that can. */
  lemma UnblockDefault<T>(job: Job<T>, st: State<T>, t: Stream) returns (s: Stream)
    requires JobOk(job) && Shaped(job, st) && Device(t) < job.devices && Head(st, t) < Length(job, st.phase, t)
    ensures Ready(job, st, s)
  {
    hide JobOk;
    if Ready(job, st, t) {
      s := t;
    } else if t.Default? {
      s := UnblockIncoming(job, st, t.d);
    } else {
      s := UnblockIncoming(job, st, t.dest);
    }
  }

  lemma UnblockIncoming<T>(job: Job<T>, st: State<T>, d: nat) returns (s: Stream)
    requires JobOk(job) && Shaped(job, st) && st.phase == Exchanging && d < job.devices
    requires Head(st, CopyIn(d)) < 2 * Copies(job, d)
    ensures Ready(job, st, s)
  {
    s := CopyIn(d);
    var i := Head(st, s);
    TransferFacts(job, d, i / 2);
    hide JobOk;
    hide Shaped;
    var o := job.staging.recvPlan[d][i / 2].owner;
    if i % 2 == 0 && Head(st, CopyOut(o)) < 2 {
      s := CopyOut(o);
    }
  }

  /** Operations finished in the current phase. */
  ghost function Finished<T>(st: State<T>): int {
    Sum(st.dflt) + Sum(st.out) + Sum(st.inn)
  }

  ghost function Enqueued<T>(job: Job<T>, phase: Phase): int {
    Sum(Lengths(job, phase, 0)) + Sum(Lengths(job, phase, 1)) + Sum(Lengths(job, phase, 2))
  }

  ghost function Lengths<T>(job: Job<T>, phase: Phase, kind: nat): (r: seq<int>)
    ensures |r| == job.devices
    ensures forall d :: 0 <= d < |r| ==>
              r[d] == Length(job, phase, if kind == 0 then Default(d) else if kind == 1 then CopyOut(d) else CopyIn(d))
  {
    seq(job.devices, (d: nat) =>
      Length(job, phase, if kind == 0 then Default(d) else if kind == 1 then CopyOut(d) else CopyIn(d)))
  }

  /** Every operation brings the phase one closer to its end, so each phase runs exactly the
      operations enqueued for it. */
  lemma PhaseEnds<T>(job: Job<T>, st: State<T>, st': State<T>, s: Stream)
    requires StreamStep(job, st, st', s)
    ensures Finished(st) < Finished(st') <= Enqueued(job, st.phase)
    ensures Finished(st') == Finished(st) + 1
  {
    StepShaped(job, st, st', s);
    EffectKeepsHeads(job, st, s);
    HeadsAdvance(Effect(job, st, s), s);
    assert JobOk(job);
    hide *;
    HeadsBounded(job, st');
    SameHeads(st, Effect(job, st, s));
  }

  lemma SameHeads<T>(a: State<T>, b: State<T>)
    requires a.dflt == b.dflt && a.out == b.out && a.inn == b.inn
    ensures Finished(a) == Finished(b)
  {
  }

  lemma HeadsAdvance<T>(st: State<T>, s: Stream)
    requires Device(s) < |st.dflt| == |st.out| == |st.inn|
    ensures Finished(Advance(st, s)) == Finished(st) + 1
  {
    match s {
      case Default(d) => SumUpdate(st.dflt, d, st.dflt[d] + 1);
      case CopyOut(o) => SumUpdate(st.out, o, st.out[o] + 1);
      case CopyIn(d) => SumUpdate(st.inn, d, st.inn[d] + 1);
    }
  }

  lemma EffectKeepsHeads<T>(job: Job<T>, st: State<T>, s: Stream)
    requires JobOk(job) && Shaped(job, st) && Ready(job, st, s)
    ensures var e := Effect(job, st, s); e.dflt == st.dflt && e.out == st.out && e.inn == st.inn
    ensures Device(s) < |st.dflt| == |st.out| == |st.inn|
  {
    hide JobOk;
  }

  lemma HeadsBounded<T>(job: Job<T>, st: State<T>)
    requires JobOk(job) && Shaped(job, st)
    ensures Finished(st) <= Enqueued(job, st.phase)
  {
    hide JobOk;
    forall d | 0 <= d < job.devices
      ensures st.dflt[d] <= Lengths(job, st.phase, 0)[d] && st.out[d] <= Lengths(job, st.phase, 1)[d]
      ensures st.inn[d] <= Lengths(job, st.phase, 2)[d]
    {
      assert Head(st, Default(d)) <= Length(job, st.phase, Default(d));
      assert Head(st, CopyOut(d)) <= Length(job, st.phase, CopyOut(d));
      assert Head(st, CopyIn(d)) <= Length(job, st.phase, CopyIn(d));
    }
    SumMonotone(st.dflt, Lengths(job, st.phase, 0));
    SumMonotone(st.out, Lengths(job, st.phase, 1));
    SumMonotone(st.inn, Lengths(job, st.phase, 2));
  }
}
