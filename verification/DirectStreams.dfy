/** The overlapped exchange as asynchronous streams: every owner's copies run in order on its side
    stream, every device's scatters on its default stream, each after the copy it reads. */
module DirectStreams {
  import opened Arrays
  import opened HaloExecution

  // ---------------------------------------------------------------- queues

  /** The copy for pull `j` of device `d`. */
  datatype Launch = Launch(d: nat, j: nat)

  ghost predicate IsPull(shards: seq<Shard>, l: Launch) {
    l.d < |shards| && l.j < |shards[l.d].plan|
  }

  function Owner(shards: seq<Shard>, l: Launch): nat
    requires IsPull(shards, l)
  {
    shards[l.d].plan[l.j].owner
  }

  /** The first devices' copies, each once, on its owner's side stream. */
  ghost predicate Queued(shards: seq<Shard>, queues: seq<seq<Launch>>, d: nat, n: nat) {
    && (forall o :: 0 <= o < |queues| ==> Distinct(queues[o]))
    && (forall o, i :: 0 <= o < |queues| && 0 <= i < |queues[o]| ==>
         IsPull(shards, queues[o][i]) && Owner(shards, queues[o][i]) == o && Earlier(queues[o][i], d, n))
    && forall l: Launch :: IsPull(shards, l) && Earlier(l, d, n) ==>
         Owner(shards, l) < |queues| && l in queues[Owner(shards, l)]
  }

  ghost predicate Earlier(l: Launch, d: nat, n: nat) {
    l.d < d || (l.d == d && l.j < n)
  }

  lemma QueueOne(shards: seq<Shard>, queues: seq<seq<Launch>>, d: nat, n: nat)
    requires Queued(shards, queues, d, n) && IsPull(shards, Launch(d, n)) && Owner(shards, Launch(d, n)) < |queues|
    ensures var o := Owner(shards, Launch(d, n));
            Queued(shards, queues[o := queues[o] + [Launch(d, n)]], d, n + 1)
  {
    var l, o := Launch(d, n), Owner(shards, Launch(d, n));
    var next := queues[o := queues[o] + [l]];
    forall p, i, j | 0 <= p < |next| && 0 <= i < j < |next[p]| ensures next[p][i] != next[p][j] {
      assert i < |queues[p]| && Earlier(queues[p][i], d, n);
    }
    forall k: Launch | IsPull(shards, k) && Earlier(k, d, n + 1)
      ensures Owner(shards, k) < |next| && k in next[Owner(shards, k)]
    {
      if k != l {
        assert Earlier(k, d, n) && k in queues[Owner(shards, k)];
      }
    }
  }

  /** Launches every copy, device after device and pull after pull. */
  method LaunchAll(shards: seq<Shard>) returns (queues: seq<seq<Launch>>)
    requires forall l: Launch :: IsPull(shards, l) ==> Owner(shards, l) < |shards|
    ensures |queues| == |shards| && Queued(shards, queues, |shards|, 0)
  {
    queues := seq(|shards|, _ => []);
    for d := 0 to |shards|
      invariant |queues| == |shards| && Queued(shards, queues, d, 0)
    {
      var plan := shards[d].plan;
      for j := 0 to |plan|
        invariant |queues| == |shards| && Queued(shards, queues, d, j)
      {
        var l := Launch(d, j);
        assert IsPull(shards, l);
        QueueOne(shards, queues, d, j);
        queues := queues[plan[j].owner := queues[plan[j].owner] + [l]];
      }
      NextDevice(shards, queues, d);
    }
  }

  lemma NextDevice(shards: seq<Shard>, queues: seq<seq<Launch>>, d: nat)
    requires d < |shards| && Queued(shards, queues, d, |shards[d].plan|)
    ensures Queued(shards, queues, d + 1, 0)
  {
    forall l: Launch | IsPull(shards, l) ensures Earlier(l, d, |shards[d].plan|) <==> Earlier(l, d + 1, 0) {
    }
  }

  // ---------------------------------------------------------------- the machine

  datatype Setup<!T> = Setup(shards: seq<Shard>, feats: seq<seq<T>>, queues: seq<seq<Launch>>)

  /** Slot `s` of device `d` should hold `row`. */
  ghost predicate Holds<T>(c: Setup<T>, h: seq<T>, d: nat, s: nat, row: T) {
    && d < |c.shards| && s < |c.shards[d].Slots()| && c.shards[d].Slots()[s] < |h|
    && row == h[c.shards[d].Slots()[s]]
  }

  /** A copy gathers, from rows its owner has, the rows of the slots it is for. */
  ghost predicate CopyOk<T>(c: Setup<T>, h: seq<T>, l: Launch)
    requires IsPull(c.shards, l)
  {
    && Gatherable(c, l) && Below(c.shards[l.d].plan[l.j].slots, |c.shards[l.d].Slots()|)
    && BufferOk(c, h, l, Gathered(c, l))
  }

  ghost predicate Gatherable<T>(c: Setup<T>, l: Launch)
    requires IsPull(c.shards, l)
  {
    var p := c.shards[l.d].plan[l.j];
    p.owner < |c.feats| && Below(p.rows, |c.feats[p.owner]|)
  }

  ghost function Gathered<T>(c: Setup<T>, l: Launch): seq<T>
    requires IsPull(c.shards, l) && Gatherable(c, l)
  {
    var p := c.shards[l.d].plan[l.j];
    Select<T>(c.feats[p.owner], p.rows)
  }

  ghost predicate BufferOk<T>(c: Setup<T>, h: seq<T>, l: Launch, buf: seq<T>)
    requires IsPull(c.shards, l)
  {
    var slots := c.shards[l.d].plan[l.j].slots;
    |buf| == |slots| && forall k :: 0 <= k < |slots| ==> Holds(c, h, l.d, slots[k], buf[k])
  }

  /** Shards, rows and queues fit together and the devices hold the rows of `h`. */
  ghost predicate SetupOk<T>(c: Setup<T>, h: seq<T>) {
    && |c.shards| == |c.feats| == |c.queues| && Queued(c.shards, c.queues, |c.shards|, 0)
    && (forall l: Launch :: IsPull(c.shards, l) ==> CopyOk(c, h, l))
    && (forall d :: 0 <= d < |c.shards| ==> DeviceOk(c, h, d))
  }

  ghost predicate DeviceOk<T>(c: Setup<T>, h: seq<T>, d: nat)
    requires d < |c.shards| == |c.feats|
  {
    var sh := c.shards[d];
    && |c.feats[d]| == |sh.locals| && Below(sh.Slots(), |h|)
    && (forall s :: 0 <= s < |sh.locals| ==> Holds(c, h, d, s, c.feats[d][s]))
    && (forall s :: |sh.locals| <= s < |sh.Slots()| ==> Covered(sh.plan, s))
  }

  /** Operations finished on every side and every default stream, and the buffers. */
  datatype State<!T> = State(side: seq<nat>, main: seq<nat>, tables: seq<seq<T>>, landing: seq<seq<seq<T>>>)

  datatype Stream = Side(o: nat) | Main(d: nat)

  function Head<T>(st: State<T>, s: Stream): nat {
    match s
    case Side(o) => if o < |st.side| then st.side[o] else 0
    case Main(d) => if d < |st.main| then st.main[d] else 0
  }

  /** A default stream fills the local rows and then scatters every landed copy. */
  function Length<T>(c: Setup<T>, s: Stream): nat {
    match s
    case Side(o) => if o < |c.queues| then |c.queues[o]| else 0
    case Main(d) => if d < |c.shards| then 1 + |c.shards[d].plan| else 0
  }

  /** The copy has run on its owner's side stream. */
  ghost predicate Landed<T>(c: Setup<T>, st: State<T>, l: Launch)
    requires IsPull(c.shards, l)
  {
    var o := Owner(c.shards, l);
    o < |c.queues| && exists i :: 0 <= i < Head(st, Side(o)) && i < |c.queues[o]| && c.queues[o][i] == l
  }

  /** A copy waits for nothing; a scatter waits for its copy. */
  ghost predicate Ready<T>(c: Setup<T>, st: State<T>, s: Stream) {
    && Head(st, s) < Length(c, s)
    && (s.Main? && Head(st, s) > 0 ==> Landed(c, st, Launch(s.d, Head(st, s) - 1)))
  }

  ghost predicate Shaped<T>(c: Setup<T>, st: State<T>) {
    && |st.side| == |st.main| == |st.tables| == |st.landing| == |c.shards|
    && (forall s: Stream :: Head(st, s) <= Length(c, s))
    && (forall d :: 0 <= d < |c.shards| ==> |st.tables[d]| == |c.shards[d].Slots()|)
    && (forall d :: 0 <= d < |c.shards| ==> |st.landing[d]| == |c.shards[d].plan|)
  }

  /** The side stream's next copy lands in its own buffer. */
  ghost predicate CopyStep<T>(c: Setup<T>, st: State<T>, st': State<T>, o: nat)
    requires Shaped(c, st)
  {
    && Ready(c, st, Side(o)) && o < |c.queues| == |c.shards|
    && var l := c.queues[o][st.side[o]];
       IsPull(c.shards, l) && Gatherable(c, l) &&
       st' == st.(side := st.side[o := st.side[o] + 1],
                  landing := st.landing[l.d := st.landing[l.d][l.j := Gathered(c, l)]])
  }

  /** The default stream's next operation: its own rows, or one scatter. */
  ghost predicate MainStep<T>(c: Setup<T>, st: State<T>, st': State<T>, d: nat)
    requires Shaped(c, st)
  {
    && Ready(c, st, Main(d)) && d < |c.shards| == |st'.tables| && Written(c, st, d, st'.tables[d])
    && st' == st.(main := st.main[d := st.main[d] + 1], tables := st.tables[d := st'.tables[d]])
  }

  /** What the operation leaves in the table; a buffer of the wrong size could not be scattered. */
  ghost predicate Written<T>(c: Setup<T>, st: State<T>, d: nat, table: seq<T>)
    requires Shaped(c, st) && d < |c.shards| && st.main[d] < Length(c, Main(d))
  {
    if st.main[d] == 0 then
      d < |c.feats| && |c.feats[d]| <= |st.tables[d]| && table == c.feats[d] + st.tables[d][|c.feats[d]|..]
    else
      var j := st.main[d] - 1;
      var slots, rows := c.shards[d].plan[j].slots, st.landing[d][j];
      |slots| == |rows| && Below(slots, |st.tables[d]|) && table == SpreadRows<T>(st.tables[d], slots, rows)
  }

  ghost predicate Step<T>(c: Setup<T>, st: State<T>, st': State<T>, s: Stream) {
    Shaped(c, st) && match s case Side(o) => CopyStep(c, st, st', o) case Main(d) => MainStep(c, st, st', d)
  }

  ghost predicate Next<T>(c: Setup<T>, st: State<T>, st': State<T>) {
    exists s: Stream :: Step(c, st, st', s)
  }

  /** Any interleaving of the streams, from buffers that hold anything. */
  ghost predicate Run<T>(c: Setup<T>, run: seq<State<T>>) {
    && run != [] && Shaped(c, run[0])
    && (forall s: Stream :: Head(run[0], s) == 0)
    && forall i :: 0 <= i < |run| - 1 ==> Next(c, run[i], run[i + 1])
  }

  // ---------------------------------------------------------------- invariant

  /** Every copy that has run left the right rows; every slot written so far is right. */
  ghost predicate Inv<T>(c: Setup<T>, h: seq<T>, st: State<T>) {
    && Shaped(c, st)
    && (forall l: Launch :: IsPull(c.shards, l) && Landed(c, st, l) ==> BufferOk(c, h, l, st.landing[l.d][l.j]))
    && (forall d :: 0 <= d < |c.shards| ==> TableOk(c, h, d, st.main[d], st.tables[d]))
  }

  ghost predicate TableOk<T>(c: Setup<T>, h: seq<T>, d: nat, head: nat, table: seq<T>)
    requires d < |c.shards|
  {
    && |table| == |c.shards[d].Slots()| && head <= 1 + |c.shards[d].plan|
    && (head > 0 ==> forall s :: 0 <= s < |c.shards[d].locals| ==> Holds(c, h, d, s, table[s]))
    && forall j :: 0 <= j < head - 1 ==> PullHeld(c, h, d, c.shards[d].plan[j], table)
  }

  ghost predicate PullHeld<T>(c: Setup<T>, h: seq<T>, d: nat, p: Pull, table: seq<T>) {
    forall k :: 0 <= k < |p.slots| ==> p.slots[k] < |table| && Holds(c, h, d, p.slots[k], table[p.slots[k]])
  }

  lemma StartInv<T>(c: Setup<T>, h: seq<T>, st: State<T>)
    requires Shaped(c, st) && forall s: Stream :: Head(st, s) == 0
    ensures Inv(c, h, st)
  {
    forall d | 0 <= d < |c.shards| ensures TableOk(c, h, d, st.main[d], st.tables[d]) {
      assert Head(st, Main(d)) == 0;
    }
  }

  lemma CopyShaped<T>(c: Setup<T>, st: State<T>, st': State<T>, o: nat)
    requires Shaped(c, st) && CopyStep(c, st, st', o)
    ensures Shaped(c, st')
  {
    hide Gatherable, Gathered;
    forall s: Stream ensures Head(st', s) <= Length(c, s) {
      assert Head(st, s) <= Length(c, s);
      assert Head(st', s) == Head(st, s) + if s == Side(o) then 1 else 0;
    }
  }

  /** After the copy, the landed copies are those before and this one. */
  lemma LandedAfter<T>(c: Setup<T>, st: State<T>, st': State<T>, o: nat, l: Launch)
    requires Shaped(c, st) && CopyStep(c, st, st', o) && IsPull(c.shards, l) && Landed(c, st', l)
    ensures Landed(c, st, l) || l == c.queues[o][st.side[o]]
  {
    hide Gatherable, Gathered;
    var p := Owner(c.shards, l);
    var i :| 0 <= i < Head(st', Side(p)) && i < |c.queues[p]| && c.queues[p][i] == l;
    if i < Head(st, Side(p)) {
      assert Landed(c, st, l);
    }
  }

  lemma CopyInv<T>(c: Setup<T>, h: seq<T>, st: State<T>, st': State<T>, o: nat)
    requires SetupOk(c, h) && Inv(c, h, st) && CopyStep(c, st, st', o)
    ensures Inv(c, h, st')
  {
    CopyShaped(c, st, st', o);
    var done := c.queues[o][st.side[o]];
    assert CopyOk(c, h, done);
    hide Landed, BufferOk, TableOk, Gathered, Gatherable, Queued, DeviceOk;
    forall l: Launch | IsPull(c.shards, l) && Landed(c, st', l)
      ensures BufferOk(c, h, l, st'.landing[l.d][l.j])
    {
      LandedAfter(c, st, st', o, l);
    }
  }

  lemma MainShaped<T>(c: Setup<T>, st: State<T>, st': State<T>, d: nat)
    requires Shaped(c, st) && MainStep(c, st, st', d)
    ensures Shaped(c, st')
  {
    hide Landed;
    forall s: Stream ensures Head(st', s) <= Length(c, s) {
      assert Head(st, s) <= Length(c, s);
      assert Head(st', s) == Head(st, s) + if s == Main(d) then 1 else 0;
    }
  }

  lemma SpreadHeld<T>(c: Setup<T>, h: seq<T>, d: nat, p: Pull, table: seq<T>, rows: seq<T>)
    requires |p.slots| == |rows| && Below(p.slots, |table|)
    requires forall k :: 0 <= k < |p.slots| ==> Holds(c, h, d, p.slots[k], rows[k])
    ensures PullHeld(c, h, d, p, SpreadRows<T>(table, p.slots, rows))
    ensures forall s :: 0 <= s < |table| && Holds(c, h, d, s, table[s]) ==>
              Holds(c, h, d, s, SpreadRows<T>(table, p.slots, rows)[s])
  {
    hide SpreadRows, Holds;
    forall k | 0 <= k < |p.slots| ensures Holds(c, h, d, p.slots[k], SpreadRows<T>(table, p.slots, rows)[p.slots[k]]) {
      assert p.slots[k] in p.slots;
    }
  }

  lemma TableAfter<T>(c: Setup<T>, h: seq<T>, st: State<T>, d: nat, table: seq<T>)
    requires SetupOk(c, h) && Inv(c, h, st) && d < |c.shards| && Ready(c, st, Main(d)) && Written(c, st, d, table)
    ensures TableOk(c, h, d, st.main[d] + 1, table)
  {
    hide TableOk, BufferOk, DeviceOk, CopyOk, Queued, SpreadRows, Landed;
    assert DeviceOk(c, h, d) && TableOk(c, h, d, st.main[d], st.tables[d]);
    if st.main[d] == 0 {
      AfterFill(c, h, d, st.tables[d]);
    } else {
      var l := Launch(d, st.main[d] - 1);
      assert IsPull(c.shards, l) && BufferOk(c, h, l, st.landing[d][l.j]);
      AfterSpread(c, h, d, st.main[d], st.tables[d], st.landing[d][l.j]);
    }
  }

  lemma AfterFill<T>(c: Setup<T>, h: seq<T>, d: nat, table: seq<T>)
    requires d < |c.shards| == |c.feats| && DeviceOk(c, h, d) && |table| == |c.shards[d].Slots()|
    ensures |c.feats[d]| <= |table| && TableOk(c, h, d, 1, c.feats[d] + table[|c.feats[d]|..])
  {
    hide Holds;
  }

  lemma AfterSpread<T>(c: Setup<T>, h: seq<T>, d: nat, head: nat, table: seq<T>, rows: seq<T>)
    requires 0 < head && IsPull(c.shards, Launch(d, head - 1)) && TableOk(c, h, d, head, table)
    requires BufferOk(c, h, Launch(d, head - 1), rows) && Below(c.shards[d].plan[head - 1].slots, |table|)
    ensures TableOk(c, h, d, head + 1, SpreadRows<T>(table, c.shards[d].plan[head - 1].slots, rows))
  {
    hide Holds, SpreadRows, PullHeld;
    var plan := c.shards[d].plan;
    SpreadHeld(c, h, d, plan[head - 1], table, rows);
    var after := SpreadRows<T>(table, plan[head - 1].slots, rows);
    forall j | 0 <= j < head - 1 ensures PullHeld(c, h, d, plan[j], after) {
      StillHeld(c, h, d, plan[j], table, after);
    }
  }

  lemma StillHeld<T>(c: Setup<T>, h: seq<T>, d: nat, p: Pull, table: seq<T>, after: seq<T>)
    requires PullHeld(c, h, d, p, table) && |table| == |after|
    requires forall s :: 0 <= s < |table| && Holds(c, h, d, s, table[s]) ==> Holds(c, h, d, s, after[s])
    ensures PullHeld(c, h, d, p, after)
  {
    hide Holds;
  }

  lemma MainInv<T>(c: Setup<T>, h: seq<T>, st: State<T>, st': State<T>, d: nat)
    requires SetupOk(c, h) && Inv(c, h, st) && MainStep(c, st, st', d)
    ensures Inv(c, h, st')
  {
    MainShaped(c, st, st', d);
    TableAfter(c, h, st, d, st'.tables[d]);
    hide BufferOk, TableOk, SetupOk, Written;
    forall l: Launch | IsPull(c.shards, l) && Landed(c, st', l) ensures Landed(c, st, l) {
    }
  }

  lemma StepInv<T>(c: Setup<T>, h: seq<T>, st: State<T>, st': State<T>, s: Stream)
    requires SetupOk(c, h) && Inv(c, h, st) && Step(c, st, st', s)
    ensures Inv(c, h, st')
  {
    hide SetupOk, Inv, CopyStep, MainStep, Shaped;
    match s {
      case Side(o) => CopyInv(c, h, st, st', o);
      case Main(d) => MainInv(c, h, st, st', d);
    }
  }

  lemma {:induction false} RunInv<T>(c: Setup<T>, h: seq<T>, run: seq<State<T>>, i: nat)
    requires SetupOk(c, h) && Run(c, run) && i < |run|
    ensures Inv(c, h, run[i])
  {
    hide SetupOk, Inv, Step, Shaped;
    if i == 0 {
      StartInv(c, h, run[0]);
    } else {
      RunInv(c, h, run, i - 1);
      var s: Stream :| Step(c, run[i - 1], run[i - 1 + 1], s);
      StepInv(c, h, run[i - 1], run[i], s);
    }
  }

  // ---------------------------------------------------------------- every interleaving

  ghost predicate Drained<T>(c: Setup<T>, st: State<T>) {
    forall s: Stream :: Head(st, s) == Length(c, s)
  }

  /** Whatever the interleaving, when the streams run dry every table is the one the blocking
      exchange leaves. */
  lemma EveryInterleaving<T>(c: Setup<T>, h: seq<T>, run: seq<State<T>>, i: nat, d: nat)
    requires SetupOk(c, h) && Run(c, run) && i < |run| && Drained(c, run[i]) && d < |c.shards|
    ensures d < |run[i].tables| && Below(c.shards[d].Slots(), |h|)
    ensures run[i].tables[d] == Select<T>(h, c.shards[d].Slots())
  {
    RunInv(c, h, run, i);
    var st := run[i];
    assert DeviceOk(c, h, d) && TableOk(c, h, d, st.main[d], st.tables[d]) && Head(st, Main(d)) == Length(c, Main(d));
    hide Run, SetupOk, Inv, Drained, Shaped;
    var sh, table := c.shards[d], st.tables[d];
    forall s | 0 <= s < |table| ensures Holds(c, h, d, s, table[s]) {
      if s >= |sh.locals| {
        assert Covered(sh.plan, s);
        var j, k :| 0 <= j < |sh.plan| && 0 <= k < |sh.plan[j].slots| && sh.plan[j].slots[k] == s;
        assert PullHeld(c, h, d, sh.plan[j], table);
      }
    }
  }

  /** A scatter that may run finds the owner's rows in its buffer, and no copy that may run at the
      same time lands there. */
  lemma NoEarlyScatter<T>(c: Setup<T>, h: seq<T>, run: seq<State<T>>, i: nat, d: nat, o: nat)
    requires SetupOk(c, h) && Run(c, run) && i < |run| && Ready(c, run[i], Main(d)) && Head(run[i], Main(d)) > 0
    ensures d < |c.shards| && |run[i].side| == |c.queues|
    ensures var l := Launch(d, Head(run[i], Main(d)) - 1);
            && IsPull(c.shards, l) && d < |run[i].landing| && l.j < |run[i].landing[d]|
            && BufferOk(c, h, l, run[i].landing[d][l.j])
            && (Ready(c, run[i], Side(o)) ==>
                  o < |c.queues| && run[i].side[o] < |c.queues[o]| && c.queues[o][run[i].side[o]] != l)
  {
    RunInv(c, h, run, i);
    var st := run[i];
    var l := Launch(d, Head(st, Main(d)) - 1);
    assert IsPull(c.shards, l) && Landed(c, st, l);
    hide Run, BufferOk, CopyOk, DeviceOk, TableOk;
    if Ready(c, st, Side(o)) {
      CopyDiffers(c, st, l, o);
    }
  }

  /** A copy that may still run is not one that has landed. */
  lemma CopyDiffers<T>(c: Setup<T>, st: State<T>, l: Launch, o: nat)
    requires Queued(c.shards, c.queues, |c.shards|, 0) && IsPull(c.shards, l) && Landed(c, st, l)
    requires |st.side| == |c.queues| && Ready(c, st, Side(o))
    ensures o < |c.queues| && st.side[o] < |c.queues[o]| && c.queues[o][st.side[o]] != l
  {
    var p := Owner(c.shards, l);
    var i :| 0 <= i < Head(st, Side(p)) && i < |c.queues[p]| && c.queues[p][i] == l;
    assert Distinct(c.queues[p]);
    assert Owner(c.shards, c.queues[o][st.side[o]]) == o;
  }

  /** While an operation is left some stream can make its step. */
  lemma NoDeadlock<T>(c: Setup<T>, h: seq<T>, run: seq<State<T>>, i: nat) returns (s: Stream, next: State<T>)
    requires SetupOk(c, h) && Run(c, run) && i < |run| && !Drained(c, run[i])
    ensures Step(c, run[i], next, s)
  {
    RunInv(c, h, run, i);
    var st := run[i];
    hide Run;
    var t: Stream :| Head(st, t) != Length(c, t);
    assert Head(st, t) <= Length(c, t);
    s := Movable(c, h, st, t);
    next := Moved(c, h, st, s);
  }

  lemma Movable<T>(c: Setup<T>, h: seq<T>, st: State<T>, t: Stream) returns (s: Stream)
    requires SetupOk(c, h) && Shaped(c, st) && Head(st, t) < Length(c, t)
    ensures Ready(c, st, s)
  {
    s := t;
    if t.Main? && Head(st, t) > 0 {
      var l := Launch(t.d, Head(st, t) - 1);
      assert IsPull(c.shards, l);
      var o := Owner(c.shards, l);
      assert Earlier(l, |c.shards|, 0);
      assert l in c.queues[o];
      if Head(st, Side(o)) < Length(c, Side(o)) {
        s := Side(o);
      } else {
        var i :| 0 <= i < |c.queues[o]| && c.queues[o][i] == l;
        assert Head(st, Side(o)) == |c.queues[o]| by {
          assert Head(st, Side(o)) <= Length(c, Side(o));
        }
      }
    }
  }

  lemma Moved<T>(c: Setup<T>, h: seq<T>, st: State<T>, s: Stream) returns (next: State<T>)
    requires SetupOk(c, h) && Inv(c, h, st) && Ready(c, st, s)
    ensures Step(c, st, next, s)
  {
    match s {
      case Side(o) =>
        var l := c.queues[o][st.side[o]];
        assert CopyOk(c, h, l);
        next := st.(side := st.side[o := st.side[o] + 1],
                    landing := st.landing[l.d := st.landing[l.d][l.j := Gathered(c, l)]]);
      case Main(d) =>
        var table: seq<T>;
        assert DeviceOk(c, h, d);
        if st.main[d] == 0 {
          table := c.feats[d] + st.tables[d][|c.feats[d]|..];
        } else {
          var l := Launch(d, st.main[d] - 1);
          assert IsPull(c.shards, l) && CopyOk(c, h, l) && BufferOk(c, h, l, st.landing[d][l.j]);
          table := SpreadRows<T>(st.tables[d], c.shards[d].plan[l.j].slots, st.landing[d][l.j]);
        }
        next := st.(main := st.main[d := st.main[d] + 1], tables := st.tables[d := table]);
    }
  }

  /** Every operation brings the exchange one closer to its end. */
  lemma ExchangeEnds<T>(c: Setup<T>, h: seq<T>, st: State<T>, st': State<T>, s: Stream)
    requires SetupOk(c, h) && Inv(c, h, st) && Step(c, st, st', s)
    ensures Sum(st'.side) + Sum(st'.main) == Sum(st.side) + Sum(st.main) + 1
    ensures Sum(st'.side) + Sum(st'.main) <= Sum(Lengths(c, true)) + Sum(Lengths(c, false))
  {
    hide *;
    StepInv(c, h, st, st', s);
    InvShaped(c, h, st);
    InvShaped(c, h, st');
    HeadsBounded(c, st');
    HeadsAdvance(c, st, st', s);
  }

  lemma InvShaped<T>(c: Setup<T>, h: seq<T>, st: State<T>)
    requires Inv(c, h, st)
    ensures Shaped(c, st)
  {
  }

  lemma HeadsAdvance<T>(c: Setup<T>, st: State<T>, st': State<T>, s: Stream)
    requires Shaped(c, st) && Step(c, st, st', s)
    ensures Sum(st'.side) + Sum(st'.main) == Sum(st.side) + Sum(st.main) + 1
  {
    hide Gathered, Gatherable, Written, Landed, Sum;
    match s {
      case Side(o) => SumUpdate(st.side, o, st.side[o] + 1);
      case Main(d) => SumUpdate(st.main, d, st.main[d] + 1);
    }
  }

  ghost function Lengths<T>(c: Setup<T>, side: bool): (r: seq<int>)
    ensures |r| == |c.shards|
    ensures forall d :: 0 <= d < |r| ==> r[d] == Length(c, if side then Side(d) else Main(d))
  {
    seq(|c.shards|, (d: nat) => Length(c, if side then Side(d) else Main(d)))
  }

  lemma HeadsBounded<T>(c: Setup<T>, st: State<T>)
    requires Shaped(c, st)
    ensures Sum(st.side) + Sum(st.main) <= Sum(Lengths(c, true)) + Sum(Lengths(c, false))
  {
    forall d | 0 <= d < |c.shards|
      ensures st.side[d] <= Lengths(c, true)[d] && st.main[d] <= Lengths(c, false)[d]
    {
      assert Head(st, Side(d)) <= Length(c, Side(d)) && Head(st, Main(d)) <= Length(c, Main(d));
    }
    SumMonotone(st.side, Lengths(c, true));
    SumMonotone(st.main, Lengths(c, false));
  }

  /** Operations still to run. */
  ghost function Left<T>(c: Setup<T>, st: State<T>): int {
    Sum(Lengths(c, true)) + Sum(Lengths(c, false)) - Sum(st.side) - Sum(st.main)
  }

  lemma RunSnoc<T>(c: Setup<T>, run: seq<State<T>>, st: State<T>, s: Stream)
    requires Run(c, run) && Step(c, run[|run| - 1], st, s)
    ensures Run(c, run + [st])
  {
    hide Step, Shaped;
    var longer := run + [st];
    forall i | 0 <= i < |longer| - 1 ensures Next(c, longer[i], longer[i + 1]) {
      assert i < |run| - 1 ==> Next(c, run[i], run[i + 1]);
    }
  }

  /** A run with work left goes on. */
  lemma MoveOn<T>(c: Setup<T>, h: seq<T>, run: seq<State<T>>) returns (next: State<T>)
    requires SetupOk(c, h) && Run(c, run) && run != [] && !Drained(c, run[|run| - 1])
    ensures Run(c, run + [next]) && 0 <= Left(c, next) < Left(c, run[|run| - 1])
  {
    hide *;
    var last := run[|run| - 1];
    var s;
    s, next := NoDeadlock(c, h, run, |run| - 1);
    RunInv(c, h, run, |run| - 1);
    ExchangeEnds(c, h, last, next, s);
    LeftIs(c, last);
    LeftIs(c, next);
    RunSnoc(c, run, next, s);
  }

  /** Any run, whatever the streams have done so far, can be carried on until they are dry. */
  lemma {:induction false} Drain<T>(c: Setup<T>, h: seq<T>, run: seq<State<T>>) returns (longer: seq<State<T>>)
    requires SetupOk(c, h) && Run(c, run)
    ensures Run(c, longer) && run <= longer && Drained(c, longer[|longer| - 1])
    decreases Left(c, run[|run| - 1])
  {
    hide *;
    NotEmpty(c, run);
    var last := run[|run| - 1];
    if Drained(c, last) {
      longer := run;
    } else {
      var next := MoveOn(c, h, run);
      longer := Drain(c, h, run + [next]);
    }
  }

  lemma NotEmpty<T>(c: Setup<T>, run: seq<State<T>>)
    requires Run(c, run)
    ensures run != []
  {
  }

  lemma LeftIs<T>(c: Setup<T>, st: State<T>)
    ensures Left(c, st) == Sum(Lengths(c, true)) + Sum(Lengths(c, false)) - Sum(st.side) - Sum(st.main)
  {
  }

  // ---------------------------------------------------------------- the shards of a run

  /** Built shards, rows on their owners and all copies launched make a sound setup. */
  lemma SetupIsOk<T>(c: Setup<T>, devices: nat, part: seq<nat>, lidx: seq<nat>, u: seq<nat>, v: seq<nat>, h: seq<T>)
    requires BuiltShards(devices, part, lidx, u, v, c.shards) && Owned(part, devices, c.feats, h)
    requires |c.queues| == devices && Queued(c.shards, c.queues, devices, 0)
    ensures SetupOk(c, h)
  {
    hide Queued;
    forall d | 0 <= d < devices ensures DeviceOk(c, h, d) {
      DeviceIsOk(c, devices, part, lidx, u, v, h, d);
    }
    forall l: Launch | IsPull(c.shards, l) ensures CopyOk(c, h, l) {
      CopyIsOk(c, devices, part, lidx, u, v, h, l);
    }
  }

  lemma DeviceIsOk<T>(c: Setup<T>, devices: nat, part: seq<nat>, lidx: seq<nat>, u: seq<nat>, v: seq<nat>, h: seq<T>,
                      d: nat)
    requires BuiltShards(devices, part, lidx, u, v, c.shards) && Owned(part, devices, c.feats, h) && d < devices
    ensures DeviceOk(c, h, d)
  {
    var sh := c.shards[d];
    assert ValidShard(sh, d, part, lidx, u, v);
    forall s | 0 <= s < |sh.locals| ensures Holds(c, h, d, s, c.feats[d][s]) {
      assert c.feats[d] == Select<T>(h, Indices(part, d));
    }
  }

  lemma CopyIsOk<T>(c: Setup<T>, devices: nat, part: seq<nat>, lidx: seq<nat>, u: seq<nat>, v: seq<nat>, h: seq<T>,
                    l: Launch)
    requires BuiltShards(devices, part, lidx, u, v, c.shards) && Owned(part, devices, c.feats, h) && IsPull(c.shards, l)
    ensures CopyOk(c, h, l)
  {
    var sh := c.shards[l.d];
    assert ValidShard(sh, l.d, part, lidx, u, v);
    var p, slots := sh.plan[l.j], sh.Slots();
    assert ValidPull(p, l.d, part, lidx, slots) && p.rows != [];
    assert part[slots[p.slots[0]]] == p.owner;
    forall k | 0 <= k < |p.rows|
      ensures p.rows[k] < |c.feats[p.owner]| && p.slots[k] < |slots|
      ensures Holds(c, h, l.d, p.slots[k], c.feats[p.owner][p.rows[k]])
    {
      var x := slots[p.slots[k]];
      assert PlacedAt(part, x, lidx[x]);
      assert c.feats[p.owner] == Select<T>(h, Indices(part, p.owner));
    }
  }

  lemma OwnersInRange(devices: nat, part: seq<nat>, lidx: seq<nat>, u: seq<nat>, v: seq<nat>, shards: seq<Shard>,
                      l: Launch)
    requires BuiltShards(devices, part, lidx, u, v, shards) && IsPull(shards, l)
    ensures Owner(shards, l) < devices
  {
    var sh := shards[l.d];
    assert ValidShard(sh, l.d, part, lidx, u, v);
    var p := sh.plan[l.j];
    assert ValidPull(p, l.d, part, lidx, sh.Slots()) && p.rows != [];
    assert part[sh.Slots()[p.slots[0]]] == p.owner;
  }

  /** An exchange may start from buffers full of anything. */
  lemma SomeRun<T>(c: Setup<T>, g: T) returns (st: State<T>)
    ensures Run(c, [st])
  {
    var n := |c.shards|;
    st := State(seq(n, _ => 0), seq(n, _ => 0),
                seq(n, d requires 0 <= d < n => seq(|c.shards[d].Slots()|, _ => g)),
                seq(n, d requires 0 <= d < n => seq(|c.shards[d].plan|, _ => [])));
  }
}
