/** Whole overlapped runs: one drained exchange per layer, the aggregation after it, and the rows
    read back after the warm-up and timed repetitions. */
module DirectRuns {
  import opened Arrays
  import opened HaloExecution
  import opened DirectStreams

  // ---------------------------------------------------------------- before the first exchange

  /** Everything fixed before the first exchange. */
  datatype Job<!T> = Job(f: RowFn<T>, devices: nat, part: seq<nat>, lidx: seq<nat>, u: seq<nat>, v: seq<nat>,
                         shards: seq<Shard>, queues: seq<seq<Launch>>)

  ghost predicate JobOk<T>(job: Job<T>) {
    && BuiltShards(job.devices, job.part, job.lidx, job.u, job.v, job.shards)
    && |job.queues| == job.devices && Queued(job.shards, job.queues, job.devices, 0)
  }

  /** Numbers the local rows, builds every shard and launches every copy in turn. */
  method BuildJob<T>(f: RowFn<T>, devices: nat, part: seq<nat>, u: seq<nat>, v: seq<nat>) returns (job: Job<T>)
    requires Graph(u, v, |part|) && Below(part, devices)
    ensures JobOk(job) && job.f == f && job.devices == devices && job.part == part && job.u == u && job.v == v
  {
    hide ValidShard, Queued;
    var lidx, shards := BuildShards(devices, part, u, v);
    forall l: Launch | IsPull(shards, l) ensures Owner(shards, l) < |shards| {
      OwnersInRange(devices, part, lidx, u, v, shards, l);
    }
    var queues := LaunchAll(shards);
    job := Job(f, devices, part, lidx, u, v, shards, queues);
  }

  lemma JobGraph<T>(job: Job<T>)
    requires JobOk(job)
    ensures Graph(job.u, job.v, |job.part|)
  {
  }

  // ---------------------------------------------------------------- one layer

  /** The exchange of the rows the devices hold. */
  function Exchange<T>(job: Job<T>, feats: seq<seq<T>>): Setup<T> {
    Setup(job.shards, feats, job.queues)
  }

  /** The rows every device computes from its table. */
  ghost predicate Computed<T>(job: Job<T>, tables: seq<seq<T>>, rows: seq<seq<T>>)
    requires JobOk(job)
  {
    && |tables| == |rows| == job.devices
    && forall d :: 0 <= d < job.devices ==> ComputedOn(job, d, tables[d], rows[d])
  }

  ghost predicate ComputedOn<T>(job: Job<T>, d: nat, table: seq<T>, rows: seq<T>)
    requires JobOk(job) && d < job.devices
  {
    assert ValidShard(job.shards[d], d, job.part, job.lidx, job.u, job.v);
    |table| == |job.shards[d].Slots()| && rows == SpMM(job.f, job.shards[d].csr, table)
  }

  /** An exchange run dry under some interleaving, then the aggregation on every device. */
  ghost predicate LayerRun<T>(job: Job<T>, feats: seq<seq<T>>, run: seq<State<T>>, rows: seq<seq<T>>)
    requires JobOk(job)
  {
    && Run(Exchange(job, feats), run) && Drained(Exchange(job, feats), run[|run| - 1])
    && Computed(job, run[|run| - 1].tables, rows)
  }

  /** Whatever the interleaving, the devices hold the rows of the next layer afterwards. */
  lemma LayerRight<T>(job: Job<T>, h: seq<T>, feats: seq<seq<T>>, run: seq<State<T>>, rows: seq<seq<T>>)
    requires JobOk(job) && Owned(job.part, job.devices, feats, h) && LayerRun(job, feats, run, rows)
    ensures Graph(job.u, job.v, |h|) && Owned(job.part, job.devices, rows, Layer(job.f, job.u, job.v, h))
  {
    var c := Exchange(job, feats);
    SetupIsOk(c, job.devices, job.part, job.lidx, job.u, job.v, h);
    forall d | 0 <= d < job.devices
      ensures rows[d] == Select<T>(Layer(job.f, job.u, job.v, h), Indices(job.part, d))
    {
      EveryInterleaving(c, h, run, |run| - 1, d);
      assert ComputedOn(job, d, run[|run| - 1].tables[d], rows[d]);
      DeviceRight(job, h, d, run[|run| - 1].tables[d], rows[d]);
    }
  }

  lemma DeviceRight<T>(job: Job<T>, h: seq<T>, d: nat, table: seq<T>, rows: seq<T>)
    requires JobOk(job) && |h| == |job.part| && d < job.devices && ComputedOn(job, d, table, rows)
    requires Below(job.shards[d].Slots(), |h|) && table == Select<T>(h, job.shards[d].Slots())
    ensures Graph(job.u, job.v, |h|) && rows == Select<T>(Layer(job.f, job.u, job.v, h), Indices(job.part, d))
  {
    var sh := job.shards[d];
    assert ValidShard(sh, d, job.part, job.lidx, job.u, job.v);
    ShardLayer(job.f, sh, job.part, job.u, job.v, h, table, rows);
  }

  // ---------------------------------------------------------------- a repetition

  /** One repetition: the rows before every layer and after the last, and a run per layer. No run
      depends on what the one before left in the buffers. */
  datatype Repetition<!T> = Repetition(feats: seq<seq<seq<T>>>, runs: seq<seq<State<T>>>)

  ghost predicate Repeats<T>(job: Job<T>, x: seq<T>, layers: nat, rep: Repetition<T>)
    requires JobOk(job)
  {
    && |x| == |job.part| && |rep.runs| == layers && |rep.feats| == layers + 1
    && Owned(job.part, job.devices, rep.feats[0], x)
    && forall l :: 0 <= l < layers ==> LayerRun(job, rep.feats[l], rep.runs[l], rep.feats[l + 1])
  }

  lemma {:induction false} LayersRight<T>(job: Job<T>, x: seq<T>, layers: nat, rep: Repetition<T>, l: nat)
    requires JobOk(job) && Repeats(job, x, layers, rep) && l <= layers
    ensures Graph(job.u, job.v, |x|) && Owned(job.part, job.devices, rep.feats[l], Layers(job.f, job.u, job.v, x, l))
  {
    hide BuiltShards, Queued, LayerRun, Owned, Layer;
    JobGraph(job);
    if l > 0 {
      LayersRight(job, x, layers, rep, l - 1);
      assert LayerRun(job, rep.feats[l - 1], rep.runs[l - 1], rep.feats[l - 1 + 1]);
      LayerRight(job, Layers(job.f, job.u, job.v, x, l - 1), rep.feats[l - 1], rep.runs[l - 1], rep.feats[l]);
    }
  }

  /** The overlapped run read back by vertex: `feats` are the rows that the last of the warm-up and
      timed repetitions left, whatever the interleaving of every exchange. */
  method ReadBack<T(0)>(job: Job<T>, feats: seq<seq<T>>, f: RowFn<T>, src: seq<nat>, dst: seq<nat>, part: seq<nat>,
                        devices: nat, ghost x: seq<T>, ghost layers: nat, ghost reps: seq<Repetition<T>>)
    returns (out: seq<T>)
    requires |x| == |part| && Graph(src, dst, |part|) && JobOk(job)
    requires job.f == f && job.devices == devices && job.part == part
    requires job.u == WithSelfLoops(src, dst, |x|) && job.v == WithSelfLoops(dst, src, |x|)
    requires |reps| == WARMUP + TIMED && forall k :: 0 <= k < |reps| ==> Repeats(job, x, layers, reps[k])
    requires var last := reps[|reps| - 1]; Repeats(job, x, layers, last) && feats == last.feats[layers]
    ensures out == TwoWayLayers(f, src, dst, x, layers)
    ensures layers == 1 ==> |out| == |x| && forall w :: 0 <= w < |x| ==> out[w] == HeardRow(f, src, dst, x, w)
    ensures out == Layers(f, WithSelfLoops(src, dst, |x|), WithSelfLoops(dst, src, |x|), x, layers)
  {
    LayersAreTwoWay(f, src, dst, x, layers);
    hide HeardRow;
    LayersRight(job, x, layers, reps[|reps| - 1], layers);
    out := Reassemble(part, devices, feats, Layers(job.f, job.u, job.v, x, layers));
  }

  // ---------------------------------------------------------------- repetitions exist

  /** Every exchange that has started, however it went so far, ends in a complete layer. */
  lemma FinishLayer<T>(job: Job<T>, h: seq<T>, feats: seq<seq<T>>, run: seq<State<T>>)
    returns (longer: seq<State<T>>, rows: seq<seq<T>>)
    requires JobOk(job) && Owned(job.part, job.devices, feats, h) && Run(Exchange(job, feats), run)
    ensures run <= longer && LayerRun(job, feats, longer, rows)
  {
    var c := Exchange(job, feats);
    SetupIsOk(c, job.devices, job.part, job.lidx, job.u, job.v, h);
    longer := Drain(c, h, run);
    RunInv(c, h, longer, |longer| - 1);
    var tables := longer[|longer| - 1].tables;
    rows := seq(job.devices, d requires 0 <= d < job.devices => RowsOf(job, d, tables[d]));
  }

  ghost function RowsOf<T>(job: Job<T>, d: nat, table: seq<T>): (rows: seq<T>)
    requires JobOk(job) && d < job.devices && |table| == |job.shards[d].Slots()|
    ensures ComputedOn(job, d, table, rows)
  {
    assert ValidShard(job.shards[d], d, job.part, job.lidx, job.u, job.v);
    SpMM(job.f, job.shards[d].csr, table)
  }

  /** Repetitions of any number of layers exist, from buffers full of anything. */
  lemma {:induction false} SomeRepetition<T>(job: Job<T>, x: seq<T>, g: T, layers: nat) returns (rep: Repetition<T>)
    requires JobOk(job) && |x| == |job.part|
    ensures Repeats(job, x, layers, rep)
  {
    if layers == 0 {
      rep := Repetition([seq(job.devices, d requires 0 <= d < job.devices => Select<T>(x, Indices(job.part, d)))], []);
    } else {
      var before := SomeRepetition(job, x, g, layers - 1);
      LayersRight(job, x, layers - 1, before, layers - 1);
      var feats := before.feats[layers - 1];
      var start := SomeRun(Exchange(job, feats), g);
      var run, rows := FinishLayer(job, Layers(job.f, job.u, job.v, x, layers - 1), feats, [start]);
      rep := Repetition(before.feats + [rows], before.runs + [run]);
      RepeatsSnoc(job, x, layers - 1, before, run, rows);
    }
  }

  lemma RepeatsSnoc<T>(job: Job<T>, x: seq<T>, layers: nat, rep: Repetition<T>, run: seq<State<T>>, rows: seq<seq<T>>)
    requires JobOk(job) && Repeats(job, x, layers, rep) && LayerRun(job, rep.feats[layers], run, rows)
    ensures Repeats(job, x, layers + 1, Repetition(rep.feats + [rows], rep.runs + [run]))
  {
    hide JobOk, LayerRun, Owned;
    var longer := Repetition(rep.feats + [rows], rep.runs + [run]);
    forall l | 0 <= l < layers + 1 ensures LayerRun(job, longer.feats[l], longer.runs[l], longer.feats[l + 1]) {
      assert l < layers ==> LayerRun(job, rep.feats[l], rep.runs[l], rep.feats[l + 1]);
    }
  }
}
