/** Whole pinned runs: a job built from a graph and a partition, runs that can always be finished,
    and the rows they return. */
module PinnedRuns {
  import opened Arrays
  import opened HaloExecution
  import opened PinnedExchange
  import opened PinnedStreams

  // ---------------------------------------------------------------- before the first exchange

  /** Numbers the local rows, builds every shard and then the staging plan. */
  method BuildJob<T>(f: RowFn<T>, devices: nat, part: seq<nat>, u: seq<nat>, v: seq<nat>) returns (job: Job<T>)
    requires Graph(u, v, |part|) && Below(part, devices)
    ensures JobOk(job) && JobFor(job, f, devices, part, u, v)
  {
    hide ValidShard, ValidStaging;
    var lidx, shards := BuildShards(devices, part, u, v);
    var staging := BuildStaging(devices, part, lidx, u, v, shards);
    job := Job(f, devices, part, lidx, u, v, shards, staging);
  }

  ghost predicate JobFor<T>(job: Job<T>, f: RowFn<T>, devices: nat, part: seq<nat>, u: seq<nat>, v: seq<nat>) {
    job.f == f && job.devices == devices && job.part == part && job.u == u && job.v == v
  }

  /** `n` rows of whatever the memory held. */
  function Junk<T>(g: T, n: nat): (r: seq<T>)
    ensures |r| == n
  {
    seq(n, _ => g)
  }

  /** The rows of `x` on their owners, nothing enqueued yet, every buffer full of `g`. */
  ghost function Loaded<T>(job: Job<T>, x: seq<T>, g: T): State<T>
    requires JobOk(job) && |x| == |job.part|
  {
    var n := job.devices;
    State(Exchanging, 0, Zeros(n), Zeros(n), Zeros(n),
          seq(n, d requires 0 <= d < n => Junk(g, |job.shards[d].Slots()|)),
          seq(n, d requires 0 <= d < n => Select<T>(x, Indices(job.part, d))),
          seq(n, o requires 0 <= o < n => Junk(g, |job.staging.sendIdx[o]|)),
          seq(n, d requires 0 <= d < n => Landings(job, g, d)))
  }

  function Landings<T>(job: Job<T>, g: T, d: nat): (r: seq<seq<T>>)
    requires d < |job.staging.recvPlan|
    ensures |r| == Copies(job, d)
    ensures forall k :: 0 <= k < |r| ==> |r[k]| == |job.staging.recvPlan[d][k].slots|
  {
    seq(Copies(job, d), k requires 0 <= k < Copies(job, d) => Junk(g, |job.staging.recvPlan[d][k].slots|))
  }

  lemma LoadedInit<T>(job: Job<T>, x: seq<T>, g: T)
    requires JobOk(job) && |x| == |job.part|
    ensures Init(job, x, Loaded(job, x, g))
  {
    LoadedShaped(job, x, g);
  }

  lemma LoadedShaped<T>(job: Job<T>, x: seq<T>, g: T)
    requires JobOk(job) && |x| == |job.part|
    ensures Shaped(job, Loaded(job, x, g))
  {
    forall d | 0 <= d < job.devices ensures |job.shards[d].locals| == Count(job.part, d) {
      assert ValidShard(job.shards[d], d, job.part, job.lidx, job.u, job.v);
    }
  }

  // ---------------------------------------------------------------- finishing a run

  lemma RunSnoc<T>(job: Job<T>, x: seq<T>, run: seq<State<T>>, st: State<T>)
    requires Run(job, x, run) && Next(job, run[|run| - 1], st)
    ensures Run(job, x, run + [st])
  {
    hide Next, Init;
    var longer := run + [st];
    forall i | 0 <= i < |longer| - 1 ensures Next(job, longer[i], longer[i + 1]) {
    }
  }

  lemma RunFacts<T>(job: Job<T>, x: seq<T>, run: seq<State<T>>)
    requires Run(job, x, run)
    ensures run != [] && JobOk(job) && |x| == |job.part| && Inv(job, x, run[|run| - 1]) && Shaped(job, run[|run| - 1])
  {
    RunInv(job, x, run, |run| - 1);
  }

  /** Operations still to run in the current phase. */
  ghost function Left<T>(job: Job<T>, st: State<T>): int {
    Enqueued(job, st.phase) - PinnedStreams.Finished(st)
  }

  /** A stream that may move gives the run one more state. */
  lemma MoveOn<T>(job: Job<T>, x: seq<T>, run: seq<State<T>>, s: Stream) returns (st: State<T>)
    requires Run(job, x, run) && Ready(job, run[|run| - 1], s)
    ensures Run(job, x, run + [st]) && StreamStep(job, run[|run| - 1], st, s)
    ensures st.phase == run[|run| - 1].phase && st.round == run[|run| - 1].round
    ensures 0 <= Left(job, st) < Left(job, run[|run| - 1])
  {
    RunFacts(job, x, run);
    var last := run[|run| - 1];
    hide Run, Inv, JobOk, Shaped, Ready, Effect;
    assert Device(s) < |last.dflt| == |last.out| == |last.inn| by {
      EffectKeepsHeads(job, last, s);
    }
    EffectKeepsHeads(job, last, s);
    st := Advance(Effect(job, last, s), s);
    assert StreamStep(job, last, st, s);
    StepShaped(job, last, st, s);
    PhaseEnds(job, last, st, s);
    RunSnoc(job, x, run, st);
  }

  /** The phase of any run can be finished, whatever the streams have done so far. */
  lemma {:induction false} FinishPhase<T>(job: Job<T>, x: seq<T>, run: seq<State<T>>) returns (longer: seq<State<T>>)
    requires Run(job, x, run)
    ensures Run(job, x, longer) && run <= longer && Drained(job, longer[|longer| - 1])
    ensures longer[|longer| - 1].phase == run[|run| - 1].phase && longer[|longer| - 1].round == run[|run| - 1].round
    decreases Left(job, run[|run| - 1])
  {
    hide *;
    RunFacts(job, x, run);
    var st := run[|run| - 1];
    if Drained(job, st) {
      longer := run;
    } else {
      var s := NoDeadlock(job, x, run, |run| - 1);
      var next := MoveOn(job, x, run, s);
      longer := FinishPhase(job, x, run + [next]);
    }
  }

  /** The state between two phases: nothing of the next one has run. */
  ghost predicate AtRound<T>(job: Job<T>, st: State<T>, round: nat) {
    st.phase == Exchanging && st.round == round && st.dflt == st.out == st.inn == Zeros(job.devices)
  }

  /** After a drained phase the devices synchronise. */
  lemma Synchronise<T>(job: Job<T>, x: seq<T>, run: seq<State<T>>) returns (st: State<T>)
    requires Run(job, x, run) && Drained(job, run[|run| - 1])
    ensures Run(job, x, run + [st])
    ensures run[|run| - 1].phase == Exchanging ==> st.phase == Computing && st.round == run[|run| - 1].round
    ensures run[|run| - 1].phase == Computing ==> AtRound(job, st, run[|run| - 1].round + 1)
  {
    RunFacts(job, x, run);
    hide Run, Inv, JobOk, Shaped, Drained;
    var last := run[|run| - 1];
    st := (match last.phase
           case Exchanging => last.(phase := Computing)
           case Computing => last.(phase := Exchanging, round := last.round + 1))
          .(dflt := Zeros(job.devices), out := Zeros(job.devices), inn := Zeros(job.devices));
    assert SyncStep(job, last, st);
    RunSnoc(job, x, run, st);
  }

  /** Any run, however its streams are interleaved so far, can be carried to the end of any later
      layer. */
  lemma {:induction false} RunToLayer<T>(job: Job<T>, x: seq<T>, run: seq<State<T>>, layers: nat)
    returns (longer: seq<State<T>>)
    requires Run(job, x, run) && run[|run| - 1].round < layers
    ensures Run(job, x, longer) && run <= longer && AtRound(job, longer[|longer| - 1], layers)
    decreases layers - run[|run| - 1].round, run[|run| - 1].phase == Exchanging
  {
    hide *;
    RunFacts(job, x, run);
    var round := run[|run| - 1].round;
    longer := FinishPhase(job, x, run);
    var st := Synchronise(job, x, longer);
    longer := longer + [st];
    RoundOf(job, st, round + 1);
    if st.phase == Exchanging && round + 1 == layers {
      return;
    }
    longer := RunToLayer(job, x, longer, layers);
  }

  lemma RoundOf<T>(job: Job<T>, st: State<T>, round: nat)
    ensures AtRound(job, st, round) ==> st.phase == Exchanging && st.round == round
  {
  }

  // ---------------------------------------------------------------- the partitioned run

  /** The rows of `x` put back on their owners for another repetition; no other buffer changes. */
  ghost function Reset<T>(job: Job<T>, x: seq<T>, st: State<T>): State<T>
    requires |x| == |job.part|
  {
    st.(round := 0, feats := seq(job.devices, d requires 0 <= d < job.devices => Select<T>(x, Indices(job.part, d))))
  }

  lemma ResetInit<T>(job: Job<T>, x: seq<T>, st: State<T>, layers: nat)
    requires Inv(job, x, st) && AtRound(job, st, layers)
    ensures Init(job, x, Reset(job, x, st))
  {
    var next := Reset(job, x, st);
    forall s: Stream | Device(s) < job.devices ensures Head(next, s) <= Length(job, next.phase, s) {
      assert Head(st, s) <= Length(job, st.phase, s);
    }
    forall d | 0 <= d < job.devices ensures |job.shards[d].locals| == Count(job.part, d) {
      assert ValidShard(job.shards[d], d, job.part, job.lidx, job.u, job.v);
    }
  }

  /** One repetition: any interleaving of the operations of `layers` steps. */
  ghost predicate Repetition<T>(job: Job<T>, layers: nat, rep: seq<State<T>>) {
    && rep != [] && AtRound(job, rep[|rep| - 1], layers)
    && forall i :: 0 <= i < |rep| - 1 ==> Next(job, rep[i], rep[i + 1])
  }

  /** The warm-up and the timed repetitions one after another, the rows reset in between. */
  ghost predicate Repetitions<T>(job: Job<T>, x: seq<T>, layers: nat, reps: seq<seq<State<T>>>) {
    && |x| == |job.part| && reps != []
    && (forall k :: 0 <= k < |reps| ==> Repetition(job, layers, reps[k]))
    && Init(job, x, reps[0][0])
    && forall k :: 0 < k < |reps| ==> reps[k][0] == Reset(job, x, reps[k - 1][|reps[k - 1]| - 1])
  }

  /** Every repetition is a run of its own, whatever the previous one left in the buffers. */
  lemma {:induction false} RepetitionRuns<T>(job: Job<T>, x: seq<T>, layers: nat, reps: seq<seq<State<T>>>, k: nat)
    requires Repetitions(job, x, layers, reps) && k < |reps|
    ensures Run(job, x, reps[k]) && AtRound(job, reps[k][|reps[k]| - 1], layers)
  {
    hide Next, Init, Inv, Reset;
    assert Repetition(job, layers, reps[k]);
    if k > 0 {
      RepetitionRuns(job, x, layers, reps, k - 1);
      var before := reps[k - 1];
      RunInv(job, x, before, |before| - 1);
      ResetInit(job, x, before[|before| - 1], layers);
    }
  }

  /** After every repetition the devices hold the rows of the partition-free reference. */
  lemma RepetitionRight<T>(job: Job<T>, x: seq<T>, layers: nat, reps: seq<seq<State<T>>>, k: nat)
    requires Repetitions(job, x, layers, reps) && k < |reps|
    ensures reps[k] != [] && Graph(job.u, job.v, |x|)
    ensures Owned(job.part, job.devices, reps[k][|reps[k]| - 1].feats, Layers(job.f, job.u, job.v, x, layers))
  {
    RepetitionRuns(job, x, layers, reps, k);
    var last := |reps[k]| - 1;
    RunInv(job, x, reps[k], last);
    assert JobOk(job);
    forall d | 0 <= d < job.devices
      ensures reps[k][last].feats[d] == Select<T>(Layers(job.f, job.u, job.v, x, layers), Indices(job.part, d))
    {
      EveryInterleaving(job, x, reps[k], last, d);
    }
  }

  /** Such repetitions exist for every job, any number of them, from buffers full of anything. */
  lemma {:induction false} SomeRepetitions<T>(job: Job<T>, x: seq<T>, g: T, layers: nat, n: nat)
    returns (reps: seq<seq<State<T>>>)
    requires JobOk(job) && |x| == |job.part| && n > 0
    ensures Repetitions(job, x, layers, reps) && |reps| == n
  {
    hide Init, Repetition, AtRound, JobOk, Inv, Reset, Loaded;
    if n == 1 {
      LoadedInit(job, x, g);
      var rep := OneRepetition(job, x, Loaded(job, x, g), layers);
      reps := [rep];
    } else {
      var before := SomeRepetitions(job, x, g, layers, n - 1);
      var last := before[n - 2];
      RepetitionRuns(job, x, layers, before, n - 2);
      RunFacts(job, x, last);
      ResetInit(job, x, last[|last| - 1], layers);
      var rep := OneRepetition(job, x, Reset(job, x, last[|last| - 1]), layers);
      reps := before + [rep];
    }
  }

  lemma OneRepetition<T>(job: Job<T>, x: seq<T>, st: State<T>, layers: nat) returns (rep: seq<State<T>>)
    requires Init(job, x, st)
    ensures Repetition(job, layers, rep) && rep != [] && rep[0] == st
  {
    assert st.phase == Exchanging && st.round == 0 && AtRound(job, st, 0);
    hide Init, Next, AtRound;
    assert Run(job, x, [st]);
    rep := [st];
    if layers > 0 {
      rep := RunToLayer(job, x, [st], layers);
    }
  }

  /** The pinned run read back by vertex: `feats` are the rows that the warm-up and timed repetitions
      left, whatever the interleaving of the streams. */
  method ReadBack<T(0)>(job: Job<T>, feats: seq<seq<T>>, f: RowFn<T>, src: seq<nat>, dst: seq<nat>, part: seq<nat>,
                        devices: nat, ghost x: seq<T>, ghost layers: nat, ghost reps: seq<seq<State<T>>>)
    returns (out: seq<T>)
    requires |x| == |part| && Graph(src, dst, |part|)
    requires JobFor(job, f, devices, part, WithSelfLoops(src, dst, |x|), WithSelfLoops(dst, src, |x|))
    requires Repetitions(job, x, layers, reps) && |reps| == WARMUP + TIMED && |reps[|reps| - 1]| > 0
    requires feats == reps[|reps| - 1][|reps[|reps| - 1]| - 1].feats
    ensures out == TwoWayLayers(f, src, dst, x, layers)
    ensures layers == 1 ==> |out| == |x| && forall w :: 0 <= w < |x| ==> out[w] == HeardRow(f, src, dst, x, w)
    ensures out == Layers(f, WithSelfLoops(src, dst, |x|), WithSelfLoops(dst, src, |x|), x, layers)
  {
    LayersAreTwoWay(f, src, dst, x, layers);
    hide HeardRow;
    RepetitionRight(job, x, layers, reps, |reps| - 1);
    hide Repetitions;
    out := Reassemble(part, devices, feats, Layers(job.f, job.u, job.v, x, layers));
  }
}
