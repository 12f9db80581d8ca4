/** The staging plan of the pinned exchange: per owner the concatenated rows it gathers into its
    host buffer, per device the slices it copies in and the table slots they fill. */
module PinnedExchange {
  import opened Arrays
  import opened HaloExecution

  // ---------------------------------------------------------------- staging plan

  /** One incoming copy: rows `[lo, lo + |slots|)` of the owner's host buffer go to `slots`. */
  datatype Transfer = Transfer(owner: nat, lo: nat, slots: seq<nat>)

  /** Per owner the concatenated rows it stages; per device its incoming copies. */
  datatype Staging = Staging(sendIdx: seq<seq<nat>>, recvPlan: seq<seq<Transfer>>)

  /** Everything fixed before the first exchange. */
  datatype Job<!T> = Job(f: RowFn<T>, devices: nat, part: seq<nat>, lidx: seq<nat>, u: seq<nat>, v: seq<nat>,
                         shards: seq<Shard>, staging: Staging)

  /** `t` reads, for each slot it fills, owner `o`'s row of that slot's vertex from the staged rows `cat`. */
  ghost predicate Staged(t: Transfer, o: nat, cat: seq<nat>, part: seq<nat>, lidx: seq<nat>, sh: Shard) {
    && t.owner == o && t.slots != [] && t.lo + |t.slots| <= |cat|
    && forall j :: 0 <= j < |t.slots| ==>
         && |sh.locals| <= t.slots[j] < |sh.Slots()| && sh.Slots()[t.slots[j]] < |part| == |lidx|
         && part[sh.Slots()[t.slots[j]]] == o
         && cat[t.lo + j] == lidx[sh.Slots()[t.slots[j]]]
  }

  ghost predicate Incoming(plan: seq<Transfer>, sendIdx: seq<seq<nat>>, part: seq<nat>, lidx: seq<nat>, sh: Shard) {
    forall k :: 0 <= k < |plan| ==>
      plan[k].owner < |sendIdx| && Staged(plan[k], plan[k].owner, sendIdx[plan[k].owner], part, lidx, sh)
  }

  ghost predicate Reached(plan: seq<Transfer>, s: nat) {
    exists k, j :: 0 <= k < |plan| && 0 <= j < |plan[k].slots| && plan[k].slots[j] == s
  }

  ghost predicate ValidStaging(st: Staging, devices: nat, part: seq<nat>, lidx: seq<nat>, shards: seq<Shard>)
    requires |shards| == devices
  {
    && |st.sendIdx| == |st.recvPlan| == devices
    && (forall d :: 0 <= d < devices ==> Incoming(st.recvPlan[d], st.sendIdx, part, lidx, shards[d]))
    && (forall d, s :: 0 <= d < devices && |shards[d].locals| <= s < |shards[d].Slots()| ==>
          Reached(st.recvPlan[d], s))
    && (forall o, r :: 0 <= o < devices && 0 <= r < |st.sendIdx[o]| ==> st.sendIdx[o][r] < Count(part, o))
  }

  /** Appends owner `o`'s rows for device `d`, one pull of `d`'s plan at a time. */
  method StageDevice(o: nat, d: nat, plan: seq<Pull>, cat: seq<nat>, ghost part: seq<nat>, ghost lidx: seq<nat>,
                     ghost sh: Shard)
    returns (cat': seq<nat>, added: seq<Transfer>)
    requires LocalIndex(part, lidx) && Below(sh.Slots(), |part|) && sh.locals == Indices(part, d)
    requires forall j :: 0 <= j < |plan| ==> ValidPull(plan[j], d, part, lidx, sh.Slots()) && plan[j].rows != []
    ensures cat <= cat'
    ensures AllStaged(added, o, cat', part, lidx, sh) && FilledFrom(added, plan, o)
    ensures forall r :: |cat| <= r < |cat'| ==> cat'[r] < Count(part, o)
  {
    cat', added := cat, [];
    for j := 0 to |plan|
      invariant cat <= cat'
      invariant forall k :: 0 <= k < |added| ==> Staged(added[k], o, cat', part, lidx, sh)
      invariant forall i :: 0 <= i < j && plan[i].owner == o ==>
                  forall k :: 0 <= k < |plan[i].slots| ==> Reached(added, plan[i].slots[k])
      invariant forall r :: |cat| <= r < |cat'| ==> cat'[r] < Count(part, o)
    {
      var p := plan[j];
      if p.owner == o {
        StagePull(p, o, d, cat', added, part, lidx, sh);
        cat', added := cat' + p.rows, added + [Transfer(o, |cat'|, p.slots)];
      }
    }
  }

  lemma StagedLonger(t: Transfer, o: nat, cat: seq<nat>, cat': seq<nat>, part: seq<nat>, lidx: seq<nat>, sh: Shard)
    requires Staged(t, o, cat, part, lidx, sh) && cat <= cat'
    ensures Staged(t, o, cat', part, lidx, sh)
  {
  }

  lemma ReachedLonger(plan: seq<Transfer>, t: Transfer, s: nat)
    requires Reached(plan, s) || s in t.slots
    ensures Reached(plan + [t], s)
  {
    if Reached(plan, s) {
      var k, j :| 0 <= k < |plan| && 0 <= j < |plan[k].slots| && plan[k].slots[j] == s;
      assert (plan + [t])[k] == plan[k];
    } else {
      var j :| 0 <= j < |t.slots| && t.slots[j] == s;
      assert (plan + [t])[|plan|] == t;
    }
  }

  lemma StagePull(p: Pull, o: nat, d: nat, cat: seq<nat>, added: seq<Transfer>, part: seq<nat>, lidx: seq<nat>,
                  sh: Shard)
    requires LocalIndex(part, lidx) && Below(sh.Slots(), |part|) && sh.locals == Indices(part, d)
    requires ValidPull(p, d, part, lidx, sh.Slots()) && p.rows != [] && p.owner == o
    requires forall k :: 0 <= k < |added| ==> Staged(added[k], o, cat, part, lidx, sh)
    ensures var t := Transfer(o, |cat|, p.slots);
            && (forall k :: 0 <= k < |added| + 1 ==> Staged((added + [t])[k], o, cat + p.rows, part, lidx, sh))
            && (forall s :: Reached(added, s) || s in p.slots ==> Reached(added + [t], s))
    ensures forall r :: 0 <= r < |p.rows| ==> p.rows[r] < Count(part, o)
  {
    var t := Transfer(o, |cat|, p.slots);
    assert Staged(t, o, cat + p.rows, part, lidx, sh);
    forall k | 0 <= k < |added| ensures Staged(added[k], o, cat + p.rows, part, lidx, sh) {
      StagedLonger(added[k], o, cat, cat + p.rows, part, lidx, sh);
    }
    forall s | Reached(added, s) || s in p.slots ensures Reached(added + [t], s) {
      ReachedLonger(added, t, s);
    }
    forall r | 0 <= r < |p.rows| ensures p.rows[r] < Count(part, o) {
      var x := sh.Slots()[p.slots[r]];
      assert PlacedAt(part, x, lidx[x]);
    }
  }

  /** Every slot that `o` has to fill is reached. */
  ghost predicate FilledFrom(added: seq<Transfer>, plan: seq<Pull>, o: nat) {
    forall j, k :: 0 <= j < |plan| && 0 <= k < |plan[j].slots| && plan[j].owner == o ==>
          Reached(added, plan[j].slots[k])
  }

  ghost predicate AllStaged(added: seq<Transfer>, o: nat, cat: seq<nat>, part: seq<nat>, lidx: seq<nat>, sh: Shard) {
    forall k :: 0 <= k < |added| ==> Staged(added[k], o, cat, part, lidx, sh)
  }

  lemma AllStagedLonger(added: seq<Transfer>, o: nat, cat: seq<nat>, cat': seq<nat>, part: seq<nat>, lidx: seq<nat>,
                        sh: Shard)
    requires AllStaged(added, o, cat, part, lidx, sh) && cat <= cat'
    ensures AllStaged(added, o, cat', part, lidx, sh)
  {
    forall k | 0 <= k < |added| ensures Staged(added[k], o, cat', part, lidx, sh) {
      StagedLonger(added[k], o, cat, cat', part, lidx, sh);
    }
  }

  lemma PlanFacts(devices: nat, part: seq<nat>, lidx: seq<nat>, u: seq<nat>, v: seq<nat>, shards: seq<Shard>, d: nat)
    requires BuiltShards(devices, part, lidx, u, v, shards) && d < devices
    ensures LocalIndex(part, lidx) && Below(shards[d].Slots(), |part|) && shards[d].locals == Indices(part, d)
    ensures forall j :: 0 <= j < |shards[d].plan| ==>
              ValidPull(shards[d].plan[j], d, part, lidx, shards[d].Slots()) && shards[d].plan[j].rows != []
  {
    assert ValidShard(shards[d], d, part, lidx, u, v);
  }

  /** The copies of owner `o` for the first devices are staged in `cat` and reach their slots. */
  ghost predicate OwnerStaged(added: seq<seq<Transfer>>, o: nat, cat: seq<nat>, part: seq<nat>, lidx: seq<nat>,
                              shards: seq<Shard>) {
    && |added| <= |shards|
    && (forall e :: 0 <= e < |added| ==> AllStaged(added[e], o, cat, part, lidx, shards[e]))
    && (forall e :: 0 <= e < |added| ==> FilledFrom(added[e], shards[e].plan, o))
    && (forall r :: 0 <= r < |cat| ==> cat[r] < Count(part, o))
  }

  lemma OwnerStagedSnoc(added: seq<seq<Transfer>>, more: seq<Transfer>, o: nat, cat: seq<nat>, cat': seq<nat>,
                        part: seq<nat>, lidx: seq<nat>, shards: seq<Shard>)
    requires OwnerStaged(added, o, cat, part, lidx, shards) && |added| < |shards| && cat <= cat'
    requires AllStaged(more, o, cat', part, lidx, shards[|added|]) && FilledFrom(more, shards[|added|].plan, o)
    requires forall r :: |cat| <= r < |cat'| ==> cat'[r] < Count(part, o)
    ensures OwnerStaged(added + [more], o, cat', part, lidx, shards)
  {
    hide AllStaged;
    hide FilledFrom;
    forall e | 0 <= e < |added| ensures AllStaged(added[e], o, cat', part, lidx, shards[e]) {
      AllStagedLonger(added[e], o, cat, cat', part, lidx, shards[e]);
    }
  }

  /** One owner's concatenated rows and, per device, the copies that read them. */
  method StageOwner(o: nat, devices: nat, part: seq<nat>, lidx: seq<nat>, ghost u: seq<nat>, ghost v: seq<nat>,
                    shards: seq<Shard>)
    returns (cat: seq<nat>, added: seq<seq<Transfer>>)
    requires BuiltShards(devices, part, lidx, u, v, shards)
    ensures |added| == devices && OwnerStaged(added, o, cat, part, lidx, shards)
  {
    assert |shards| == devices;
    hide BuiltShards;
    hide ValidPull;
    hide AllStaged;
    hide FilledFrom;
    cat, added := [], [];
    for d := 0 to devices
      invariant |added| == d && OwnerStaged(added, o, cat, part, lidx, shards)
    {
      PlanFacts(devices, part, lidx, u, v, shards, d);
      var cat', more := StageDevice(o, d, shards[d].plan, cat, part, lidx, shards[d]);
      OwnerStagedSnoc(added, more, o, cat, cat', part, lidx, shards);
      cat, added := cat', added + [more];
    }
  }

  /** Builds the send lists and receive plans, owner by owner. */
  method BuildStaging(devices: nat, part: seq<nat>, lidx: seq<nat>, ghost u: seq<nat>, ghost v: seq<nat>,
                      shards: seq<Shard>)
    returns (st: Staging)
    requires BuiltShards(devices, part, lidx, u, v, shards)
    ensures ValidStaging(st, devices, part, lidx, shards)
  {
    assert |shards| == devices;
    hide BuiltShards;
    var sendIdx: seq<seq<nat>> := [];
    var recvPlan: seq<seq<Transfer>> := seq(devices, _ => []);
    for o := 0 to devices
      invariant |sendIdx| == o && |recvPlan| == devices
      invariant forall d :: 0 <= d < devices ==> Incoming(recvPlan[d], sendIdx, part, lidx, shards[d])
      invariant forall d, p :: 0 <= d < devices && 0 <= p < o ==> FilledFrom(recvPlan[d], shards[d].plan, p)
      invariant forall p, r :: 0 <= p < o && 0 <= r < |sendIdx[p]| ==> sendIdx[p][r] < Count(part, p)
    {
      var cat, added := StageOwner(o, devices, part, lidx, u, v, shards);
      var next := seq(devices, d requires 0 <= d < devices => recvPlan[d] + added[d]);
      forall d | 0 <= d < devices
        ensures Incoming(next[d], sendIdx + [cat], part, lidx, shards[d])
        ensures forall p :: 0 <= p < o + 1 ==> FilledFrom(next[d], shards[d].plan, p)
      {
        Appended(recvPlan[d], added[d], sendIdx, cat, o, part, lidx, shards[d]);
      }
      sendIdx, recvPlan := sendIdx + [cat], next;
    }
    st := Staging(sendIdx, recvPlan);
    forall d, s | 0 <= d < devices && |shards[d].locals| <= s < |shards[d].Slots()|
      ensures Reached(st.recvPlan[d], s)
    {
      ReachedAll(devices, part, lidx, u, v, shards, d, s, recvPlan[d]);
    }
  }

  lemma Appended(plan: seq<Transfer>, added: seq<Transfer>, sendIdx: seq<seq<nat>>, cat: seq<nat>, o: nat,
                 part: seq<nat>, lidx: seq<nat>, sh: Shard)
    requires Incoming(plan, sendIdx, part, lidx, sh) && |sendIdx| == o && AllStaged(added, o, cat, part, lidx, sh)
    requires forall p :: 0 <= p < o ==> FilledFrom(plan, sh.plan, p)
    requires FilledFrom(added, sh.plan, o)
    ensures Incoming(plan + added, sendIdx + [cat], part, lidx, sh)
    ensures forall p :: 0 <= p < o + 1 ==> FilledFrom(plan + added, sh.plan, p)
  {
    forall k | 0 <= k < |plan + added|
      ensures (plan + added)[k].owner < o + 1
      ensures Staged((plan + added)[k], (plan + added)[k].owner,
                     (sendIdx + [cat])[(plan + added)[k].owner], part, lidx, sh)
    {
      if k >= |plan| {
        assert (plan + added)[k] == added[k - |plan|];
      }
    }
    forall p | 0 <= p < o + 1 ensures FilledFrom(plan + added, sh.plan, p) {
      forall j, k | 0 <= j < |sh.plan| && 0 <= k < |sh.plan[j].slots| && sh.plan[j].owner == p
        ensures Reached(plan + added, sh.plan[j].slots[k])
      {
        assert if p < o then FilledFrom(plan, sh.plan, p) else FilledFrom(added, sh.plan, o);
        ReachedEither(plan, added, sh.plan[j].slots[k]);
      }
    }
  }

  lemma ReachedEither(a: seq<Transfer>, b: seq<Transfer>, s: nat)
    ensures Reached(a, s) || Reached(b, s) ==> Reached(a + b, s)
  {
    if Reached(a, s) {
      var k, j :| 0 <= k < |a| && 0 <= j < |a[k].slots| && a[k].slots[j] == s;
      assert (a + b)[k] == a[k];
    } else if Reached(b, s) {
      var k, j :| 0 <= k < |b| && 0 <= j < |b[k].slots| && b[k].slots[j] == s;
      assert (a + b)[|a| + k] == b[k];
    }
  }

  /** Every halo slot belongs to some pull, hence to some copy. */
  lemma ReachedAll(devices: nat, part: seq<nat>, lidx: seq<nat>, u: seq<nat>, v: seq<nat>, shards: seq<Shard>,
                   d: nat, s: nat, plan: seq<Transfer>)
    requires BuiltShards(devices, part, lidx, u, v, shards) && d < devices
    requires |shards[d].locals| <= s < |shards[d].Slots()|
    requires forall p :: 0 <= p < devices ==> FilledFrom(plan, shards[d].plan, p)
    ensures Reached(plan, s)
  {
    var sh := shards[d];
    assert ValidShard(sh, d, part, lidx, u, v);
    assert Covered(sh.plan, s);
    var j, k :| 0 <= j < |sh.plan| && 0 <= k < |sh.plan[j].slots| && sh.plan[j].slots[k] == s;
    assert ValidPull(sh.plan[j], d, part, lidx, sh.Slots());
    assert sh.plan[j].owner < devices;
    assert FilledFrom(plan, sh.plan, sh.plan[j].owner);
  }
}
