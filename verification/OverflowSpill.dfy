/** The capacity repair after label propagation: vertices of the placement set spill from the
    most over-full device to the one with most room until nothing more can be done. */
module OverflowSpill {
  import opened Arrays
  import opened ChangedCone
  import opened LabelMatching

  // ---------------------------------------------------------------- moving a block of vertices

  lemma {:induction false} ReassignedCounts(device: seq<int>, take: seq<nat>, from: int, to: int, d: int)
    requires Distinct(take) && Below(take, |device|) && from != to
    requires forall i :: 0 <= i < |take| ==> device[take[i]] == from
    ensures Count(Reassigned(device, take, to), d)
         == Count(device, d) + (if d == to then |take| else 0) - (if d == from then |take| else 0)
  {
    if take == [] {
      assert Reassigned(device, take, to) == device;
    } else {
      var n := |take| - 1;
      ReassignedCounts(device, take[..n], from, to, d);
      var before := Reassigned(device, take[..n], to);
      assert take == take[..n] + [take[n]] && take[n] !in take[..n];
      assert Reassigned(device, take, to) == before[take[n] := to];
      CountUpdate(before, take[n], to, d);
    }
  }

  /** `to_place[assignment[to_place] == d]`. */
  function OnDevice(device: seq<int>, toPlace: seq<nat>, d: int): (r: seq<nat>)
    requires Below(toPlace, |device|)
    ensures |r| <= |toPlace| && (forall i :: 0 <= i < |r| ==> r[i] in toPlace && r[i] < |device| && device[r[i]] == d)
    ensures forall v :: v in toPlace && device[v] == d ==> v in r
    ensures Distinct(toPlace) ==> Distinct(r)
  {
    if toPlace == [] then []
    else
      var n := |toPlace| - 1;
      assert toPlace == toPlace[..n] + [toPlace[n]];
      var rest := OnDevice(device, toPlace[..n], d);
      if device[toPlace[n]] == d then rest + [toPlace[n]] else rest
  }

  /** They keep the order of the placement. */
  lemma OnDeviceInOrder(device: seq<int>, toPlace: seq<nat>, d: int)
    requires Below(toPlace, |device|)
    ensures OnDevice(device, toPlace, d) == Select<nat>(toPlace, Indices(Select<int>(device, toPlace), d))
  {
    OnDeviceValues(device, toPlace, d);
  }

  lemma {:induction false} OnDeviceValues(device: seq<int>, toPlace: seq<nat>, d: int)
    requires Below(toPlace, |device|)
    ensures OnDevice(device, toPlace, d) == ValuesAt<nat>(Select<int>(device, toPlace), toPlace, d)
  {
    hide Indices, ValuesAt, OnDevice;
    OnDeviceStep(device, toPlace, d);
    if toPlace == [] {
      NoValues(Select<int>(device, toPlace), toPlace, d);
    } else {
      var n := |toPlace| - 1;
      var front := Select<int>(device, toPlace[..n]);
      OnDeviceValues(device, toPlace[..n], d);
      ValuesAtSnoc(front, device[toPlace[n]], toPlace[..n], toPlace[n], d);
      assert toPlace == toPlace[..n] + [toPlace[n]] && Select<int>(device, toPlace) == front + [device[toPlace[n]]];
    }
  }

  lemma OnDeviceStep(device: seq<int>, toPlace: seq<nat>, d: int)
    requires Below(toPlace, |device|)
    ensures toPlace == [] ==> OnDevice(device, toPlace, d) == []
    ensures toPlace != [] ==>
      var n := |toPlace| - 1;
      OnDevice(device, toPlace, d)
      == OnDevice(device, toPlace[..n], d) + if device[toPlace[n]] == d then [toPlace[n]] else []
  {
  }

  // ---------------------------------------------------------------- overflow

  function Excess(load: int, cap: int): nat {
    if load > cap then load - cap else 0
  }

  function Excesses(load: seq<nat>, cap: seq<int>): (r: seq<int>)
    requires |load| == |cap|
    ensures |r| == |load| && forall d :: 0 <= d < |r| ==> r[d] == Excess(load[d], cap[d])
  {
    seq(|load|, d requires 0 <= d < |load| => Excess(load[d], cap[d]))
  }

  /** Vertices above capacity, over all devices. */
  function TotalOverflow(load: seq<nat>, cap: seq<int>): int
    requires |load| == |cap|
  {
    Sum(Excesses(load, cap))
  }

  lemma OverflowNonnegative(load: seq<nat>, cap: seq<int>)
    requires |load| == |cap|
    ensures TotalOverflow(load, cap) >= 0
  {
    var zeros := seq(|load|, _ => 0);
    SumConst(zeros, 0);
    SumMonotone(zeros, Excesses(load, cap));
  }

  /** Moving no more than the excess into no more than the room lowers the total by the move. */
  lemma OverflowFalls(load: seq<nat>, after: seq<nat>, cap: seq<int>, full: nat, open: nat, t: nat)
    requires |load| == |cap| == |after| && full < |cap| && open < |cap| && full != open
    requires t <= load[full] - cap[full] && t <= cap[open] - load[open] && t <= load[full]
    requires after == load[full := load[full] - t][open := load[open] + t]
    ensures TotalOverflow(after, cap) == TotalOverflow(load, cap) - t
  {
    var e := Excesses(load, cap);
    SumUpdate(e, full, e[full] - t);
    assert Excesses(after, cap) == e[full := e[full] - t];
  }

  /** The loads after a block move. */
  lemma LoadsMove(device: seq<int>, take: seq<nat>, devices: nat, full: nat, open: nat)
    requires Distinct(take) && Below(take, |device|) && full != open && full < devices && open < devices
    requires forall i :: 0 <= i < |take| ==> device[take[i]] == full
    ensures |take| <= Loads(device, devices)[full]
    ensures Loads(Reassigned(device, take, open), devices)
         == Loads(device, devices)
              [full := Loads(device, devices)[full] - |take|][open := Loads(device, devices)[open] + |take|]
  {
    hide Count;
    ReassignedCounts(device, take, full, open, full);
    var after := Reassigned(device, take, open);
    forall d | 0 <= d < devices
      ensures Loads(after, devices)[d]
           == Count(device, d) + (if d == open then |take| else 0) - (if d == full then |take| else 0)
    {
      ReassignedCounts(device, take, full, open, d);
    }
  }

  // ---------------------------------------------------------------- the loop

  /** Why the loop stopped. */
  datatype Outcome = Fits | NoRoom | Stuck(full: nat)

  ghost predicate WithinCaps(device: seq<int>, cap: seq<int>) {
    forall d :: 0 <= d < |cap| ==> Count(device, d) <= cap[d]
  }

  /** Nothing outside the placement set moves, and no device is pushed over its capacity. */
  ghost predicate Spilled(before: seq<int>, after: seq<int>, toPlace: seq<nat>, cap: seq<int>) {
    && |after| == |before| && Labels(after, |cap|)
    && (forall v :: 0 <= v < |before| && v !in toPlace ==> after[v] == before[v])
    && forall d :: 0 <= d < |cap| ==> Count(after, d) <= cap[d] || Count(after, d) <= Count(before, d)
  }

  /** What each way of stopping means. */
  ghost predicate Explains(outcome: Outcome, device: seq<int>, toPlace: seq<nat>, cap: seq<int>) {
    match outcome
    case Fits => WithinCaps(device, cap)
    case NoRoom =>
      && !WithinCaps(device, cap)
      && forall d :: 0 <= d < |cap| ==> Count(device, d) >= cap[d]
    case Stuck(full) =>
      && full < |cap| && Count(device, full) > cap[full]
      && (forall d :: 0 <= d < |cap| ==> Count(device, d) - cap[d] <= Count(device, full) - cap[full])
      && (forall v :: v in toPlace && v < |device| ==> device[v] != full)
      && exists d :: 0 <= d < |cap| && Count(device, d) < cap[d]
  }

  function Minus(a: seq<int>, b: seq<int>): (r: seq<int>)
    requires |a| == |b|
    ensures |r| == |a| && forall i :: 0 <= i < |r| ==> r[i] == a[i] - b[i]
  {
    seq(|a|, i requires 0 <= i < |a| => a[i] - b[i])
  }

  /** A move the loop makes: part of the most over-full device's placement vertices, no more than
      its excess, into the device with most room, no more than that room. */
  ghost predicate GoodMove(device: seq<int>, toPlace: seq<nat>, cap: seq<int>, take: seq<nat>, full: nat, open: nat) {
    && take != [] && Distinct(take) && Below(take, |device|) && full != open && full < |cap| && open < |cap|
    && (forall i :: 0 <= i < |take| ==> device[take[i]] == full && take[i] in toPlace)
    && |take| <= Count(device, full) - cap[full] && |take| <= cap[open] - Count(device, open)
  }

  datatype Choice = Stop(outcome: Outcome) | Move(take: seq<nat>, full: nat, open: nat)

  /** The move the loop has to make: first most over-full device, first device with most room, and
      as many of the placement vertices there, in order, as excess and room allow. */
  ghost predicate TheMove(device: seq<int>, toPlace: seq<nat>, cap: seq<int>, c: Choice)
    requires Below(toPlace, |device|)
  {
    && c.Move? && c.full < |cap| && c.open < |cap|
    && var over := Minus(Loads(device, |cap|), cap);
    && var room := Minus(cap, Loads(device, |cap|));
    && var movers := OnDevice(device, toPlace, c.full);
    && c.full == FirstMax(over) && c.open == FirstMax(room) && over[c.full] > 0 && room[c.open] > 0
    && c.take == movers[..Smaller(|movers|, Smaller(over[c.full], room[c.open]))]
  }

  /** `trace` is a run of such moves. */
  ghost predicate SpillRun(trace: seq<seq<int>>, moves: seq<Choice>, toPlace: seq<nat>, cap: seq<int>, n: nat)
    requires Below(toPlace, n)
  {
    && |trace| == |moves| + 1
    && (forall k :: 0 <= k < |trace| ==> |trace[k]| == n)
    && forall k :: 0 <= k < |moves| ==> SpillStep(trace[k], trace[k + 1], moves[k], toPlace, cap)
  }

  ghost predicate SpillStep(before: seq<int>, after: seq<int>, c: Choice, toPlace: seq<nat>, cap: seq<int>)
    requires Below(toPlace, |before|)
  {
    TheMove(before, toPlace, cap, c) && after == Reassigned(before, c.take, c.open)
  }

  lemma SpillRunSnoc(trace: seq<seq<int>>, moves: seq<Choice>, after: seq<int>, c: Choice, toPlace: seq<nat>,
                     cap: seq<int>, n: nat)
    requires Below(toPlace, n) && SpillRun(trace, moves, toPlace, cap, n) && |after| == n
    requires SpillStep(trace[|moves|], after, c, toPlace, cap)
    ensures SpillRun(trace + [after], moves + [c], toPlace, cap, n)
  {
    hide TheMove;
    var t, ms := trace + [after], moves + [c];
    forall k | 0 <= k < |ms| ensures SpillStep(t[k], t[k + 1], ms[k], toPlace, cap) {
      if k < |moves| {
        assert SpillStep(trace[k], trace[k + 1], moves[k], toPlace, cap);
      }
    }
  }

  lemma SpillRunStart(device: seq<int>, toPlace: seq<nat>, cap: seq<int>)
    requires Below(toPlace, |device|)
    ensures SpillRun([device], [], toPlace, cap, |device|)
  {
  }

  /** One look at the loads: stop, or the next block move. */
  method Choose(device: seq<int>, load: seq<nat>, toPlace: seq<nat>, cap: seq<int>, over: seq<int>) returns (c: Choice)
    requires Labels(device, |cap|) && Distinct(toPlace) && Below(toPlace, |device|)
    requires load == Loads(device, |cap|) && over == Minus(load, cap)
    requires exists d :: 0 <= d < |over| && over[d] > 0
    ensures c.Stop? ==> !c.outcome.Fits? && Explains(c.outcome, device, toPlace, cap)
    ensures c.Move? ==> GoodMove(device, toPlace, cap, c.take, c.full, c.open)
    ensures c.Move? ==> TheMove(device, toPlace, cap, c)
  {
    hide Count, Loads, GoodMove, TheMove, FirstMax, OnDevice;
    LoadsAre(device, load, |cap|);
    var full := ArgMax(over);
    var room := Minus(cap, load);
    var open := ArgMax(room);
    if room[open] <= 0 {
      assert Count(device, full) > cap[full];
      forall d | 0 <= d < |cap| ensures Count(device, d) >= cap[d] {
        assert room[d] <= 0;
      }
      return Stop(NoRoom);
    }
    var movers := OnDevice(device, toPlace, full);
    var take := movers[..Smaller(|movers|, Smaller(over[full], room[open]))];
    if |take| == 0 {
      assert movers == [];
      assert Count(device, open) < cap[open];
      forall d | 0 <= d < |cap| ensures Count(device, d) - cap[d] <= Count(device, full) - cap[full] {
        assert over[d] <= over[full];
      }
      return Stop(Stuck(full));
    }
    c := Move(take, full, open);
    ChosenMove(device, toPlace, cap, load, over, room, c);
  }

  lemma ChosenMove(device: seq<int>, toPlace: seq<nat>, cap: seq<int>, load: seq<nat>, over: seq<int>, room: seq<int>,
                   c: Choice)
    requires Labels(device, |cap|) && Distinct(toPlace) && Below(toPlace, |device|) && cap != []
    requires load == Loads(device, |cap|) && over == Minus(load, cap) && room == Minus(cap, load) && c.Move?
    requires c.full == FirstMax(over) && c.open == FirstMax(room) && over[c.full] > 0 && room[c.open] > 0
    requires var movers := OnDevice(device, toPlace, c.full);
             c.take == movers[..Smaller(|movers|, Smaller(over[c.full], room[c.open]))] && c.take != []
    ensures GoodMove(device, toPlace, cap, c.take, c.full, c.open) && TheMove(device, toPlace, cap, c)
  {
    hide Count, FirstMax, OnDevice, Labels, Loads;
    LoadsAre(device, load, |cap|);
    MoversMove(device, toPlace, c.full, |c.take|);
  }

  /** The first of the placement vertices on a device. */
  lemma MoversMove(device: seq<int>, toPlace: seq<nat>, full: nat, k: nat)
    requires Distinct(toPlace) && Below(toPlace, |device|) && k <= |OnDevice(device, toPlace, full)|
    ensures var take := OnDevice(device, toPlace, full)[..k];
            && Distinct(take) && Below(take, |device|)
            && forall i :: 0 <= i < |take| ==> device[take[i]] == full && take[i] in toPlace
  {
    hide OnDevice;
  }

  lemma LoadsAre(device: seq<int>, load: seq<nat>, devices: nat)
    requires load == Loads(device, devices)
    ensures |load| == devices && forall d :: 0 <= d < devices ==> load[d] == Count(device, d)
  {
    hide Count;
  }

  lemma StillSpilled(before: seq<int>, device: seq<int>, toPlace: seq<nat>, cap: seq<int>, take: seq<nat>, full: nat,
                     open: nat)
    requires Spilled(before, device, toPlace, cap) && GoodMove(device, toPlace, cap, take, full, open)
    ensures Spilled(before, Reassigned(device, take, open), toPlace, cap)
  {
    var after := Reassigned(device, take, open);
    forall d | 0 <= d < |cap| ensures Count(after, d) <= cap[d] || Count(after, d) <= Count(before, d) {
      ReassignedCounts(device, take, full, open, d);
    }
  }

  /** After a move the running loads are again the true counts and the overflow has dropped. */
  lemma MoveEffect(device: seq<int>, toPlace: seq<nat>, cap: seq<int>, take: seq<nat>, full: nat, open: nat,
                   load: seq<nat>, after: seq<nat>)
    requires GoodMove(device, toPlace, cap, take, full, open) && load == Loads(device, |cap|)
    requires load[full] >= |take| ==> after == load[full := load[full] - |take|][open := load[open] + |take|]
    ensures load[full] >= |take| && after == Loads(Reassigned(device, take, open), |cap|)
    ensures TotalOverflow(after, cap) == TotalOverflow(load, cap) - |take|
  {
    hide TotalOverflow;
    LoadsMove(device, take, |cap|, full, open);
    OverflowFalls(load, after, cap, full, open, |take|);
  }

  lemma RoomForMove(device: seq<int>, toPlace: seq<nat>, cap: seq<int>, take: seq<nat>, full: nat, open: nat,
                    load: seq<nat>)
    requires GoodMove(device, toPlace, cap, take, full, open) && load == Loads(device, |cap|)
    ensures |load| == |cap| && full < |cap| && open < |cap| && 0 < |take| <= load[full] && Below(take, |device|)
  {
    LoadsMove(device, take, |cap|, full, open);
  }

  /** Applies one block move to the assignment and to the running loads. */
  method MoveBlock(device: array<int>, load: seq<nat>, toPlace: seq<nat>, cap: seq<int>,
                   take: seq<nat>, full: nat, open: nat, ghost was: seq<int>) returns (after: seq<nat>)
    requires GoodMove(device[..], toPlace, cap, take, full, open) && load == Loads(device[..], |cap|)
    requires Spilled(was, device[..], toPlace, cap)
    modifies device
    ensures Spilled(was, device[..], toPlace, cap)
    ensures device[..] == Reassigned(old(device[..]), take, open) && after == Loads(device[..], |cap|)
    ensures TotalOverflow(after, cap) == TotalOverflow(load, cap) - |take| && take != []
  {
    hide *;
    ghost var now := device[..];
    StillSpilled(was, now, toPlace, cap, take, full, open);
    RoomForMove(now, toPlace, cap, take, full, open, load);
    MoveAll(device, take, open);
    after := load[full := load[full] - |take|][open := load[open] + |take|];
    MoveEffect(now, toPlace, cap, take, full, open, load, after);
  }

  /** The spill loop over the vertices that are being placed. */
  method Spill(device: array<int>, toPlace: seq<nat>, cap: seq<int>)
    returns (outcome: Outcome, ghost trace: seq<seq<int>>, ghost moves: seq<Choice>)
    requires Labels(device[..], |cap|) && Distinct(toPlace) && Below(toPlace, device.Length) && cap != []
    modifies device
    ensures SpillRun(trace, moves, toPlace, cap, device.Length)
    ensures |trace| == |moves| + 1 && trace[0] == old(device[..]) && trace[|moves|] == device[..]
    ensures Spilled(old(device[..]), device[..], toPlace, cap)
    ensures Explains(outcome, device[..], toPlace, cap)
    ensures TotalOverflow(Loads(device[..], |cap|), cap) <= TotalOverflow(Loads(old(device[..]), |cap|), cap)
  {
    ghost var was := device[..];
    hide *;
    var load := Loads(device[..], |cap|);
    var over := Minus(load, cap);
    trace, moves := [was], [];
    AtStart(was, toPlace, cap);
    SpillRunStart(was, toPlace, cap);
    while exists d :: 0 <= d < |over| && over[d] > 0
      invariant Spilled(was, device[..], toPlace, cap)
      invariant SpillRun(trace, moves, toPlace, cap, device.Length)
      invariant |trace| == |moves| + 1 && trace[0] == was && trace[|moves|] == device[..]
      invariant load == Loads(device[..], |cap|) && over == Minus(load, cap)
      invariant TotalOverflow(load, cap) <= TotalOverflow(Loads(was, |cap|), cap)
      decreases TotalOverflow(load, cap)
    {
      SpilledLabels(was, device[..], toPlace, cap);
      var c := Choose(device[..], load, toPlace, cap, over);
      if c.Stop? {
        outcome := c.outcome;
        return;
      }
      ghost var before := device[..];
      load := MoveBlock(device, load, toPlace, cap, c.take, c.full, c.open, was);
      over := Minus(load, cap);
      StepIs(before, device[..], c, toPlace, cap);
      SpillRunSnoc(trace, moves, device[..], c, toPlace, cap, device.Length);
      trace, moves := trace + [device[..]], moves + [c];
      OverflowNonnegative(load, cap);
    }
    NothingOver(device[..], load, toPlace, cap, over);
    outcome := Fits;
  }

  lemma StepIs(before: seq<int>, after: seq<int>, c: Choice, toPlace: seq<nat>, cap: seq<int>)
    requires Below(toPlace, |before|) && c.Move? && TheMove(before, toPlace, cap, c)
    requires after == Reassigned(before, c.take, c.open)
    ensures SpillStep(before, after, c, toPlace, cap)
  {
  }

  lemma NothingOver(device: seq<int>, load: seq<nat>, toPlace: seq<nat>, cap: seq<int>, over: seq<int>)
    requires load == Loads(device, |cap|) && over == Minus(load, cap)
    requires forall d :: 0 <= d < |over| ==> over[d] <= 0
    ensures Explains(Fits, device, toPlace, cap)
  {
    forall d | 0 <= d < |cap| ensures Count(device, d) <= cap[d] {
      assert over[d] == Count(device, d) - cap[d];
    }
  }

  lemma SpilledLabels(before: seq<int>, after: seq<int>, toPlace: seq<nat>, cap: seq<int>)
    requires Spilled(before, after, toPlace, cap)
    ensures |after| == |before| && Labels(after, |cap|)
  {
  }

  lemma AtStart(device: seq<int>, toPlace: seq<nat>, cap: seq<int>)
    requires Labels(device, |cap|)
    ensures Spilled(device, device, toPlace, cap)
  {
  }

  method MoveAll(device: array<int>, take: seq<nat>, to: int)
    requires Below(take, device.Length)
    modifies device
    ensures device[..] == Reassigned(old(device[..]), take, to)
  {
    for i := 0 to |take|
      invariant device[..] == Reassigned(old(device[..]), take[..i], to)
    {
      assert take[..i + 1] == take[..i] + [take[i]];
      device[take[i]] := to;
    }
    assert take[..|take|] == take;
  }

  // ---------------------------------------------------------------- exactly when it fits

  /** The vertices of device `d` that the loop may not touch. */
  function FixedLoad(device: seq<int>, toPlace: seq<nat>, d: int): nat {
    Count(Freed(device, toPlace), d)
  }

  lemma {:induction false} FixedWithinLoad(device: seq<int>, toPlace: seq<nat>, d: int)
    requires d >= 0
    ensures FixedLoad(device, toPlace, d) <= Count(device, d)
    ensures (forall v :: v in toPlace && v < |device| ==> device[v] != d) ==>
              FixedLoad(device, toPlace, d) == Count(device, d)
  {
    if device != [] {
      var n := |device| - 1;
      FixedWithinLoad(device[..n], toPlace, d);
      assert Freed(device, toPlace)[..n] == Freed(device[..n], toPlace);
    }
  }

  lemma FixedUnchanged(before: seq<int>, after: seq<int>, toPlace: seq<nat>, cap: seq<int>, d: int)
    requires Spilled(before, after, toPlace, cap)
    ensures FixedLoad(after, toPlace, d) == FixedLoad(before, toPlace, d)
  {
    assert Freed(after, toPlace) == Freed(before, toPlace);
  }

  /** Loads sum to the number of vertices. */
  lemma WithinCapsFit(device: seq<int>, cap: seq<int>)
    requires Labels(device, |cap|) && WithinCaps(device, cap)
    ensures Sum(cap) >= |device|
  {
    hide Count, Sum;
    HistogramTotal(device, |cap|);
    SumMonotone(Histogram(device, |cap|), cap);
  }

  lemma NoRoomShort(device: seq<int>, cap: seq<int>, d: nat)
    requires Labels(device, |cap|) && d < |cap| && Count(device, d) > cap[d]
    requires forall e :: 0 <= e < |cap| ==> Count(device, e) >= cap[e]
    ensures Sum(cap) < |device|
  {
    hide Count, Sum;
    var h := Histogram(device, |cap|);
    HistogramTotal(device, |cap|);
    SumUpdate(cap, d, h[d]);
    SumMonotone(cap[d := h[d]], h);
  }

  lemma CapsAgainstVertices(device: seq<int>, cap: seq<int>)
    requires Labels(device, |cap|)
    ensures WithinCaps(device, cap) ==> Sum(cap) >= |device|
    ensures !WithinCaps(device, cap) && (forall d :: 0 <= d < |cap| ==> Count(device, d) >= cap[d]) ==>
              Sum(cap) < |device|
  {
    hide Count, Sum;
    if WithinCaps(device, cap) {
      WithinCapsFit(device, cap);
    } else if forall d :: 0 <= d < |cap| ==> Count(device, d) >= cap[d] {
      var d :| 0 <= d < |cap| && Count(device, d) > cap[d];
      NoRoomShort(device, cap, d);
    }
  }

  /** The repair succeeds exactly when the capacities add up to the vertices and no device is
      already over capacity with vertices that must stay. */
  lemma FitsExactly(before: seq<int>, after: seq<int>, toPlace: seq<nat>, cap: seq<int>, outcome: Outcome)
    requires Spilled(before, after, toPlace, cap) && Explains(outcome, after, toPlace, cap)
    ensures outcome.Fits? <==>
              Sum(cap) >= |before| && forall d :: 0 <= d < |cap| ==> FixedLoad(before, toPlace, d) <= cap[d]
    ensures Sum(cap) >= |before| ==> !outcome.NoRoom?
  {
    CapsAgainstVertices(after, cap);
    hide Count, FixedLoad;
    forall d | 0 <= d < |cap|
      ensures FixedLoad(before, toPlace, d) <= Count(after, d)
      ensures (forall v :: v in toPlace && v < |after| ==> after[v] != d) ==>
                FixedLoad(before, toPlace, d) == Count(after, d)
    {
      FixedUnchanged(before, after, toPlace, cap, d);
      FixedWithinLoad(after, toPlace, d);
    }
  }

  /** Two vertices that must stay on a device of capacity 1: the repair gives up at once, although
      the other device has room for everything. */
  lemma StuckExample(after: seq<int>, outcome: Outcome)
    requires Spilled([0, 0, 1], after, [2], [1, 5]) && Explains(outcome, after, [2], [1, 5])
    ensures outcome == Stuck(0) && Count(after, 0) >= 2
    ensures Spilled([0, 0, 1], [0, 0, 1], [2], [1, 5]) && Explains(Stuck(0), [0, 0, 1], [2], [1, 5])
  {
    hide Count;
    var before, cap: seq<int> := [0, 0, 1], [1, 5];
    assert Sum(cap) == 6 by {
      assert cap[..1] == [1];
    }
    FixedUnchanged(before, after, [2], cap, 0);
    FixedWithinLoad(after, [2], 0);
    ExampleCounts();
    FitsExactly(before, after, [2], cap, outcome);
  }

  lemma ExampleCounts()
    ensures FixedLoad([0, 0, 1], [2], 0) == 2 && Count([0, 0, 1], 0) == 2 && Count([0, 0, 1], 1) == 1
  {
    CountOfThree(0, 0, 1, 0);
    CountOfThree(0, 0, 1, 1);
    CountOfThree(0, 0, UNPLACED, 0);
    assert Freed([0, 0, 1], [2]) == [0, 0, UNPLACED];
  }

  lemma CountOfThree(a: int, b: int, c: int, k: int)
    ensures Count([a, b, c], k) == (if a == k then 1 else 0) + (if b == k then 1 else 0) + (if c == k then 1 else 0)
  {
    hide Indices, Count;
    CountAbsent([], k);
    CountSnoc([], a, k);
    CountSnoc([a], b, k);
    CountSnoc([a, b], c, k);
    assert [] + [a] == [a] && [a] + [b] == [a, b] && [a, b] + [c] == [a, b, c];
  }
}
