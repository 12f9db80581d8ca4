/** When the rounds of the activity rebalance do what they are for: stop with every device within
    its capacity, unless the budget is spent. */
module RebalancePromise {
  import opened Arrays
  import opened ChangedCone
  import opened LabelMatching
  import opened WeightedLoads
  import opened ActivityRebalance

  ghost predicate AllFit(device: seq<int>, per: seq<real>, caps: seq<real>)
    requires |device| == |per|
  {
    forall d :: 0 <= d < |caps| ==> Load(per, device, d) <= caps[d]
  }

  function Times(k: int, x: real): real {
    k as real * x
  }

  lemma TimesStep(k: int, x: real)
    ensures Times(k, x) == Times(k - 1, x) + x && Times(0, x) == 0.0 && Times(k, 0.0) == 0.0
  {
  }

  lemma TimesOrder(k: nat, x: real, y: real)
    requires x <= y
    ensures Times(k, x) <= Times(k, y)
  {
  }

  /** The capacities hold everything and, for every device but one, a vertex of weight `h` more. */
  ghost predicate Spacious(per: seq<real>, caps: seq<real>, h: real) {
    NonNegative(caps) && Total(caps) >= Total(per) + Times(|caps| - 1, h)
  }

  // ---------------------------------------------------------------- there is room for any vertex

  /** If no device has more room than `room` and one is over by `e`, the spare capacity is bounded. */
  lemma {:induction false} RoomBound(per: seq<real>, device: seq<int>, caps: seq<real>, full: nat, room: real, e: real,
                                     k: nat)
    requires |device| == |per| && full < |caps| && k <= |caps| && Load(per, device, full) == caps[full] + e
    requires forall d :: 0 <= d < |caps| ==> caps[d] - Load(per, device, d) <= room
    ensures Total(caps[..k]) - LoadSum(per, device, k)
         <= Times(if full < k then k - 1 else k, room) - if full < k then e else 0.0
  {
    hide Load, Total, Times;
    TimesStep(k, room);
    TimesStep(k - 1, room);
    if k == 0 {
      EmptyTotal(caps[..0]);
    } else {
      RoomBound(per, device, caps, full, room, e, k - 1);
      PrefixStep(caps, k - 1);
    }
  }

  lemma EmptyTotal(xs: seq<real>)
    requires xs == []
    ensures Total(xs) == 0.0
  {
  }

  lemma SpareCapacity(per: seq<real>, device: seq<int>, caps: seq<real>, full: nat, room: real)
    requires |device| == |per| && full < |caps| && Labels(device, |caps|)
    requires forall d :: 0 <= d < |caps| ==> caps[d] - Load(per, device, d) <= room
    ensures Total(caps) - Total(per) <= Times(|caps| - 1, room) - (Load(per, device, full) - caps[full])
  {
    hide Load, Total, Times;
    LoadSumIsTotal(per, device, |caps|);
    RoomBound(per, device, caps, full, room, Load(per, device, full) - caps[full], |caps|);
    assert caps[..|caps|] == caps;
  }

  /** While a device is over capacity the emptiest one has room for more than any vertex. */
  lemma RoomExceeds(per: seq<real>, device: seq<int>, caps: seq<real>, full: nat, open: nat, h: real)
    requires |device| == |per| && full < |caps| && open < |caps| && Labels(device, |caps|)
    requires Spacious(per, caps, h) && Overfull(device, per, caps, full) && Roomiest(device, per, caps, open)
    ensures caps[open] - Load(per, device, open) > h
  {
    hide Load, Total, Times;
    var room := caps[open] - Load(per, device, open);
    SpareCapacity(per, device, caps, full, room);
    if room <= h {
      TimesOrder(|caps| - 1, room, h);
    }
  }

  // ---------------------------------------------------------------- every round settles a device

  /** 0 for a device just within its capacity, which no round touches again; 1 for one that a
      single vertex's weight would bring there; 2 for any other. */
  function Rank(over: real, h: real): (r: nat)
    ensures r <= 2
  {
    if -h < over <= 0.0 then 0 else if 0.0 < over < h then 1 else 2
  }

  function RankOn(device: seq<int>, per: seq<real>, caps: seq<real>, h: real, d: nat): nat
    requires |device| == |per| && d < |caps|
  {
    Rank(Load(per, device, d) - caps[d], h)
  }

  ghost function Potential(device: seq<int>, per: seq<real>, caps: seq<real>, h: real, k: nat): (p: nat)
    requires |device| == |per| && k <= |caps|
    ensures p <= 2 * k
  {
    if k == 0 then 0
    else Potential(device, per, caps, h, k - 1) + RankOn(device, per, caps, h, k - 1)
  }

  lemma {:induction false} PotentialChange(before: seq<int>, after: seq<int>, per: seq<real>, caps: seq<real>, h: real,
                                           full: nat, open: nat, k: nat)
    requires |before| == |after| == |per| && full < |caps| && open < |caps| && full != open && k <= |caps|
    requires forall d :: 0 <= d < |caps| && d != full && d != open ==> Load(per, after, d) == Load(per, before, d)
    ensures Potential(after, per, caps, h, k) - Potential(before, per, caps, h, k)
         == (if full < k then RankOn(after, per, caps, h, full) - RankOn(before, per, caps, h, full) else 0)
          + (if open < k then RankOn(after, per, caps, h, open) - RankOn(before, per, caps, h, open) else 0)
  {
    hide Load, Rank;
    if k > 0 {
      PotentialChange(before, after, per, caps, h, full, open, k - 1);
    }
  }

  /** A slab that reaches the excess clears the full device; one that reaches the room leaves the
      open device over by less than a vertex. */
  lemma RankFalls(e: real, room: real, slab: real, h: real)
    requires e > 0.0 && room > h && Lower(e, room) <= slab < Lower(e, room) + h
    ensures Rank(e - slab, h) + Rank(slab - room, h) < Rank(e, h) + Rank(-room, h)
  {
  }

  /** A slab that takes all of a device takes its whole load. */
  lemma AllTaken(before: seq<int>, after: seq<int>, m: Move, degree: seq<nat>, per: seq<real>, caps: seq<real>)
    requires |before| == |degree| == |per| && StepOf(before, after, m, degree, per, caps)
    requires |m.taken| == Count(before, m.full)
    ensures Below(m.taken, |per|) && Total(Select<real>(per, m.taken)) == Load(per, before, m.full)
  {
    hide Load, Total, Fullest, Roomiest, Count, HottestFirst;
    ReassignedLoads(per, before, m.taken, m.full, m.open, m.full);
    HottestOrder(before, degree, m.full);
    assert m.taken == HottestFirst(before, degree, m.full);
    CountAbsent(after, m.full);
    LoadEmpty(per, after, m.full);
  }

  /** A slab not cut short by the budget covers the goal by less than one vertex. */
  lemma SlabCovers(before: seq<int>, after: seq<int>, m: Move, degree: seq<nat>, per: seq<real>, caps: seq<real>,
                   left: int, h: real)
    requires |before| == |degree| == |per| && StepOf(before, after, m, degree, per, caps) && NonNegative(caps)
    requires FullSlab(before, per, caps, m, left) && |m.taken| != left && Heaviest(per) <= h
    ensures m.full < |caps| && m.open < |caps| && Below(m.taken, |per|)
    ensures var goal := Goal(before, per, caps, m.full, m.open);
            goal <= Total(Select<real>(per, m.taken)) < goal + h
  {
    hide Load, Total, Fullest, Roomiest, Count, HottestFirst, Heaviest;
    if |m.taken| == Count(before, m.full) {
      AllTaken(before, after, m, degree, per, caps);
    }
  }

  /** While the budget lasts every round lowers the potential. */
  lemma RoundSettles(before: seq<int>, after: seq<int>, m: Move, degree: seq<nat>, per: seq<real>, caps: seq<real>,
                     left: int, h: real)
    requires |before| == |degree| == |per| && StepOf(before, after, m, degree, per, caps) && Labels(before, |caps|)
    requires FullSlab(before, per, caps, m, left) && |m.taken| != left && Heaviest(per) <= h && Spacious(per, caps, h)
    ensures |after| == |before| && Potential(after, per, caps, h, |caps|) < Potential(before, per, caps, h, |caps|)
  {
    hide StepOf, FullSlab, Load, Total, Times, Goal, Overfull, Fullest, Roomiest, HottestFirst, Heaviest, Spacious;
    hide Potential, Rank, Count, Labels;
    StepParts(before, after, m, degree, per, caps);
    StepLoads(before, after, m, degree, per, caps);
    SlabCovers(before, after, m, degree, per, caps, left, h) by {
      SpaciousParts(per, caps, h);
    }
    GoalIs(before, per, caps, m);
    RoomExceeds(per, before, caps, m.full, m.open, h);
    RankFalls(Load(per, before, m.full) - caps[m.full], caps[m.open] - Load(per, before, m.open),
              Total(Select<real>(per, m.taken)), h);
    PotentialChange(before, after, per, caps, h, m.full, m.open, |caps|);
  }

  lemma StepParts(before: seq<int>, after: seq<int>, m: Move, degree: seq<nat>, per: seq<real>, caps: seq<real>)
    requires |before| == |degree| == |per| && StepOf(before, after, m, degree, per, caps)
    ensures |after| == |before| && m.full < |caps| && m.open < |caps|
    ensures Overfull(before, per, caps, m.full) && Roomiest(before, per, caps, m.open)
    ensures Load(per, before, m.full) > caps[m.full]
  {
    hide Load, Total, Fullest, Roomiest, HottestFirst;
  }

  lemma SpaciousParts(per: seq<real>, caps: seq<real>, h: real)
    requires Spacious(per, caps, h)
    ensures NonNegative(caps)
  {
  }

  lemma GoalIs(device: seq<int>, per: seq<real>, caps: seq<real>, m: Move)
    requires |device| == |per| && m.full < |caps| && m.open < |caps|
    ensures Goal(device, per, caps, m.full, m.open)
         == Lower(Load(per, device, m.full) - caps[m.full], caps[m.open] - Load(per, device, m.open))
  {
  }

  // ---------------------------------------------------------------- over the whole run

  lemma {:induction false} MovedGrows(moves: seq<Move>, j: nat, k: nat)
    requires j <= k <= |moves|
    ensures MovedBy(moves, j) <= MovedBy(moves, k)
  {
    if j < k {
      MovedGrows(moves, j, k - 1);
    }
  }

  lemma {:induction false} PotentialFalls(r: Result, assignment: seq<int>, degree: seq<nat>, per: seq<real>,
                                          caps: seq<real>, budget: int, h: real, k: nat)
    requires |assignment| == |degree| == |per| && Outcome(r, assignment, degree, per, caps, budget)
    requires Labels(assignment, |caps|)
    requires r.moved < budget && Heaviest(per) <= h && Spacious(per, caps, h) && k <= |r.moves|
    ensures |r.trace| == |r.moves| + 1 && |r.trace[k]| == |per|
    ensures Potential(r.trace[k], per, caps, h, |caps|) + k <= 2 * |caps|
  {
    hide StepOf, FullSlab, Potential, MovedBy, Explains, Heaviest, Spacious;
    if k > 0 {
      var j := k - 1;
      PotentialFalls(r, assignment, degree, per, caps, budget, h, j);
      StillPlaced(r.trace, r.moves, |per|, degree, per, caps, j);
      MovedGrows(r.moves, k, |r.moves|);
      MovedByLast(r.moves, k);
      RoundSettles(r.trace[j], r.trace[j + 1], r.moves[j], degree, per, caps, budget - MovedBy(r.moves, j), h);
    } else {
      PotentialWithin(r.trace[0], per, caps, h);
    }
  }

  lemma PotentialWithin(device: seq<int>, per: seq<real>, caps: seq<real>, h: real)
    requires |device| == |per|
    ensures Potential(device, per, caps, h, |caps|) <= 2 * |caps|
  {
  }

  lemma MovedByLast(moves: seq<Move>, k: nat)
    requires k <= |moves|
    ensures MovedBy(moves, k) == if k == 0 then 0 else MovedBy(moves, k - 1) + |moves[k - 1].taken|
  {
  }

  /** With the capacity to spare, none of the other reasons to stop can hold. */
  lemma StopFits(stop: Stop, device: seq<int>, per: seq<real>, caps: seq<real>, h: real)
    requires |device| == |per| && Labels(device, |caps|) && Explains(stop, device, per, caps)
    requires Spacious(per, caps, h) && h >= 0.0 && caps != []
    ensures stop.Fits? || stop.Spent? || stop.RoundsOver?
    ensures stop.Fits? ==> AllFit(device, per, caps)
  {
    hide Load, Total, Times;
    match stop {
      case NoRoom =>
        var d :| 0 <= d < |caps| && Load(per, device, d) > caps[d];
        SpareCapacity(per, device, caps, d, 0.0);
        TimesStep(|caps| - 1, h);
        TimesOrder(|caps| - 1, 0.0, h);
        TimesStep(|caps| - 1, 0.0);
      case NothingThere(full) => LoadEmpty(per, device, full);
      case _ =>
    }
  }

  /** With a heaviest vertex to spare for every device but one, the promise is kept: the rounds end
      with every device within its capacity, after half the rounds they may take, or with the
      budget spent. */
  lemma PromiseKept(r: Result, assignment: seq<int>, degree: seq<nat>, per: seq<real>, caps: seq<real>, budget: int,
                    h: real)
    requires |assignment| == |degree| == |per| && Outcome(r, assignment, degree, per, caps, budget)
    requires Labels(assignment, |caps|)
    requires caps != [] && Heaviest(per) <= h && Spacious(per, caps, h)
    ensures |r.after| == |per|
    ensures r.moved >= budget || (AllFit(r.after, per, caps) && |r.moves| <= 2 * |caps|)
  {
    hide Follows, FullSlabs, Explains, Potential, Spacious, AllFit, MovedBy, Heaviest;
    HeaviestSign(per);
    if r.moved < budget {
      PotentialFalls(r, assignment, degree, per, caps, budget, h, |r.moves|);
      StillPlaced(r.trace, r.moves, |per|, degree, per, caps, |r.moves|);
      StopFits(r.stop, r.after, per, caps, h);
    }
  }

  lemma HeaviestSign(per: seq<real>)
    ensures Heaviest(per) >= 0.0
  {
  }

  // ---------------------------------------------------------------- when it cannot be kept

  /** Some vertex fits on no device, or some device cannot even be empty. */
  ghost predicate Hopeless(per: seq<real>, caps: seq<real>) {
    || (exists v :: 0 <= v < |per| && forall d :: 0 <= d < |caps| ==> per[v] > caps[d])
    || (exists d :: 0 <= d < |caps| && caps[d] < 0.0)
  }

  lemma HopelessNeverFits(device: seq<int>, per: seq<real>, caps: seq<real>)
    requires |device| == |per| && NonNegative(per) && Labels(device, |caps|) && Hopeless(per, caps)
    ensures !AllFit(device, per, caps)
  {
    hide Load;
    if d :| 0 <= d < |caps| && caps[d] < 0.0 {
      LoadNonNegative(per, device, d);
    } else {
      var v :| 0 <= v < |per| && forall d :: 0 <= d < |caps| ==> per[v] > caps[d];
      LoadOne(per, device, device[v], v);
    }
  }

  /** A move takes no vertex twice. */
  lemma {:induction false} MovedAtMost(r: Result, degree: seq<nat>, per: seq<real>, caps: seq<real>, k: nat)
    requires |degree| == |per| && Follows(r.trace, r.moves, |per|, degree, per, caps) && k <= |r.moves|
    ensures MovedBy(r.moves, k) <= |per| * k
  {
    hide StepOf, MovedBy;
    MovedByLast(r.moves, k);
    if k > 0 {
      MovedAtMost(r, degree, per, caps, k - 1);
      StepSize(r.trace[k - 1], r.trace[k], r.moves[k - 1], degree, per, caps);
      assert |per| * k == |per| * (k - 1) + |per|;
    }
  }

  lemma StepSize(before: seq<int>, after: seq<int>, m: Move, degree: seq<nat>, per: seq<real>, caps: seq<real>)
    requires |before| == |degree| == |per| && StepOf(before, after, m, degree, per, caps)
    ensures 0 < |m.taken| <= |per|
  {
    hide Load, Total, Fullest, Roomiest, HottestFirst;
    var all := Range(|per|);
    forall t | 0 <= t < |m.taken| ensures m.taken[t] in all {
      assert all[m.taken[t]] == m.taken[t];
    }
    InjectionCount(m.taken, all);
  }

  lemma ProductOrder(n: nat, a: nat, b: nat)
    requires a <= b
    ensures n * a <= n * b
  {
  }

  /** Then every run with budget for all its rounds ends over capacity with budget left. */
  lemma HopelessFails(r: Result, assignment: seq<int>, degree: seq<nat>, per: seq<real>, caps: seq<real>, budget: int)
    requires |assignment| == |degree| == |per| && Outcome(r, assignment, degree, per, caps, budget)
    requires Labels(assignment, |caps|)
    requires NonNegative(per) && Hopeless(per, caps) && budget > |per| * Rounds(|caps|)
    ensures |r.after| == |per| && !AllFit(r.after, per, caps) && r.moved < budget
  {
    hide Follows, FullSlabs, Explains, Hopeless, AllFit, MovedBy, Rounds;
    StillPlaced(r.trace, r.moves, |per|, degree, per, caps, |r.moves|);
    HopelessNeverFits(r.after, per, caps);
    MovedAtMost(r, degree, per, caps, |r.moves|);
    ProductOrder(|per|, |r.moves|, Rounds(|caps|));
  }

  // ---------------------------------------------------------------- one vertex too large

  /** The vertex sits on one of the first two devices, the first time on device 0. */
  function Spot(k: nat): (d: nat)
    ensures d < 2
  {
    k % 2
  }

  /** The same capacity everywhere. */
  function Equal(devices: nat, c: real): (caps: seq<real>)
    ensures |caps| == devices && forall d :: 0 <= d < devices ==> caps[d] == c
  {
    seq(devices, _ => c)
  }

  lemma OneLoad(h: real, d: int, k: int)
    ensures Load([h], [d], k) == if d == k then h else 0.0
  {
    LoadSnoc([], [], h, d, k);
  }

  lemma OneTotal(h: real)
    ensures Total([h]) == h
  {
    assert Total([h][..0]) == 0.0;
  }

  lemma OneHottest(d: nat, g: nat)
    ensures HottestFirst([d], [g], d) == [0] && Count([d], d) == 1
  {
    HottestOrder([d], [g], d);
    CountSnoc([], d, d);
  }

  /** One round of a vertex that no device can hold, where an empty device has some room. */
  lemma OneMove(g: nat, h: real, c: real, devices: nat, k: nat, left: int)
    requires devices >= 2 && 0.0 < c < h
    ensures StepOf([Spot(k)], [Spot(k + 1)], Move(Spot(k), Spot(k + 1), [0]), [g], [h], Equal(devices, c))
    ensures FullSlab([Spot(k)], [h], Equal(devices, c), Move(Spot(k), Spot(k + 1), [0]), left)
  {
    hide *;
    var d, open, caps := Spot(k), Spot(k + 1), Equal(devices, c);
    OtherSpot(k);
    OneChosen(d, open, h, c, devices);
    OneSlab(d, open, h, c, devices, left);
    OneHottest(d, g);
    OneMoved(d, open);
    OneTaken(d, g, h, c, devices, open);
    StepIs([d], [open], Move(d, open, [0]), [g], [h], caps);
  }

  lemma OtherSpot(k: nat)
    ensures Spot(k + 1) == 1 - Spot(k)
  {
  }

  lemma OneMoved(d: nat, open: nat)
    ensures Reassigned([d], [0], open) == [open]
  {
  }

  /** The device with the vertex is the fullest, the first of the empty ones the roomiest. */
  lemma OneChosen(d: nat, open: nat, h: real, c: real, devices: nat)
    requires devices >= 2 && 0.0 < c < h && d < 2 && open == 1 - d
    ensures var caps := Equal(devices, c);
            && Overfull([d], [h], caps, d) && Roomy([d], [h], caps, open)
            && Fullest([d], [h], caps, d) && Roomiest([d], [h], caps, open)
            && Goal([d], [h], caps, d, open) == Lower(h - c, c)
  {
    forall e ensures Load([h], [d], e) == if d == e then h else 0.0 {
      OneLoad(h, d, e);
    }
    hide Load;
  }

  lemma OneSlab(d: nat, open: nat, h: real, c: real, devices: nat, left: int)
    requires devices >= 2 && 0.0 < c < h && d < 2 && open == 1 - d
    requires Goal([d], [h], Equal(devices, c), d, open) == Lower(h - c, c)
    ensures FullSlab([d], [h], Equal(devices, c), Move(d, open, [0]), left)
    ensures Total(Select<real>([h], [0])) < Goal([d], [h], Equal(devices, c), d, open) + h
  {
    hide Load, Total, Goal, Count;
    OneTotal(h);
    assert Select<real>([h], [0]) == [h];
  }

  lemma OneTaken(d: nat, g: nat, h: real, c: real, devices: nat, open: nat)
    requires devices >= 2 && 0.0 < c < h && d < 2 && open == 1 - d
    requires HottestFirst([d], [g], d) == [0]
    requires var caps := Equal(devices, c);
             && Overfull([d], [h], caps, d) && Roomy([d], [h], caps, open)
             && Fullest([d], [h], caps, d) && Roomiest([d], [h], caps, open)
             && Total(Select<real>([h], [0])) < Goal([d], [h], caps, d, open) + h
    ensures WellChosen([d], [g], [h], Equal(devices, c), Move(d, open, [0]))
  {
    hide Load, Total, Goal, Overfull, Roomy, Fullest, Roomiest, HottestFirst;
    ChosenIs([d], [g], [h], Equal(devices, c), d, open, [0]);
  }

  /** The rounds of that vertex: it changes device until they are over. */
  lemma BackAndForth(g: nat, h: real, c: real, devices: nat, budget: int) returns (r: Result)
    requires devices >= 2 && 0.0 < c < h && budget > Rounds(devices)
    ensures Outcome(r, [0], [g], [h], Equal(devices, c), budget)
    ensures r.stop.RoundsOver? && r.moved == Rounds(devices) && r.after == [0]
  {
    hide *;
    var caps, n := Equal(devices, c), Rounds(devices);
    r := Result([0], n, RoundsOver, Spots(n), Bounces(n));
    BouncesFollow(g, h, c, devices, n);
    BouncesFull(g, h, c, devices, n, budget);
    SpentExplains([0], [h], caps);
    RoundsEven(devices);
    OutcomeIs(r, [0], [g], [h], caps, budget);
  }

  lemma RoundsEven(devices: nat)
    ensures Spots(Rounds(devices))[Rounds(devices)] == [0] && Spots(Rounds(devices))[0] == [0]
    ensures Rounds(|Equal(devices, 0.0)|) == Rounds(devices)
  {
  }

  function Spots(n: nat): (trace: seq<seq<int>>)
    ensures |trace| == n + 1 && forall k :: 0 <= k <= n ==> trace[k] == [Spot(k)]
  {
    seq(n + 1, k requires k >= 0 => [Spot(k)])
  }

  function Bounces(n: nat): (moves: seq<Move>)
    ensures |moves| == n && forall k :: 0 <= k < n ==> moves[k] == Move(Spot(k), Spot(k + 1), [0])
  {
    seq(n, k requires k >= 0 => Move(Spot(k), Spot(k + 1), [0]))
  }

  lemma BouncesFollow(g: nat, h: real, c: real, devices: nat, n: nat)
    requires devices >= 2 && 0.0 < c < h
    ensures Follows(Spots(n), Bounces(n), 1, [g], [h], Equal(devices, c))
  {
    hide StepOf, Spot, Equal;
    var trace, moves, caps := Spots(n), Bounces(n), Equal(devices, c);
    forall k | 0 <= k < n ensures StepOf(trace[k], trace[k + 1], moves[k], [g], [h], caps) {
      OneMove(g, h, c, devices, k, 0);
    }
  }

  lemma BouncesFull(g: nat, h: real, c: real, devices: nat, n: nat, budget: int)
    requires devices >= 2 && 0.0 < c < h
    ensures FullSlabs(Spots(n), Bounces(n), [h], Equal(devices, c), budget) && MovedBy(Bounces(n), n) == n
  {
    hide *;
    forall k | 0 <= k < n ensures BounceFull(h, c, devices, n, budget, k) {
      OneFull(g, h, c, devices, n, budget, k);
    }
    AllFull(h, c, devices, n, budget);
    BouncesMoved(n);
  }

  ghost predicate BounceFull(h: real, c: real, devices: nat, n: nat, budget: int, k: nat)
    requires k < n
  {
    && |Spots(n)[k]| == 1
    && FullSlab(Spots(n)[k], [h], Equal(devices, c), Bounces(n)[k], budget - MovedBy(Bounces(n), k))
  }

  lemma OneFull(g: nat, h: real, c: real, devices: nat, n: nat, budget: int, k: nat)
    requires devices >= 2 && 0.0 < c < h && k < n
    ensures BounceFull(h, c, devices, n, budget, k)
  {
    hide FullSlab, MovedBy, Spot, Equal;
    OneMove(g, h, c, devices, k, budget - MovedBy(Bounces(n), k));
  }

  lemma AllFull(h: real, c: real, devices: nat, n: nat, budget: int)
    requires forall k :: 0 <= k < n ==> BounceFull(h, c, devices, n, budget, k)
    ensures FullSlabs(Spots(n), Bounces(n), [h], Equal(devices, c), budget)
  {
    hide FullSlab, MovedBy, Spot, Spots, Bounces, Equal;
    forall k | 0 <= k < n
      ensures |Spots(n)[k]| == 1
      ensures FullSlab(Spots(n)[k], [h], Equal(devices, c), Bounces(n)[k], budget - MovedBy(Bounces(n), k))
    {
      assert BounceFull(h, c, devices, n, budget, k);
    }
  }

  lemma BouncesMoved(n: nat)
    ensures MovedBy(Bounces(n), n) == n
  {
    hide MovedBy;
    MovedSingly(Bounces(n), n);
  }

  lemma {:induction false} MovedSingly(moves: seq<Move>, k: nat)
    requires k <= |moves| && forall j :: 0 <= j < |moves| ==> |moves[j].taken| == 1
    ensures MovedBy(moves, k) == k
  {
    if k > 0 {
      MovedSingly(moves, k - 1);
    }
  }

  /** Without room anywhere else the rounds stop at once. */
  lemma StopsAtOnce(g: nat, h: real, c: real, devices: nat, budget: int) returns (r: Result)
    requires devices >= 1 && 0.0 <= c < h && (devices == 1 || c == 0.0)
    ensures Outcome(r, [0], [g], [h], Equal(devices, c), budget)
  {
    var caps := Equal(devices, c);
    r := Result([0], 0, NoRoom, [[0]], []);
    forall d ensures Load([h], [0], d) == if d == 0 then h else 0.0 {
      OneLoad(h, 0, d);
    }
    hide Load;
    assert Load([h], [0], 0) > caps[0];
  }

  // ---------------------------------------------------------------- how much is enough

  /** A call of the rebalance. */
  datatype Input = Input(assignment: seq<int>, src: seq<nat>, dst: seq<nat>, caps: seq<real>, w: real, budget: int) {
    ghost predicate Valid() {
      Graph(src, dst, |assignment|) && Labels(assignment, |caps|) && caps != [] && w >= 0.0
    }

    function Degree(): seq<nat> {
      Degrees(src, dst, |assignment|)
    }

    function Per(): (per: seq<real>)
      requires w >= 0.0
      ensures |per| == |assignment|
    {
      VertexFootprints(src, dst, |assignment|, w)
    }
  }

  /** What the rebalance promises: it stops with every device within its capacity or with the
      budget spent. */
  ghost predicate Promise(i: Input, r: Result)
    requires i.Valid() && |r.after| == |i.assignment|
  {
    AllFit(r.after, i.Per(), i.caps) || r.moved >= i.budget
  }

  ghost predicate Answers(i: Input, r: Result) {
    i.Valid() && Outcome(r, i.assignment, i.Degree(), i.Per(), i.caps, i.budget)
  }

  /** The promise holds of every call on `devices` devices that have `spare` more capacity than the
      footprint, when no vertex weighs more than `h`. */
  ghost predicate AlwaysKept(devices: nat, h: real, spare: real) {
    forall i: Input, r: Result |
      && Answers(i, r) && |i.caps| == devices && NonNegative(i.caps) && Heaviest(i.Per()) <= h
      && Total(i.caps) >= Total(i.Per()) + spare
      :: |r.after| == |i.assignment| && Promise(i, r)
  }

  /** That is so exactly if the spare capacity is one heaviest vertex for every device but one. */
  lemma SpareCapacityIsExact(devices: nat, h: real, spare: real)
    requires devices > 0 && h >= 1.0
    ensures AlwaysKept(devices, h, spare) <==> spare >= Times(devices - 1, h)
  {
    if spare >= Times(devices - 1, h) {
      SpareSuffices(devices, h, spare);
    } else {
      LessFails(devices, h, spare);
    }
  }

  lemma SpareSuffices(devices: nat, h: real, spare: real)
    requires devices > 0 && spare >= Times(devices - 1, h)
    ensures AlwaysKept(devices, h, spare)
  {
    forall i: Input, r: Result |
      && Answers(i, r) && |i.caps| == devices && NonNegative(i.caps) && Heaviest(i.Per()) <= h
      && Total(i.caps) >= Total(i.Per()) + spare
      ensures |r.after| == |i.assignment| && Promise(i, r)
    {
      assert Spacious(i.Per(), i.caps, h);
      hide Outcome, Total, Heaviest, Spacious, Times;
      PromiseKept(r, i.assignment, i.Degree(), i.Per(), i.caps, i.budget, h);
    }
  }

  /** One vertex with a self-loop weighs `1 + 2 w`. */
  lemma LoopWeight(loops: nat, w: real)
    requires w >= 0.0
    ensures var e: seq<nat> := seq(loops, _ => 0);
            Degrees(e, e, 1) == [2 * loops] && VertexFootprints(e, e, 1, w) == [OneVertex(w, 2 * loops)]
  {
    var e: seq<nat> := seq(loops, _ => 0);
    CountAll(e, 0);
    assert Degrees(e, e, 1) == [2 * loops];
  }

  lemma {:induction false} CountAll(xs: seq<nat>, x: nat)
    requires forall i :: 0 <= i < |xs| ==> xs[i] == x
    ensures Count(xs, x) == |xs|
  {
    if xs != [] {
      CountAll(xs[..|xs| - 1], x);
    }
  }

  lemma {:induction false} EqualTotal(devices: nat, c: real)
    ensures Total(Equal(devices, c)) == Times(devices, c)
  {
    TimesStep(devices, c);
    if devices > 0 {
      EqualTotal(devices - 1, c);
      assert Equal(devices, c)[..devices - 1] == Equal(devices - 1, c);
    }
  }

  /** With less to spare a single vertex can be too large for every device. */
  lemma LessFails(devices: nat, h: real, spare: real)
    requires devices > 0 && h >= 1.0 && spare < Times(devices - 1, h)
    ensures !AlwaysKept(devices, h, spare)
  {
    hide *;
    var c := EachShare(devices, h, spare);
    var i := LoopInput(devices, h, c);
    var r: Result;
    if devices == 1 || c == 0.0 {
      r := StopsAtOnce(2, h, c, devices, i.budget);
    } else {
      r := BackAndForth(2, h, c, devices, i.budget);
    }
    AnswersIs(i, r);
    OneVertexFails(i, r, h, c, devices, spare);
  }

  lemma AnswersIs(i: Input, r: Result)
    requires i.Valid() && Outcome(r, i.assignment, i.Degree(), i.Per(), i.caps, i.budget)
    ensures Answers(i, r)
  {
  }

  /** One vertex of weight `h` with a self-loop, and budget for all the rounds. */
  lemma LoopInput(devices: nat, h: real, c: real) returns (i: Input)
    requires devices > 0 && h >= 1.0
    ensures i.Valid() && i.assignment == [0] && i.w >= 0.0 && i.Degree() == [2] && i.Per() == [h]
    ensures i.caps == Equal(devices, c) && i.budget == Rounds(devices) + 1
  {
    var loop: seq<nat> := seq(1, _ => 0);
    LoopWeight(1, (h - 1.0) / 2.0);
    i := Input([0], loop, loop, Equal(devices, c), (h - 1.0) / 2.0, Rounds(devices) + 1);
  }

  lemma EachShare(devices: nat, h: real, spare: real) returns (c: real)
    requires devices > 0 && h >= 1.0 && spare < Times(devices - 1, h)
    ensures 0.0 <= c < h && Times(devices, c) >= h + spare
  {
    if h + spare <= 0.0 {
      c := 0.0;
      TimesStep(devices, 0.0);
    } else {
      c := (h + spare) / devices as real;
      TimesStep(devices, h);
      assert Times(devices, c) == h + spare;
      if c >= h {
        TimesOrder(devices, h, c);
      }
    }
  }

  lemma OneVertexFails(i: Input, r: Result, h: real, c: real, devices: nat, spare: real)
    requires Answers(i, r) && i.assignment == [0] && i.Per() == [h] && i.caps == Equal(devices, c)
    requires devices > 0 && 0.0 <= c < h && Times(devices, c) >= h + spare && i.budget > Rounds(devices)
    ensures !AlwaysKept(devices, h, spare)
  {
    EqualTotal(devices, c);
    OneTotal(h);
    HeaviestOfOne(h);
    hide Outcome, Total, Times, Equal, AllFit, Heaviest;
    assert Hopeless([h], i.caps) by {
      assert [h][0] == h;
    }
    HopelessFails(r, i.assignment, i.Degree(), [h], i.caps, i.budget);
    assert NonNegative(i.caps) && !Promise(i, r);
  }

  lemma HeaviestOfOne(h: real)
    requires h >= 0.0
    ensures Heaviest([h]) == h
  {
    assert Heaviest([h][..0]) == 0.0;
  }

  /** 29 self-loops on one vertex weigh 59. On two devices of capacity 50 its rounds run out, with
      the vertex back where it was and budget left. */
  lemma RoundsRunOut(budget: int) returns (i: Input, r: Result)
    requires budget > 8
    ensures var loops: seq<nat> := seq(29, _ => 0);
            i == Input([0], loops, loops, [50.0, 50.0], 1.0, budget)
    ensures Answers(i, r) && r.stop.RoundsOver? && r.after == i.assignment && !Promise(i, r)
  {
    hide *;
    i := ManyLoops(budget);
    r := BackAndForth(58, 59.0, 50.0, 2, budget) by {
      RoundsOfTwo();
    }
    AnswersIs(i, r);
    RoundsOfTwo();
    LargeVertex(i, r);
  }

  lemma RoundsOfTwo()
    ensures Rounds(2) == 8
  {
  }

  lemma ManyLoops(budget: int) returns (i: Input)
    ensures var loops: seq<nat> := seq(29, _ => 0);
            i == Input([0], loops, loops, [50.0, 50.0], 1.0, budget)
    ensures i.Valid() && i.w >= 0.0 && i.Degree() == [58] && i.Per() == [59.0] && i.caps == Equal(2, 50.0)
  {
    var loops: seq<nat> := seq(29, _ => 0);
    i := Input([0], loops, loops, [50.0, 50.0], 1.0, budget);
    LoopWeight(29, 1.0);
  }

  lemma LargeVertex(i: Input, r: Result)
    requires Answers(i, r) && i.assignment == [0] && i.Per() == [59.0] && i.caps == Equal(2, 50.0)
    requires i.budget > Rounds(2)
    ensures |r.after| == 1 && !Promise(i, r)
  {
    hide Outcome, AllFit, Equal;
    assert Hopeless([59.0], i.caps) by {
      assert [59.0][0] == 59.0;
    }
    HopelessFails(r, i.assignment, i.Degree(), [59.0], i.caps, i.budget);
  }
}
