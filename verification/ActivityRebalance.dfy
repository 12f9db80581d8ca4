/** Shedding the hottest vertices of a device whose activity footprint exceeds its memory. */
module ActivityRebalance {
  import opened Arrays
  import opened ChangedCone
  import opened LabelMatching
  import opened WeightedLoads

  // ---------------------------------------------------------------- footprints

  /** The footprint of a vertex with `n` active edges: itself plus its share of the activity. */
  function OneVertex(w: real, n: nat): (r: real)
    requires w >= 0.0
    ensures r >= 1.0
  {
    1.0 + w * n as real
  }

  function PerVertex(degree: seq<nat>, w: real): (r: seq<real>)
    requires w >= 0.0
    ensures |r| == |degree| && NonNegative(r)
    ensures forall v :: 0 <= v < |r| ==> r[v] == OneVertex(w, degree[v])
  {
    seq(|degree|, v requires 0 <= v < |degree| => OneVertex(w, degree[v]))
  }

  function Reals(xs: seq<nat>): (r: seq<real>)
    ensures |r| == |xs| && forall i :: 0 <= i < |r| ==> r[i] == xs[i] as real
  {
    seq(|xs|, i requires 0 <= i < |xs| => xs[i] as real)
  }

  /** `verts + w_active * active` of one device. */
  function Footprint(device: seq<int>, degree: seq<nat>, w: real, d: int): real
    requires |device| == |degree|
  {
    VertsAndActive(Count(device, d), w, Load(Reals(degree), device, d))
  }

  function VertsAndActive(verts: nat, w: real, active: real): real {
    verts as real + w * active
  }

  lemma OneMore(verts: nat, w: real, active: real, n: nat)
    requires w >= 0.0
    ensures VertsAndActive(verts + 1, w, active + n as real) == VertsAndActive(verts, w, active) + OneVertex(w, n)
  {
    assert w * (active + n as real) == w * active + w * n as real;
  }

  /** The two histograms together are the weighted histogram of the per-vertex footprints. */
  lemma {:induction false} FootprintIsLoad(device: seq<int>, degree: seq<nat>, w: real, d: int)
    requires |device| == |degree| && w >= 0.0
    ensures Footprint(device, degree, w, d) == Load(PerVertex(degree, w), device, d)
  {
    hide Count, Load, Reals, PerVertex, OneVertex;
    if device == [] {
      CountAbsent(device, d);
      EmptyFootprint(device, degree, w, d);
    } else {
      var n := |device| - 1;
      FootprintIsLoad(device[..n], degree[..n], w, d);
      FootprintStep(device[..n], degree[..n], device[n], degree[n], w, d);
      assert device == device[..n] + [device[n]] && degree == degree[..n] + [degree[n]];
    }
  }

  lemma EmptyFootprint(device: seq<int>, degree: seq<nat>, w: real, d: int)
    requires |device| == |degree| == 0 && w >= 0.0
    ensures Load(Reals(degree), device, d) == 0.0 && Load(PerVertex(degree, w), device, d) == 0.0
  {
  }

  /** One more vertex adds its own footprint to its device, in both readings. */
  lemma FootprintStep(device: seq<int>, degree: seq<nat>, x: int, n: nat, w: real, d: int)
    requires |device| == |degree| && w >= 0.0
    ensures Footprint(device + [x], degree + [n], w, d)
         == Footprint(device, degree, w, d) + if x == d then OneVertex(w, n) else 0.0
    ensures Load(PerVertex(degree + [n], w), device + [x], d)
         == Load(PerVertex(degree, w), device, d) + if x == d then OneVertex(w, n) else 0.0
  {
    hide *;
    WeightsSnoc(degree, n, w);
    CountSnoc(device, x, d);
    LoadSnoc(Reals(degree), device, n as real, x, d);
    LoadSnoc(PerVertex(degree, w), device, OneVertex(w, n), x, d);
    OneMore(Count(device, d), w, Load(Reals(degree), device, d), n);
    FootprintIs(device, degree, w, d);
    FootprintIs(device + [x], degree + [n], w, d);
  }

  lemma FootprintIs(device: seq<int>, degree: seq<nat>, w: real, d: int)
    requires |device| == |degree|
    ensures Footprint(device, degree, w, d) == VertsAndActive(Count(device, d), w, Load(Reals(degree), device, d))
  {
  }

  lemma WeightsSnoc(degree: seq<nat>, n: nat, w: real)
    requires w >= 0.0
    ensures Reals(degree + [n]) == Reals(degree) + [n as real]
    ensures PerVertex(degree + [n], w) == PerVertex(degree, w) + [OneVertex(w, n)]
  {
    hide OneVertex;
  }

  // ---------------------------------------------------------------- moving a slab

  /** Moving a list of vertices moves their weight. */
  lemma {:induction false} ReassignedLoads(weight: seq<real>, device: seq<int>, take: seq<nat>, from: int, to: int,
                                           d: int)
    requires |weight| == |device| && Distinct(take) && Below(take, |device|) && from != to
    requires forall i :: 0 <= i < |take| ==> device[take[i]] == from
    ensures Load(weight, Reassigned(device, take, to), d)
         == Load(weight, device, d) + (if d == to then Total(Select<real>(weight, take)) else 0.0)
                                    - (if d == from then Total(Select<real>(weight, take)) else 0.0)
  {
    hide *;
    ReassignedStep(weight, device, take, to);
    if take != [] {
      var n := |take| - 1;
      ReassignedLoads(weight, device, take[..n], from, to, d);
      LoadMove(weight, Reassigned(device, take[..n], to), take[n], to, d);
    }
  }

  /** The last vertex of the list moves last. */
  lemma ReassignedStep(weight: seq<real>, device: seq<int>, take: seq<nat>, to: int)
    requires |weight| == |device| && Distinct(take) && Below(take, |device|)
    ensures take == [] ==> Reassigned(device, take, to) == device && Total(Select<real>(weight, take)) == 0.0
    ensures take != [] ==>
      var n := |take| - 1;
      var before := Reassigned(device, take[..n], to);
      && Distinct(take[..n]) && Below(take[..n], |device|) && take[n] < |device|
      && before[take[n]] == device[take[n]] && Reassigned(device, take, to) == before[take[n] := to]
      && Total(Select<real>(weight, take)) == Total(Select<real>(weight, take[..n])) + weight[take[n]]
  {
    hide Total;
    if take == [] {
      assert Reassigned(device, take, to) == device;
      NoWeightTaken(weight, take);
    } else {
      LastReassigned(device, take, to);
      LastWeight(weight, take);
    }
  }

  lemma NoWeightTaken(weight: seq<real>, take: seq<nat>)
    requires take == []
    ensures Below(take, |weight|) && Total(Select<real>(weight, take)) == 0.0
  {
  }

  lemma LastReassigned(device: seq<int>, take: seq<nat>, to: int)
    requires Distinct(take) && Below(take, |device|) && take != []
    ensures var n := |take| - 1;
            var before := Reassigned(device, take[..n], to);
            before[take[n]] == device[take[n]] && Reassigned(device, take, to) == before[take[n] := to]
  {
    var n := |take| - 1;
    assert take == take[..n] + [take[n]] && take[n] !in take[..n];
  }

  lemma LastWeight(weight: seq<real>, take: seq<nat>)
    requires Below(take, |weight|) && take != []
    ensures var n := |take| - 1;
            Below(take[..n], |weight|)
            && Total(Select<real>(weight, take)) == Total(Select<real>(weight, take[..n])) + weight[take[n]]
  {
    var n := |take| - 1;
    assert Select<real>(weight, take)[..n] == Select<real>(weight, take[..n]);
  }

  // ---------------------------------------------------------------- one round

  /** A slab of the hottest vertices of an over-full device moves to the device with most headroom,
      which ends less than one moved vertex above its capacity. */
  datatype Move = Move(full: nat, open: nat, taken: seq<nat>)

  ghost predicate Overfull(device: seq<int>, per: seq<real>, caps: seq<real>, d: nat)
    requires |device| == |per| && d < |caps|
  {
    Load(per, device, d) > caps[d]
  }

  ghost predicate Roomy(device: seq<int>, per: seq<real>, caps: seq<real>, d: nat)
    requires |device| == |per| && d < |caps|
  {
    Load(per, device, d) < caps[d]
  }

  /** The first device with the most beyond its capacity. */
  ghost predicate Fullest(device: seq<int>, per: seq<real>, caps: seq<real>, full: nat)
    requires |device| == |per| && full < |caps|
  {
    forall d :: 0 <= d < |caps| ==>
      && Load(per, device, d) - caps[d] <= Load(per, device, full) - caps[full]
      && (d < full ==> Load(per, device, d) - caps[d] < Load(per, device, full) - caps[full])
  }

  /** The first device with the most room. */
  ghost predicate Roomiest(device: seq<int>, per: seq<real>, caps: seq<real>, open: nat)
    requires |device| == |per| && open < |caps|
  {
    forall d :: 0 <= d < |caps| ==>
      && caps[d] - Load(per, device, d) <= caps[open] - Load(per, device, open)
      && (d < open ==> caps[d] - Load(per, device, d) < caps[open] - Load(per, device, open))
  }

  /** Before the move: the fullest device sheds, the emptiest receives, hottest vertices first. */
  ghost predicate WellChosen(device: seq<int>, degree: seq<nat>, per: seq<real>, caps: seq<real>, m: Move)
    requires |device| == |degree| == |per|
  {
    && m.full < |caps| && m.open < |caps| && m.full != m.open
    && Overfull(device, per, caps, m.full) && Roomy(device, per, caps, m.open)
    && Fullest(device, per, caps, m.full) && Roomiest(device, per, caps, m.open)
    && m.taken <= HottestFirst(device, degree, m.full)
    && m.taken != [] && Distinct(m.taken) && Below(m.taken, |device|)
    && (forall i :: 0 <= i < |m.taken| ==> device[m.taken[i]] == m.full)
    && (forall i, j :: 0 <= i < j < |m.taken| ==> degree[m.taken[i]] >= degree[m.taken[j]])
    && (forall u, i :: 0 <= u < |device| && device[u] == m.full && u !in m.taken && 0 <= i < |m.taken| ==>
          degree[u] <= degree[m.taken[i]])
    && Total(Select<real>(per, m.taken)) < Goal(device, per, caps, m.full, m.open) + per[m.taken[|m.taken| - 1]]
  }

  /** What a slab should relieve: the excess, or the room if that is smaller. */
  ghost function Goal(device: seq<int>, per: seq<real>, caps: seq<real>, full: nat, open: nat): real
    requires |device| == |per| && full < |caps| && open < |caps|
  {
    Lower(Load(per, device, full) - caps[full], caps[open] - Load(per, device, open))
  }

  /** The slab is as large as it may be: it reaches the goal, or the budget or the device is used up. */
  ghost predicate FullSlab(device: seq<int>, per: seq<real>, caps: seq<real>, m: Move, left: int)
    requires |device| == |per|
  {
    && m.full < |caps| && m.open < |caps| && Below(m.taken, |per|)
    && (|| |m.taken| == left
        || |m.taken| == Count(device, m.full)
        || Total(Select<real>(per, m.taken)) >= Goal(device, per, caps, m.full, m.open))
  }

  /** Vertices of a device, hottest first. */
  function HottestFirst(device: seq<int>, degree: seq<nat>, d: int): (order: seq<nat>)
    requires |device| == |degree|
    ensures |order| == Count(device, d) && Below(order, |device|)
  {
    var on := Indices(device, d);
    Select<nat>(on, Argsort(Negated(Select<nat>(degree, on))))
  }

  lemma HottestOrder(device: seq<int>, degree: seq<nat>, d: int)
    requires |device| == |degree|
    ensures var order := HottestFirst(device, degree, d);
            && Distinct(order) && (forall i :: 0 <= i < |order| ==> device[order[i]] == d)
            && (forall i, j :: 0 <= i < j < |order| ==> degree[order[i]] >= degree[order[j]])
            && forall u :: 0 <= u < |device| && device[u] == d ==> u in order
  {
    hide HottestFirst, Indices;
    var order := HottestFirst(device, degree, d);
    forall i, j | 0 <= i < j < |order| ensures degree[order[i]] >= degree[order[j]] && order[i] != order[j] {
      HottestPair(device, degree, d, i, j);
    }
    forall i | 0 <= i < |order| ensures device[order[i]] == d {
      HottestOn(device, degree, d, i);
    }
    forall u | 0 <= u < |device| && device[u] == d ensures u in order {
      HottestAll(device, degree, d, u);
    }
  }

  lemma HottestPair(device: seq<int>, degree: seq<nat>, d: int, i: nat, j: nat)
    requires |device| == |degree| && i < j < Count(device, d)
    ensures var order := HottestFirst(device, degree, d);
            degree[order[i]] >= degree[order[j]] && order[i] != order[j]
  {
    hide Argsort, Indices;
    var on := Indices(device, d);
    var keys := Negated(Select<nat>(degree, on));
    var o := Argsort(keys);
    assert Precedes(keys, o[i], o[j]);
    DistinctPlaces(on, o[i], o[j]);
  }

  lemma HottestOn(device: seq<int>, degree: seq<nat>, d: int, i: nat)
    requires |device| == |degree| && i < Count(device, d)
    ensures device[HottestFirst(device, degree, d)[i]] == d
  {
  }

  lemma HottestAll(device: seq<int>, degree: seq<nat>, d: int, u: nat)
    requires |device| == |degree| && u < |device| && device[u] == d
    ensures u in HottestFirst(device, degree, d)
  {
    hide Argsort, Indices;
    var on := Indices(device, d);
    var o := Argsort(Negated(Select<nat>(degree, on)));
    assert u in on;
    var p :| 0 <= p < |on| && on[p] == u;
    assert p in o;
    var k :| 0 <= k < |o| && o[k] == p;
    assert HottestFirst(device, degree, d)[k] == u;
  }

  lemma DistinctPlaces(on: seq<nat>, i: nat, j: nat)
    requires Increasing(on) && i < |on| && j < |on| && i != j
    ensures on[i] != on[j]
  {
  }

  function Lower(a: real, b: real): real {
    if a <= b then a else b
  }

  function Least(a: int, b: int, c: int): int {
    if a <= b && a <= c then a else if b <= c then b else c
  }

  /** The searched slab stops with the vertex that covers the smaller of excess and room. */
  lemma SlabWithinRoom(heat: seq<real>, goal: real, k: nat)
    requires NonNegative(heat) && AscendingReals(Cumulative(heat)) && goal > 0.0
    requires 0 < k <= |heat| && k <= SearchReal(Cumulative(heat), goal) + 1
    ensures Total(heat[..k]) < goal + heat[k - 1]
    ensures k == SearchReal(Cumulative(heat), goal) + 1 ==> Total(heat[..k]) >= goal
  {
    assert Cumulative(heat)[k - 1] == Total(heat[..k]);
    PrefixStep(heat, k - 1);
    if k > 1 {
      assert Cumulative(heat)[k - 2] < goal;
    } else {
      assert heat[..0] == [];
    }
  }

  lemma InPrefix(order: seq<nat>, k: nat, p: nat)
    requires k <= |order| && p < |order|
    ensures p < k ==> order[p] in order[..k]
  {
    if p < k {
      assert order[..k][p] == order[p];
    }
  }

  lemma SlabHottest(device: seq<int>, degree: seq<nat>, d: int, k: nat, u: nat, i: nat)
    requires |device| == |degree| && k <= Count(device, d) && i < k
    requires u < |device| && device[u] == d && u !in HottestFirst(device, degree, d)[..k]
    ensures degree[u] <= degree[HottestFirst(device, degree, d)[i]]
  {
    var order := HottestFirst(device, degree, d);
    HottestOrder(device, degree, d);
    var p :| 0 <= p < |order| && order[p] == u;
    InPrefix(order, k, p);
  }

  lemma SlabChosen(device: seq<int>, degree: seq<nat>, per: seq<real>, caps: seq<real>, full: nat, open: nat, k: nat)
    requires |device| == |degree| == |per| && NonNegative(per)
    requires full < |caps| && open < |caps| && full != open && Overfull(device, per, caps, full)
    requires Roomy(device, per, caps, open)
    requires Fullest(device, per, caps, full) && Roomiest(device, per, caps, open)
    requires 0 < k <= Count(device, full)
    requires var order := HottestFirst(device, degree, full);
             var heat := Select<real>(per, order);
             AscendingReals(Cumulative(heat)) &&
             k <= SearchReal(Cumulative(heat), Goal(device, per, caps, full, open)) + 1
    ensures WellChosen(device, degree, per, caps, Move(full, open, HottestFirst(device, degree, full)[..k]))
  {
    hide *;
    var order := HottestFirst(device, degree, full);
    GoalPositive(device, per, caps, full, open);
    HeatNonNegative(per, order);
    SlabSmall(per, order, Goal(device, per, caps, full, open), k);
    SlabTaken(device, degree, full, k);
    ChosenIs(device, degree, per, caps, full, open, order[..k]);
  }

  lemma ChosenIs(device: seq<int>, degree: seq<nat>, per: seq<real>, caps: seq<real>, full: nat, open: nat,
                 taken: seq<nat>)
    requires |device| == |degree| == |per|
    requires full < |caps| && open < |caps| && full != open && Overfull(device, per, caps, full)
    requires Roomy(device, per, caps, open)
    requires Fullest(device, per, caps, full) && Roomiest(device, per, caps, open)
    requires taken <= HottestFirst(device, degree, full)
    requires taken != [] && Distinct(taken) && Below(taken, |device|)
    requires forall i :: 0 <= i < |taken| ==> device[taken[i]] == full
    requires forall i, j :: 0 <= i < j < |taken| ==> degree[taken[i]] >= degree[taken[j]]
    requires forall u, i :: 0 <= u < |device| && device[u] == full && u !in taken && 0 <= i < |taken| ==>
               degree[u] <= degree[taken[i]]
    requires Total(Select<real>(per, taken)) < Goal(device, per, caps, full, open) + per[taken[|taken| - 1]]
    ensures WellChosen(device, degree, per, caps, Move(full, open, taken))
  {
    hide Load, Total, Goal, Overfull, Roomy, Fullest, Roomiest, Distinct, HottestFirst;
  }

  lemma SlabSmall(per: seq<real>, order: seq<nat>, goal: real, k: nat)
    requires Below(order, |per|) && 0 < k <= |order| && goal > 0.0
    requires var heat := Select<real>(per, order);
             NonNegative(heat) && AscendingReals(Cumulative(heat)) && k <= SearchReal(Cumulative(heat), goal) + 1
    ensures Below(order[..k], |per|) && order[..k][k - 1] < |per|
    ensures Total(Select<real>(per, order[..k])) < goal + per[order[..k][k - 1]]
  {
    hide Total, Cumulative, AscendingReals;
    var heat := Select<real>(per, order);
    SlabWithinRoom(heat, goal, k);
    assert Select<real>(per, order[..k]) == heat[..k];
  }

  lemma GoalPositive(device: seq<int>, per: seq<real>, caps: seq<real>, full: nat, open: nat)
    requires |device| == |per| && full < |caps| && open < |caps|
    requires Overfull(device, per, caps, full) && Roomy(device, per, caps, open)
    ensures Goal(device, per, caps, full, open) > 0.0
  {
    hide Load;
  }

  lemma HeatNonNegative(per: seq<real>, order: seq<nat>)
    requires NonNegative(per) && Below(order, |per|)
    ensures (forall i :: 0 <= i < |order| ==> order[i] < |per|) && NonNegative(Select<real>(per, order))
  {
  }

  /** The first `k` of the hottest-first order. */
  lemma SlabTaken(device: seq<int>, degree: seq<nat>, full: nat, k: nat)
    requires |device| == |degree| && 0 < k <= Count(device, full)
    ensures var taken := HottestFirst(device, degree, full)[..k];
            && taken != [] && Distinct(taken) && Below(taken, |device|)
            && (forall i :: 0 <= i < |taken| ==> device[taken[i]] == full)
            && (forall i, j :: 0 <= i < j < |taken| ==> degree[taken[i]] >= degree[taken[j]])
            && forall u, i :: 0 <= u < |device| && device[u] == full && u !in taken && 0 <= i < |taken| ==>
                 degree[u] <= degree[taken[i]]
  {
    hide HottestFirst, Indices;
    HottestOrder(device, degree, full);
    var order := HottestFirst(device, degree, full);
    var taken := order[..k];
    forall u, i | 0 <= u < |device| && device[u] == full && u !in taken && 0 <= i < |taken|
      ensures degree[u] <= degree[taken[i]]
    {
      SlabHottest(device, degree, full, k, u, i);
    }
  }

  /** A slab as long as the search asks for reaches the goal. */
  lemma SlabReaches(device: seq<int>, degree: seq<nat>, per: seq<real>, caps: seq<real>, full: nat, open: nat, k: nat)
    requires |device| == |degree| == |per| && NonNegative(per) && full < |caps| && open < |caps|
    requires Goal(device, per, caps, full, open) > 0.0 && 0 < k <= Count(device, full)
    requires var heat := Select<real>(per, HottestFirst(device, degree, full));
             && AscendingReals(Cumulative(heat))
             && k == SearchReal(Cumulative(heat), Goal(device, per, caps, full, open)) + 1
    ensures Total(Select<real>(per, HottestFirst(device, degree, full)[..k])) >= Goal(device, per, caps, full, open)
  {
    hide Load, Total, Cumulative, Indices, HottestFirst, Goal;
    var order := HottestFirst(device, degree, full);
    var heat := Select<real>(per, order);
    SlabWithinRoom(heat, Goal(device, per, caps, full, open), k);
    assert Select<real>(per, order[..k]) == heat[..k];
  }

  // ---------------------------------------------------------------- the rounds

  /** Why the rounds stopped. */
  datatype Stop = Fits | Spent | NoRoom | NothingThere(full: nat) | RoundsOver

  const ROUNDS_PER_DEVICE: nat := 4

  ghost predicate Explains(stop: Stop, device: seq<int>, per: seq<real>, caps: seq<real>)
    requires |device| == |per|
  {
    match stop
    case Fits => forall d :: 0 <= d < |caps| ==> Load(per, device, d) <= caps[d]
    case NoRoom =>
      && (exists d :: 0 <= d < |caps| && Load(per, device, d) > caps[d])
      && forall d :: 0 <= d < |caps| ==> Load(per, device, d) >= caps[d]
    case NothingThere(full) => full < |caps| && Load(per, device, full) > caps[full] && Count(device, full) == 0
    case Spent => true
    case RoundsOver => true
  }

  /** Every device's footprint. */
  function Footprints(device: seq<int>, degree: seq<nat>, w: real, devices: nat): (fp: seq<real>)
    requires |device| == |degree| && w >= 0.0
    ensures |fp| == devices && forall d :: 0 <= d < devices ==> fp[d] == Load(PerVertex(degree, w), device, d)
  {
    var fp := seq(devices, d => Footprint(device, degree, w, d));
    assert forall d :: 0 <= d < devices ==> fp[d] == Load(PerVertex(degree, w), device, d) by {
      forall d | 0 <= d < devices ensures fp[d] == Load(PerVertex(degree, w), device, d) {
        FootprintIsLoad(device, degree, w, d);
      }
    }
    fp
  }

  function Differ(a: seq<real>, b: seq<real>): (r: seq<real>)
    requires |a| == |b|
    ensures |r| == |a| && forall i :: 0 <= i < |r| ==> r[i] == a[i] - b[i]
  {
    seq(|a|, i requires 0 <= i < |a| => a[i] - b[i])
  }

  method ArgMaxReal(xs: seq<real>) returns (k: nat)
    requires xs != []
    ensures k < |xs| && forall i :: 0 <= i < |xs| ==> xs[i] <= xs[k]
    ensures forall i :: 0 <= i < k ==> xs[i] < xs[k]
  {
    k := 0;
    for i := 1 to |xs|
      invariant k < i
      invariant forall j :: 0 <= j < i ==> xs[j] <= xs[k]
      invariant forall j :: 0 <= j < k ==> xs[j] < xs[k]
    {
      if xs[i] > xs[k] {
        k := i;
      }
    }
  }

  datatype Choice = Halt(stop: Stop) | Go(move: Move)

  lemma HeatAscends(per: seq<real>, order: seq<nat>)
    requires NonNegative(per) && Below(order, |per|)
    ensures AscendingReals(Cumulative(Select<real>(per, order)))
  {
    CumulativeAscends(Select<real>(per, order));
  }

  /** One look at the footprints: stop, or a slab of at most `left` vertices. */
  method Choose(device: seq<int>, degree: seq<nat>, caps: seq<real>, w: real, left: int) returns (c: Choice)
    requires |device| == |degree| && caps != [] && w >= 0.0 && left > 0
    ensures c.Halt? ==> !c.stop.Spent? && !c.stop.RoundsOver? && Explains(c.stop, device, PerVertex(degree, w), caps)
    ensures c.Go? ==> WellChosen(device, degree, PerVertex(degree, w), caps, c.move) && |c.move.taken| <= left
    ensures c.Go? ==> FullSlab(device, PerVertex(degree, w), caps, c.move, left)
  {
    hide Load, Total, Cumulative, Indices, HottestFirst, WellChosen, PerVertex, Footprint;
    var per := PerVertex(degree, w);
    var fp := Footprints(device, degree, w, |caps|);
    var over := Differ(fp, caps);
    var full := ArgMaxReal(over);
    if over[full] <= 0.0 {
      forall d | 0 <= d < |caps| ensures Load(per, device, d) <= caps[d] {
        assert over[d] <= over[full];
      }
      return Halt(Fits);
    }
    var headroom := Differ(caps, fp);
    var open := ArgMaxReal(headroom);
    if open == full || headroom[open] <= 0.0 {
      assert Load(per, device, full) > caps[full];
      forall d | 0 <= d < |caps| ensures Load(per, device, d) >= caps[d] {
        assert headroom[d] <= headroom[open];
      }
      return Halt(NoRoom);
    }
    if Count(device, full) == 0 {
      return Halt(NothingThere(full));
    }
    var order := HottestFirst(device, degree, full);
    var heat := Select<real>(per, order);
    HeatAscends(per, order);
    var need := SearchReal(Cumulative(heat), Lower(over[full], headroom[open])) + 1;
    var k := Least(need, |order|, left);
    assert Fullest(device, per, caps, full) by {
      assert forall d :: 0 <= d < |caps| ==> over[d] == Load(per, device, d) - caps[d];
    }
    assert Roomiest(device, per, caps, open) by {
      assert forall d :: 0 <= d < |caps| ==> headroom[d] == caps[d] - Load(per, device, d);
    }
    SlabChosen(device, degree, per, caps, full, open, k);
    if k == need {
      SlabReaches(device, degree, per, caps, full, open, k);
    }
    c := Go(Move(full, open, order[..k]));
  }

  /** `trace` follows `moves`, each well chosen when it is made. */
  ghost predicate Follows(trace: seq<seq<int>>, moves: seq<Move>, n: nat, degree: seq<nat>, per: seq<real>,
                          caps: seq<real>)
    requires |degree| == |per| == n
  {
    && |trace| == |moves| + 1
    && (forall j :: 0 <= j < |trace| ==> |trace[j]| == n)
    && forall j :: 0 <= j < |moves| ==> StepOf(trace[j], trace[j + 1], moves[j], degree, per, caps)
  }

  ghost predicate StepOf(before: seq<int>, after: seq<int>, m: Move, degree: seq<nat>, per: seq<real>, caps: seq<real>)
    requires |before| == |degree| == |per|
  {
    WellChosen(before, degree, per, caps, m) && after == Reassigned(before, m.taken, m.open)
  }

  /** Vertices moved by the first `k` moves. */
  ghost function MovedBy(moves: seq<Move>, k: nat): nat
    requires k <= |moves|
  {
    if k == 0 then 0 else MovedBy(moves, k - 1) + |moves[k - 1].taken|
  }

  lemma {:induction false} MovedBySnoc(moves: seq<Move>, m: Move, k: nat)
    requires k <= |moves|
    ensures MovedBy(moves + [m], k) == MovedBy(moves, k)
  {
    if k > 0 {
      MovedBySnoc(moves, m, k - 1);
    }
  }

  /** Every slab of the run is as large as the rest of the budget lets it be. */
  ghost predicate FullSlabs(trace: seq<seq<int>>, moves: seq<Move>, per: seq<real>, caps: seq<real>, budget: int) {
    && |trace| == |moves| + 1
    && forall j :: 0 <= j < |moves| ==>
         |trace[j]| == |per| && FullSlab(trace[j], per, caps, moves[j], budget - MovedBy(moves, j))
  }

  lemma FullSlabsSnoc(trace: seq<seq<int>>, moves: seq<Move>, after: seq<int>, m: Move, per: seq<real>, caps: seq<real>,
                      budget: int)
    requires FullSlabs(trace, moves, per, caps, budget) && |trace[|moves|]| == |per|
    requires FullSlab(trace[|moves|], per, caps, m, budget - MovedBy(moves, |moves|))
    ensures FullSlabs(trace + [after], moves + [m], per, caps, budget)
    ensures MovedBy(moves + [m], |moves + [m]|) == MovedBy(moves, |moves|) + |m.taken|
  {
    MovedSoFar(moves, m);
    hide FullSlab, MovedBy;
    var t, ms := trace + [after], moves + [m];
    forall j | 0 <= j < |ms| ensures FullSlab(t[j], per, caps, ms[j], budget - MovedBy(ms, j)) {
      assert MovedBy(ms, j) == MovedBy(moves, j);
    }
  }

  lemma MovedSoFar(moves: seq<Move>, m: Move)
    ensures forall j: nat :: j <= |moves| ==> MovedBy(moves + [m], j) == MovedBy(moves, j)
    ensures MovedBy(moves + [m], |moves + [m]|) == MovedBy(moves, |moves|) + |m.taken|
  {
    forall j: nat | j <= |moves| ensures MovedBy(moves + [m], j) == MovedBy(moves, j) {
      MovedBySnoc(moves, m, j);
    }
  }

  lemma RunStart(assignment: seq<int>, degree: seq<nat>, per: seq<real>, caps: seq<real>, budget: int)
    requires |assignment| == |degree| == |per|
    ensures Follows([assignment], [], |degree|, degree, per, caps) && FullSlabs([assignment], [], per, caps, budget)
    ensures MovedBy([], 0) == 0
  {
  }

  lemma StepIs(before: seq<int>, after: seq<int>, m: Move, degree: seq<nat>, per: seq<real>, caps: seq<real>)
    requires |before| == |degree| == |per| && WellChosen(before, degree, per, caps, m)
    requires after == Reassigned(before, m.taken, m.open)
    ensures StepOf(before, after, m, degree, per, caps)
  {
    hide WellChosen;
  }

  lemma FollowsSnoc(trace: seq<seq<int>>, moves: seq<Move>, after: seq<int>, m: Move, n: nat, degree: seq<nat>,
                    per: seq<real>, caps: seq<real>)
    requires |degree| == |per| == n && Follows(trace, moves, n, degree, per, caps)
    requires StepOf(trace[|moves|], after, m, degree, per, caps)
    ensures Follows(trace + [after], moves + [m], n, degree, per, caps)
  {
    var t, ms := trace + [after], moves + [m];
    forall j | 0 <= j < |ms| ensures StepOf(t[j], t[j + 1], ms[j], degree, per, caps) {
      if j < |moves| {
        assert StepOf(trace[j], trace[j + 1], moves[j], degree, per, caps);
      }
    }
  }

  function Max(a: real, b: real): real {
    if a >= b then a else b
  }

  /** The device carries no more than at the start, or at most one vertex more than it may. */
  ghost predicate HeldTo(before: seq<int>, after: seq<int>, per: seq<real>, caps: seq<real>, d: nat)
    requires |before| == |after| == |per| && d < |caps|
  {
    Load(per, after, d) <= Max(Load(per, before, d), caps[d] + Heaviest(per))
  }

  /** What the rounds did: where they ended and why, and every assignment and move on the way. */
  datatype Result = Result(after: seq<int>, moved: nat, stop: Stop, trace: seq<seq<int>>, moves: seq<Move>)

  /** A result of the rounds: every move well chosen and as large as it may be, at most four rounds
      per device, at most `budget` vertices, and a reason to stop that holds. */
  ghost predicate Outcome(r: Result, assignment: seq<int>, degree: seq<nat>, per: seq<real>, caps: seq<real>,
                          budget: int)
    requires |assignment| == |degree| == |per|
  {
    && Follows(r.trace, r.moves, |degree|, degree, per, caps)
    && |r.trace| == |r.moves| + 1 && r.trace[0] == assignment && r.trace[|r.moves|] == r.after
    && r.moved == MovedBy(r.moves, |r.moves|) && |r.moves| <= Rounds(|caps|)
    && (r.moved <= if budget > 0 then budget else 0)
    && |r.after| == |assignment| && Explains(r.stop, r.after, per, caps)
    && FullSlabs(r.trace, r.moves, per, caps, budget)
    && (r.stop.Spent? ==> r.moved >= budget) && (r.stop.RoundsOver? ==> |r.moves| == Rounds(|caps|))
  }

  /** The degree of every vertex, a self-loop counting twice. */
  function Degrees(src: seq<nat>, dst: seq<nat>, n: nat): (r: seq<nat>)
    ensures |r| == n && forall v :: 0 <= v < n ==> r[v] == Count(src, v) + Count(dst, v)
  {
    seq(n, v => Count(src, v) + Count(dst, v))
  }

  /** The footprint of every vertex of the live graph. */
  function VertexFootprints(src: seq<nat>, dst: seq<nat>, n: nat, w: real): (r: seq<real>)
    requires w >= 0.0
    ensures |r| == n && NonNegative(r)
  {
    PerVertex(Degrees(src, dst, n), w)
  }

  /** `rebalance_activity`: the new assignment and the number of moved vertices. */
  method Rebalance(assignment: seq<int>, src: seq<nat>, dst: seq<nat>, caps: seq<real>, w: real, budget: int)
    returns (after: seq<int>, moved: nat, ghost r: Result)
    requires Graph(src, dst, |assignment|) && Labels(assignment, |caps|) && caps != [] && w >= 0.0
    ensures r.after == after && r.moved == moved && |after| == |assignment|
    ensures Outcome(r, assignment, Degrees(src, dst, |assignment|), VertexFootprints(src, dst, |assignment|, w),
                    caps, budget)
    ensures Labels(after, |caps|) && Mismatch(assignment, after) <= moved
    ensures var per := VertexFootprints(src, dst, |assignment|, w);
            LoadSum(per, after, |caps|) == LoadSum(per, assignment, |caps|)
    ensures var per := VertexFootprints(src, dst, |assignment|, w);
            forall d :: 0 <= d < |caps| ==> HeldTo(assignment, after, per, caps, d)
  {
    hide *;
    var degree := Degrees(src, dst, |assignment|);
    FootprintsAre(src, dst, |assignment|, w);
    var stop; ghost var trace, moves;
    after, moved, stop, trace, moves := RunRounds(assignment, degree, caps, w, budget);
    r := Result(after, moved, stop, trace, moves);
    OutcomeIs(r, assignment, degree, PerVertex(degree, w), caps, budget);
  }

  lemma FootprintsAre(src: seq<nat>, dst: seq<nat>, n: nat, w: real)
    requires w >= 0.0
    ensures VertexFootprints(src, dst, n, w) == PerVertex(Degrees(src, dst, n), w)
  {
  }

  lemma OutcomeIs(r: Result, assignment: seq<int>, degree: seq<nat>, per: seq<real>, caps: seq<real>, budget: int)
    requires |assignment| == |degree| == |per| && Follows(r.trace, r.moves, |degree|, degree, per, caps)
    requires |r.trace| == |r.moves| + 1 && r.trace[0] == assignment && r.trace[|r.moves|] == r.after
    requires r.moved == MovedBy(r.moves, |r.moves|) && |r.moves| <= Rounds(|caps|)
    requires r.moved <= if budget > 0 then budget else 0
    requires |r.after| == |assignment| && Explains(r.stop, r.after, per, caps)
    requires FullSlabs(r.trace, r.moves, per, caps, budget)
    requires r.stop.Spent? ==> r.moved >= budget
    requires r.stop.RoundsOver? ==> |r.moves| == Rounds(|caps|)
    ensures Outcome(r, assignment, degree, per, caps, budget)
  {
    hide Follows, Explains, FullSlabs, MovedBy, Rounds;
  }

  /** The rebalancing rounds: at most four per device and at most `budget` vertices in all. */
  method RunRounds(assignment: seq<int>, degree: seq<nat>, caps: seq<real>, w: real, budget: int)
    returns (after: seq<int>, moved: nat, stop: Stop, ghost trace: seq<seq<int>>, ghost moves: seq<Move>)
    requires |assignment| == |degree| && Labels(assignment, |caps|) && caps != [] && w >= 0.0
    ensures Follows(trace, moves, |degree|, degree, PerVertex(degree, w), caps)
    ensures |trace| == |moves| + 1 && trace[0] == assignment && trace[|moves|] == after
    ensures moved == MovedBy(moves, |moves|) && |moves| <= Rounds(|caps|)
    ensures moved <= if budget > 0 then budget else 0
    ensures |after| == |assignment| && Labels(after, |caps|) && Mismatch(assignment, after) <= moved
    ensures LoadSum(PerVertex(degree, w), after, |caps|) == LoadSum(PerVertex(degree, w), assignment, |caps|)
    ensures forall d :: 0 <= d < |caps| ==> HeldTo(assignment, after, PerVertex(degree, w), caps, d)
    ensures Explains(stop, after, PerVertex(degree, w), caps)
    ensures FullSlabs(trace, moves, PerVertex(degree, w), caps, budget)
    ensures stop.Spent? ==> moved >= budget
    ensures stop.RoundsOver? ==> |moves| == Rounds(|caps|)
  {
    hide *;
    ghost var per := PerVertex(degree, w);
    after, moved, trace, moves := assignment, 0, [assignment], [];
    RunStart(assignment, degree, per, caps, budget);
    RunKeeps(trace, moves, degree, per, caps);
    for round := 0 to Rounds(|caps|)
      invariant Follows(trace, moves, |degree|, degree, per, caps) && |moves| == round && |trace| == round + 1
      invariant FullSlabs(trace, moves, per, caps, budget)
      invariant trace[0] == assignment && trace[|moves|] == after && |after| == |degree|
      invariant Labels(after, |caps|) && Mismatch(assignment, after) <= moved
      invariant LoadSum(per, after, |caps|) == LoadSum(per, assignment, |caps|)
      invariant forall d :: 0 <= d < |caps| ==> HeldTo(assignment, after, per, caps, d)
      invariant moved == MovedBy(moves, |moves|) && moved <= if budget > 0 then budget else 0
    {
      if moved >= budget {
        stop := Spent;
        SpentExplains(after, per, caps);
        return;
      }
      var c := Choose(after, degree, caps, w, budget - moved);
      if c.Halt? {
        stop := c.stop;
        return;
      }
      ghost var before := after;
      moved := moved + |c.move.taken|;
      after := Reassigned(after, c.move.taken, c.move.open);
      StepIs(before, after, c.move, degree, per, caps);
      FollowsSnoc(trace, moves, after, c.move, |degree|, degree, per, caps);
      FullSlabsSnoc(trace, moves, after, c.move, per, caps, budget);
      trace, moves := trace + [after], moves + [c.move];
      RunKeeps(trace, moves, degree, per, caps);
    }
    stop := RoundsOver;
    SpentExplains(after, per, caps);
  }

  /** `4 * D`. */
  function Rounds(devices: nat): nat {
    ROUNDS_PER_DEVICE * devices
  }

  lemma SpentExplains(device: seq<int>, per: seq<real>, caps: seq<real>)
    requires |device| == |per|
    ensures Explains(Spent, device, per, caps) && Explains(RoundsOver, device, per, caps)
  {
  }

  // ---------------------------------------------------------------- over the whole run

  /** Footprint is conserved. */
  lemma {:induction false} FootprintConserved(before: seq<int>, after: seq<int>, per: seq<real>, devices: nat)
    requires |before| == |after| == |per| && Labels(before, devices) && Labels(after, devices)
    ensures LoadSum(per, after, devices) == LoadSum(per, before, devices) == Total(per)
  {
    LoadSumIsTotal(per, before, devices);
    LoadSumIsTotal(per, after, devices);
  }

  lemma SlabNonNegative(per: seq<real>, taken: seq<nat>)
    requires NonNegative(per) && Below(taken, |per|)
    ensures Total(Select<real>(per, taken)) >= 0.0
  {
    var s := Select<real>(per, taken);
    PrefixMonotone(s, 0, |s|);
    assert s[..|s|] == s && s[..0] == [];
  }

  lemma StepBound(before: seq<int>, after: seq<int>, m: Move, degree: seq<nat>, per: seq<real>, caps: seq<real>, d: nat)
    requires |before| == |degree| == |per| && NonNegative(per) && d < |caps|
    requires StepOf(before, after, m, degree, per, caps)
    ensures |after| == |before|
    ensures d != m.open ==> Load(per, after, d) <= Load(per, before, d)
    ensures d == m.open ==> Load(per, after, d) < caps[d] + Heaviest(per)
  {
    hide Load, Total, Heaviest, HottestFirst, Fullest, Roomiest;
    ReassignedLoads(per, before, m.taken, m.full, m.open, d);
    SlabNonNegative(per, m.taken);
  }

  /** A device never ends above its starting footprint, except for receiving up to less than one
      vertex more than its capacity. */
  lemma {:induction false} RunBound(trace: seq<seq<int>>, moves: seq<Move>, n: nat, degree: seq<nat>, per: seq<real>,
                                    caps: seq<real>, k: nat, d: nat)
    requires |degree| == |per| == n && NonNegative(per) && Follows(trace, moves, n, degree, per, caps)
    requires k <= |moves| && d < |caps|
    ensures HeldTo(trace[0], trace[k], per, caps, d)
  {
    hide Load, Heaviest, StepOf;
    if k > 0 {
      RunBound(trace, moves, n, degree, per, caps, k - 1, d);
      StepBound(trace[k - 1], trace[k], moves[k - 1], degree, per, caps, d);
    }
  }

  lemma {:induction false} MismatchTriangle(a: seq<int>, b: seq<int>, c: seq<int>)
    requires |a| == |b| == |c|
    ensures Mismatch(a, c) <= Mismatch(a, b) + Mismatch(b, c)
  {
    if a != [] {
      var n := |a| - 1;
      MismatchTriangle(a[..n], b[..n], c[..n]);
    }
  }

  lemma {:induction false} MismatchSelf(a: seq<int>)
    ensures Mismatch(a, a) == 0
  {
    if a != [] {
      MismatchSelf(a[..|a| - 1]);
    }
  }

  lemma StepDiffers(before: seq<int>, after: seq<int>, m: Move, degree: seq<nat>, per: seq<real>, caps: seq<real>)
    requires |before| == |degree| == |per| && StepOf(before, after, m, degree, per, caps)
    ensures |after| == |before| && Mismatch(before, after) <= |m.taken|
  {
    hide Mismatch;
    OnlyMoversDiffer(before, after, m.taken);
  }

  /** No more vertices end on another device than were moved. */
  lemma {:induction false} ChangedAtMostMoved(trace: seq<seq<int>>, moves: seq<Move>, n: nat, degree: seq<nat>,
                                              per: seq<real>, caps: seq<real>, k: nat)
    requires |degree| == |per| == n && Follows(trace, moves, n, degree, per, caps) && k <= |moves|
    ensures Mismatch(trace[0], trace[k]) <= MovedBy(moves, k)
  {
    hide Mismatch, WellChosen, StepOf;
    if k == 0 {
      MismatchSelf(trace[0]);
    } else {
      ChangedAtMostMoved(trace, moves, n, degree, per, caps, k - 1);
      assert StepOf(trace[k - 1], trace[k], moves[k - 1], degree, per, caps);
      StepDiffers(trace[k - 1], trace[k], moves[k - 1], degree, per, caps);
      MismatchTriangle(trace[0], trace[k - 1], trace[k]);
    }
  }

  /** What the rounds so far have kept. */
  lemma RunKeeps(trace: seq<seq<int>>, moves: seq<Move>, degree: seq<nat>, per: seq<real>, caps: seq<real>)
    requires |degree| == |per| && NonNegative(per) && Follows(trace, moves, |degree|, degree, per, caps)
    requires |trace| == |moves| + 1 && |trace[0]| == |per| && Labels(trace[0], |caps|)
    ensures |trace[|moves|]| == |per| && Labels(trace[|moves|], |caps|)
    ensures Mismatch(trace[0], trace[|moves|]) <= MovedBy(moves, |moves|)
    ensures LoadSum(per, trace[|moves|], |caps|) == LoadSum(per, trace[0], |caps|)
    ensures forall d :: 0 <= d < |caps| ==> HeldTo(trace[0], trace[|moves|], per, caps, d)
  {
    hide Mismatch, MovedBy, LoadSum, HeldTo, StepOf;
    var k := |moves|;
    forall d | 0 <= d < |caps| ensures HeldTo(trace[0], trace[k], per, caps, d) {
      RunBound(trace, moves, |degree|, degree, per, caps, k, d);
    }
    ChangedAtMostMoved(trace, moves, |degree|, degree, per, caps, k);
    StillPlaced(trace, moves, |degree|, degree, per, caps, k);
    FootprintConserved(trace[0], trace[k], per, |caps|);
  }

  lemma {:induction false} StillPlaced(trace: seq<seq<int>>, moves: seq<Move>, n: nat, degree: seq<nat>, per: seq<real>,
                                       caps: seq<real>, k: nat)
    requires |degree| == |per| == n && Follows(trace, moves, n, degree, per, caps) && k <= |moves|
    requires Labels(trace[0], |caps|)
    ensures Labels(trace[k], |caps|)
  {
    hide StepOf, Labels;
    if k > 0 {
      StillPlaced(trace, moves, n, degree, per, caps, k - 1);
      StepPlaces(trace[k - 1], trace[k], moves[k - 1], degree, per, caps);
    }
  }

  lemma StepPlaces(before: seq<int>, after: seq<int>, m: Move, degree: seq<nat>, per: seq<real>, caps: seq<real>)
    requires |before| == |degree| == |per| && StepOf(before, after, m, degree, per, caps) && Labels(before, |caps|)
    ensures Labels(after, |caps|)
  {
    hide Load, Total, HottestFirst, Fullest, Roomiest;
  }

  // ---------------------------------------------------------------- when a round helps

  /** What device `d` holds beyond its capacity. */
  ghost function Excess(device: seq<int>, per: seq<real>, caps: seq<real>, d: nat): real
    requires |device| == |per| && d < |caps|
  {
    Max(0.0, Load(per, device, d) - caps[d])
  }

  ghost function TotalExcess(device: seq<int>, per: seq<real>, caps: seq<real>, k: nat): real
    requires |device| == |per| && k <= |caps|
  {
    if k == 0 then 0.0 else TotalExcess(device, per, caps, k - 1) + Excess(device, per, caps, k - 1)
  }

  lemma {:induction false} ExcessChange(before: seq<int>, after: seq<int>, per: seq<real>, caps: seq<real>, full: nat,
                                        open: nat, k: nat)
    requires |before| == |after| == |per| && full < |caps| && open < |caps| && full != open && k <= |caps|
    requires forall d :: 0 <= d < |caps| && d != full && d != open ==> Load(per, after, d) == Load(per, before, d)
    ensures TotalExcess(after, per, caps, k) - TotalExcess(before, per, caps, k)
         == (if full < k then Excess(after, per, caps, full) - Excess(before, per, caps, full) else 0.0)
          + (if open < k then Excess(after, per, caps, open) - Excess(before, per, caps, open) else 0.0)
  {
    hide Load;
    if k > 0 {
      ExcessChange(before, after, per, caps, full, open, k - 1);
    }
  }

  /** The fullest device's excess and the emptiest device's room together. */
  ghost function Slack(device: seq<int>, per: seq<real>, caps: seq<real>, m: Move): real
    requires |device| == |per| && m.full < |caps| && m.open < |caps|
  {
    Load(per, device, m.full) - caps[m.full] + caps[m.open] - Load(per, device, m.open)
  }

  /** A round takes the slab's weight from the full device to the open one. */
  lemma StepLoads(before: seq<int>, after: seq<int>, m: Move, degree: seq<nat>, per: seq<real>, caps: seq<real>)
    requires |before| == |degree| == |per| && StepOf(before, after, m, degree, per, caps)
    ensures |after| == |before| && Below(m.taken, |per|) && m.full != m.open
    ensures var slab := Total(Select<real>(per, m.taken));
            forall d :: Load(per, after, d) ==
                        Load(per, before, d) + (if d == m.open then slab else 0.0) - (if d == m.full then slab else 0.0)
  {
    hide Load, Total, Fullest, Roomiest, HottestFirst;
    forall d ensures Load(per, after, d) ==
                     Load(per, before, d) + (if d == m.open then Total(Select<real>(per, m.taken)) else 0.0)
                                          - (if d == m.full then Total(Select<real>(per, m.taken)) else 0.0) {
      ReassignedLoads(per, before, m.taken, m.full, m.open, d);
    }
  }

  lemma SlabShrinksExcess(before: seq<int>, after: seq<int>, m: Move, degree: seq<nat>, per: seq<real>, caps: seq<real>,
                          slab: real)
    requires |before| == |degree| == |per| && StepOf(before, after, m, degree, per, caps)
    requires Below(m.taken, |per|) && slab == Total(Select<real>(per, m.taken)) && slab > 0.0
    ensures |after| == |before| && m.full < |caps| && m.open < |caps|
    ensures TotalExcess(after, per, caps, |caps|) < TotalExcess(before, per, caps, |caps|)
       <==> slab < Slack(before, per, caps, m)
  {
    hide Load, Total, Fullest, Roomiest, HottestFirst;
    StepLoads(before, after, m, degree, per, caps);
    ExcessChange(before, after, per, caps, m.full, m.open, |caps|);
  }

  /** More than one vertex is taken only if the hottest one is below the goal. */
  lemma SlabSize(per: seq<real>, taken: seq<nat>, goal: real)
    requires NonNegative(per) && taken != [] && Below(taken, |per|)
    requires Total(Select<real>(per, taken)) < goal + per[taken[|taken| - 1]]
    ensures Total(Select<real>(per, taken)) >= per[taken[0]]
    ensures |taken| == 1 ==> Total(Select<real>(per, taken)) == per[taken[0]]
    ensures |taken| > 1 ==> per[taken[0]] < goal
  {
    var s := Select<real>(per, taken);
    PrefixStep(s, |s| - 1);
    assert s[..|s|] == s;
    PrefixStep(s, 0);
    assert s[..0] == [];
    PrefixMonotone(s, 1, |s|);
    if |s| > 1 {
      PrefixMonotone(s, 1, |s| - 1);
    }
  }

  /** Hotter vertices weigh more. */
  lemma HotterWeighsMore(degree: seq<nat>, w: real, u: nat, v: nat)
    requires w >= 0.0 && u < |degree| && v < |degree| && degree[u] <= degree[v]
    ensures 1.0 <= PerVertex(degree, w)[u] <= PerVertex(degree, w)[v]
  {
    WorkOrder(w, degree[u] as real, degree[v] as real);
  }

  lemma WorkOrder(w: real, a: real, b: real)
    requires w >= 0.0 && a <= b
    ensures w * a <= w * b
  {
  }

  /** The first vertex of a slab is the hottest of its device. */
  lemma FirstIsHottest(device: seq<int>, degree: seq<nat>, w: real, caps: seq<real>, m: Move, u: nat)
    requires |device| == |degree| && w >= 0.0 && WellChosen(device, degree, PerVertex(degree, w), caps, m)
    requires u < |device| && device[u] == m.full
    ensures m.taken[0] < |device| && device[m.taken[0]] == m.full
    ensures 1.0 <= PerVertex(degree, w)[u] <= PerVertex(degree, w)[m.taken[0]]
  {
    hide Load, Total, PerVertex;
    if u in m.taken {
      var i :| 0 <= i < |m.taken| && m.taken[i] == u;
      assert degree[u] <= degree[m.taken[0]];
    }
    HotterWeighsMore(degree, w, u, m.taken[0]);
  }

  /** Every vertex of the shedding device fits in its excess and the room of the other together. */
  ghost predicate FitsSlack(device: seq<int>, per: seq<real>, caps: seq<real>, m: Move)
    requires |device| == |per| && m.full < |caps| && m.open < |caps|
  {
    forall u :: 0 <= u < |device| && device[u] == m.full ==> per[u] < Slack(device, per, caps, m)
  }

  /** A round lowers the total excess exactly when its slab fits in excess and room together, and
      that is known beforehand: exactly when the hottest vertex does. */
  lemma RoundHelpsIff(before: seq<int>, after: seq<int>, m: Move, degree: seq<nat>, w: real, caps: seq<real>)
    requires |before| == |degree| && w >= 0.0 && StepOf(before, after, m, degree, PerVertex(degree, w), caps)
    ensures |after| == |before| && m.full < |caps| && m.open < |caps|
    ensures TotalExcess(after, PerVertex(degree, w), caps, |caps|)
            < TotalExcess(before, PerVertex(degree, w), caps, |caps|)
       <==> FitsSlack(before, PerVertex(degree, w), caps, m)
  {
    hide PerVertex, Load, Total, TotalExcess;
    var per := PerVertex(degree, w);
    var first := m.taken[0];
    var last := m.taken[|m.taken| - 1];
    FirstIsHottest(before, degree, w, caps, m, first);
    FirstIsHottest(before, degree, w, caps, m, last);
    SlabSize(per, m.taken, Goal(before, per, caps, m.full, m.open));
    SlabShrinksExcess(before, after, m, degree, per, caps, Total(Select<real>(per, m.taken)));
    forall u | 0 <= u < |before| && before[u] == m.full ensures per[u] <= per[first] {
      FirstIsHottest(before, degree, w, caps, m, u);
    }
  }
}
