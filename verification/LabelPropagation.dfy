/** Label propagation over the placement set: six synchronous passes whose votes come from flat
    `row * D + device` histograms, with an early exit once the labels are stable. */
module LabelPropagation {
  import opened Arrays
  import opened ChangedCone
  import opened IncrementalVotes

  const ANCHOR_WEIGHT: nat := 4
  const PASSES: nat := 6

  /** The flat cell of row `r`, device `d`. */
  function Cell(r: nat, d: nat, devices: nat): (c: nat)
    ensures r == 0 ==> c == d
  {
    r * devices + d
  }

  /** `P * D`. */
  function TableSize(rows: nat, devices: nat): nat {
    rows * devices
  }

  lemma Scale(a: nat, b: nat, c: nat)
    requires a <= b
    ensures a * c <= b * c
  {
  }

  lemma CellUnique(r: nat, d: nat, r': nat, d': nat, devices: nat)
    requires d < devices && d' < devices
    ensures Cell(r, d, devices) == Cell(r', d', devices) <==> r == r' && d == d'
  {
    if r < r' {
      Scale(r + 1, r', devices);
    } else if r' < r {
      Scale(r' + 1, r, devices);
    }
  }

  lemma CellInTable(r: nat, d: nat, rows: nat, devices: nat)
    requires r < rows && d < devices
    ensures Cell(r, d, devices) < TableSize(rows, devices)
  {
    Scale(r + 1, rows, devices);
  }

  // ---------------------------------------------------------------- flat votes

  /** `pos` numbers the placement set: `pos[toPlace[r]] == r`, -1 elsewhere. */
  ghost predicate Numbering(pos: seq<int>, toPlace: seq<nat>, inPlace: seq<bool>) {
    && |pos| == |inPlace| && Below(toPlace, |pos|)
    && (forall r :: 0 <= r < |toPlace| ==> inPlace[toPlace[r]] && pos[toPlace[r]] == r)
    && forall v :: 0 <= v < |pos| && inPlace[v] ==> 0 <= pos[v] < |toPlace| && toPlace[pos[v]] == v
  }

  ghost predicate OwnersPlaced(ps: seq<Pair>, inPlace: seq<bool>) {
    forall i :: 0 <= i < |ps| ==> ps[i].owner < |inPlace| && ps[i].other < |inPlace| && inPlace[ps[i].owner]
  }

  /** The fixed neighbours: row of the owner, device of the neighbour. */
  function FixedFlat(ps: seq<Pair>, pos: seq<int>, inPlace: seq<bool>, device: seq<int>, devices: nat): seq<int>
    requires OwnersPlaced(ps, inPlace) && |device| == |pos| == |inPlace|
  {
    if ps == [] then []
    else
      var n := |ps| - 1;
      var rest := FixedFlat(ps[..n], pos, inPlace, device, devices);
      if !inPlace[ps[n].other] && device[ps[n].other] >= 0
      then rest + [pos[ps[n].owner] * devices + device[ps[n].other]] else rest
  }

  /** The tentative neighbours: row of the owner, current label of the neighbour. */
  function TentativeFlat(ps: seq<Pair>, pos: seq<int>, inPlace: seq<bool>, tent: seq<nat>, devices: nat): seq<int>
    requires OwnersPlaced(ps, inPlace) && |pos| == |inPlace|
    requires forall v :: 0 <= v < |pos| && inPlace[v] ==> 0 <= pos[v] < |tent|
  {
    if ps == [] then []
    else
      var n := |ps| - 1;
      var rest := TentativeFlat(ps[..n], pos, inPlace, tent, devices);
      if inPlace[ps[n].other] then rest + [pos[ps[n].owner] * devices + tent[pos[ps[n].other]]] else rest
  }

  /** The tentative labels as an assignment of all vertices. */
  function Scattered(n: nat, toPlace: seq<nat>, tent: seq<nat>): (r: seq<int>)
    requires |tent| == |toPlace| && Below(toPlace, n)
    ensures |r| == n
  {
    if toPlace == [] then seq(n, _ => UNPLACED)
    else
      var k := |toPlace| - 1;
      Scattered(n, toPlace[..k], tent[..k])[toPlace[k] := tent[k]]
  }

  lemma {:induction false} ScatteredAt(n: nat, toPlace: seq<nat>, tent: seq<nat>, v: nat)
    requires |tent| == |toPlace| && Below(toPlace, n) && Distinct(toPlace) && v < n
    ensures v !in toPlace ==> Scattered(n, toPlace, tent)[v] == UNPLACED
    ensures forall r :: 0 <= r < |toPlace| && toPlace[r] == v ==> Scattered(n, toPlace, tent)[v] == tent[r]
  {
    if toPlace == [] {
    } else {
      var k := |toPlace| - 1;
      ScatteredAt(n, toPlace[..k], tent[..k], v);
    }
  }

  lemma FlatSnoc(flat: seq<int>, r': nat, d': nat, r: nat, d: nat, devices: nat)
    requires d < devices && d' < devices
    ensures Count(flat + [r' * devices + d'], Cell(r, d, devices))
         == Count(flat, Cell(r, d, devices)) + if r' == r && d' == d then 1 else 0
  {
    CellUnique(r, d, r', d', devices);
    CountSnoc(flat, Cell(r', d', devices), Cell(r, d, devices));
  }

  /** A cell of the fixed histogram counts one vertex's fixed neighbours on one device. */
  lemma {:induction false} FixedCell(ps: seq<Pair>, pos: seq<int>, inPlace: seq<bool>, toPlace: seq<nat>,
                                     device: seq<int>, devices: nat, r: nat, d: nat)
    requires OwnersPlaced(ps, inPlace) && Numbering(pos, toPlace, inPlace) && |device| == |pos|
    requires forall v :: 0 <= v < |device| ==> device[v] < devices && (inPlace[v] ==> device[v] == UNPLACED)
    requires r < |toPlace| && d < devices
    ensures PairsBelow(ps, |device|)
    ensures Count(FixedFlat(ps, pos, inPlace, device, devices), Cell(r, d, devices))
            == PairVotes(device, ps, toPlace[r], d)
  {
    hide Count, Cell;
    if ps == [] {
      CountAbsent([], Cell(r, d, devices));
    } else {
      var n := |ps| - 1;
      FixedCell(ps[..n], pos, inPlace, toPlace, device, devices, r, d);
      var rest := FixedFlat(ps[..n], pos, inPlace, device, devices);
      var owner, other := ps[n].owner, ps[n].other;
      assert pos[owner] == r <==> owner == toPlace[r];
      if !inPlace[other] && device[other] >= 0 {
        FlatSnoc(rest, pos[owner], device[other], r, d, devices);
      }
    }
  }

  /** A cell of the tentative histogram counts one vertex's neighbours with one label. */
  lemma {:induction false} TentativeCell(ps: seq<Pair>, pos: seq<int>, inPlace: seq<bool>, toPlace: seq<nat>,
                                         tent: seq<nat>, labels: seq<int>, devices: nat, r: nat, d: nat)
    requires OwnersPlaced(ps, inPlace) && Numbering(pos, toPlace, inPlace) && |labels| == |pos| && |tent| == |toPlace|
    requires forall i :: 0 <= i < |tent| ==> tent[i] < devices
    requires forall v :: 0 <= v < |labels| ==> labels[v] == if inPlace[v] then tent[pos[v]] else UNPLACED
    requires r < |toPlace| && d < devices
    ensures PairsBelow(ps, |labels|)
    ensures Count(TentativeFlat(ps, pos, inPlace, tent, devices), Cell(r, d, devices))
            == PairVotes(labels, ps, toPlace[r], d)
  {
    hide Count, Cell;
    if ps == [] {
      CountAbsent([], Cell(r, d, devices));
    } else {
      var n := |ps| - 1;
      TentativeCell(ps[..n], pos, inPlace, toPlace, tent, labels, devices, r, d);
      var rest := TentativeFlat(ps[..n], pos, inPlace, tent, devices);
      var owner, other := ps[n].owner, ps[n].other;
      assert pos[owner] == r <==> owner == toPlace[r];
      if inPlace[other] {
        FlatSnoc(rest, pos[owner], tent[pos[other]], r, d, devices);
      }
    }
  }

  lemma {:induction false} FirstOwnersPlaced(inPlace: seq<bool>, src: seq<nat>, dst: seq<nat>)
    requires Graph(src, dst, |inPlace|)
    ensures OwnersPlaced(FirstPairs(inPlace, src, dst), inPlace)
  {
    if src != [] {
      FirstOwnersPlaced(inPlace, src[..|src| - 1], dst[..|src| - 1]);
    }
  }

  lemma {:induction false} SecondOwnersPlaced(inPlace: seq<bool>, src: seq<nat>, dst: seq<nat>)
    requires Graph(src, dst, |inPlace|)
    ensures OwnersPlaced(SecondPairs(inPlace, src, dst), inPlace)
  {
    if src != [] {
      SecondOwnersPlaced(inPlace, src[..|src| - 1], dst[..|src| - 1]);
    }
  }

  lemma EmittedOwnersPlaced(inPlace: seq<bool>, src: seq<nat>, dst: seq<nat>)
    requires Graph(src, dst, |inPlace|)
    ensures OwnersPlaced(Emitted(inPlace, src, dst), inPlace)
  {
    FirstOwnersPlaced(inPlace, src, dst);
    SecondOwnersPlaced(inPlace, src, dst);
  }

  // ---------------------------------------------------------------- one pass, naively

  /** Fixed neighbours count four, neighbours still being placed count one. */
  ghost function NaiveVotes(device: seq<int>, labels: seq<int>, src: seq<nat>, dst: seq<nat>, v: nat,
                            devices: nat): (r: seq<nat>)
    requires Graph(src, dst, |device|) && |labels| == |device|
    ensures |r| == devices
    ensures forall d :: 0 <= d < devices ==>
              r[d] == 4 * Votes(device, src, dst, v, d) + Votes(labels, src, dst, v, d)
  {
    seq(devices, d => 4 * Votes(device, src, dst, v, d) + Votes(labels, src, dst, v, d))
  }

  lemma {:induction false} SumOfZeros(row: seq<nat>)
    ensures Sum(row) >= 0 && (Sum(row) == 0 <==> forall i :: 0 <= i < |row| ==> row[i] == 0)
  {
    if row != [] {
      SumOfZeros(row[..|row| - 1]);
    }
  }

  /** The majority label, or the current one when nobody votes. */
  function NextLabel(row: seq<nat>, current: nat): (d: nat)
    requires row != [] && current < |row|
    ensures d < |row|
    ensures (forall i :: 0 <= i < |row| ==> row[i] == 0) ==> d == current
    ensures (exists i :: 0 <= i < |row| && row[i] > 0) ==>
              forall i :: 0 <= i < |row| ==> row[i] <= row[d] && (i < d ==> row[i] < row[d])
  {
    SumOfZeros(row);
    if Sum(row) == 0 then current else FirstMax(row)
  }

  ghost predicate TentOk(tent: seq<nat>, toPlace: seq<nat>, devices: nat) {
    |tent| == |toPlace| && Below(tent, devices)
  }

  /** All vertices of the placement set adopt their majority label at once. */
  ghost function Pass(device: seq<int>, src: seq<nat>, dst: seq<nat>, toPlace: seq<nat>, devices: nat,
                      tent: seq<nat>): (r: seq<nat>)
    requires Graph(src, dst, |device|) && Below(toPlace, |device|) && devices > 0 && TentOk(tent, toPlace, devices)
    ensures TentOk(r, toPlace, devices)
  {
    var labels := Scattered(|device|, toPlace, tent);
    seq(|toPlace|, r requires 0 <= r < |toPlace| =>
      NextLabel(NaiveVotes(device, labels, src, dst, toPlace[r], devices), tent[r]))
  }

  ghost function Passes(device: seq<int>, src: seq<nat>, dst: seq<nat>, toPlace: seq<nat>, devices: nat, tent: seq<nat>,
                        k: nat): (r: seq<nat>)
    requires Graph(src, dst, |device|) && Below(toPlace, |device|) && devices > 0 && TentOk(tent, toPlace, devices)
    ensures TentOk(r, toPlace, devices)
    decreases k
  {
    if k == 0 then tent
    else Passes(device, src, dst, toPlace, devices, Pass(device, src, dst, toPlace, devices, tent), k - 1)
  }

  lemma NoPasses(device: seq<int>, src: seq<nat>, dst: seq<nat>, toPlace: seq<nat>, devices: nat, tent: seq<nat>)
    requires Graph(src, dst, |device|) && Below(toPlace, |device|) && devices > 0 && TentOk(tent, toPlace, devices)
    ensures Passes(device, src, dst, toPlace, devices, tent, 0) == tent
  {
  }

  lemma PassesStep(device: seq<int>, src: seq<nat>, dst: seq<nat>, toPlace: seq<nat>, devices: nat, tent: seq<nat>,
                   k: nat)
    requires Graph(src, dst, |device|) && Below(toPlace, |device|) && devices > 0 && TentOk(tent, toPlace, devices)
    requires k > 0
    ensures Passes(device, src, dst, toPlace, devices, tent, k)
         == Passes(device, src, dst, toPlace, devices, Pass(device, src, dst, toPlace, devices, tent), k - 1)
  {
  }

  /** Stable labels stay stable, so leaving the loop early changes nothing. */
  lemma {:induction false} StablePasses(device: seq<int>, src: seq<nat>, dst: seq<nat>, toPlace: seq<nat>, devices: nat,
                                        tent: seq<nat>, k: nat)
    requires Graph(src, dst, |device|) && Below(toPlace, |device|) && devices > 0 && TentOk(tent, toPlace, devices)
    requires Pass(device, src, dst, toPlace, devices, tent) == tent
    ensures Passes(device, src, dst, toPlace, devices, tent, k) == tent
    decreases k
  {
    if k > 0 {
      StablePasses(device, src, dst, toPlace, devices, tent, k - 1);
    }
  }

  // ---------------------------------------------------------------- the vectorised loop

  /** What the propagation is given: the placement set numbered, its vertices unplaced, every
      other vertex on a device. */
  ghost predicate Setup(device: seq<int>, src: seq<nat>, dst: seq<nat>, toPlace: seq<nat>, inPlace: seq<bool>,
                        pos: seq<int>, devices: nat) {
    && devices > 0 && Graph(src, dst, |device|) && |inPlace| == |device| == |pos|
    && Distinct(toPlace) && Numbering(pos, toPlace, inPlace)
    && forall v :: 0 <= v < |device| ==> device[v] < devices && (inPlace[v] ==> device[v] == UNPLACED)
  }

  /** Row `r` of the vote table after `reshape(P, D)`. */
  function TableRow(table: seq<nat>, r: nat, rows: nat, devices: nat): (row: seq<nat>)
    requires r < rows && |table| == TableSize(rows, devices)
    ensures |row| == devices
    ensures forall d :: 0 <= d < devices ==> Cell(r, d, devices) < |table| && row[d] == table[Cell(r, d, devices)]
  {
    assert forall d :: 0 <= d < devices ==> Cell(r, d, devices) < |table| by {
      forall d | 0 <= d < devices ensures Cell(r, d, devices) < |table| {
        CellInTable(r, d, rows, devices);
      }
    }
    seq(devices, d requires 0 <= d < devices => table[Cell(r, d, devices)])
  }

  /** `fixed_votes + bincount(flat, minlength=P * D)`. */
  function AddVotes(fixed: seq<nat>, flat: seq<int>): (r: seq<nat>)
    ensures |r| == |fixed| && forall c :: 0 <= c < |r| ==> r[c] == fixed[c] + Count(flat, c)
  {
    seq(|fixed|, c requires 0 <= c < |fixed| => fixed[c] + Count(flat, c))
  }

  lemma LabelsScattered(toPlace: seq<nat>, inPlace: seq<bool>, pos: seq<int>, tent: seq<nat>)
    requires Distinct(toPlace) && Numbering(pos, toPlace, inPlace) && |tent| == |toPlace|
    ensures forall v :: 0 <= v < |pos| ==>
              Scattered(|pos|, toPlace, tent)[v] == if inPlace[v] then tent[pos[v]] else UNPLACED
  {
    forall v | 0 <= v < |pos|
      ensures Scattered(|pos|, toPlace, tent)[v] == if inPlace[v] then tent[pos[v]] else UNPLACED
    {
      ScatteredAt(|pos|, toPlace, tent, v);
      if inPlace[v] {
        assert toPlace[pos[v]] == v;
      }
    }
  }

  /** One cell of the table is the naive vote. */
  lemma CellVotes(device: seq<int>, src: seq<nat>, dst: seq<nat>, toPlace: seq<nat>, inPlace: seq<bool>, pos: seq<int>,
                  devices: nat, tent: seq<nat>, r: nat, d: nat)
    requires Setup(device, src, dst, toPlace, inPlace, pos, devices) && TentOk(tent, toPlace, devices)
    requires r < |toPlace| && d < devices && OwnersPlaced(Emitted(inPlace, src, dst), inPlace)
    ensures Count(FixedFlat(Emitted(inPlace, src, dst), pos, inPlace, device, devices), Cell(r, d, devices))
         == Votes(device, src, dst, toPlace[r], d)
    ensures Count(TentativeFlat(Emitted(inPlace, src, dst), pos, inPlace, tent, devices), Cell(r, d, devices))
         == Votes(Scattered(|device|, toPlace, tent), src, dst, toPlace[r], d)
  {
    var ps := Emitted(inPlace, src, dst);
    var labels := Scattered(|device|, toPlace, tent);
    LabelsScattered(toPlace, inPlace, pos, tent);
    FixedCell(ps, pos, inPlace, toPlace, device, devices, r, d);
    TentativeCell(ps, pos, inPlace, toPlace, tent, labels, devices, r, d);
    hide Count, Cell, FixedFlat, TentativeFlat, Votes, PairVotes, Scattered;
    EmittedAre(device, inPlace, src, dst, toPlace[r], d);
    EmittedAre(labels, inPlace, src, dst, toPlace[r], d);
  }

  lemma EmittedAre(device: seq<int>, inPlace: seq<bool>, src: seq<nat>, dst: seq<nat>, v: nat, d: int)
    requires Graph(src, dst, |device|) && |inPlace| == |device| && v < |device| && inPlace[v]
    ensures PairsBelow(Emitted(inPlace, src, dst), |device|)
    ensures PairVotes(device, Emitted(inPlace, src, dst), v, d) == Votes(device, src, dst, v, d)
  {
    EmittedVotes(device, inPlace, src, dst, v, d);
    PairVotesConcat(device, FirstPairs(inPlace, src, dst), SecondPairs(inPlace, src, dst), v, d);
  }

  /** The precomputed anchor votes. */
  function FixedVotes(ps: seq<Pair>, pos: seq<int>, inPlace: seq<bool>, device: seq<int>, rows: nat,
                      devices: nat): (r: seq<nat>)
    requires OwnersPlaced(ps, inPlace) && |device| == |pos| == |inPlace|
    ensures |r| == TableSize(rows, devices)
    ensures forall c :: 0 <= c < |r| ==> r[c] == 4 * Count(FixedFlat(ps, pos, inPlace, device, devices), c)
  {
    var flat := FixedFlat(ps, pos, inPlace, device, devices);
    seq(TableSize(rows, devices), c => ANCHOR_WEIGHT * Count(flat, c))
  }

  /** Every row of the vote table is that vertex's naive vote. */
  lemma RowIsNaive(device: seq<int>, src: seq<nat>, dst: seq<nat>, toPlace: seq<nat>, inPlace: seq<bool>, pos: seq<int>,
                   devices: nat, tent: seq<nat>, fixed: seq<nat>, flat: seq<int>, r: nat)
    requires Setup(device, src, dst, toPlace, inPlace, pos, devices) && TentOk(tent, toPlace, devices)
    requires r < |toPlace| && OwnersPlaced(Emitted(inPlace, src, dst), inPlace)
    requires fixed == FixedVotes(Emitted(inPlace, src, dst), pos, inPlace, device, |toPlace|, devices)
    requires flat == TentativeFlat(Emitted(inPlace, src, dst), pos, inPlace, tent, devices)
    ensures TableRow(AddVotes(fixed, flat), r, |toPlace|, devices)
         == NaiveVotes(device, Scattered(|device|, toPlace, tent), src, dst, toPlace[r], devices)
  {
    hide Count, FixedFlat, TentativeFlat, Votes, Scattered, Emitted, Cell;
    var row := TableRow(AddVotes(fixed, flat), r, |toPlace|, devices);
    var naive := NaiveVotes(device, Scattered(|device|, toPlace, tent), src, dst, toPlace[r], devices);
    forall d | 0 <= d < devices ensures row[d] == naive[d] {
      CellVotes(device, src, dst, toPlace, inPlace, pos, devices, tent, r, d);
      assert row[d] == fixed[Cell(r, d, devices)] + Count(flat, Cell(r, d, devices));
    }
  }

  /** One synchronous pass from the flat histograms. */
  method OnePass(ps: seq<Pair>, fixed: seq<nat>, toPlace: seq<nat>, inPlace: seq<bool>, pos: seq<int>, devices: nat,
                 tent: seq<nat>, ghost device: seq<int>, ghost src: seq<nat>, ghost dst: seq<nat>)
    returns (next: seq<nat>)
    requires Setup(device, src, dst, toPlace, inPlace, pos, devices) && TentOk(tent, toPlace, devices)
    requires ps == Emitted(inPlace, src, dst) && OwnersPlaced(ps, inPlace)
    requires fixed == FixedVotes(ps, pos, inPlace, device, |toPlace|, devices)
    ensures next == Pass(device, src, dst, toPlace, devices, tent)
  {
    hide Count, FixedFlat, TentativeFlat, Votes, Scattered, Emitted, Cell, FixedVotes, NaiveVotes, Sum, FirstMax;
    var flat := TentativeFlat(ps, pos, inPlace, tent, devices);
    var table := AddVotes(fixed, flat);
    next := [];
    for r := 0 to |toPlace|
      invariant |next| == r && Below(next, devices)
      invariant forall i :: 0 <= i < r ==> next[i] == Pass(device, src, dst, toPlace, devices, tent)[i]
    {
      RowIsNaive(device, src, dst, toPlace, inPlace, pos, devices, tent, fixed, flat, r);
      var row := TableRow(table, r, |toPlace|, devices);
      var choice := Majority(row, tent[r]);
      next := next + [choice];
    }
  }

  /** `argmax`, unless the row is all zeros. */
  method Majority(row: seq<nat>, current: nat) returns (d: nat)
    requires row != [] && current < |row|
    ensures d == NextLabel(row, current)
  {
    if Sum(row) == 0 {
      return current;
    }
    d := ArgMax(row);
  }

  /** `to_place % D`. */
  function Seed(toPlace: seq<nat>, devices: nat): (r: seq<nat>)
    requires devices > 0
    ensures TentOk(r, toPlace, devices) && forall i :: 0 <= i < |r| ==> r[i] == toPlace[i] % devices
  {
    seq(|toPlace|, i requires 0 <= i < |toPlace| => toPlace[i] % devices)
  }

  lemma SetupParts(device: seq<int>, src: seq<nat>, dst: seq<nat>, toPlace: seq<nat>, inPlace: seq<bool>, pos: seq<int>,
                   devices: nat)
    requires Setup(device, src, dst, toPlace, inPlace, pos, devices)
    ensures Below(toPlace, |device|) && devices > 0 && Graph(src, dst, |device|)
  {
  }

  /** The propagation loop: at most six passes, fewer when the labels are stable. */
  method Settle(ps: seq<Pair>, fixed: seq<nat>, toPlace: seq<nat>, inPlace: seq<bool>, pos: seq<int>, devices: nat,
                seed: seq<nat>, ghost device: seq<int>, ghost src: seq<nat>, ghost dst: seq<nat>)
    returns (tent: seq<nat>)
    requires Setup(device, src, dst, toPlace, inPlace, pos, devices) && TentOk(seed, toPlace, devices)
    requires ps == Emitted(inPlace, src, dst) && OwnersPlaced(ps, inPlace)
    requires fixed == FixedVotes(ps, pos, inPlace, device, |toPlace|, devices)
    ensures TentOk(tent, toPlace, devices)
    ensures tent == Passes(device, src, dst, toPlace, devices, seed, 6)
  {
    hide *;
    SixPasses();
    SetupParts(device, src, dst, toPlace, inPlace, pos, devices);
    ghost var goal := Passes(device, src, dst, toPlace, devices, seed, 6);
    tent := seed;
    for i := 0 to PASSES
      invariant TentOk(tent, toPlace, devices)
      invariant Passes(device, src, dst, toPlace, devices, tent, 6 - i) == goal
    {
      var next := OnePass(ps, fixed, toPlace, inPlace, pos, devices, tent, device, src, dst);
      if next == tent {
        StablePasses(device, src, dst, toPlace, devices, tent, 6 - i);
        return;
      }
      PassesStep(device, src, dst, toPlace, devices, tent, 6 - i);
      tent := next;
    }
    NoPasses(device, src, dst, toPlace, devices, tent);
  }

  lemma SixPasses()
    ensures PASSES == 6
  {
  }

  /** Labels for the placement set: six naive passes from the seed. */
  method Propagate(device: seq<int>, src: seq<nat>, dst: seq<nat>, toPlace: seq<nat>, inPlace: seq<bool>, pos: seq<int>,
                   devices: nat)
    returns (tent: seq<nat>)
    requires Setup(device, src, dst, toPlace, inPlace, pos, devices)
    ensures TentOk(tent, toPlace, devices)
    ensures tent == Passes(device, src, dst, toPlace, devices, Seed(toPlace, devices), 6)
  {
    EmittedOwnersPlaced(inPlace, src, dst);
    hide Passes, Pass, Emitted, FixedVotes;
    var ps := Emitted(inPlace, src, dst);
    var fixed := FixedVotes(ps, pos, inPlace, device, |toPlace|, devices);
    tent := Settle(ps, fixed, toPlace, inPlace, pos, devices, Seed(toPlace, devices), device, src, dst);
  }
}
