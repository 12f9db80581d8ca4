/** The start of an incremental step, shared by both incremental partitioners: reuse the prior
    device of every surviving vertex, and choose which old vertices may move. */
module ChangedCone {
  import opened Arrays

  const UNPLACED: int := -1

  /** `bincount(assignment[assignment >= 0], minlength=D)`. */
  function Loads(device: seq<int>, devices: nat): (r: seq<nat>)
    ensures |r| == devices && forall d :: 0 <= d < devices ==> r[d] == Count(device, d)
  {
    seq(devices, d => Count(device, d))
  }

  /** `assignment[:k] = prior[:k]`, every later id still unplaced. */
  function Reused(prior: seq<int>, n: nat): (r: seq<int>)
    ensures |r| == n
    ensures forall v :: 0 <= v < n ==> r[v] == if v < |prior| then prior[v] else UNPLACED
  {
    seq(n, v requires 0 <= v < n => if v < |prior| then prior[v] else UNPLACED)
  }

  /** `int(budget * N)`: truncation toward zero. */
  function BudgetCount(budget: real, n: nat): (b: int)
    ensures budget >= 0.0 ==> b as real <= budget * n as real < b as real + 1.0
    ensures budget < 0.0 ==> b <= 0
  {
    var x := budget * n as real;
    if x >= 0.0 then x.Floor else -((-x).Floor)
  }

  /** The vertices named by this snapshot's edges `lo..`. */
  function Touched(src: seq<nat>, dst: seq<nat>, lo: nat): (r: seq<nat>)
    requires |src| == |dst|
    ensures Increasing(r)
    ensures forall v :: v in r <==> exists e :: lo <= e < |src| && (src[e] == v || dst[e] == v)
  {
    if lo < |src| then
      var ends: seq<int> := src[lo..] + dst[lo..];
      var u := Unique(ends);
      TouchedEnds(src, dst, lo, ends, u);
      u
    else []
  }

  lemma TouchedEnds(src: seq<nat>, dst: seq<nat>, lo: nat, ends: seq<int>, u: seq<int>)
    requires lo < |src| == |dst| && ends == src[lo..] + dst[lo..]
    requires forall y: int :: y in u <==> y in ends
    ensures forall i :: 0 <= i < |u| ==> u[i] >= 0
    ensures forall v :: v in u <==> exists e :: lo <= e < |src| && (src[e] == v || dst[e] == v)
  {
    forall i | 0 <= i < |u| ensures u[i] >= 0 {
      var y: int := u[i];
      assert y in u;
      var j :| 0 <= j < |ends| && ends[j] == y;
    }
    forall v ensures v in u <==> exists e :: lo <= e < |src| && (src[e] == v || dst[e] == v) {
      if v in ends {
        var i :| 0 <= i < |ends| && ends[i] == v;
        if i < |src| - lo {
          assert src[lo + i] == v;
        } else {
          assert dst[i - (|src| - lo) + lo] == v;
        }
      }
      if e :| lo <= e < |src| && (src[e] == v || dst[e] == v) {
        assert ends[e - lo] == src[e] && ends[e - lo + (|src| - lo)] == dst[e];
      }
    }
  }

  /** The movers lose their device. */
  function Freed(device: seq<int>, movers: seq<nat>): (r: seq<int>)
    ensures |r| == |device| && forall v :: 0 <= v < |r| ==> r[v] == if v in movers then UNPLACED else device[v]
  {
    seq(|device|, v requires 0 <= v < |device| => if v in movers then UNPLACED else device[v])
  }

  lemma {:induction false} FreeingLightens(device: seq<int>, movers: seq<nat>, d: int)
    requires d >= 0
    ensures Count(Freed(device, movers), d) <= Count(device, d)
  {
    if device != [] {
      var n := |device| - 1;
      FreeingLightens(device[..n], movers, d);
      assert Freed(device, movers)[..n] == Freed(device[..n], movers);
    }
  }

  // ---------------------------------------------------------------- boundary degree

  /** The ends of cut edges at `v`; an edge to an unplaced vertex is cut. */
  function CrossDegree(device: seq<int>, src: seq<nat>, dst: seq<nat>, v: nat): nat
    requires |src| == |dst| && Below(src, |device|) && Below(dst, |device|)
  {
    if src == [] then 0
    else
      var n := |src| - 1;
      CrossDegree(device, src[..n], dst[..n], v)
      + if device[src[n]] != device[dst[n]] && (src[n] == v || dst[n] == v) then 1 else 0
  }

  /** `side[device[src] != device[dst]]`. */
  function AtCut(device: seq<int>, src: seq<nat>, dst: seq<nat>, side: seq<nat>): (r: seq<nat>)
    requires |src| == |dst| == |side| && Below(src, |device|) && Below(dst, |device|)
  {
    if src == [] then []
    else
      var n := |src| - 1;
      AtCut(device, src[..n], dst[..n], side[..n]) + if device[src[n]] != device[dst[n]] then [side[n]] else []
  }

  lemma {:induction false} CrossDegreeIsCount(device: seq<int>, src: seq<nat>, dst: seq<nat>, v: nat)
    requires |src| == |dst| && Below(src, |device|) && Below(dst, |device|)
    ensures Count(AtCut(device, src, dst, src), v) + Count(AtCut(device, src, dst, dst), v)
         == CrossDegree(device, src, dst, v)
  {
    if src != [] {
      var n := |src| - 1;
      CrossDegreeIsCount(device, src[..n], dst[..n], v);
      var a, b := AtCut(device, src[..n], dst[..n], src[..n]), AtCut(device, src[..n], dst[..n], dst[..n]);
      if device[src[n]] != device[dst[n]] {
        CountSnoc(a, src[n], v);
        CountSnoc(b, dst[n], v);
      } else {
        assert a + [] == a && b + [] == b;
      }
    }
  }

  /** `bincount(concatenate([src[cross], dst[cross]]), minlength=N)`. */
  function CrossDegrees(device: seq<int>, src: seq<nat>, dst: seq<nat>): (r: seq<int>)
    requires |src| == |dst| && Below(src, |device|) && Below(dst, |device|)
    ensures |r| == |device|
    ensures forall v :: 0 <= v < |r| ==> r[v] == CrossDegree(device, src, dst, v)
  {
    var a, b := AtCut(device, src, dst, src), AtCut(device, src, dst, dst);
    var ends: seq<int> := a + b;
    assert forall v :: 0 <= v < |device| ==> Count(ends, v) == CrossDegree(device, src, dst, v) by {
      forall v | 0 <= v < |device| ensures Count(ends, v) == CrossDegree(device, src, dst, v) {
        CountConcat(a, b, v);
        CrossDegreeIsCount(device, src, dst, v);
      }
    }
    Histogram(ends, |device|)
  }

  // ---------------------------------------------------------------- choosing the movers

  /** `argpartition(keys, b - 1)[:b]`: positions of the `b` smallest keys. */
  method ArgPartition(keys: seq<int>, b: nat) returns (sel: seq<nat>)
    requires 0 < b <= |keys|
    ensures |sel| == b && Below(sel, |keys|) && Distinct(sel)
    ensures forall i, j :: 0 <= i < |keys| && i !in sel && j in sel ==> keys[j] <= keys[i]
  {
    var o := Argsort(keys);
    sel := o[..b];
    forall i, j | 0 <= i < |keys| && i !in sel && j in sel ensures keys[j] <= keys[i] {
      var y :| 0 <= y < b && o[y] == j;
      assert i in o;
      var x :| 0 <= x < |o| && o[x] == i;
      assert x >= b;
      assert Precedes(keys, o[y], o[x]);
    }
    forall i, j | 0 <= i < j < |sel| ensures sel[i] != sel[j] {
      assert Precedes(keys, o[i], o[j]);
    }
  }

  /** The old vertices of `touched`, in order. */
  function OldOf(device: seq<int>, touched: seq<nat>): (r: seq<nat>)
    requires Below(touched, |device|) && Increasing(touched)
    ensures Increasing(r) && Below(r, |device|)
    ensures forall v :: v in r <==> v in touched && device[v] >= 0
  {
    if touched == [] then []
    else
      var n := |touched| - 1;
      assert touched == touched[..n] + [touched[n]];
      var rest := OldOf(device, touched[..n]);
      assert forall i :: 0 <= i < |rest| ==> rest[i] in rest;
      if device[touched[n]] >= 0 then rest + [touched[n]] else rest
  }

  /** The old vertices that give up their place: all touched ones, or, over budget, a largest-
      boundary-degree selection of exactly the budget. */
  method SelectMovers(device: seq<int>, src: seq<nat>, dst: seq<nat>, lo: nat, budget: int) returns (movers: seq<nat>)
    requires Graph(src, dst, |device|)
    ensures Distinct(movers) && Below(movers, |device|) && |movers| <= if budget > 0 then budget else 0
    ensures forall v :: v in movers ==> v < |device| && device[v] >= 0 && v in Touched(src, dst, lo)
    ensures |movers| < budget ==> forall v :: v in Touched(src, dst, lo) && device[v] >= 0 ==> v in movers
    ensures forall u, v ::
              v in movers && u in Touched(src, dst, lo) && u < |device| && device[u] >= 0 && u !in movers ==>
              CrossDegree(device, src, dst, u) <= CrossDegree(device, src, dst, v)
  {
    hide CrossDegree, CrossDegrees, OldOf;
    var touched := Touched(src, dst, lo);
    TouchedBelow(src, dst, lo, |device|);
    var old_touched := OldOf(device, touched);
    if budget <= 0 {
      movers := [];
    } else if |old_touched| > budget {
      var degree := CrossDegrees(device, src, dst);
      var keys := seq(|old_touched|, i requires 0 <= i < |old_touched| => -degree[old_touched[i]]);
      var sel := ArgPartition(keys, budget);
      movers := Select<nat>(old_touched, sel);
      forall u, v | v in movers && u in old_touched && u !in movers
        ensures CrossDegree(device, src, dst, u) <= CrossDegree(device, src, dst, v)
      {
        var y, x := NotSelected(old_touched, sel, movers, u, v);
        assert sel[y] in sel && keys[sel[y]] <= keys[x];
      }
      assert forall v :: v in movers ==> v in old_touched;
    } else {
      movers := old_touched;
    }
  }

  /** Where a chosen and an unchosen entry sit before the selection. */
  lemma NotSelected(items: seq<nat>, sel: seq<nat>, chosen: seq<nat>, u: nat, v: nat) returns (y: nat, x: nat)
    requires Below(sel, |items|) && chosen == Select<nat>(items, sel) && v in chosen && u in items && u !in chosen
    ensures y < |sel| && items[sel[y]] == v && x < |items| && items[x] == u && x !in sel
  {
    y :| 0 <= y < |chosen| && chosen[y] == v;
    x :| 0 <= x < |items| && items[x] == u;
    forall z | 0 <= z < |sel| ensures sel[z] != x {
      assert chosen[z] in chosen;
    }
  }

  lemma TouchedBelow(src: seq<nat>, dst: seq<nat>, lo: nat, n: nat)
    requires |src| == |dst| && Below(src, n) && Below(dst, n)
    ensures Below(Touched(src, dst, lo), n)
  {
    forall i | 0 <= i < |Touched(src, dst, lo)| ensures Touched(src, dst, lo)[i] < n {
      assert Touched(src, dst, lo)[i] in Touched(src, dst, lo);
    }
  }

  // ---------------------------------------------------------------- the placement set

  /** `in_place[order] = True`. */
  function Members(order: seq<nat>, n: nat): (r: seq<bool>)
    ensures |r| == n && forall v :: 0 <= v < n ==> (r[v] <==> v in order)
  {
    seq(n, v => v in order)
  }

  lemma InOrder(prior: seq<int>, n: nat, movers: seq<nat>, v: nat)
    requires v < n && forall i :: 0 <= i < |prior| ==> prior[i] >= 0
    ensures v in Indices(Reused(prior, n), UNPLACED) + movers <==> v >= |prior| || v in movers
  {
    var newcomers := Indices(Reused(prior, n), UNPLACED);
    assert v in newcomers <==> v >= |prior|;
  }

  lemma OrderDistinct(start: seq<int>, movers: seq<nat>)
    requires Distinct(movers) && Below(movers, |start|) && forall v :: v in movers ==> start[v] >= 0
    ensures Distinct(Indices(start, UNPLACED) + movers) && Below(Indices(start, UNPLACED) + movers, |start|)
    ensures forall i :: 0 <= i < |Indices(start, UNPLACED) + movers| ==>
              Freed(start, movers)[(Indices(start, UNPLACED) + movers)[i]] == UNPLACED
  {
    var newcomers := Indices(start, UNPLACED);
    var order := newcomers + movers;
    forall i, j | 0 <= i < j < |order| ensures order[i] != order[j] {
      if i < |newcomers| <= j {
        assert order[j] in movers && start[order[i]] == UNPLACED;
      }
    }
    forall i | 0 <= i < |order| ensures Freed(start, movers)[order[i]] == UNPLACED {
      if i >= |newcomers| {
        assert order[i] in movers;
      }
    }
  }

  /** `assignment[take] = to`. */
  function Reassigned(device: seq<int>, take: seq<nat>, to: int): (r: seq<int>)
    ensures |r| == |device| && forall v :: 0 <= v < |r| ==> r[v] == if v in take then to else device[v]
  {
    seq(|device|, v requires 0 <= v < |device| => if v in take then to else device[v])
  }
}
