/** Choosing which feature rows leave a device whose memory is too small: largest first, ties by
    lower degree. */
module Eviction {
  import opened Arrays

  ghost predicate ByteSizes(xs: seq<int>) {
    forall i :: 0 <= i < |xs| ==> xs[i] >= 0
  }

  ghost predicate AllRows(order: seq<nat>, n: nat) {
    forall x: nat :: x < n ==> x in order
  }

  // ---------------------------------------------------------------- bytes of a row set

  /** The bytes of the rows in `rows`, zero elsewhere. */
  function Keep(bytes: seq<int>, rows: set<nat>): (r: seq<int>)
    ensures |r| == |bytes| && forall i :: 0 <= i < |r| ==> r[i] == if i in rows then bytes[i] else 0
  {
    seq(|bytes|, i requires 0 <= i < |bytes| => if i in rows then bytes[i] else 0)
  }

  /** What evicting the rows of a set frees. */
  function FreedBytes(bytes: seq<int>, rows: set<nat>): int {
    Sum(Keep(bytes, rows))
  }

  ghost function Listed(order: seq<nat>): set<nat> {
    set i | 0 <= i < |order| :: order[i]
  }

  /** A listing of a row set frees what the set frees. */
  lemma {:induction false} ListedBytes(bytes: seq<int>, order: seq<nat>)
    requires Below(order, |bytes|) && Distinct(order)
    ensures Sum(Select<int>(bytes, order)) == FreedBytes(bytes, Listed(order))
  {
    if order == [] {
      SumConst(Keep(bytes, Listed(order)), 0);
    } else {
      var n := |order| - 1;
      var front, c := order[..n], order[n];
      ListedBytes(bytes, front);
      ListedSnoc(order);
      var k := Keep(bytes, Listed(front));
      assert c !in Listed(front);
      SumUpdate(k, c, bytes[c]);
      assert Keep(bytes, Listed(order)) == k[c := bytes[c]];
      assert Select<int>(bytes, order)[..n] == Select<int>(bytes, front);
    }
  }

  lemma ListedSnoc(order: seq<nat>)
    requires order != []
    ensures Listed(order) == Listed(order[..|order| - 1]) + {order[|order| - 1]}
  {
    var front := order[..|order| - 1];
    forall x ensures x in Listed(order) <==> x in Listed(front) + {order[|order| - 1]} {
      if x in Listed(order) {
        var i :| 0 <= i < |order| && order[i] == x;
        assert i < |front| ==> front[i] == x;
      }
      if x in Listed(front) {
        var i :| 0 <= i < |front| && front[i] == x;
        assert order[i] == x;
      }
    }
  }

  // ---------------------------------------------------------------- no set beats a prefix

  /** The rows of `rows`, in the order of `order`. */
  function InOrder(order: seq<nat>, rows: set<nat>): (r: seq<nat>)
    ensures |r| <= |order| && (forall i :: 0 <= i < |r| ==> r[i] in order && r[i] in rows)
    ensures forall x :: x in order && x in rows ==> x in r
    ensures Distinct(order) ==> Distinct(r)
  {
    if order == [] then []
    else
      var n := |order| - 1;
      assert order == order[..n] + [order[n]];
      var front := InOrder(order[..n], rows);
      if order[n] in rows then front + [order[n]] else front
  }

  ghost predicate LargestFirst(bytes: seq<int>, order: seq<nat>) {
    Below(order, |bytes|) && forall i, j :: 0 <= i < j < |order| ==> bytes[order[i]] >= bytes[order[j]]
  }

  /** Any selection is at most the equally long prefix of the largest-first order. */
  lemma {:induction false} PrefixIsBest(bytes: seq<int>, order: seq<nat>, rows: set<nat>)
    requires LargestFirst(bytes, order) && ByteSizes(bytes)
    ensures var q := InOrder(order, rows);
            Below(q, |bytes|) && Sum(Select<int>(bytes, q)) <= Sum(Select<int>(bytes, order[..|q|]))
  {
    InOrderSnoc(order, rows);
    if order == [] {
    } else {
      hide *;
      var n := |order| - 1;
      FrontOrder(bytes, order);
      PrefixIsBest(bytes, order[..n], rows);
      var q := InOrder(order[..n], rows);
      PrefixStep(bytes, order, q, InOrder(order, rows));
    }
  }

  lemma FrontOrder(bytes: seq<int>, order: seq<nat>)
    requires LargestFirst(bytes, order) && order != []
    ensures LargestFirst(bytes, order[..|order| - 1])
  {
  }

  /** Taking the last row of the order is no better than taking the next row of the prefix. */
  lemma PrefixStep(bytes: seq<int>, order: seq<nat>, q: seq<nat>, q': seq<nat>)
    requires LargestFirst(bytes, order) && order != [] && |q| <= |order| - 1 && Below(q, |bytes|)
    requires q' == q || q' == q + [order[|order| - 1]]
    requires Sum(Select<int>(bytes, q)) <= Sum(Select<int>(bytes, order[..|order| - 1][..|q|]))
    ensures Below(q', |bytes|) && Sum(Select<int>(bytes, q')) <= Sum(Select<int>(bytes, order[..|q'|]))
  {
    hide Sum;
    var k := |q|;
    assert order[..|order| - 1][..k] == order[..k];
    if q' != q {
      SelectSnoc(bytes, q, order[|order| - 1]);
      SelectSnoc(bytes, order[..k], order[k]);
      assert order[..k + 1] == order[..k] + [order[k]];
    }
  }

  lemma InOrderSnoc(order: seq<nat>, rows: set<nat>)
    ensures order == [] ==> InOrder(order, rows) == []
    ensures order != [] ==>
      var n := |order| - 1;
      InOrder(order, rows)
      == if order[n] in rows then InOrder(order[..n], rows) + [order[n]] else InOrder(order[..n], rows)
  {
  }

  lemma SelectSnoc(bytes: seq<int>, order: seq<nat>, c: nat)
    requires Below(order, |bytes|) && c < |bytes|
    ensures Below(order + [c], |bytes|)
    ensures Sum(Select<int>(bytes, order + [c])) == Sum(Select<int>(bytes, order)) + bytes[c]
  {
    assert Select<int>(bytes, order + [c]) == Select<int>(bytes, order) + [bytes[c]];
    SumSnoc(Select<int>(bytes, order), bytes[c]);
  }

  // ---------------------------------------------------------------- the eviction

  /** Coldest first, then stably largest first. */
  function ByBytes(bytes: seq<int>, degree: seq<int>): (order: seq<nat>)
    requires |bytes| == |degree|
    ensures |order| == |bytes| && Below(order, |bytes|)
  {
    var cold := Argsort(degree);
    Select<nat>(cold, Argsort(Negated(Select<int>(bytes, cold))))
  }

  lemma ByBytesOrder(bytes: seq<int>, degree: seq<int>)
    requires |bytes| == |degree|
    ensures LargestFirst(bytes, ByBytes(bytes, degree)) && Distinct(ByBytes(bytes, degree))
    ensures AllRows(ByBytes(bytes, degree), |bytes|)
    ensures forall i, j ::
              0 <= i < j < |bytes| && bytes[ByBytes(bytes, degree)[i]] == bytes[ByBytes(bytes, degree)[j]] ==>
              degree[ByBytes(bytes, degree)[i]] <= degree[ByBytes(bytes, degree)[j]]
  {
    var cold := Argsort(degree);
    var keys := Negated(Select<int>(bytes, cold));
    var o := Argsort(keys);
    var order := ByBytes(bytes, degree);
    forall i, j | 0 <= i < j < |order|
      ensures bytes[order[i]] >= bytes[order[j]] && order[i] != order[j]
      ensures bytes[order[i]] == bytes[order[j]] ==> degree[order[i]] <= degree[order[j]]
    {
      assert Precedes(keys, o[i], o[j]);
      if o[i] < o[j] {
        assert Precedes(degree, cold[o[i]], cold[o[j]]);
      } else {
        assert Precedes(degree, cold[o[j]], cold[o[i]]);
      }
    }
    SurjectiveByCount(order);
  }

  /** `cumsum`. */
  function RunningSums(xs: seq<int>): (r: seq<int>)
    ensures |r| == |xs| && forall i :: 0 <= i < |r| ==> r[i] == Sum(xs[..i + 1])
  {
    seq(|xs|, i requires 0 <= i < |xs| => Sum(xs[..i + 1]))
  }

  lemma {:induction false} RunningAscend(xs: seq<int>, i: nat, j: nat)
    requires ByteSizes(xs) && i <= j <= |xs|
    ensures Sum(xs[..i]) <= Sum(xs[..j])
    decreases j - i
  {
    if i < j {
      RunningAscend(xs, i, j - 1);
      assert xs[..j][..j - 1] == xs[..j - 1];
    }
  }

  lemma RunningSorted(xs: seq<int>)
    requires ByteSizes(xs)
    ensures Ascending(RunningSums(xs))
  {
    forall i, j | 0 <= i <= j < |xs| ensures RunningSums(xs)[i] <= RunningSums(xs)[j] {
      RunningAscend(xs, i + 1, j + 1);
    }
  }

  lemma SelectNonNegative(bytes: seq<int>, order: seq<nat>)
    requires ByteSizes(bytes) && Below(order, |bytes|)
    ensures ByteSizes(Select<int>(bytes, order))
  {
  }

  function Positive(x: int): int {
    if x > 0 then x else 0
  }

  /** The rows to stream from the host so that the rest fits the budget. */
  method EvictLargest(bytes: seq<int>, degree: seq<int>, budget: int) returns (gone: seq<nat>)
    requires |bytes| == |degree| && ByteSizes(bytes)
    ensures |gone| <= |bytes| && Below(gone, |bytes|) && Distinct(gone)
    ensures Sum(bytes) <= budget ==> gone == []
    ensures Sum(bytes) - FreedBytes(bytes, Listed(gone)) <= Positive(budget)
    ensures forall rows :: Minimal(bytes, degree, budget, gone, rows)
    ensures Sum(bytes) > budget && Sum(bytes) == 0 && bytes != [] ==> |gone| == 1
    ensures gone == ByBytes(bytes, degree)[..|gone|]
  {
    hide FreedBytes, ByBytes, Listed, Sum, RunningSums, ByteSizes, Ascending, SearchLeft;
    var total := Sum(bytes);
    if total <= budget {
      gone := [];
      NothingFreed(bytes);
      return;
    }
    var need := total - Positive(budget);
    var order := ByBytes(bytes, degree);
    ByBytesOrder(bytes, degree);
    var freed := Select<int>(bytes, order);
    SelectNonNegative(bytes, order);
    RunningSorted(freed);
    var count := Smaller(SearchLeft(RunningSums(freed), need) + 1, |order|);
    gone := order[..count];
    EvictionMinimal(bytes, degree, budget, order, count);
  }

  /** A row set that brings the resident bytes within the budget has at least as many rows,
      unless every row is empty. */
  ghost predicate Minimal(bytes: seq<int>, degree: seq<int>, budget: int, gone: seq<nat>, rows: set<nat>) {
    (&& (forall x :: x in rows ==> x < |bytes|)
     && Sum(bytes) - FreedBytes(bytes, rows) <= Positive(budget)
     && (Sum(bytes) > 0 || Sum(bytes) <= budget))
    ==> |rows| >= |gone|
  }

  lemma NothingFreed(bytes: seq<int>)
    ensures FreedBytes(bytes, Listed([])) == 0
  {
    SumConst(Keep(bytes, Listed([])), 0);
  }

  lemma {:induction false} SumNonNegative(xs: seq<int>)
    requires ByteSizes(xs)
    ensures Sum(xs) >= 0
  {
    if xs != [] {
      SumNonNegative(xs[..|xs| - 1]);
    }
  }

  /** The whole order frees everything. */
  lemma AllFreed(bytes: seq<int>, order: seq<nat>)
    requires Below(order, |bytes|) && Distinct(order) && |order| == |bytes|
    ensures Sum(Select<int>(bytes, order)) == Sum(bytes)
  {
    hide Sum;
    ListedBytes(bytes, order);
    ListedAll(order);
    assert Keep(bytes, Listed(order)) == bytes;
  }

  lemma ListedAll(order: seq<nat>)
    requires Below(order, |order|) && Distinct(order)
    ensures forall i: nat :: i < |order| ==> i in Listed(order)
  {
    SurjectiveByCount(order);
    forall i: nat | i < |order| ensures i in Listed(order) {
      assert i in order;
      var k :| 0 <= k < |order| && order[k] == i;
    }
  }

  /** One row fewer than the search takes never frees enough; what it takes does. */
  lemma SearchStops(freed: seq<int>, need: int, count: nat)
    requires ByteSizes(freed) && Ascending(RunningSums(freed))
    requires need <= Sum(freed) && count == Smaller(SearchLeft(RunningSums(freed), need) + 1, |freed|)
    ensures count <= |freed| && Sum(freed[..count]) >= need
    ensures forall m: nat :: m < count && (m > 0 || need > 0) ==> Sum(freed[..m]) < need
    ensures need <= 0 && freed != [] ==> count == 1
  {
    var sums := RunningSums(freed);
    var j := SearchLeft(sums, need);
    if freed != [] {
      assert freed[..|freed|] == freed;
      assert sums[|freed| - 1] == Sum(freed);
      assert sums[j] >= need;
      forall m: nat | m < count && (m > 0 || need > 0) ensures Sum(freed[..m]) < need {
        if m > 0 {
          assert sums[m - 1] < need;
        }
      }
      RunningAscend(freed, 0, 1);
      assert freed[..0] == [] && sums[0] == Sum(freed[..1]);
    }
  }

  lemma SelectPrefix(bytes: seq<int>, order: seq<nat>, m: nat)
    requires Below(order, |bytes|) && m <= |order|
    ensures Select<int>(bytes, order[..m]) == Select<int>(bytes, order)[..m]
  {
  }

  /** The filtered order lists exactly the set. */
  lemma InOrderLists(order: seq<nat>, rows: set<nat>)
    requires Distinct(order) && forall x :: x in rows ==> x in order
    ensures Listed(InOrder(order, rows)) == rows && |InOrder(order, rows)| == |rows|
  {
    var q := InOrder(order, rows);
    forall x | x in rows ensures x in Listed(q) {
      assert x in q;
      var k :| 0 <= k < |q| && q[k] == x;
    }
    forall x | x in Listed(q) ensures x in rows {
      var k :| 0 <= k < |q| && q[k] == x;
    }
    DistinctCardinality(q);
    assert Listed(q) == rows;
  }

  lemma NoSmallerSet(bytes: seq<int>, order: seq<nat>, count: nat, need: int, rows: set<nat>)
    requires ByteSizes(bytes) && LargestFirst(bytes, order) && Distinct(order) && count <= |order|
    requires AllRows(order, |bytes|)
    requires forall m: nat :: m < count && (m > 0 || need > 0) ==> Sum(Select<int>(bytes, order)[..m]) < need
    requires NeedsProof(bytes, rows, need)
    ensures |rows| >= count
  {
    var q := InOrder(order, rows);
    InOrderLists(order, rows);
    PrefixIsBest(bytes, order, rows);
    ListedBytes(bytes, q);
    SelectPrefix(bytes, order, |q|);
  }

  lemma EvictionMinimal(bytes: seq<int>, degree: seq<int>, budget: int, order: seq<nat>, count: nat)
    requires |bytes| == |degree| && ByteSizes(bytes) && Sum(bytes) > budget && order == ByBytes(bytes, degree)
    requires Ascending(RunningSums(Select<int>(bytes, order)))
    requires count ==
             Smaller(SearchLeft(RunningSums(Select<int>(bytes, order)), Sum(bytes) - Positive(budget)) + 1, |order|)
    ensures Below(order[..count], |bytes|) && Distinct(order[..count])
    ensures Sum(bytes) - FreedBytes(bytes, Listed(order[..count])) <= Positive(budget)
    ensures forall rows :: Minimal(bytes, degree, budget, order[..count], rows)
    ensures Sum(bytes) == 0 && bytes != [] ==> count == 1
  {
    hide *;
    ByBytesOrder(bytes, degree);
    SelectNonNegative(bytes, order);
    SumNonNegative(bytes);
    BelowAt(order, |bytes|);
    var need := Sum(bytes) - Positive(budget);
    var freed := Select<int>(bytes, order);
    AllFreed(bytes, order);
    BudgetSplit(Sum(bytes), budget);
    SearchStops(freed, need, count);
    var gone := order[..count];
    PrefixOk(order, count, |bytes|);
    ListedBytes(bytes, gone);
    SelectPrefix(bytes, order, count);
    forall rows ensures Minimal(bytes, degree, budget, gone, rows) {
      MinimalWhen(bytes, degree, budget, gone, rows);
      if NeedsProof(bytes, rows, need) {
        NoSmallerSet(bytes, order, count, need, rows);
      }
    }
  }

  ghost predicate NeedsProof(bytes: seq<int>, rows: set<nat>, need: int) {
    (forall x :: x in rows ==> x < |bytes|) && FreedBytes(bytes, rows) >= need > 0
  }

  lemma MinimalWhen(bytes: seq<int>, degree: seq<int>, budget: int, gone: seq<nat>, rows: set<nat>)
    requires Sum(bytes) > budget && Sum(bytes) >= 0
    ensures (NeedsProof(bytes, rows, Sum(bytes) - Positive(budget)) ==> |rows| >= |gone|)
         ==> Minimal(bytes, degree, budget, gone, rows)
  {
  }

  lemma BudgetSplit(total: int, budget: int)
    requires total > budget && total >= 0
    ensures 0 <= total - Positive(budget) <= total && (total - Positive(budget) == 0 <==> total == 0)
  {
  }

  lemma PrefixOk(order: seq<nat>, m: nat, n: nat)
    requires m <= |order| && Below(order, n) && Distinct(order)
    ensures Below(order[..m], n) && Distinct(order[..m])
  {
  }
}
