/** Longest-processing-time packing of clusters onto devices, and its 4/3 - 1/(3D) guarantee. */
module LptPacking {
  import opened Arrays
  import opened WeightedLoads

  // ---------------------------------------------------------------- the greedy rule

  ghost predicate LeastLoaded(w: seq<real>, bins: seq<int>, d: nat, b: int)
    requires |w| == |bins|
  {
    0 <= b < d && forall k :: 0 <= k < d ==> Load(w, bins, b) <= Load(w, bins, k)
  }

  /** Every item went to a bin that was least loaded at that moment. */
  ghost predicate Greedy(w: seq<real>, bins: seq<int>, d: nat) {
    |w| == |bins| && forall i :: 0 <= i < |w| ==> LeastLoaded(w[..i], bins[..i], d, bins[i])
  }

  ghost predicate Descending(w: seq<real>) {
    forall i, j :: 0 <= i < j < |w| ==> w[i] >= w[j]
  }

  /** An assignment to `d` bins whose heaviest bin weighs at most `cap`. */
  ghost predicate Packs(w: seq<real>, bins: seq<int>, d: nat, cap: real) {
    && |w| == |bins| && (forall i :: 0 <= i < |bins| ==> 0 <= bins[i] < d)
    && forall k :: 0 <= k < d ==> Load(w, bins, k) <= cap
  }

  lemma PacksPrefix(w: seq<real>, bins: seq<int>, d: nat, cap: real, n: nat)
    requires Packs(w, bins, d, cap) && NonNegative(w) && n <= |w|
    ensures Packs(w[..n], bins[..n], d, cap)
  {
    forall k | 0 <= k < d ensures Load(w[..n], bins[..n], k) <= cap {
      LoadPrefix(w, bins, n, k);
    }
  }

  /** `n` copies of `x` added up. */
  function Copies(n: nat, x: real): real {
    if n == 0 then 0.0 else Copies(n - 1, x) + x
  }

  lemma {:induction false} CopiesAdd(n: nat, x: real, y: real)
    ensures Copies(n, x + y) == Copies(n, x) + Copies(n, y)
  {
    if n > 0 {
      CopiesAdd(n - 1, x, y);
    }
  }

  lemma {:induction false} CopiesMonotone(n: nat, x: real, y: real)
    requires x <= y
    ensures Copies(n, x) <= Copies(n, y)
  {
    if n > 0 {
      CopiesMonotone(n - 1, x, y);
    }
  }

  lemma {:induction false} CopiesProduct(n: nat, x: real)
    ensures Copies(n, x) == n as real * x
  {
    if n > 0 {
      CopiesProduct(n - 1, x);
      var m := (n - 1) as real;
      assert (m + 1.0) * x == m * x + x;
    }
  }

  /** List scheduling: a least-loaded bin holds at most the average of what is left of any packing. */
  lemma ListStep(w: seq<real>, bins: seq<int>, alt: seq<int>, d: nat, x: real, b: int, cap: real)
    requires d > 0 && |w| == |bins| && (forall i :: 0 <= i < |bins| ==> 0 <= bins[i] < d)
    requires LeastLoaded(w, bins, d, b) && Packs(w + [x], alt, d, cap)
    ensures Copies(d, Load(w, bins, b)) + x <= Copies(d, cap)
  {
    LoadSumIsTotal(w, bins, d);
    LoadSumIsTotal(w + [x], alt, d);
    assert (w + [x])[..|w|] == w;
    LoadSumLower(w, bins, d, Load(w, bins, b));
    LoadSumUpper(w + [x], alt, d, cap);
  }

  lemma {:induction false} LoadSumLower(w: seq<real>, bins: seq<int>, d: nat, lo: real)
    requires |w| == |bins| && forall k :: 0 <= k < d ==> lo <= Load(w, bins, k)
    ensures Copies(d, lo) <= LoadSum(w, bins, d)
  {
    if d > 0 {
      LoadSumLower(w, bins, d - 1, lo);
    }
  }

  lemma {:induction false} LoadSumUpper(w: seq<real>, bins: seq<int>, d: nat, hi: real)
    requires |w| == |bins| && forall k :: 0 <= k < d ==> Load(w, bins, k) <= hi
    ensures LoadSum(w, bins, d) <= Copies(d, hi)
  {
    if d > 0 {
      LoadSumUpper(w, bins, d - 1, hi);
    }
  }

  // ---------------------------------------------------------------- large items

  ghost predicate AllLarge(w: seq<real>, cap: real) {
    forall i :: 0 <= i < |w| ==> 3.0 * w[i] > cap
  }

  /** Within `cap` a bin holds at most two large items. */
  lemma AtMostTwo(w: seq<real>, bins: seq<int>, k: int, cap: real)
    requires |w| == |bins| && NonNegative(w) && AllLarge(w, cap)
    requires Load(w, bins, k) <= cap
    ensures Count(bins, k) <= 2
  {
    if Count(bins, k) > 2 {
      var g := Indices(bins, k);
      LoadThree(w, bins, k, g[0], g[1], g[2]);
    }
  }

  /** Bins holding one or two items each: their number fixes the number of items. */
  lemma {:induction false} OnesAndTwos(h: seq<int>)
    requires forall k :: 0 <= k < |h| ==> 0 <= h[k] <= 2
    ensures Sum(h) <= 2 * |h| - Count(h, 1)
    ensures (forall k :: 0 <= k < |h| ==> h[k] >= 1) ==> Sum(h) == 2 * |h| - Count(h, 1)
  {
    if h != [] {
      var n := |h| - 1;
      OnesAndTwos(h[..n]);
      CountSnoc(h[..n], h[n], 1);
      assert h == h[..n] + [h[n]];
    }
  }

  /** Every bin of a tight packing of large items holds one or two of them. */
  lemma OneOrTwo(w: seq<real>, bins: seq<int>, alt: seq<int>, d: nat, x: real, b: int, cap: real, k: nat)
    requires NonNegative(w + [x]) && AllLarge(w + [x], cap) && k < d
    requires Packs(w, bins, d, cap) && Packs(w + [x], alt, d, cap) && LeastLoaded(w, bins, d, b)
    requires Load(w, bins, b) + x > cap
    ensures 1 <= Count(bins, k) <= 2 && Count(alt, k) <= 2
  {
    var all := w + [x];
    assert all[|w|] == x && forall i :: 0 <= i < |w| ==> all[i] == w[i];
    LoadOne(all, alt, alt[|w|], |w|);
    AtMostTwo(w, bins, k, cap);
    AtMostTwo(all, alt, k, cap);
    if Count(bins, k) == 0 {
      LoadEmpty(w, bins, k);
    }
  }

  /** When every item is large, the item `x` still fits below `cap` on the least-loaded bin:
      otherwise the items alone in their bin could share with nobody, in any packing. */
  lemma LargeItemFits(w: seq<real>, bins: seq<int>, alt: seq<int>, d: nat, x: real, b: int, cap: real)
    requires NonNegative(w + [x]) && Descending(w + [x]) && AllLarge(w + [x], cap)
    requires Packs(w, bins, d, cap) && Packs(w + [x], alt, d, cap) && LeastLoaded(w, bins, d, b)
    ensures Load(w, bins, b) + x <= cap
  {
    if Load(w, bins, b) + x > cap {
      var hb, ha := Histogram(bins, d), Histogram(alt, d);
      HistogramTotal(bins, d);
      HistogramTotal(alt, d);
      forall k | 0 <= k < d ensures 1 <= hb[k] <= 2 && 0 <= ha[k] <= 2 {
        OneOrTwo(w, bins, alt, d, x, b, cap, k);
      }
      OnesAndTwos(hb);
      OnesAndTwos(ha);
      LonersStayAlone(w, bins, alt, d, x, b, cap);
      assert false;
    }
  }

  /** Items alone in their bin are alone in every packing, so no packing has fewer such bins. */
  lemma LonersStayAlone(w: seq<real>, bins: seq<int>, alt: seq<int>, d: nat, x: real, b: int, cap: real)
    requires NonNegative(w + [x]) && Descending(w + [x])
    requires Packs(w, bins, d, cap) && Packs(w + [x], alt, d, cap) && LeastLoaded(w, bins, d, b)
    requires Load(w, bins, b) + x > cap
    ensures Count(Histogram(bins, d), 1) <= Count(Histogram(alt, d), 1)
  {
    var ones := Indices(Histogram(bins, d), 1);
    var items: seq<nat> := seq(|ones|, t requires 0 <= t < |ones| => LonerOf(bins, d, ones[t]));
    forall t | 0 <= t < |items| ensures items[t] < |w| && bins[items[t]] == ones[t] && w[items[t]] + x > cap {
      LoadSingle(w, bins, ones[t]);
    }
    var homes: seq<nat> := seq(|items|, t requires 0 <= t < |items| => alt[items[t]]);
    forall t | 0 <= t < |homes| ensures homes[t] in Indices(Histogram(alt, d), 1) {
      AloneInAlt(w, alt, d, x, cap, items[t]);
    }
    forall s, t | 0 <= s < t < |homes| ensures homes[s] != homes[t] {
      if homes[s] == homes[t] {
        CannotShare(w, alt, d, x, cap, items[s], items[t]);
      }
    }
    InjectionCount(homes, Indices(Histogram(alt, d), 1));
  }

  function LonerOf(bins: seq<int>, d: nat, k: nat): (i: nat)
    requires k < d && Count(bins, k) == 1
    ensures i < |bins| && bins[i] == k && i == Indices(bins, k)[0]
  {
    Indices(bins, k)[0]
  }

  lemma CannotShare(w: seq<real>, alt: seq<int>, d: nat, x: real, cap: real, i: nat, j: nat)
    requires NonNegative(w + [x]) && Descending(w + [x]) && Packs(w + [x], alt, d, cap)
    requires i < |w| && j <= |w| && i != j && w[i] + x > cap
    ensures alt[i] != alt[j]
  {
    var all := w + [x];
    assert all[j] >= all[|w|] == x && all[i] == w[i];
    if alt[i] == alt[j] {
      if i < j {
        LoadTwo(all, alt, alt[i], i, j);
      } else {
        LoadTwo(all, alt, alt[i], j, i);
      }
    }
  }

  lemma AloneInAlt(w: seq<real>, alt: seq<int>, d: nat, x: real, cap: real, i: nat)
    requires NonNegative(w + [x]) && Descending(w + [x]) && Packs(w + [x], alt, d, cap)
    requires i < |w| && w[i] + x > cap
    ensures alt[i] in Indices(Histogram(alt, d), 1)
  {
    var g := Indices(alt, alt[i]);
    assert i in g;
    if |g| > 1 {
      var j := if g[0] == i then g[1] else g[0];
      CannotShare(w, alt, d, x, cap, i, j);
    }
    assert Histogram(alt, d)[alt[i]] == 1;
  }

  // ---------------------------------------------------------------- the guarantee

  /** Graham's bound for any processing order: every bin stays within (2 - 1/d) times the
      heaviest bin of any packing. */
  lemma ListSchedulingBound(w: seq<real>, bins: seq<int>, alt: seq<int>, d: nat, cap: real, k: nat)
    requires d > 0 && NonNegative(w) && Greedy(w, bins, d) && Packs(w, alt, d, cap) && k < d
    ensures d as real * Load(w, bins, k) <= (2.0 * d as real - 1.0) * cap
  {
    ListSchedulingCopies(w, bins, alt, d, cap, k);
    CopiesProduct(d, Load(w, bins, k));
    CopiesProduct(d, cap);
  }

  lemma {:induction false} ListSchedulingCopies(w: seq<real>, bins: seq<int>, alt: seq<int>, d: nat, cap: real, k: nat)
    requires d > 0 && NonNegative(w) && Greedy(w, bins, d) && Packs(w, alt, d, cap) && k < d
    ensures Copies(d, Load(w, bins, k)) <= 2.0 * Copies(d, cap) - cap
  {
    LoadNonNegative(w, alt, k);
    if w == [] {
      Slack(d, 0.0, cap);
    } else {
      var n := |w| - 1;
      var x := w[n];
      PacksPrefix(w, alt, d, cap, n);
      GreedyPrefix(w, bins, d, n);
      ListSchedulingCopies(w[..n], bins[..n], alt[..n], d, cap, k);
      if bins[n] == k {
        LoadOne(w, alt, alt[n], n);
        assert w == w[..n] + [x];
        ListStep(w[..n], bins[..n], alt, d, x, k, cap);
        CopiesAdd(d, Load(w[..n], bins[..n], k), x);
        CopiesMonotone(d - 1, x, cap);
      }
    }
  }

  lemma GreedyPrefix(w: seq<real>, bins: seq<int>, d: nat, n: nat)
    requires Greedy(w, bins, d) && n <= |w|
    ensures Greedy(w[..n], bins[..n], d)
    ensures forall i :: 0 <= i < n ==> 0 <= bins[i] < d
  {
    forall i | 0 <= i < n ensures LeastLoaded(w[..n][..i], bins[..n][..i], d, bins[..n][i]) {
      assert w[..n][..i] == w[..i] && bins[..n][..i] == bins[..i];
      assert LeastLoaded(w[..i], bins[..i], d, bins[i]);
    }
    forall i | 0 <= i < n ensures 0 <= bins[i] < d {
      assert LeastLoaded(w[..i], bins[..i], d, bins[i]);
    }
  }

  /** With heaviest-first order, large items alone never exceed the cap of any packing. */
  lemma {:induction false} LargeItemsFit(w: seq<real>, bins: seq<int>, alt: seq<int>, d: nat, cap: real)
    requires NonNegative(w) && Descending(w) && AllLarge(w, cap) && cap >= 0.0
    requires Greedy(w, bins, d) && Packs(w, alt, d, cap)
    ensures Packs(w, bins, d, cap)
  {
    GreedyPrefix(w, bins, d, |w|);
    if w != [] {
      var n := |w| - 1;
      PacksPrefix(w, alt, d, cap, n);
      GreedyPrefix(w, bins, d, n);
      LargeItemsFit(w[..n], bins[..n], alt[..n], d, cap);
      assert w == w[..n] + [w[n]];
      LargeItemFits(w[..n], bins[..n], alt, d, w[n], bins[n], cap);
    }
  }

  /** `load <= (4/3 - 1/(3d)) * cap`, cleared of denominators. */
  ghost predicate WithinLpt(load: real, d: nat, cap: real) {
    3.0 * (d as real * load) <= (4.0 * d as real - 1.0) * cap
  }

  /** LPT: every bin stays within (4/3 - 1/(3d)) times the heaviest bin of any packing. */
  lemma LptBound(w: seq<real>, bins: seq<int>, alt: seq<int>, d: nat, cap: real, k: nat)
    requires d > 0 && NonNegative(w) && Descending(w) && Greedy(w, bins, d) && Packs(w, alt, d, cap) && k < d
    ensures WithinLpt(Load(w, bins, k), d, cap)
  {
    LptCopies(w, bins, alt, d, cap, k);
    CopiesProduct(d, Load(w, bins, k));
    CopiesProduct(d, cap);
  }

  lemma {:induction false} LptCopies(w: seq<real>, bins: seq<int>, alt: seq<int>, d: nat, cap: real, k: nat)
    requires d > 0 && NonNegative(w) && Descending(w) && Greedy(w, bins, d) && Packs(w, alt, d, cap) && k < d
    ensures 3.0 * Copies(d, Load(w, bins, k)) <= 4.0 * Copies(d, cap) - cap
  {
    LoadNonNegative(w, alt, k);
    if w == [] {
      Slack(d, 0.0, cap);
    } else if 3.0 * w[|w| - 1] > cap {
      LargeItemsFit(w, bins, alt, d, cap);
      Slack(d, Load(w, bins, k), cap);
    } else {
      var n := |w| - 1;
      PacksPrefix(w, alt, d, cap, n);
      GreedyPrefix(w, bins, d, n);
      LptCopies(w[..n], bins[..n], alt[..n], d, cap, k);
      if bins[n] == k {
        assert w == w[..n] + [w[n]];
        ListStep(w[..n], bins[..n], alt, d, w[n], k, cap);
        SmallItem(d, Load(w[..n], bins[..n], k), w[n], cap);
      }
    }
  }

  lemma Slack(d: nat, load: real, cap: real)
    requires d > 0 && load <= cap && cap >= 0.0
    ensures Copies(d, load) <= Copies(d, cap)
    ensures cap <= Copies(d, cap)
  {
    CopiesMonotone(d, load, cap);
    CopiesMonotone(d - 1, 0.0, cap);
    CopiesProduct(d - 1, 0.0);
  }

  lemma SmallItem(d: nat, m: real, x: real, cap: real)
    requires d > 0 && 3.0 * x <= cap && Copies(d, m) + x <= Copies(d, cap)
    ensures 3.0 * Copies(d, m + x) <= 4.0 * Copies(d, cap) - cap
  {
    CopiesAdd(d, m, x);
    CopiesAdd(d - 1, x, x);
    CopiesAdd(d - 1, x + x, x);
    CopiesMonotone(d - 1, x + x + x, cap);
  }

  // ---------------------------------------------------------------- the script's packer

  /** Any order that `argsort(-cw)` may return; ties are in no particular order. */
  ghost predicate HeaviestFirst(cw: seq<real>, order: seq<nat>) {
    && |order| == |cw| && Below(order, |cw|) && Distinct(order)
    && Descending(Select<real>(cw, order))
  }

  /** `argmin`: the first bin of least load. */
  method ArgMin(load: array<real>) returns (b: nat)
    requires load.Length > 0
    ensures b < load.Length
    ensures forall k :: 0 <= k < load.Length ==> load[b] <= load[k]
    ensures forall k :: 0 <= k < b ==> load[b] < load[k]
  {
    b := 0;
    for i := 1 to load.Length
      invariant b < i
      invariant forall j :: 0 <= j < i ==> load[b] <= load[j]
      invariant forall j :: 0 <= j < b ==> load[b] < load[j]
    {
      if load[i] < load[b] {
        b := i;
      }
    }
  }

  /** The state after packing the first `i` clusters of `order`. */
  ghost predicate Packed(cw: seq<real>, order: seq<nat>, i: nat, home: seq<int>, load: seq<real>, bins: seq<int>,
                         d: nat) {
    && Below(order, |cw|) && |home| == |cw| && |load| == d && |bins| == i <= |order|
    && (forall j :: 0 <= j < i ==> home[order[j]] == bins[j] && 0 <= bins[j] < d)
    && (forall c :: 0 <= c < |cw| && c !in order[..i] ==> home[c] == -1)
    && (forall k :: 0 <= k < d ==> load[k] == Load(cw, home, k))
    && (forall k :: 0 <= k < d ==> load[k] == Load(Select<real>(cw, order)[..i], bins, k))
    && Greedy(Select<real>(cw, order)[..i], bins, d)
  }

  lemma PackedStep(cw: seq<real>, order: seq<nat>, i: nat, home: seq<int>, load: seq<real>, bins: seq<int>, d: nat,
                   b: nat)
    requires Packed(cw, order, i, home, load, bins, d) && i < |order| && Distinct(order) && b < d
    requires forall k :: 0 <= k < d ==> load[b] <= load[k]
    ensures Packed(cw, order, i + 1, home[order[i] := b], load[b := load[b] + cw[order[i]]], bins + [b], d)
  {
    var c, sorted := order[i], Select<real>(cw, order);
    assert c !in order[..i];
    assert sorted[..i + 1] == sorted[..i] + [cw[c]];
    forall k | 0 <= k < d
      ensures Load(cw, home[c := b], k) == Load(sorted[..i + 1], bins + [b], k) ==
              load[k] + if k == b then cw[c] else 0.0
    {
      LoadMove(cw, home, c, b, k);
      LoadSnoc(sorted[..i], bins, cw[c], b, k);
    }
    forall k | 0 <= k < d ensures Load(sorted[..i], bins, b) <= Load(sorted[..i], bins, k) {
      assert load[b] <= load[k];
    }
    GreedySnoc(sorted, bins, d, i, b);
    assert order[..i + 1] == order[..i] + [c];
  }

  /** Packs the clusters, heaviest first, each onto the currently lightest device. */
  method PackClusters(cw: seq<real>, order: seq<nat>, d: nat) returns (cl2dev: seq<int>, binload: seq<real>)
    requires d > 0 && NonNegative(cw) && HeaviestFirst(cw, order)
    ensures |cl2dev| == |cw| && |binload| == d
    ensures forall c :: 0 <= c < |cw| ==> 0 <= cl2dev[c] < d
    ensures forall k :: 0 <= k < d ==> binload[k] == Load(cw, cl2dev, k)
    ensures Greedy(Select<real>(cw, order), Select<int>(cl2dev, order), d)
    ensures forall alt, cap, k :: Packs(cw, alt, d, cap) && 0 <= k < d ==>
              WithinLpt(binload[k], d, cap)
  {
    hide Packed;
    hide Packs;
    hide Greedy;
    hide WithinLpt;
    var load := new real[d](_ => 0.0);
    var home := new int[|cw|](_ => -1);
    ghost var bins: seq<int> := [];
    PackedStart(cw, order, home[..], load[..], d);
    for i := 0 to |order|
      invariant Packed(cw, order, i, home[..], load[..], bins, d)
    {
      var c := order[i];
      var b := ArgMin(load);
      PackedStep(cw, order, i, home[..], load[..], bins, d, b);
      ghost var home', load' := home[..][c := b], load[..][b := load[b] + cw[c]];
      home[c] := b;
      load[b] := load[b] + cw[c];
      assert home[..] == home' && load[..] == load';
      bins := bins + [b];
    }
    cl2dev, binload := home[..], load[..];
    PackedAll(cw, order, cl2dev, binload, bins, d);
  }

  lemma PackedStart(cw: seq<real>, order: seq<nat>, home: seq<int>, load: seq<real>, d: nat)
    requires Below(order, |cw|) && |home| == |cw| && |load| == d
    requires forall c :: 0 <= c < |cw| ==> home[c] == -1
    requires forall k :: 0 <= k < d ==> load[k] == 0.0
    ensures Packed(cw, order, 0, home, load, [], d)
  {
    Unplaced(cw, home);
  }

  lemma PackedAll(cw: seq<real>, order: seq<nat>, home: seq<int>, load: seq<real>, bins: seq<int>, d: nat)
    requires d > 0 && NonNegative(cw) && HeaviestFirst(cw, order) && Packed(cw, order, |order|, home, load, bins, d)
    ensures forall c :: 0 <= c < |cw| ==> 0 <= home[c] < d
    ensures forall k :: 0 <= k < d ==> load[k] == Load(cw, home, k)
    ensures Greedy(Select<real>(cw, order), Select<int>(home, order), d)
    ensures forall alt, cap, k :: Packs(cw, alt, d, cap) && 0 <= k < d ==> WithinLpt(load[k], d, cap)
  {
    PackedGreedy(cw, order, home, load, bins, d);
    forall alt, cap, k | Packs(cw, alt, d, cap) && 0 <= k < d ensures WithinLpt(load[k], d, cap) {
      hide Packs;
      hide Greedy;
      PacksReordered(cw, alt, order, d, cap);
      LptBound(Select<real>(cw, order), bins, Select<int>(alt, order), d, cap, k);
    }
  }

  lemma PackedGreedy(cw: seq<real>, order: seq<nat>, home: seq<int>, load: seq<real>, bins: seq<int>, d: nat)
    requires HeaviestFirst(cw, order) && Packed(cw, order, |order|, home, load, bins, d)
    ensures forall c :: 0 <= c < |cw| ==> 0 <= home[c] < d
    ensures bins == Select<int>(home, order) && Greedy(Select<real>(cw, order), bins, d)
    ensures forall k :: 0 <= k < d ==> load[k] == Load(cw, home, k) == Load(Select<real>(cw, order), bins, k)
  {
    hide Greedy;
    var sorted := Select<real>(cw, order);
    SurjectiveByCount(order);
    assert sorted[..|order|] == sorted;
    assert Select<int>(home, order) == bins;
    forall c | 0 <= c < |cw| ensures 0 <= home[c] < d {
      assert c in order;
    }
  }

  lemma GreedySnoc(sorted: seq<real>, bins: seq<int>, d: nat, i: nat, b: int)
    requires i < |sorted| && |bins| == i && Greedy(sorted[..i], bins, d) && LeastLoaded(sorted[..i], bins, d, b)
    ensures Greedy(sorted[..i + 1], bins + [b], d)
  {
    var w, bs := sorted[..i + 1], bins + [b];
    forall j | 0 <= j < |w| ensures LeastLoaded(w[..j], bs[..j], d, bs[j]) {
      assert w[..j] == sorted[..i][..j] || j == i;
      if j < i {
        assert w[..j] == sorted[..i][..j] && bs[..j] == bins[..j];
      } else {
        assert w[..j] == sorted[..i] && bs[..j] == bins;
      }
    }
  }

  lemma PacksReordered(w: seq<real>, bins: seq<int>, order: seq<nat>, d: nat, cap: real)
    requires Packs(w, bins, d, cap) && |order| == |w| && Below(order, |w|) && Distinct(order)
    ensures Packs(Select<real>(w, order), Select<int>(bins, order), d, cap)
  {
    SurjectiveByCount(order);
    assert order[..|order|] == order;
    assert Masked(bins, order) == bins;
    var sw, sb := Select<real>(w, order), Select<int>(bins, order);
    assert sw[..|order|] == sw && sb[..|order|] == sb;
    forall k | 0 <= k < d ensures Load(sw, sb, k) <= cap {
      LoadReordered(w, bins, order, |order|, k);
    }
  }

  /** The weights of the clusters: `bincount(labels, weights=mass)`. */
  function ClusterWeights(mass: seq<real>, labels: seq<int>, clusters: nat): (r: seq<real>)
    requires |mass| == |labels|
    ensures |r| == clusters && forall c :: 0 <= c < clusters ==> r[c] == Load(mass, labels, c)
  {
    seq(clusters, c => Load(mass, labels, c))
  }

  /** Device loads counted over vertices equal device loads counted over whole clusters. */
  lemma {:induction false} ClusterLoads(mass: seq<real>, labels: seq<nat>, cl2dev: seq<int>, k: nat)
    requires |mass| == |labels| && Below(labels, |cl2dev|)
    ensures Load(mass, Select<int>(cl2dev, labels), k) == Load(ClusterWeights(mass, labels, |cl2dev|), cl2dev, k)
  {
    var cw := ClusterWeights(mass, labels, |cl2dev|);
    if mass == [] {
      NoWeight(cw, cl2dev, k);
    } else {
      var n := |mass| - 1;
      ClusterLoads(mass[..n], labels[..n], cl2dev, k);
      var front := ClusterWeights(mass[..n], labels[..n], |cl2dev|);
      var c := labels[n];
      assert cw == front[c := front[c] + mass[n]];
      LoadReweigh(front, cl2dev, c, front[c] + mass[n], k);
      assert Select<int>(cl2dev, labels)[..n] == Select<int>(cl2dev, labels[..n]);
    }
  }

  /** A placement of whole clusters whose heaviest device carries at most `cap`. */
  ghost predicate PacksClusters(mass: seq<real>, labels: seq<nat>, alt: seq<int>, clusters: nat, d: nat, cap: real) {
    && |alt| == clusters && (forall c :: 0 <= c < clusters ==> 0 <= alt[c] < d)
    && Below(labels, clusters) && Packs(mass, Select<int>(alt, labels), d, cap)
  }

  /** The packer on vertices: whole clusters move, every device carries exactly the mass of its
      vertices, and the heaviest device is within 4/3 - 1/(3d) of any placement of whole clusters. */
  method CutFromLabelsBalanced(mass: seq<real>, labels: seq<nat>, clusters: nat, order: seq<nat>, d: nat)
    returns (dev: seq<int>)
    requires d > 0 && |mass| == |labels| && NonNegative(mass) && Below(labels, clusters)
    requires HeaviestFirst(ClusterWeights(mass, labels, clusters), order)
    ensures |dev| == |labels| && forall v :: 0 <= v < |dev| ==> 0 <= dev[v] < d
    ensures forall v, w :: 0 <= v < w < |dev| && labels[v] == labels[w] ==> dev[v] == dev[w]
    ensures forall alt: seq<int>, cap, k :: PacksClusters(mass, labels, alt, clusters, d, cap) && 0 <= k < d ==>
              WithinLpt(Load(mass, dev, k), d, cap)
  {
    var cw := ClusterWeights(mass, labels, clusters);
    forall c | 0 <= c < clusters ensures cw[c] >= 0.0 {
      LoadNonNegative(mass, labels, c);
    }
    var cl2dev, binload := PackClusters(cw, order, d);
    dev := Select<int>(cl2dev, labels);
    forall alt: seq<int>, cap, k | PacksClusters(mass, labels, alt, clusters, d, cap) && 0 <= k < d
      ensures WithinLpt(Load(mass, dev, k), d, cap)
    {
      forall j | 0 <= j < d ensures Load(cw, alt, j) <= cap {
        ClusterLoads(mass, labels, alt, j);
      }
      assert Packs(cw, alt, d, cap);
      ClusterLoads(mass, labels, cl2dev, k);
    }
  }
}
