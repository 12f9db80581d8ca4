/** Cutting `n` ranked items into `d` blocks of consecutive ranks, as equal as can be. */
module RankBlocks {
  import opened Arrays

  /** Block of item `i` when `n` items are cut into `d` blocks: `i * d // n`. */
  function Block(i: nat, d: nat, n: nat): nat
    requires n > 0
  {
    i * d / n
  }

  lemma BlockIs(i: nat, d: nat, n: nat)
    requires n > 0
    ensures var k := Block(i, d, n); n * k <= i * d < n * (k + 1)
  {
    DivNext(i * d, n);
  }

  lemma DivNext(x: nat, n: nat)
    requires n > 0
    ensures n * (x / n) <= x < n * (x / n + 1)
  {
    DivBounds(x, n);
    assert n * (x / n + 1) == n * (x / n) + n;
  }

  /** `min(i * d // n, d - 1)`, the clamped form the scripts use. */
  function ClampedBlock(i: nat, d: nat, n: nat): (k: nat)
    requires n > 0 && d > 0
    ensures k < d && (i < n ==> k == Block(i, d, n))
  {
    BlockBelow(i, d, n);
    if Block(i, d, n) < d - 1 then Block(i, d, n) else d - 1
  }

  lemma DivBounds(x: nat, n: nat)
    requires n > 0
    ensures n * (x / n) <= x < n * (x / n) + n
  {
  }

  lemma BelowOneMultiple(n: nat, k: int)
    requires n * k < n
    ensures k <= 0
  {
  }

  lemma DivUnique(x: nat, n: nat, q: nat)
    requires n > 0 && n * q <= x < n * q + n
    ensures x / n == q
  {
    DivBounds(x, n);
    var p := x / n;
    assert n * (p - q) == n * p - n * q && n * (q - p) == n * q - n * p;
    BelowOneMultiple(n, p - q);
    BelowOneMultiple(n, q - p);
  }

  lemma DivMonotone(x: nat, y: nat, n: nat)
    requires n > 0 && x <= y
    ensures x / n <= y / n
  {
    DivBounds(x, n);
    DivBounds(y, n);
    assert n * (x / n - y / n) == n * (x / n) - n * (y / n);
    BelowOneMultiple(n, x / n - y / n);
  }

  lemma BlockBelow(i: nat, d: nat, n: nat)
    requires n > 0 && d > 0
    ensures i < n ==> Block(i, d, n) < d
  {
    BlockIs(i, d, n);
    hide Block;
    if i < n {
      ScaledBelow(i, n, d);
      Cancel(Block(i, d, n), d, n);
    }
  }

  lemma ScaledBelow(i: nat, n: nat, d: nat)
    requires i < n && d > 0
    ensures i * d < n * d
  {
  }

  lemma Cancel(a: int, b: int, n: nat)
    requires n * a < n * b
    ensures a < b
  {
  }

  lemma BlockMonotone(i: nat, j: nat, d: nat, n: nat)
    requires n > 0 && i <= j
    ensures Block(i, d, n) <= Block(j, d, n)
  {
    assert i * d <= j * d;
    DivMonotone(i * d, j * d, n);
  }

  /** Doubling the number of blocks refines them. */
  lemma BlockRefines(i: nat, d: nat, n: nat)
    requires n > 0
    ensures Block(i, 2 * d, n) / 2 == Block(i, d, n)
  {
    assert i * (2 * d) == 2 * (i * d);
    HalvedQuotient(i * d, n);
  }

  lemma HalvedQuotient(x: nat, n: nat)
    requires n > 0
    ensures 2 * x / n / 2 == x / n
  {
    DivBounds(x, n);
    var q, r := x / n, x - n * (x / n);
    assert 2 * x == n * (2 * q) + 2 * r;
    if 2 * r < n {
      DivUnique(2 * x, n, 2 * q);
    } else {
      assert n * (2 * q + 1) == n * (2 * q) + n;
      DivUnique(2 * x, n, 2 * q + 1);
    }
  }

  // ---------------------------------------------------------------- how many items a block has

  function Blocks(n: nat, d: nat): (r: seq<int>)
    requires n > 0
    ensures |r| == n && forall i :: 0 <= i < n ==> r[i] == Block(i, d, n)
  {
    seq(n, i requires 0 <= i < n => Block(i, d, n))
  }

  /** The first item of block `k`. */
  function First(k: nat, d: nat, n: nat): (i: nat)
    requires d > 0
    ensures d * (i - 1) < n * k <= d * i
  {
    var x := n * k;
    DivBounds(x + d - 1, d);
    var q := (x + d - 1) / d;
    assert d * (q - 1) == d * q - d;
    q
  }

  lemma FirstIff(i: nat, k: nat, d: nat, n: nat)
    requires d > 0 && n > 0
    ensures i < First(k, d, n) <==> i * d < n * k
  {
    var f := First(k, d, n);
    if i < f {
      Scaled(i, f - 1, d);
    } else {
      Scaled(f, i, d);
    }
  }

  lemma Scaled(a: int, b: int, d: nat)
    requires a <= b
    ensures d * a <= d * b && d * a == a * d
  {
  }

  lemma InBlockIff(i: nat, k: nat, d: nat, n: nat)
    requires d > 0 && n > 0
    ensures Block(i, d, n) == k <==> First(k, d, n) <= i < First(k + 1, d, n)
  {
    FirstIff(i, k, d, n);
    FirstIff(i, k + 1, d, n);
    BlockIs(i, d, n);
    hide Block;
    var b := Block(i, d, n);
    if b < k {
      Scaled(b + 1, k, n);
    } else if b > k {
      Scaled(k + 1, b, n);
    }
  }

  lemma FirstOrder(k: nat, d: nat, n: nat)
    requires d > 0 && n > 0 && k < d
    ensures First(k, d, n) <= First(k + 1, d, n) <= n
  {
    var a, b := First(k, d, n), First(k + 1, d, n);
    Scaled(k, k + 1, n);
    Scaled(k + 1, d, n);
    assert d * n == n * d;
    if b < a {
      Scaled(b, a - 1, d);
    }
    if n < b {
      Scaled(n, b - 1, d);
    }
  }

  /** The blocks are balanced: none is a whole item above or below the `d`-th part, so every block
      has an item when there are no more blocks than items. */
  lemma BlockSize(n: nat, d: nat, k: nat)
    requires n > 0 && k < d
    ensures d * (Count(Blocks(n, d), k) - 1) < n < d * (Count(Blocks(n, d), k) + 1)
    ensures d <= n ==> Count(Blocks(n, d), k) > 0
  {
    var blocks, lo, hi := Blocks(n, d), First(k, d, n), First(k + 1, d, n);
    hide Count;
    FirstOrder(k, d, n);
    forall i | 0 <= i < n ensures blocks[i] == k <==> lo <= i < hi {
      InBlockIff(i, k, d, n);
    }
    IntervalCount(blocks, k, lo, hi - lo);
    Width(lo, hi, k, d, n);
    if hi == lo {
      assert d * (hi - lo + 1) == d;
    }
  }

  lemma Width(lo: nat, hi: nat, k: nat, d: nat, n: nat)
    requires d * (lo - 1) < n * k <= d * lo && d * (hi - 1) < n * (k + 1) <= d * hi
    ensures d * (hi - lo - 1) < n < d * (hi - lo + 1)
  {
    assert n * (k + 1) == n * k + n;
    assert d * (lo - 1) == d * lo - d && d * (hi - 1) == d * hi - d;
    assert d * (hi - lo - 1) == d * hi - d * lo - d && d * (hi - lo + 1) == d * hi - d * lo + d;
  }

  /** With as many blocks as items every item is its own block. */
  lemma OwnBlock(i: nat, n: nat)
    requires i < n
    ensures Block(i, n, n) == i
  {
    DivUnique(i * n, n, i);
  }
}
