/** Ranks of blocks and the arithmetic behind collapsing them. */
module Ranks {

  function CeilDiv(n: nat, r: nat): nat
    requires r > 0
  {
    (n + r - 1) / r
  }

  /** The integer part of the binary logarithm. */
  function FloorLog2(n: nat): nat
    requires n > 0
  {
    if n == 1 then 0 else 1 + FloorLog2(n / 2)
  }

  function Pow2(k: nat): (p: nat)
    ensures p > 0
  {
    if k == 0 then 1 else 2 * Pow2(k - 1)
  }

  /** The rank of a storage of `size` records when blocks of up to `r` records have rank 0.
      The code asserts that the storage is not empty. */
  function Rank(size: nat, r: nat): nat
    requires r > 0
  {
    if size == 0 then 0
    else
      CeilDivPositive(size, r);
      FloorLog2(CeilDiv(size, r))
  }

  lemma {:induction false} CeilDivPositive(n: nat, r: nat)
    requires n > 0 && r > 0
    ensures CeilDiv(n, r) > 0
  {
    CeilDivBounds(n, r);
  }

  lemma TimesMonotone(r: nat, x: nat, y: nat)
    requires x <= y
    ensures r * x <= r * y
  {
    assert r * y == r * x + r * (y - x);
  }

  lemma TimesNext(r: nat, x: nat, y: nat)
    requires x < y
    ensures r * x + r <= r * y
  {
    TimesMonotone(r, x + 1, y);
    assert r * (x + 1) == r * x + r;
  }

  /** `CeilDiv(n, r)` is the least number of portions of size `r` that hold `n`. */
  lemma {:induction false} CeilDivBounds(n: nat, r: nat)
    requires r > 0
    ensures n <= r * CeilDiv(n, r) < n + r
  {
    var q := CeilDiv(n, r);
    assert n + r - 1 == r * q + (n + r - 1) % r;
  }

  lemma {:induction false} CeilDivLeast(n: nat, r: nat, q: nat)
    requires r > 0 && n <= r * q
    ensures CeilDiv(n, r) <= q
  {
    CeilDivBounds(n, r);
    var c := CeilDiv(n, r);
    if c > q {
      TimesNext(r, q, c);
    }
  }

  lemma {:induction false} CeilDivMonotone(m: nat, n: nat, r: nat)
    requires m <= n && r > 0
    ensures CeilDiv(m, r) <= CeilDiv(n, r)
  {
    CeilDivBounds(n, r);
    CeilDivLeast(m, r, CeilDiv(n, r));
  }

  lemma {:induction false} CeilDivSubadditive(m: nat, n: nat, r: nat)
    requires r > 0
    ensures CeilDiv(m + n, r) <= CeilDiv(m, r) + CeilDiv(n, r)
  {
    CeilDivBounds(m, r);
    CeilDivBounds(n, r);
    assert r * (CeilDiv(m, r) + CeilDiv(n, r)) == r * CeilDiv(m, r) + r * CeilDiv(n, r);
    CeilDivLeast(m + n, r, CeilDiv(m, r) + CeilDiv(n, r));
  }

  /** The logarithm of `n` is the `k` with `2^k <= n < 2^(k+1)`. */
  lemma {:induction false} FloorLog2Exactly(n: nat, k: nat)
    requires n > 0
    ensures FloorLog2(n) == k <==> Pow2(k) <= n < Pow2(k + 1)
    decreases n
  {
    if n == 1 {
      if k > 0 {
        assert Pow2(k) == 2 * Pow2(k - 1);
      }
    } else {
      if k > 0 {
        FloorLog2Exactly(n / 2, k - 1);
      }
    }
  }

  lemma {:induction false} FloorLog2Monotone(m: nat, n: nat)
    requires 0 < m <= n
    ensures FloorLog2(m) <= FloorLog2(n)
    decreases n
  {
    if m > 1 {
      FloorLog2Monotone(m / 2, n / 2);
    }
  }

  lemma {:induction false} RankMonotone(m: nat, n: nat, r: nat)
    requires 0 < m <= n && r > 0
    ensures Rank(m, r) <= Rank(n, r)
  {
    CeilDivPositive(m, r);
    CeilDivMonotone(m, n, r);
    FloorLog2Monotone(CeilDiv(m, r), CeilDiv(n, r));
  }

  lemma RankMonotoneFromZero(m: nat, n: nat, r: nat)
    requires m <= n && r > 0
    ensures Rank(m, r) <= Rank(n, r)
  {
    if m > 0 {
      RankMonotone(m, n, r);
    }
  }

  /** A size has rank `k` exactly if it needs at least `2^k` and fewer than `2^(k+1)` portions. */
  lemma {:induction false} RankExactly(size: nat, r: nat, k: nat)
    requires size > 0 && r > 0
    ensures Rank(size, r) == k <==> (Pow2(k) - 1) * r < size <= (Pow2(k + 1) - 1) * r
  {
    var c := CeilDiv(size, r);
    CeilDivPositive(size, r);
    CeilDivBounds(size, r);
    FloorLog2Exactly(c, k);
    PortionsAtMost(size, r, Pow2(k) - 1);
    PortionsAtMost(size, r, Pow2(k + 1) - 1);
  }

  lemma {:induction false} PortionsAtMost(size: nat, r: nat, q: nat)
    requires r > 0
    ensures CeilDiv(size, r) <= q <==> size <= q * r
  {
    CeilDivBounds(size, r);
    if CeilDiv(size, r) <= q {
      assert r * CeilDiv(size, r) <= r * q;
    }
    if size <= q * r {
      CeilDivLeast(size, r, q);
    }
  }

  /** Collapsing two blocks of one rank gives that rank or the next one. */
  lemma {:induction false} RankOfMerged(a: nat, b: nat, merged: nat, r: nat)
    requires r > 0 && a > 0 && b > 0 && Rank(a, r) == Rank(b, r)
    requires a <= merged && b <= merged <= a + b
    ensures Rank(a, r) <= Rank(merged, r) <= Rank(a, r) + 1
  {
    var k := Rank(a, r);
    RankMonotone(a, merged, r);
    CeilDivPositive(a, r);
    CeilDivPositive(b, r);
    CeilDivPositive(merged, r);
    FloorLog2Exactly(CeilDiv(a, r), k);
    FloorLog2Exactly(CeilDiv(b, r), k);
    CeilDivMonotone(merged, a + b, r);
    CeilDivSubadditive(a, b, r);
    assert Pow2(k + 2) == 2 * Pow2(k + 1);
    FloorLog2Monotone(CeilDiv(merged, r), Pow2(k + 2) - 1);
    FloorLog2Exactly(Pow2(k + 2) - 1, k + 1);
  }
}
