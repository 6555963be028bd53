/** Powers of two, alignment and bitwise conjunction, by recursion on the bits. */
module Bits {

  function Pow2(k: nat): (p: nat)
    ensures p >= 1
  {
    if k == 0 then 1 else 2 * Pow2(k - 1)
  }

  /** Bitwise `&` of two non-negative integers. */
  function And(a: nat, b: nat): nat {
    if a == 0 || b == 0 then 0 else 2 * And(a / 2, b / 2) + (a % 2) * (b % 2)
  }

  /** The low k bits of x are zero. */
  predicate Aligned(x: int, k: nat)
    decreases k
  {
    k == 0 || (x % 2 == 0 && Aligned(x / 2, k - 1))
  }

  lemma Pow2Of32()
    ensures Pow2(8) == 0x100 && Pow2(16) == 0x1_0000 && Pow2(31) == 0x8000_0000 && Pow2(32) == 0x1_0000_0000
  {
    assert Pow2(4) == 16;
    Pow2Add(4, 4);
    Pow2Add(8, 8);
    Pow2Add(16, 16);
  }

  lemma {:induction false} Pow2Add(i: nat, j: nat)
    ensures Pow2(i + j) == Pow2(i) * Pow2(j)
  {
    if i > 0 {
      Pow2Add(i - 1, j);
      assert 2 * (Pow2(i - 1) * Pow2(j)) == (2 * Pow2(i - 1)) * Pow2(j);
    }
  }

  lemma Pow2Mono(i: nat, j: nat)
    requires i <= j
    ensures Pow2(i) <= Pow2(j)
    ensures i < j ==> 2 * Pow2(i) <= Pow2(j)
  {
    if i < j { Pow2Mono(i, j - 1); }
  }

  lemma {:induction false} AlignedPow2(k: nat)
    ensures Aligned(Pow2(k), k) && Aligned(0, k)
  {
    if k > 0 { AlignedPow2(k - 1); }
  }

  /** A positive number with k low zero bits is at least 2^k. */
  lemma {:induction false} AlignedAtLeast(x: int, k: nat)
    requires Aligned(x, k) && x > 0
    ensures x >= Pow2(k)
    decreases k
  {
    if k > 0 { AlignedAtLeast(x / 2, k - 1); }
  }

  lemma AlignedBelowIsZero(x: int, k: nat)
    requires Aligned(x, k) && 0 <= x < Pow2(k)
    ensures x == 0
  {
    if x > 0 { AlignedAtLeast(x, k); }
  }

  lemma {:induction false} AlignedSum(x: int, y: int, k: nat)
    requires Aligned(x, k)
    ensures Aligned(y, k) <==> Aligned(x + y, k)
    decreases k
  {
    if k > 0 && y % 2 == 0 {
      AlignedSum(x / 2, y / 2, k - 1);
      assert (x + y) / 2 == x / 2 + y / 2;
    }
  }

  lemma {:induction false} AlignedDifference(x: int, y: int, k: nat)
    requires Aligned(x, k) && Aligned(y, k)
    ensures Aligned(x - y, k)
  {
    AlignedSum(y, x - y, k);
  }

  lemma {:induction false} AlignedDown(x: int, i: nat, j: nat)
    requires Aligned(x, j) && i <= j
    ensures Aligned(x, i)
    decreases i
  {
    if i > 0 { AlignedDown(x / 2, i - 1, j - 1); }
  }

  /** Adding 2^k to a number with exactly k low zero bits carries: the sum has at least k + 1. */
  lemma {:induction false} CarryAlignment(x: int, k: nat)
    requires Aligned(x, k) && !Aligned(x, k + 1)
    ensures Aligned(x + Pow2(k), k + 1)
    decreases k
  {
    if k > 0 {
      CarryAlignment(x / 2, k - 1);
      assert (x + Pow2(k)) / 2 == x / 2 + Pow2(k - 1);
    } else {
      assert Aligned(x / 2, 0);
      assert Aligned((x + 1) / 2, 0);
    }
  }

  /** Conjunction with a mask of n - k ones followed by k zeros keeps exactly the numbers with k low zero bits. */
  lemma {:induction false} AndMask(x: nat, k: nat, n: nat)
    requires x < Pow2(n) && k <= n
    ensures Pow2(k) <= Pow2(n) && And(x, Pow2(n) - Pow2(k)) <= x
    ensures And(x, Pow2(n) - Pow2(k)) == x <==> Aligned(x, k)
    decreases n
  {
    Pow2Mono(k, n);
    if x == 0 {
      AlignedPow2(k);
    } else if k == n {
      if Aligned(x, k) { AlignedAtLeast(x, k); }
    } else {
      var j := if k == 0 then 0 else k - 1;
      AndMask(x / 2, j, n - 1);
      AndMaskStep(x, k, n);
    }
  }

  lemma AndMaskStep(x: nat, k: nat, n: nat)
    requires 0 < x && k < n && Pow2(k) < Pow2(n)
    ensures var j := if k == 0 then 0 else k - 1;
            && Pow2(j) <= Pow2(n - 1)
            && And(x, Pow2(n) - Pow2(k)) == 2 * And(x / 2, Pow2(n - 1) - Pow2(j)) + (if k == 0 then x % 2 else 0)
  {
    var mask := Pow2(n) - Pow2(k);
    if k == 0 {
      assert mask / 2 == Pow2(n - 1) - 1 && mask % 2 == 1;
    } else {
      assert mask / 2 == Pow2(n - 1) - Pow2(k - 1) && mask % 2 == 0;
    }
  }

  /** The remainder is the only r in range that differs from x by a multiple of m. */
  lemma RemainderUnique(x: int, m: int, q: int, r: int)
    requires m > 0 && x == q * m + r && 0 <= r < m
    ensures x % m == r && x / m == q
  {
    var d := x / m - q;
    assert x == (x / m) * m + x % m;
    assert d * m == r - x % m;
    ProductAtLeast(d, m);
  }

  lemma ProductAtLeast(d: int, m: int)
    requires m > 0
    ensures d > 0 ==> d * m >= m
    ensures d < 0 ==> d * m <= -m
  {
  }
}
