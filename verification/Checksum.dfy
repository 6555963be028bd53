/** The Internet checksum as `calc_checksum` computes it: 16-bit words in little-endian memory order, a 32-bit
    register, end-around carries folded at the end (RFC 1071). */
module Checksum {
  import opened Serial
  import opened Wire

  /** Sum of the little-endian words; an odd last byte counts by itself. */
  function WordSum(s: Bytes): nat {
    if |s| == 0 then 0
    else if |s| == 1 then s[0]
    else s[0] + 256 * s[1] + WordSum(s[2..])
  }

  /** The same over big-endian words, the odd last byte padded with a zero. */
  function WordSumBig(s: Bytes): nat {
    if |s| == 0 then 0
    else if |s| == 1 then 256 * s[0]
    else 256 * s[0] + s[1] + WordSumBig(s[2..])
  }

  /** The carry loop. */
  function Fold(x: nat): u16
    decreases x
  {
    if x < 0x1_0000 then x else Fold(x % 0x1_0000 + x / 0x1_0000)
  }

  /** What `calc_checksum` returns; `sum` is a 32-bit register and wraps. */
  function Sum(start: u16, s: Bytes): u16 {
    Fold(Wrap(start + WordSum(s)))
  }

  /** `calc_checksum`: add up, then fold. */
  method CalcChecksum(start: u16, buffer: Bytes) returns (result: u16)
    ensures result == Sum(start, buffer)
  {
    var sum := AddWords(start, buffer);
    result := FoldCarries(sum);
  }

  /** The first loop of `calc_checksum` and the odd last byte. */
  method AddWords(start: u16, buffer: Bytes) returns (sum: u32)
    ensures sum == Wrap(start + WordSum(buffer))
  {
    sum := start;
    var at := 0;
    var len := |buffer|;
    while len > 1
      invariant 0 <= len && at + len == |buffer|
      invariant Wrap(sum + WordSum(buffer[at..])) == Wrap(start + WordSum(buffer))
    {
      var word: int := buffer[at] + 0x100 * (buffer[at + 1] as int);
      RegisterStep(sum, buffer, at);
      sum := Wrap(sum + word);
      at := at + 2;
      len := len - 2;
    }
    if len > 0 {
      sum := Wrap(sum + buffer[at]);
    }
  }

  lemma RegisterStep(sum: u32, s: Bytes, at: nat)
    requires at + 2 <= |s|
    ensures Wrap(Wrap(sum + (s[at] + 0x100 * (s[at + 1] as int))) + WordSum(s[at + 2..]))
            == Wrap(sum + WordSum(s[at..]))
  {
    assert s[at..][2..] == s[at + 2..];
    WrapAdd(sum + (s[at] + 0x100 * (s[at + 1] as int)), WordSum(s[at + 2..]));
  }

  /** The last loop of `calc_checksum`. */
  method FoldCarries(register: u32) returns (result: u16)
    ensures result == Fold(register)
  {
    var sum: int := register;
    while sum / 0x1_0000 != 0
      invariant 0 <= sum < 0x1_0000_0000
      invariant Fold(sum) == Fold(register)
      decreases sum
    {
      sum := sum % 0x1_0000 + sum / 0x1_0000;
    }
    result := sum;
  }

  // ---- The register never wraps on anything that fits an IP packet ----

  lemma {:induction false} WordSumBound(s: Bytes)
    ensures WordSum(s) <= 0xFFFF * ((|s| + 1) / 2)
    ensures WordSumBig(s) <= 0xFFFF * ((|s| + 1) / 2)
  {
    if |s| > 1 { WordSumBound(s[2..]); }
  }

  lemma NoOverflow(start: u16, s: Bytes)
    requires |s| <= 0x2_0000
    ensures start + WordSum(s) < 0x1_0000_0000 && start + WordSumBig(s) < 0x1_0000_0000
    ensures Sum(start, s) == Fold(start + WordSum(s))
  {
    WordSumBound(s);
  }

  lemma SumIs(start: u16, s: Bytes, total: nat)
    requires |s| <= 0x2_0000 && start + WordSum(s) == total
    ensures Sum(start, s) == Fold(total)
  {
    NoOverflow(start, s);
  }

  lemma {:induction false} AllOnes(n: nat)
    ensures WordSum(seq(2 * n, _ => 0xFF)) == 0xFFFF * n
  {
    if n > 0 {
      AllOnes(n - 1);
      assert seq(2 * n, _ => 0xFF as byte)[2..] == seq(2 * (n - 1), _ => 0xFF as byte);
    }
  }

  /** The bound on the length cannot be dropped: this longer buffer wraps the register to zero. */
  lemma LongBufferWraps()
    ensures var s: Bytes := seq(131074, _ => 0xFF); Sum(1, s) == 0 && s[0] != 0
  {
    var n := 65537;
    AllOnes(n);
  }

  // ---- Ones' complement arithmetic ----

  /** Folding picks the representative modulo 65535 that is zero only for zero. */
  lemma {:induction false} FoldValue(x: nat)
    ensures Fold(x) == if x == 0 then 0 else (x - 1) % 0xFFFF + 1
    decreases x
  {
    if x >= 0x1_0000 {
      var y := x % 0x1_0000 + x / 0x1_0000;
      FoldValue(y);
      assert x - 1 == (y - 1) + (x / 0x1_0000) * 0xFFFF;
    }
  }

  /** A positive sum splits into a multiple of 65535 and its folded value, in only one way. */
  lemma FoldSplits(x: nat) returns (q: nat)
    requires x > 0
    ensures x == q * 0xFFFF + Fold(x) && Fold(x) > 0
  {
    FoldValue(x);
    q := (x - 1) / 0xFFFF;
  }

  lemma FoldUnique(x: nat, q: int, f: u16)
    requires x == q * 0xFFFF + f && f > 0 && x > 0
    ensures Fold(x) == f
  {
    var p: int := FoldSplits(x);
    var d := p - q;
    assert d * 0xFFFF == f - Fold(x);
  }

  /** Carries may be folded early: this is what lets `write_tcp` continue a checksum. */
  lemma FoldContinues(x: nat, y: nat)
    ensures Fold(Fold(x) + y) == Fold(x + y)
  {
    if x > 0 {
      var p := FoldSplits(x);
      var q := FoldSplits(Fold(x) + y);
      FoldUnique(x + y, p + q, Fold(Fold(x) + y));
    }
  }

  lemma {:induction false} WordSumAppend(a: Bytes, b: Bytes)
    requires |a| % 2 == 0
    ensures WordSum(a + b) == WordSum(a) + WordSum(b)
  {
    if a == [] {
      assert a + b == b;
    } else {
      assert (a + b)[2..] == a[2..] + b;
      WordSumAppend(a[2..], b);
    }
  }

  /** Continuing over a second buffer equals one pass over both, when the first has even length. */
  lemma SumContinues(start: u16, a: Bytes, b: Bytes)
    requires |a| % 2 == 0 && |a| + |b| <= 0x2_0000
    ensures Sum(Sum(start, a), b) == Sum(start, a + b)
  {
    NoOverflow(start, a);
    NoOverflow(Sum(start, a), b);
    NoOverflow(start, a + b);
    WordSumAppend(a, b);
    FoldContinues(start + WordSum(a), WordSum(b));
  }

  // ---- Zero and byte order (section 2(B) of RFC 1071) ----

  lemma {:induction false} WordSumZero(s: Bytes)
    ensures WordSum(s) == 0 <==> forall i :: 0 <= i < |s| ==> s[i] == 0
    ensures WordSumBig(s) == 0 <==> WordSum(s) == 0
  {
    if |s| > 1 {
      WordSumZero(s[2..]);
      assert forall i :: 2 <= i < |s| ==> s[i] == s[2..][i - 2];
    }
  }

  lemma ZeroOnlyForZeros(start: u16, s: Bytes)
    requires |s| <= 0x2_0000
    ensures Sum(start, s) == 0 <==> start == 0 && forall i :: 0 <= i < |s| ==> s[i] == 0
  {
    NoOverflow(start, s);
    FoldValue(start + WordSum(s));
    WordSumZero(s);
  }

  function Swap(x: u16): u16 {
    (x % 256) * 256 + x / 256
  }

  lemma {:induction false} WordSumsCongruent(s: Bytes)
    ensures (256 * WordSumBig(s) - WordSum(s)) % 0xFFFF == 0
  {
    if |s| > 1 {
      WordSumsCongruent(s[2..]);
      var d := 256 * WordSumBig(s[2..]) - WordSum(s[2..]);
      assert 256 * WordSumBig(s) - WordSum(s) == d + s[0] * 0xFFFF;
    } else if |s| == 1 {
      var b: int := s[0];
      assert 256 * WordSumBig(s) - WordSum(s) == b * 0xFFFF;
    }
  }

  /** The checksum of little-endian words is the byte swap of the checksum of big-endian words. */
  lemma ByteOrderIndependent(start: u16, s: Bytes)
    requires |s| <= 0x2_0000
    ensures Sum(start, s) == Swap(Fold(Swap(start) + WordSumBig(s)))
  {
    NoOverflow(start, s);
    var x, y := start + WordSum(s), Swap(start) + WordSumBig(s);
    WordSumZero(s);
    WordSumsCongruent(s);
    assert 256 * Swap(start) - start == (start % 256) * 0xFFFF;
    var k := (256 * WordSumBig(s) - WordSum(s)) / 0xFFFF;
    assert 256 * y - x == (k + start % 256) * 0xFFFF;
    SwapPicksRepresentative(x, y, k + start % 256);
  }

  lemma SwapPicksRepresentative(x: nat, y: nat, k: int)
    requires 256 * y - x == k * 0xFFFF && (x == 0 <==> y == 0)
    ensures Fold(x) == Swap(Fold(y))
  {
    if x > 0 {
      var q := FoldSplits(y);
      var g: int := Fold(y);
      var swapped: int := Swap(Fold(y));
      assert 256 * g - swapped == (g / 256) * 0xFFFF;
      assert x == (256 * q + g / 256 - k) * 0xFFFF + swapped;
      FoldUnique(x, 256 * q + g / 256 - k, Swap(Fold(y)));
    }
  }
}
