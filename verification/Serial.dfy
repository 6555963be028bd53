/** 32-bit sequence numbers on a circle (`compare_u32` in util.c).

    `Dist(a, b)` is the number of steps forward from a to b. Serial order in the sense of section 3.2 of RFC 1982
    is written here in the RFC's own words, and `Compare` is the C function with its subtraction read mathematically. */
module Serial {

  const MOD: int := 0x1_0000_0000
  const HALF: int := 0x8000_0000

  type u32 = x: int | 0 <= x < 0x1_0000_0000

  /** Truncation to 32 bits. */
  function Wrap(x: int): u32 {
    x % 0x1_0000_0000
  }

  /** The value of a 32-bit pattern read as a two's complement int. */
  function Signed(x: u32): int {
    if x < HALF then x else x - MOD
  }

  function Compare(s1: u32, s2: u32): int {
    if s1 == s2 then 0
    else
      var i1, i2 := Signed(s1), Signed(s2);
      if (i1 < i2 && i2 - i1 < 0x7FFF_FFFF) || (i1 > i2 && i1 - i2 > 0x7FFF_FFFF) then -1 else 1
  }

  function Dist(a: u32, b: u32): u32 {
    Wrap(b - a)
  }

  /** "s1 is less than s2", section 3.2 of RFC 1982 with SERIAL_BITS = 32. */
  predicate SerialLess(s1: u32, s2: u32) {
    (s1 < s2 && s2 - s1 < HALF) || (s1 > s2 && s1 - s2 > HALF)
  }

  /** The RFC leaves the order of antipodal numbers undefined. */
  predicate Antipodal(s1: u32, s2: u32) {
    Dist(s1, s2) == HALF
  }

  /** The one family of defined pairs that the C comparison gets wrong: exactly 2^31 - 1 steps
      apart with no signed wrap between them. */
  predicate Misjudged(s1: u32, s2: u32) {
    Dist(s1, s2) == HALF - 1 && Signed(s1) < Signed(s2)
  }

  lemma CompareAgreesWithRfc1982(s1: u32, s2: u32)
    requires !Antipodal(s1, s2)
    ensures (Compare(s1, s2) < 0 <==> SerialLess(s1, s2)) <==> !Misjudged(s1, s2)
    ensures (Compare(s1, s2) == 0 <==> s1 == s2)
    ensures Misjudged(s1, s2) ==> Compare(s1, s2) == 1 == Compare(s2, s1)
  {
    WrapNear(s2 - s1);
  }

  lemma CompareDisagreesSomewhere()
    ensures Misjudged(0, 0x7FFF_FFFF) && SerialLess(0, 0x7FFF_FFFF) && Compare(0, 0x7FFF_FFFF) == 1
  {
    WrapNear(0x7FFF_FFFF);
  }

  lemma WrapNear(x: int)
    requires -MOD < x < MOD
    ensures Wrap(x) == if x < 0 then x + MOD else x
  {
  }

  /** Truncating early or late makes no difference. */
  lemma WrapAdd(x: int, y: int)
    ensures Wrap(Wrap(x) + y) == Wrap(x + y)
  {
    var q := x / MOD;
    assert x == q * MOD + Wrap(x);
    WrapShift(Wrap(x) + y, q);
  }

  lemma WrapShift(x: int, k: int)
    ensures Wrap(x + k * MOD) == Wrap(x)
  {
    var q := x / MOD;
    assert x + k * MOD == (q + k) * MOD + x % MOD;
  }

  /** Distance between two wrapped positions depends on the difference of the positions only. */
  lemma DistOffsets(b: int, x: int, y: int)
    ensures Dist(Wrap(b + x), Wrap(b + y)) == Wrap(y - x)
  {
    var at: int := Wrap(b + x);
    WrapAdd(b + y, -at);
    var q := (b + x) / MOD;
    assert b + x == q * MOD + at;
    WrapShift(y - x, q);
  }

  /** On positions that span less than half the circle the comparison is the order of the positions. */
  lemma CompareOffsets(b: int, x: int, y: int)
    requires -(HALF - 2) <= y - x <= HALF - 2
    ensures Compare(Wrap(b + x), Wrap(b + y)) == if x < y then -1 else if x == y then 0 else 1
  {
    DistOffsets(b, x, y);
    var s1: int, s2: int := Wrap(b + x), Wrap(b + y);
    WrapNear(s2 - s1);
    WrapNear(y - x);
  }

  /** ... hence a strict total order on every set of sequence numbers within half the circle of a base. */
  lemma CompareIsTotalOrder(b: u32, x: u32, y: u32, z: u32)
    requires Dist(b, x) <= HALF - 2 && Dist(b, y) <= HALF - 2 && Dist(b, z) <= HALF - 2
    ensures Compare(x, y) < 0 || x == y || Compare(y, x) < 0
    ensures Compare(x, y) < 0 ==> Compare(y, x) > 0 && x != y
    ensures Compare(x, y) < 0 && Compare(y, z) < 0 ==> Compare(x, z) < 0
  {
    DistRestores(b, x);
    DistRestores(b, y);
    DistRestores(b, z);
    CompareOffsets(b, Dist(b, x), Dist(b, y));
    CompareOffsets(b, Dist(b, y), Dist(b, x));
    CompareOffsets(b, Dist(b, y), Dist(b, z));
    CompareOffsets(b, Dist(b, x), Dist(b, z));
  }

  lemma DistRestores(b: u32, x: u32)
    ensures Wrap(b + Dist(b, x)) == x
  {
    var d: int := (x as int) - b;
    WrapNear(d);
    WrapShift(x, if d < 0 then 1 else 0);
  }
}
