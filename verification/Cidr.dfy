/** `IPUtil.toCIDR`: cutting an address range into CIDR blocks.

    Addresses are four octets; the imperative conversions and the greedy loop follow the Java code, and are
    proved against `Value`, `Octets` and `Greedy`. Logarithms are exact: `FloorLog2` stands for
    Math.floor(Math.log(n) / Math.log(2)). */
module Cidr {
  import opened Bits
  import opened Wire

  type Address = a: Bytes | |a| == 4 witness [0, 0, 0, 0]

  const SPACE: int := 0x1_0000_0000

  /** The big-endian number that a sequence of octets spells. */
  function Value(a: Bytes): nat {
    if a == [] then 0 else 256 * Value(a[..|a| - 1]) + a[|a| - 1]
  }

  /** The low n octets of x, big-endian, in two's complement when x is negative. */
  function Octets(x: int, n: nat): (a: Bytes)
    ensures |a| == n
    decreases n, x
  {
    if n == 0 then [] else Octets(x / 256, n - 1) + [x % 256]
  }

  /** `inet2long` */
  method Inet2Long(addr: Bytes) returns (result: nat)
    ensures result == Value(addr)
  {
    result := 0;
    for i := 0 to |addr|
      invariant result == Value(addr[..i])
    {
      assert addr[..i + 1][..i] == addr[..i];
      result := result * 256 + addr[i];
    }
    assert addr[..|addr|] == addr;
  }

  /** `long2inet`: `>>` on a long floors, `& 0xFF` keeps the low byte. */
  method Long2Inet(value: int) returns (b: array<byte>)
    ensures fresh(b) && b.Length == 4 && b[..] == Octets(value, 4)
  {
    b := new byte[4](_ => 0);
    var addr := value;
    var i := 3;
    while i >= 0
      invariant -1 <= i <= 3
      invariant Octets(addr, i + 1) + b[i + 1..] == Octets(value, 4)
    {
      b[i] := addr % 256;
      addr := addr / 256;
      i := i - 1;
      assert b[i + 1..] == [b[i + 1]] + b[i + 2..];
    }
    assert b[0..] == b[..];
  }

  lemma {:induction false} ValueBound(a: Bytes, n: nat)
    requires |a| == n
    ensures Value(a) < Pow2(8 * n)
  {
    if n > 0 {
      ValueBound(a[..n - 1], n - 1);
      Pow2Of32();
      Pow2Add(8, 8 * (n - 1));
    }
  }

  lemma AddressBound(a: Address)
    ensures Value(a) < SPACE
  {
    ValueBound(a, 4);
    Pow2Of32();
  }

  lemma DropByte(x: int, m: int)
    requires m > 0
    ensures x % (256 * m) == 256 * ((x / 256) % m) + x % 256
  {
    var y := x / 256;
    var q, r := y / m, y % m;
    assert y == q * m + r;
    assert q * (256 * m) == 256 * (q * m);
    RemainderUnique(x, 256 * m, q, 256 * r + x % 256);
  }

  /** Converting to octets and back keeps the number modulo 2^32 ... */
  lemma {:induction false} ValueOfOctets(x: int, n: nat)
    ensures Value(Octets(x, n)) == x % Pow2(8 * n)
    decreases n
  {
    if n > 0 {
      var o := Octets(x, n);
      assert o[..n - 1] == Octets(x / 256, n - 1);
      ValueOfOctets(x / 256, n - 1);
      Pow2Of32();
      Pow2Add(8, 8 * (n - 1));
      DropByte(x, Pow2(8 * (n - 1)));
    } else {
      RemainderUnique(x, 1, x, 0);
    }
  }

  lemma ValueOfAddress(x: int)
    ensures Value(Octets(x, 4)) == x % SPACE
  {
    ValueOfOctets(x, 4);
    Pow2Of32();
  }

  /** ... and converting an address to a number and back gives the address. */
  lemma {:induction false} OctetsOfValue(a: Bytes)
    ensures Octets(Value(a), |a|) == a
  {
    if a != [] {
      OctetsOfValue(a[..|a| - 1]);
      assert a == a[..|a| - 1] + [a[|a| - 1]];
    }
  }

  function Plus1(a: Address): Address {
    Octets(Value(a) + 1, 4)
  }

  function Minus1(a: Address): Address {
    Octets(Value(a) - 1, 4)
  }

  lemma PlusMinusInverse(a: Address)
    ensures Minus1(Plus1(a)) == a == Plus1(Minus1(a))
  {
    var v := Value(a);
    OctetsOfValue(a);
    StepBack(v, 1);
    StepBack(v, -1);
  }

  lemma StepBack(v: int, d: int)
    ensures Octets(Value(Octets(v + d, 4)) - d, 4) == Octets(v, 4)
  {
    ValueOfAddress(v + d);
    var q := (v + d) / SPACE;
    assert v + d == q * SPACE + (v + d) % SPACE;
    RemainderUnique(v, SPACE, v / SPACE, v % SPACE);
    RemainderUnique((v + d) % SPACE - d, SPACE, v / SPACE - q, v % SPACE);
    OctetsWrap((v + d) % SPACE - d, v);
  }

  lemma OctetsWrap(x: int, y: int)
    requires x % SPACE == y % SPACE
    ensures Octets(x, 4) == Octets(y, 4)
  {
    ValueOfAddress(x);
    ValueOfAddress(y);
    OctetsOfValue(Octets(x, 4));
    OctetsOfValue(Octets(y, 4));
  }

  /** Arithmetic shift right. */
  function ShiftRight(x: int, n: nat): int
    decreases n
  {
    if n == 0 then x else ShiftRight(x / 2, n - 1)
  }

  /** `prefix2mask`: 0xFFFFFFFF00000000L is -2^32; the final `&` keeps 32 bits. */
  function Prefix2Mask(bits: nat): nat {
    ShiftRight(-SPACE, bits) % SPACE
  }

  lemma {:induction false} ShiftedOnes(n: nat, k: nat)
    requires k <= n
    ensures ShiftRight(0 - Pow2(n), k) == 0 - Pow2(n - k)
    decreases k
  {
    if k > 0 { ShiftedOnes(n - 1, k - 1); }
  }

  lemma MaskValue(bits: nat)
    requires bits <= 32
    ensures Pow2(32 - bits) <= SPACE && Prefix2Mask(bits) == SPACE - Pow2(32 - bits)
  {
    var n := 32;
    Pow2Of32();
    Pow2Mono(n - bits, n);
    ShiftedOnes(n, bits);
  }

  /** Masking an address keeps it exactly when it is aligned to the block size. */
  lemma MaskTestsAlignment(x: nat, bits: nat)
    requires x < SPACE && bits <= 32
    ensures And(x, Prefix2Mask(bits)) == x <==> Aligned(x, 32 - bits)
  {
    MaskValue(bits);
    Pow2Of32();
    var n := 32;
    AndMask(x, n - bits, n);
  }

  /** The position of the highest one bit. */
  function FloorLog2(n: nat): (k: nat)
    requires n > 0
    ensures Pow2(k) <= n < Pow2(k + 1)
  {
    if n == 1 then 0 else 1 + FloorLog2(n / 2)
  }

  datatype Block = Block(address: Address, prefix: nat) {
    function GetStart(): Address {
      Octets(And(Value(address), Prefix2Mask(prefix)), 4)
    }

    function GetEnd(): Address
      requires prefix <= 32
    {
      Octets(And(Value(address), Prefix2Mask(prefix)) + Pow2(32 - prefix) - 1, 4)
    }

    function CompareTo(other: Block): int {
      if Value(address) < Value(other.address) then -1
      else if Value(address) == Value(other.address) then 0 else 1
    }
  }

  /** `compareTo` orders blocks by their addresses, and only equal addresses compare as equal. */
  lemma CompareToOrders(a: Block, b: Block)
    ensures a.CompareTo(b) < 0 <==> Value(a.address) < Value(b.address)
    ensures a.CompareTo(b) == 0 <==> a.address == b.address
    ensures a.CompareTo(b) == 0 - b.CompareTo(a)
  {
    OctetsOfValue(a.address);
    OctetsOfValue(b.address);
  }

  type exp = k: int | 0 <= k <= 32

  /** A block of 2^k addresses may start at `from` and stays within `to`. */
  ghost predicate Fits(from: nat, to: int, k: exp) {
    Aligned(from, k) && from + Pow2(k) - 1 <= to
  }

  ghost predicate IsBest(from: nat, to: int, b: exp) {
    Fits(from, to, b) && forall j: exp :: Fits(from, to, j) ==> j <= b
  }

  /** The largest exponent that fits. */
  ghost function Best(from: nat, to: int): (b: exp)
    requires from <= to
    ensures IsBest(from, to, b)
  {
    BestExists(from, to, 0);
    var b: exp :| IsBest(from, to, b);
    b
  }

  lemma {:induction false} BestExists(from: nat, to: int, k: exp)
    requires from <= to && Fits(from, to, k)
    ensures exists b: exp :: IsBest(from, to, b)
    decreases 32 - k
  {
    if j: exp :| j > k && Fits(from, to, j) {
      BestExists(from, to, j);
    } else {
      assert IsBest(from, to, k);
    }
  }

  /** The specification: always take the largest block that fits. Entries are block exponents. */
  ghost function Greedy(from: nat, to: int): seq<exp>
    decreases 1 + to - from
  {
    if from > to then [] else [Best(from, to)] + Greedy(from + Pow2(Best(from, to)), to)
  }

  /** The blocks with these exponents, laid end to end from `from`. */
  function Blocks(from: nat, exps: seq<exp>): (b: seq<Block>)
    ensures |b| == |exps|
    decreases |exps|
  {
    if exps == [] then [] else [Block(Octets(from, 4), 32 - exps[0])] + Blocks(from + Pow2(exps[0]), exps[1..])
  }

  /** The loops of `toCIDR` compute the best exponent: one by alignment, one by size, then the smaller. */
  lemma BestIsMinimum(from: nat, to: int, align: exp, size: exp)
    requires from <= to
    requires Aligned(from, align) && (align == 32 || !Aligned(from, align + 1))
    requires Pow2(size) <= to - from + 1 < Pow2(size + 1)
    ensures Best(from, to) == if align < size then align else size
  {
    var b := Best(from, to);
    var m := if align < size then align else size;
    AlignedDown(from, m, align);
    Pow2Mono(m, size);
    assert Fits(from, to, m);
    if b > align { AlignedDown(from, align + 1, b); }
    if b > size { Pow2Mono(size + 1, b); }
  }

  /** The inner loop of `toCIDR`: the shortest prefix whose mask keeps `from`. */
  method AlignmentPrefix(from: nat) returns (prefix: nat)
    requires from < SPACE
    ensures prefix <= 32 && Aligned(from, 32 - prefix)
    ensures prefix > 0 ==> !Aligned(from, 32 - prefix + 1)
  {
    prefix := 32;
    while prefix > 0
      invariant prefix <= 32 && Aligned(from, 32 - prefix)
    {
      var mask := Prefix2Mask(prefix - 1);
      MaskTestsAlignment(from, prefix - 1);
      if And(from, mask) != from {
        break;
      }
      prefix := prefix - 1;
    }
  }

  /** The body of the outer loop of `toCIDR`: the shorter of the alignment and the size prefix. */
  method BlockPrefix(from: nat, to: nat) returns (prefix: nat)
    requires from <= to < SPACE
    ensures prefix == 32 - Best(from, to)
  {
    prefix := AlignmentPrefix(from);
    BestWithin(from, to, 32 - prefix);
    var max := 32 - FloorLog2(to - from + 1);
    if prefix < max {
      prefix := max;
    }
  }

  lemma BlocksStep(done: seq<Block>, from: nat, to: int)
    requires from <= to
    ensures var b := Best(from, to);
            done + Blocks(from, Greedy(from, to))
            == done + [Block(Octets(from, 4), 32 - b)] + Blocks(from + Pow2(b), Greedy(from + Pow2(b), to))
  {
    var g := Greedy(from, to);
    assert g[0] == Best(from, to) && g[1..] == Greedy(from + Pow2(g[0]), to);
  }

  /** `toCIDR` */
  method ToCidr(start: Address, end: Address) returns (blocks: seq<Block>)
    ensures blocks == Blocks(Value(start), Greedy(Value(start), Value(end)))
  {
    hide Blocks, Greedy, Value, Octets, Pow2;
    var from: int := Inet2Long(start);
    var to: int := Inet2Long(end);
    AddressBound(start);
    AddressBound(end);
    blocks := [];
    while to >= from
      invariant from >= 0 && to == Value(end) < SPACE
      invariant blocks + Blocks(from, Greedy(from, to)) == Blocks(Value(start), Greedy(Value(start), to))
      decreases 1 + to - from
    {
      var prefix := BlockPrefix(from, to);
      var a := Long2Inet(from);
      BlocksStep(blocks, from, to);
      blocks := blocks + [Block(a[..], prefix)];
      from := from + Pow2(32 - prefix);
    }
    NothingLeft(from, to);
  }

  lemma NothingLeft(from: nat, to: int)
    requires to < from
    ensures Blocks(from, Greedy(from, to)) == []
  {
  }

  lemma BestWithin(from: nat, to: nat, align: exp)
    requires from <= to < SPACE
    requires Aligned(from, align) && (align == 32 || !Aligned(from, align + 1))
    ensures FloorLog2(to - from + 1) <= 32
    ensures Best(from, to) == if align < FloorLog2(to - from + 1) then align else FloorLog2(to - from + 1)
  {
    var size := FloorLog2(to - from + 1);
    Pow2Of32();
    if size > 32 { Pow2Mono(33, size); }
    BestIsMinimum(from, to, align, size);
  }
}
