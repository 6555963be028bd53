/** What `toCIDR` promises: the blocks partition the range exactly, no partition into aligned power-of-two
    blocks is shorter, sizes rise and then fall, and there are at most 62 of them. */
module CidrResults {
  import opened Bits
  import opened Cidr

  /** Any way of cutting [from, to] into aligned blocks of 2^k addresses, listed in order. */
  ghost predicate Tiles(from: nat, to: int, exps: seq<exp>)
    decreases |exps|
  {
    if exps == [] then from == to + 1
    else Fits(from, to, exps[0]) && Tiles(from + Pow2(exps[0]), to, exps[1..])
  }

  lemma {:induction false} GreedyTiles(from: nat, to: int)
    requires from <= to + 1
    ensures Tiles(from, to, Greedy(from, to))
    decreases 1 + to - from
  {
    if from <= to {
      GreedyTiles(from + Pow2(Best(from, to)), to);
      assert Greedy(from, to)[1..] == Greedy(from + Pow2(Best(from, to)), to);
    }
  }

  // ---- Exact partition ----

  function Pos(from: nat, exps: seq<exp>, i: nat): nat
    requires i <= |exps|
    decreases i
  {
    if i == 0 then from else Pos(from + Pow2(exps[0]), exps[1..], i - 1)
  }

  lemma {:induction false} BlockAt(from: nat, exps: seq<exp>, i: nat)
    requires i < |exps|
    ensures Blocks(from, exps)[i] == Block(Octets(Pos(from, exps, i), 4), 32 - exps[i])
    ensures Pos(from, exps, i + 1) == Pos(from, exps, i) + Pow2(exps[i])
    decreases i
  {
    if i > 0 { BlockAt(from + Pow2(exps[0]), exps[1..], i - 1); }
  }

  lemma {:induction false} TileAt(from: nat, to: int, exps: seq<exp>, i: nat)
    requires Tiles(from, to, exps) && i <= |exps|
    ensures i < |exps| ==> Fits(Pos(from, exps, i), to, exps[i])
    ensures i == |exps| ==> Pos(from, exps, i) == to + 1
    decreases i
  {
    if i > 0 { TileAt(from + Pow2(exps[0]), to, exps[1..], i - 1); }
  }

  lemma {:induction false} PosAscends(from: nat, exps: seq<exp>, i: nat, j: nat)
    requires i <= j <= |exps|
    ensures Pos(from, exps, j) >= Pos(from, exps, i) + (j - i)
  {
    if i < j {
      PosAscends(from, exps, i, j - 1);
      BlockAt(from, exps, j - 1);
    }
  }

  /** The block at an aligned position starts there and ends 2^k - 1 later. */
  lemma BlockBounds(pos: nat, k: exp)
    requires pos + Pow2(k) <= SPACE && Aligned(pos, k)
    ensures var b := Block(Octets(pos, 4), 32 - k);
            Value(b.address) == pos && b.GetStart() == Octets(pos, 4) && b.GetEnd() == Octets(pos + Pow2(k) - 1, 4)
  {
    ValueOfAddress(pos);
    RemainderUnique(pos, SPACE, 0, pos);
    MaskTestsAlignment(pos, 32 - k);
  }

  /** Block b covers exactly the addresses p, ..., q - 1 and is stored under its own first address. */
  ghost predicate Covers(b: Block, p: nat, q: nat) {
    && p < q <= SPACE && b.prefix <= 32 && Value(b.address) == p
    && b.GetStart() == b.address == Octets(p, 4) && b.GetEnd() == Octets(q - 1, 4)
  }

  ghost predicate Laid(blocks: seq<Block>, from: nat, exps: seq<exp>) {
    && |blocks| == |exps|
    && forall i :: 0 <= i < |blocks| ==> Covers(blocks[i], Pos(from, exps, i), Pos(from, exps, i + 1))
  }

  lemma GreedyBlocksLaid(from: nat, to: nat)
    requires from <= to < SPACE
    ensures Laid(Blocks(from, Greedy(from, to)), from, Greedy(from, to))
  {
    hide Pos, Covers, Blocks, Greedy, Tiles;
    var exps := Greedy(from, to);
    var blocks := Blocks(from, exps);
    GreedyTiles(from, to);
    forall i | 0 <= i < |blocks|
      ensures Covers(blocks[i], Pos(from, exps, i), Pos(from, exps, i + 1))
    {
      BlockLaid(from, to, exps, i);
    }
  }

  lemma BlockLaid(from: nat, to: nat, exps: seq<exp>, i: nat)
    requires to < SPACE && Tiles(from, to, exps) && i < |exps|
    ensures Covers(Blocks(from, exps)[i], Pos(from, exps, i), Pos(from, exps, i + 1))
  {
    hide Pos, Blocks, Tiles, Pow2, Octets, Value, Aligned, Block.GetStart, Block.GetEnd;
    BlockAt(from, exps, i);
    TileAt(from, to, exps, i);
    BlockBounds(Pos(from, exps, i), exps[i]);
  }

  ghost predicate WellFormed(blocks: seq<Block>) {
    forall i :: 0 <= i < |blocks| ==> blocks[i].prefix <= 32 && blocks[i].GetStart() == blocks[i].address
  }

  ghost predicate Adjacent(blocks: seq<Block>)
    requires WellFormed(blocks)
  {
    forall i :: 0 < i < |blocks| ==> blocks[i].GetStart() == Plus1(blocks[i - 1].GetEnd())
  }

  ghost predicate Ascending(blocks: seq<Block>) {
    forall i, j :: 0 <= i < j < |blocks| ==> blocks[i].CompareTo(blocks[j]) < 0
  }

  /** `toCIDR` covers the range exactly: aligned blocks, end to end, in strictly ascending order. */
  lemma ToCidrPartition(start: Address, end: Address)
    ensures var blocks := Blocks(Value(start), Greedy(Value(start), Value(end)));
            && WellFormed(blocks) && Adjacent(blocks) && Ascending(blocks)
            && (blocks == [] <==> Value(start) > Value(end))
            && (blocks != [] ==> blocks[0].GetStart() == start && blocks[|blocks| - 1].GetEnd() == end)
  {
    var from, to := Value(start), Value(end);
    AddressBound(end);
    if from <= to {
      var exps := Greedy(from, to);
      var blocks := Blocks(from, exps);
      GreedyTiles(from, to);
      GreedyBlocksLaid(from, to);
      LaidIsAdjacent(blocks, from, exps);
      LaidSpans(blocks, start, end, exps);
    }
  }

  lemma LaidSpans(blocks: seq<Block>, start: Address, end: Address, exps: seq<exp>)
    requires blocks != [] && Laid(blocks, Value(start), exps) && Tiles(Value(start), Value(end), exps)
    ensures WellFormed(blocks) && blocks[0].GetStart() == start && blocks[|blocks| - 1].GetEnd() == end
  {
    var n := |blocks|;
    LaidIsAdjacent(blocks, Value(start), exps);
    TileAt(Value(start), Value(end), exps, n);
    OctetsOfValue(start);
    OctetsOfValue(end);
    assert Covers(blocks[0], Pos(Value(start), exps, 0), Pos(Value(start), exps, 1));
    assert Covers(blocks[n - 1], Pos(Value(start), exps, n - 1), Pos(Value(start), exps, n));
  }

  lemma LaidIsAdjacent(blocks: seq<Block>, from: nat, exps: seq<exp>)
    requires Laid(blocks, from, exps)
    ensures WellFormed(blocks) && Adjacent(blocks) && Ascending(blocks)
  {
    forall i | 0 <= i < |blocks|
      ensures blocks[i].prefix <= 32 && blocks[i].GetStart() == blocks[i].address
    {
      assert Covers(blocks[i], Pos(from, exps, i), Pos(from, exps, i + 1));
    }
    forall i | 0 < i < |blocks|
      ensures blocks[i].GetStart() == Plus1(blocks[i - 1].GetEnd())
    {
      assert Covers(blocks[i - 1], Pos(from, exps, i - 1), Pos(from, exps, i));
      assert Covers(blocks[i], Pos(from, exps, i), Pos(from, exps, i + 1));
      EndThenStart(Pos(from, exps, i));
    }
    forall i, j | 0 <= i < j < |blocks|
      ensures blocks[i].CompareTo(blocks[j]) < 0
    {
      assert Covers(blocks[i], Pos(from, exps, i), Pos(from, exps, i + 1));
      assert Covers(blocks[j], Pos(from, exps, j), Pos(from, exps, j + 1));
      PosAscends(from, exps, i, j);
    }
  }

  lemma EndThenStart(p: nat)
    requires 0 < p <= SPACE
    ensures Plus1(Octets(p - 1, 4)) == Octets(p, 4)
  {
    ValueOfAddress(p - 1);
    RemainderUnique(p - 1, SPACE, 0, p - 1);
  }

  // ---- Optimality ----

  /** Inside an aligned block of size 2^k, aligned pieces no larger than what is left never stick out of it:
      the pieces from `pos` first fill the block exactly. */
  lemma {:induction false} PiecesFillBlock(block: nat, k: exp, pos: nat, to: int, exps: seq<exp>) returns (m: nat)
    requires Aligned(block, k) && block + Pow2(k) <= to + 1
    requires block < pos <= block + Pow2(k) && Tiles(pos, to, exps)
    ensures m <= |exps| && Tiles(block + Pow2(k), to, exps[m..])
    ensures pos < block + Pow2(k) ==> m > 0
    decreases |exps|
  {
    if pos == block + Pow2(k) {
      m := 0;
      assert exps[0..] == exps;
    } else {
      var j := exps[0];
      PieceInside(block, k, pos, j);
      m := PiecesFillBlock(block, k, pos + Pow2(j), to, exps[1..]);
      assert exps[1..][m..] == exps[m + 1..];
      m := m + 1;
    }
  }

  lemma PieceInside(block: nat, k: nat, pos: nat, j: nat)
    requires Aligned(block, k) && Aligned(pos, j) && block < pos < block + Pow2(k)
    ensures pos + Pow2(j) <= block + Pow2(k)
  {
    if j >= k {
      AlignedDown(pos, k, j);
      AlignedDifference(pos, block, k);
      AlignedAtLeast(pos - block, k);
    } else {
      AlignedStep(block, k);
      AlignedDown(block + Pow2(k), j, k);
      AlignedDifference(block + Pow2(k), pos, j);
      AlignedAtLeast(block + Pow2(k) - pos, j);
    }
  }

  /** No partition of the range has fewer blocks than the greedy one, and only the greedy one has as few. */
  lemma {:induction false} GreedyIsOptimal(from: nat, to: int, exps: seq<exp>)
    requires Tiles(from, to, exps)
    ensures |Greedy(from, to)| <= |exps|
    ensures |Greedy(from, to)| == |exps| ==> Greedy(from, to) == exps
    decreases |exps|
  {
    if exps != [] {
      var k, j := Best(from, to), exps[0];
      var next := from + Pow2(k);
      assert Greedy(from, to) == [k] + Greedy(next, to);
      if j == k {
        GreedyIsOptimal(next, to, exps[1..]);
        assert exps == [j] + exps[1..];
      } else {
        Pow2Mono(j, k);
        var m := PiecesFillBlock(from, k, from + Pow2(j), to, exps[1..]);
        GreedyIsOptimal(next, to, exps[1..][m..]);
      }
    }
  }

  // ---- Shape ----

  ghost predicate Falling(exps: seq<exp>) {
    forall i :: 0 <= i < |exps| - 1 ==> exps[i] > exps[i + 1]
  }

  /** Strictly rising up to index p, then (after at most one repetition of the peak) strictly falling. */
  ghost predicate PeaksAt(exps: seq<exp>, p: nat) {
    && p < |exps|
    && (forall i :: 0 <= i < p ==> exps[i] < exps[i + 1])
    && (p + 1 < |exps| ==> exps[p] >= exps[p + 1])
    && Falling(exps[p + 1..])
  }

  /** Once size, not alignment, limits a block, every later block is smaller. */
  lemma {:induction false} SizeLimited(from: nat, to: int, k: nat)
    requires Aligned(from, k) && to + 1 - from < Pow2(k) && to < SPACE
    ensures Falling(Greedy(from, to))
    ensures from <= to ==> Best(from, to) < k
    decreases 1 + to - from
  {
    if from <= to {
      var b := Best(from, to);
      if b >= k { Pow2Mono(k, b); }
      var next := from + Pow2(b);
      if b < 32 {
        AlignedDown(from, b + 1, k);
        assert !Fits(from, to, b + 1);
        assert Pow2(b + 1) == 2 * Pow2(b);
      } else {
        WholeSpaceAlone(from, to);
        Pow2Of32();
      }
      AlignedStep(from, b);
      SizeLimited(next, to, b);
      var g, r := Greedy(from, to), Greedy(next, to);
      assert g == [b] + r;
    }
  }

  lemma AlignedStep(from: nat, b: nat)
    requires Aligned(from, b)
    ensures Aligned(from + Pow2(b), b)
  {
    AlignedPow2(b);
    AlignedSum(from, Pow2(b), b);
  }

  lemma {:induction false} GreedyPeaks(from: nat, to: int) returns (p: nat)
    requires from <= to < SPACE
    ensures PeaksAt(Greedy(from, to), p)
    decreases 1 + to - from
  {
    var b := Best(from, to);
    var next := from + Pow2(b);
    var g, r := Greedy(from, to), Greedy(next, to);
    assert g == [b] + r;
    p := 0;
    WholeSpaceAlone(from, to);
    Pow2Of32();
    if next <= to && b < 32 {
      AlignedStep(from, b);
      assert Pow2(b + 1) == 2 * Pow2(b);
      if Aligned(from, b + 1) {
        assert !Fits(from, to, b + 1);
        SizeLimited(next, to, b);
        assert g[1..] == r;
      } else {
        CarryAlignment(from, b);
        if Best(next, to) > b {
          p := GreedyPeaks(next, to);
          PeakShift(b, r, p);
          p := p + 1;
        } else {
          assert !Fits(next, to, b + 1);
          SizeLimited(next, to, b + 1);
          assert g[1..] == r;
        }
      }
    }
  }

  lemma PeakShift(b: exp, r: seq<exp>, p: nat)
    requires PeaksAt(r, p) && b < r[0]
    ensures PeaksAt([b] + r, p + 1)
  {
    assert ([b] + r)[p + 2..] == r[p + 1..];
  }

  /** A block of 2^32 addresses is the whole space and so the only block. */
  lemma WholeSpaceAlone(from: nat, to: int)
    requires from <= to < SPACE
    ensures Best(from, to) == 32 ==> from == 0 && to + 1 == SPACE
  {
    Pow2Of32();
  }

  lemma {:induction false} RisingBound(exps: seq<exp>, p: nat)
    requires p < |exps| && forall i :: 0 <= i < p ==> exps[i] < exps[i + 1]
    ensures exps[p] >= p
  {
    if p > 0 { RisingBound(exps, p - 1); }
  }

  lemma {:induction false} FallingBound(exps: seq<exp>)
    requires Falling(exps)
    ensures exps != [] ==> |exps| - 1 <= exps[0]
  {
    if |exps| > 1 { FallingBound(exps[1..]); }
  }

  /** Sizes rise strictly to a peak and fall strictly after it, and there are at most 62 blocks. */
  lemma GreedyShape(from: nat, to: int) returns (p: nat)
    requires from <= to < SPACE
    ensures PeaksAt(Greedy(from, to), p)
    ensures |Greedy(from, to)| <= 62
  {
    p := GreedyPeaks(from, to);
    var g := Greedy(from, to);
    var n := |g|;
    RisingBound(g, p);
    FallingBound(g[p + 1..]);
    GreedyTiles(from, to);
    TileAt(from, to, g, p);
    PosAscends(from, g, 0, p);
    if g[p] >= 31 {
      var at := Pos(from, g, p);
      Pow2Of32();
      AlignedDown(at, 31, g[p]);
      Pow2Mono(31, g[p]);
      if at > 0 {
        AlignedAtLeast(at, 31);
        AlignedPow2(31);
        AlignedDifference(at, 0x8000_0000, 31);
        AlignedBelowIsZero(at - 0x8000_0000, 31);
      }
      if at > 0 {
        BlockAt(from, g, p);
        if p + 1 < n { TileAt(from, to, g, p + 1); }
      }
    }
  }
}
