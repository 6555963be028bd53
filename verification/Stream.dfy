/** The segment queue against the peer's byte stream.

    Byte i of the stream has sequence number base + i. However segments arrive and however sends split them, what
    has been forwarded is a prefix of the stream; and when the stream is cut into fixed tiles, the queue is always
    the tiles that have arrived and are not forwarded, so nothing depends on the order of arrival. */
module Stream {
  import opened Serial
  import opened Wire
  import opened Segments

  /** Peer segments lie inside a window of at most this many bytes around the next expected byte. */
  const WINDOW: int := 0x4000_0000
  /** A partly sent head can begin this far before the next expected byte. */
  const BEHIND: int := 0xFFFF

  /** The first `len` bytes a segment holds are the stream's bytes at its position. */
  ghost predicate CutFrom(s: Segment, off: int, stream: Bytes) {
    && s.Valid() && 0 <= off && off + s.len <= |stream|
    && s.data[..s.len] == stream[off..off + s.len]
  }

  ghost predicate Cuts(q: seq<Segment>, offs: seq<int>, stream: Bytes, limit: int)
    requires |offs| == |q|
  {
    forall i :: 0 <= i < |q| ==> CutFrom(q[i], offs[i], stream) && offs[i] + q[i].len <= limit
  }

  ghost predicate OnlyHeadSent(q: seq<Segment>, offs: seq<int>, pos: nat)
    requires |offs| == |q|
  {
    && (forall i :: 0 < i < |q| ==> q[i].sent == 0)
    && (q != [] && q[0].sent > 0 ==> offs[0] + q[0].sent == pos)
  }

  /** The queue holds pieces of the stream, located around position `pos`, and only the head is partly sent. */
  ghost predicate Holds(q: seq<Segment>, offs: seq<int>, base: int, stream: Bytes, pos: nat) {
    && Located(q, base, offs, pos - BEHIND, pos + WINDOW)
    && Cuts(q, offs, stream, pos + WINDOW) && OnlyHeadSent(q, offs, pos)
  }

  /** A packet's data is a piece of the stream inside the window. */
  ghost predicate InWindow(seqNo: u32, data: Bytes, off: nat, base: int, stream: Bytes, pos: nat) {
    && seqNo == Wrap(base + off) && |data| < 0x1_0000
    && pos - WINDOW <= off && off + |data| <= pos + WINDOW
    && off + |data| <= |stream| && data == stream[off..off + |data|]
  }

  // ---- Arrival ----

  /** Queueing keeps what the queue holds. `next` is the position of the next expected byte; it is -1 while the
      peer's SYN has not been counted. */
  lemma EnqueueHolds(q: seq<Segment>, offs: seq<int>, base: int, stream: Bytes, pos: nat, next: int,
                     seqNo: u32, data: Bytes, psh: bool, off: nat) returns (offs': seq<int>)
    requires Holds(q, offs, base, stream, pos) && InWindow(seqNo, data, off, base, stream, pos)
    requires next == pos || (next == -1 && pos == 0)
    ensures Holds(Enqueue(q, Wrap(base + next), seqNo, data, psh), offs', base, stream, pos)
  {
    hide Wrap, Compare, Place;
    CompareOffsets(base, off, next);
    if off < next {
      offs' := offs;
    } else {
      var k := PlaceLocated(q, base, offs, pos - BEHIND, pos + WINDOW, off, data, psh);
      offs' := Inserted(offs, k, off);
      PlacedHolds(q, offs, base, stream, pos, k, off, Fresh(seqNo, data, psh));
    }
  }

  lemma PlacedHolds(q: seq<Segment>, offs: seq<int>, base: int, stream: Bytes, pos: nat, k: nat, off: nat, s: Segment)
    requires Holds(q, offs, base, stream, pos) && SlotAt(offs, off, k) && pos <= off
    requires CutFrom(s, off, stream) && s.sent == 0 && off + s.len <= pos + WINDOW && s.data == s.data[..s.len]
    requires s.seqNo == Wrap(base + off)
    ensures Holds(Placed(q, k, k < |q| && offs[k] == off, s), Inserted(offs, k, off), base, stream, pos)
  {
    hide Wrap, CutFrom;
    PlacedLocated(q, base, offs, pos - BEHIND, pos + WINDOW, off, k, s);
    PlacedCuts(q, offs, stream, pos + WINDOW, k, off, s);
    if q != [] && q[0].sent > 0 {
      assert offs[0] < pos;
    }
  }

  lemma PlacedCuts(q: seq<Segment>, offs: seq<int>, stream: Bytes, limit: int, k: nat, off: int, s: Segment)
    requires |offs| == |q| && Cuts(q, offs, stream, limit) && k <= |q|
    requires CutFrom(s, off, stream) && off + s.len <= limit && s.data == s.data[..s.len]
    ensures var again := k < |q| && offs[k] == off;
            var r := Placed(q, k, again, s);
            |r| == |Inserted(offs, k, off)| && Cuts(r, Inserted(offs, k, off), stream, limit)
  {
    hide CutFrom;
    if k < |q| && offs[k] == off {
      assert CutFrom(q[k], off, stream);
      if q[k].len < s.len { LongerDataCut(q[k], s, off, stream); }
    }
  }

  /** Longer data for the same position begins with the same bytes. */
  lemma LongerDataCut(t: Segment, s: Segment, off: int, stream: Bytes)
    requires CutFrom(t, off, stream) && CutFrom(s, off, stream) && t.len < s.len
    ensures CutFrom(t.(data := s.data), off, stream)
  {
    assert s.data[..t.len] == s.data[..s.len][..t.len] == stream[off..off + s.len][..t.len];
  }

  // ---- Forwarding ----

  /** The head of a ready queue starts exactly where the stream has got to. */
  lemma HeadAtPosition(s: Segment, off: int, base: int, pos: int, next: int)
    requires s.seqNo == Wrap(base + off) && 0 <= s.sent < 0x1_0000 && pos - BEHIND <= off <= pos + WINDOW
    requires -1 <= next - pos <= 1
    ensures Wrap(s.seqNo + s.sent) == Wrap(base + next) <==> off + s.sent == next
  {
    WrapAdd(base + off, s.sent);
    DistOffsets(base, off + s.sent, next);
    WrapNear(next - (off + s.sent));
  }

  lemma AdvanceHolds(p: Pass, n: nat, offs: seq<int>, base: int, stream: Bytes, pos: nat) returns (offs': seq<int>)
    requires Holds(p.queue, offs, base, stream, pos) && AllValid(p.queue) && p.Ready()
    requires p.remoteSeq == Wrap(base + pos) && p.out <= stream && |p.out| == pos
    requires n <= p.queue[0].len - p.queue[0].sent
    ensures var r := p.Advance(n);
            && Holds(r.queue, offs', base, stream, pos + n) && r.remoteSeq == Wrap(base + (pos + n))
            && r.out <= stream && |r.out| == pos + n
  {
    hide Wrap, Cuts, OnlyHeadSent, Located, Pass.Advance, OffsetsAfter;
    HeadCut(p.queue, offs, base, stream, pos);
    AdvanceBytes(p, n, offs[0], base, stream, pos);
    AdvancedLocated(p, n, offs, base, pos);
    AdvancedCuts(p, n, offs, stream, pos);
    offs' := OffsetsAfter(p.queue[0], n, offs);
  }

  /** The bytes sent are the next ones of the stream, and the next expected number moves along. */
  lemma AdvanceBytes(p: Pass, n: nat, off: int, base: int, stream: Bytes, pos: nat)
    requires p.queue != [] && p.queue[0].Valid() && p.Ready() && n <= p.queue[0].len - p.queue[0].sent
    requires CutFrom(p.queue[0], off, stream) && p.queue[0].seqNo == Wrap(base + off)
    requires pos - BEHIND <= off <= pos + WINDOW
    requires p.remoteSeq == Wrap(base + pos) && p.out <= stream && |p.out| == pos
    ensures off + p.queue[0].sent == pos && pos + n <= |stream|
    ensures p.Advance(n).remoteSeq == Wrap(base + (pos + n))
    ensures p.Advance(n).out <= stream && |p.Advance(n).out| == pos + n
  {
    hide Wrap, CutFrom, Pass.Advance;
    var s := p.queue[0];
    HeadAtPosition(s, off, base, pos, pos);
    WrapAdd(base + off, s.sent + n);
    assert base + off + (s.sent + n) == base + (pos + n);
    NextBytes(s, off, stream, n);
    PrefixGrows(p.out, stream, n);
    AdvancedHead(p, n);
  }

  lemma PrefixGrows(out: Bytes, stream: Bytes, n: nat)
    requires out <= stream && |out| + n <= |stream|
    ensures out + stream[|out|..|out| + n] == stream[..|out| + n]
  {
  }

  lemma AdvancedHead(p: Pass, n: nat)
    requires p.queue != [] && p.queue[0].Valid() && n <= p.queue[0].len - p.queue[0].sent && n <= p.budget
    ensures var s := p.queue[0];
            && p.Advance(n).remoteSeq == Wrap(s.seqNo + (s.sent + n))
            && p.Advance(n).out == p.out + s.data[s.sent..s.sent + n]
  {
    hide Wrap;
  }

  lemma HeadCut(q: seq<Segment>, offs: seq<int>, base: int, stream: Bytes, pos: nat)
    requires Holds(q, offs, base, stream, pos) && q != []
    ensures |offs| == |q| && CutFrom(q[0], offs[0], stream) && q[0].seqNo == Wrap(base + offs[0])
    ensures pos - BEHIND <= offs[0] <= pos + WINDOW
  {
  }

  lemma NextBytes(s: Segment, off: int, stream: Bytes, n: nat)
    requires CutFrom(s, off, stream) && s.sent + n <= s.len
    ensures 0 <= off && off + s.len <= |stream| && s.len <= |s.data|
    ensures s.data[s.sent..s.sent + n] == stream[off + s.sent..off + s.sent + n]
  {
    SubSlice(s.data, 0, s.len, s.sent, s.sent + n);
    SubSlice(stream, off, off + s.len, s.sent, s.sent + n);
    assert s.data[0..s.len] == s.data[..s.len];
  }

  lemma SubSlice(b: Bytes, i: nat, j: nat, k: nat, l: nat)
    requires i <= j <= |b| && k <= l <= j - i
    ensures b[i..j][k..l] == b[i + k..i + l]
  {
    assert forall x :: 0 <= x < l - k ==> b[i..j][k..l][x] == b[i..j][k + x] == b[i + k + x];
  }

  ghost function OffsetsAfter(s: Segment, n: nat, offs: seq<int>): seq<int>
    requires offs != []
  {
    if s.sent + n == s.len then offs[1..] else offs
  }

  lemma AdvancedLocated(p: Pass, n: nat, offs: seq<int>, base: int, pos: nat)
    requires Located(p.queue, base, offs, pos - BEHIND, pos + WINDOW) && p.queue != [] && p.queue[0].Valid()
    requires offs != []
    requires n <= p.queue[0].len - p.queue[0].sent && n <= p.budget && offs[0] + p.queue[0].sent == pos
    ensures Located(p.Advance(n).queue, base, OffsetsAfter(p.queue[0], n, offs), pos + n - BEHIND, pos + n + WINDOW)
  {
    hide Wrap, Located;
    var s := p.queue[0];
    var r := p.Advance(n).queue;
    LocatedMoves(p.queue, base, offs, pos - BEHIND, pos + WINDOW, n);
    if s.sent + n == s.len {
      assert r == p.queue[1..];
    } else {
      LocatedSame(p.queue, r, base, offs, pos + n - BEHIND, pos + n + WINDOW);
    }
  }

  lemma LocatedMoves(q: seq<Segment>, base: int, offs: seq<int>, low: int, high: int, n: nat)
    requires Located(q, base, offs, low, high) && q != [] && low + n <= offs[0]
    ensures Located(q, base, offs, low + n, high + n) && Located(q[1..], base, offs[1..], low + n, high + n)
  {
    hide Wrap, Rising;
    TailRises(offs);
  }

  lemma LocatedSame(q: seq<Segment>, r: seq<Segment>, base: int, offs: seq<int>, low: int, high: int)
    requires Located(q, base, offs, low, high) && |r| == |q|
    requires forall i :: 0 <= i < |r| ==> r[i].seqNo == q[i].seqNo
    ensures Located(r, base, offs, low, high)
  {
    hide Wrap, Rising;
  }

  lemma TailRises(offs: seq<int>)
    requires Rising(offs) && offs != []
    ensures Rising(offs[1..]) && forall i :: 0 <= i < |offs| - 1 ==> offs[1..][i] > offs[0]
    ensures forall i :: 0 <= i < |offs| ==> offs[i] >= offs[0]
  {
  }

  lemma AdvancedCuts(p: Pass, n: nat, offs: seq<int>, stream: Bytes, pos: nat)
    requires |offs| == |p.queue| && Cuts(p.queue, offs, stream, pos + WINDOW) && OnlyHeadSent(p.queue, offs, pos)
    requires p.queue != [] && p.queue[0].Valid() && n <= p.queue[0].len - p.queue[0].sent && n <= p.budget
    requires offs[0] + p.queue[0].sent == pos
    ensures var r, o := p.Advance(n).queue, OffsetsAfter(p.queue[0], n, offs);
            Cuts(r, o, stream, pos + n + WINDOW) && OnlyHeadSent(r, o, pos + n)
  {
    hide Wrap;
    var s := p.queue[0];
    var r, o := p.Advance(n).queue, OffsetsAfter(s, n, offs);
    forall i | 0 <= i < |r|
      ensures CutFrom(r[i], o[i], stream) && o[i] + r[i].len <= pos + n + WINDOW
      ensures i > 0 ==> r[i].sent == 0
    {
      var j := if s.sent + n == s.len then i + 1 else i;
      assert o[i] == offs[j] && (j > 0 ==> r[i] == p.queue[j]);
      assert CutFrom(p.queue[j], offs[j], stream);
    }
  }

  /** A forwarding pass sends the next bytes of the stream and no others. */
  lemma {:induction false} ForwardHolds(p: Pass, sends: nat -> SendResult, offs: seq<int>, base: int, stream: Bytes,
                                         pos: nat, next: int) returns (offs': seq<int>)
    requires Holds(p.queue, offs, base, stream, pos) && AllValid(p.queue)
    requires p.remoteSeq == Wrap(base + next) && p.out <= stream && |p.out| == pos
    requires next == pos || (next == -1 && pos == 0) || (next == pos + 1 && p.queue == [])
    ensures var r := Forward(p, sends);
            && Holds(r.queue, offs', base, stream, |r.out|) && r.out <= stream
            && r.remoteSeq == Wrap(base + (next - pos + |r.out|))
            && (next != pos ==> r == p)
    decreases |p.queue|
  {
    hide Wrap, Pass.Advance, Holds, InWindow, Located;
    offs' := offs;
    if p.queue != [] {
      HeadNext(p, offs, base, stream, pos, next);
    }
    if p.Ready() && sends(p.calls).Accepted? {
      var left := p.queue[0].len - p.queue[0].sent;
      var n := if sends(p.calls).n >= left then left else sends(p.calls).n;
      offs' := AdvanceHolds(p, n, offs, base, stream, pos);
      if n == left {
        AdvanceBudget(p, n);
        offs' := ForwardHolds(p.Advance(left), sends, offs', base, stream, pos + n, pos + n);
      }
    }
  }

  lemma HeadNext(p: Pass, offs: seq<int>, base: int, stream: Bytes, pos: nat, next: int)
    requires Holds(p.queue, offs, base, stream, pos) && p.queue != [] && p.remoteSeq == Wrap(base + next)
    requires AllValid(p.queue) && (next == pos || (next == -1 && pos == 0))
    ensures p.Ready() ==> next == pos
  {
    HeadAtPosition(p.queue[0], offs[0], base, pos, next);
  }
}
