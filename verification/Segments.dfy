/** The queue of segments a session still has to forward (`forward` in tcp.c), as a sequence of values. */
module Segments {
  import opened Serial
  import opened Wire

  /** `data` may hold more than `len` bytes, never fewer; the first `sent` have been forwarded. */
  datatype Segment = Segment(seqNo: u32, len: nat, sent: nat, psh: bool, data: Bytes) {
    predicate Valid() { sent <= len <= |data| && len < 0x1_0000 }
  }

  function Fresh(seqNo: u32, data: Bytes, psh: bool): Segment {
    Segment(seqNo, |data|, 0, psh, data)
  }

  ghost predicate AllValid(q: seq<Segment>) {
    forall i :: 0 <= i < |q| ==> q[i].Valid()
  }

  /** The search and the insertion of `queue_tcp`. A queued segment that arrives again with more data gets the
      longer data but keeps its length. */
  function Place(q: seq<Segment>, seqNo: u32, data: Bytes, psh: bool): seq<Segment> {
    if q == [] || Compare(q[0].seqNo, seqNo) > 0 then [Fresh(seqNo, data, psh)] + q
    else if Compare(q[0].seqNo, seqNo) < 0 then [q[0]] + Place(q[1..], seqNo, data, psh)
    else if q[0].len < |data| then [q[0].(data := data)] + q[1..]
    else q
  }

  /** `queue_tcp`: data before the next expected byte is dropped. */
  function Enqueue(q: seq<Segment>, remoteSeq: u32, seqNo: u32, data: Bytes, psh: bool): seq<Segment> {
    if Compare(seqNo, remoteSeq) < 0 then q else Place(q, seqNo, data, psh)
  }

  /** What send() did: it took some bytes, or asked to be called again, or failed. */
  datatype SendResult = Accepted(n: nat) | Retry | Failed

  /** The state of the forwarding loop. `out` is what the socket has taken so far, `calls` counts the sends. */
  datatype Pass = Pass(queue: seq<Segment>, remoteSeq: u32, budget: nat, out: Bytes, fwd: bool, failed: bool,
                       calls: nat)
  {

    /** The loop guard: the head continues the stream and fits the free buffer. */
    predicate Ready()
      requires queue != [] ==> queue[0].Valid()
    {
      && queue != []
      && Wrap(queue[0].seqNo + queue[0].sent) == remoteSeq
      && queue[0].len - queue[0].sent < budget
    }

    /** The head after n more bytes are sent, if any of it is left, and the bookkeeping around it. */
    function Advance(n: nat): Pass
      requires queue != [] && queue[0].Valid() && n <= queue[0].len - queue[0].sent && n <= budget
    {
      var s := queue[0];
      var rest := if s.sent + n == s.len then queue[1..] else [s.(sent := s.sent + n)] + queue[1..];
      Pass(rest, Wrap(s.seqNo + (s.sent + n)), budget - n, out + s.data[s.sent..s.sent + n], true, failed, calls + 1)
    }
  }

  /** The forwarding loop of `check_tcp_socket`; sends(i) is the outcome of its i-th send. A result beyond the
      segment's end (patched data is longer) counts as the whole segment. */
  function Forward(p: Pass, sends: nat -> SendResult): (r: Pass)
    requires AllValid(p.queue)
    ensures AllValid(r.queue)
    decreases |p.queue|
  {
    if !p.Ready() then p
    else
      match sends(p.calls)
      case Retry => p.(calls := p.calls + 1)
      case Failed => p.(failed := true, calls := p.calls + 1)
      case Accepted(n) =>
        var left := p.queue[0].len - p.queue[0].sent;
        if n >= left then Forward(p.Advance(left), sends) else p.Advance(n)
  }

  function Unsent(q: seq<Segment>): nat
    requires AllValid(q)
  {
    if q == [] then 0 else q[0].len - q[0].sent + Unsent(q[1..])
  }

  lemma {:induction false} EnqueueValid(q: seq<Segment>, seqNo: u32, data: Bytes, psh: bool)
    requires AllValid(q) && |data| < 0x1_0000
    ensures AllValid(Place(q, seqNo, data, psh))
  {
    if q != [] { EnqueueValid(q[1..], seqNo, data, psh); }
  }

  // ---- Positions: a queue whose numbers span less than half the circle is ordered like integers ----

  ghost predicate Rising(offs: seq<int>) {
    forall i, j :: 0 <= i < j < |offs| ==> offs[i] < offs[j]
  }

  /** Segment i starts at position offs[i] counted from `base`; all positions lie in [low, high]. */
  ghost predicate Located(q: seq<Segment>, base: int, offs: seq<int>, low: int, high: int) {
    && high - low <= HALF - 2 && |offs| == |q| && Rising(offs)
    && (forall i :: 0 <= i < |offs| ==> low <= offs[i] <= high && q[i].seqNo == Wrap(base + offs[i]))
  }

  /** Where the new segment goes: after all smaller positions. */
  ghost predicate SlotAt(offs: seq<int>, off: int, k: nat) {
    && k <= |offs|
    && (forall i :: 0 <= i < k ==> offs[i] < off)
    && (k < |offs| ==> off <= offs[k])
  }

  ghost function Placed(q: seq<Segment>, k: nat, again: bool, s: Segment): seq<Segment>
    requires k <= |q| && (again ==> k < |q|)
  {
    if !again then q[..k] + [s] + q[k..]
    else if q[k].len < s.len then q[k := q[k].(data := s.data)]
    else q
  }

  lemma {:induction false} PlaceAtSlot(q: seq<Segment>, base: int, offs: seq<int>, low: int, high: int,
                                       off: int, data: Bytes, psh: bool) returns (k: nat)
    requires Located(q, base, offs, low, high) && low <= off <= high
    ensures SlotAt(offs, off, k)
    ensures var s := Fresh(Wrap(base + off), data, psh);
            Place(q, s.seqNo, data, psh) == Placed(q, k, k < |q| && offs[k] == off, s)
  {
    hide Wrap, Compare, Located, SlotAt, Place, Placed;
    LocatedHead(q, base, offs, low, high);
    if q == [] || offs[0] >= off {
      k := 0;
      PlaceAtHead(q, base, offs, low, high, off, data, psh);
    } else {
      CompareOffsets(base, offs[0], off);
      var s := Fresh(Wrap(base + off), data, psh);
      var j := PlaceAtSlot(q[1..], base, offs[1..], low, high, off, data, psh);
      k := j + 1;
      SlotShift(offs, off, j);
      PlacedShift(q, j, j < |q[1..]| && offs[1..][j] == off, s);
      PlaceBehind(q, s.seqNo, data, psh);
    }
  }

  lemma LocatedHead(q: seq<Segment>, base: int, offs: seq<int>, low: int, high: int)
    requires Located(q, base, offs, low, high)
    ensures |offs| == |q| && high - low <= HALF - 2
    ensures q != [] ==> low <= offs[0] <= high && q[0].seqNo == Wrap(base + offs[0])
    ensures q != [] ==> Located(q[1..], base, offs[1..], low, high)
  {
    hide Wrap;
  }

  lemma PlaceAtHead(q: seq<Segment>, base: int, offs: seq<int>, low: int, high: int, off: int, data: Bytes, psh: bool)
    requires Located(q, base, offs, low, high) && low <= off <= high && (q != [] ==> offs[0] >= off)
    ensures SlotAt(offs, off, 0)
    ensures var s := Fresh(Wrap(base + off), data, psh);
            Place(q, s.seqNo, data, psh) == Placed(q, 0, 0 < |q| && offs[0] == off, s)
  {
    hide Wrap, Compare;
    if q != [] { CompareOffsets(base, offs[0], off); }
  }

  lemma SlotShift(offs: seq<int>, off: int, j: nat)
    requires offs != [] && offs[0] < off && SlotAt(offs[1..], off, j)
    ensures SlotAt(offs, off, j + 1)
  {
    assert forall i :: 0 < i < j + 1 ==> offs[i] == offs[1..][i - 1];
  }

  lemma PlaceBehind(q: seq<Segment>, seqNo: u32, data: Bytes, psh: bool)
    requires q != [] && Compare(q[0].seqNo, seqNo) < 0
    ensures Place(q, seqNo, data, psh) == [q[0]] + Place(q[1..], seqNo, data, psh)
  {
    hide Compare;
  }

  lemma PlacedShift(q: seq<Segment>, j: nat, again: bool, s: Segment)
    requires q != [] && j <= |q| - 1 && (again ==> j < |q| - 1)
    ensures [q[0]] + Placed(q[1..], j, again, s) == Placed(q, j + 1, again, s)
  {
    assert q == [q[0]] + q[1..];
    if !again {
      assert q[..j + 1] == [q[0]] + q[1..][..j];
    }
  }

  /** The positions after the insertion. */
  ghost function Inserted(offs: seq<int>, k: nat, off: int): seq<int>
    requires k <= |offs|
  {
    if k < |offs| && offs[k] == off then offs else offs[..k] + [off] + offs[k..]
  }

  lemma InsertedRises(offs: seq<int>, k: nat, off: int)
    requires Rising(offs) && SlotAt(offs, off, k)
    ensures Rising(Inserted(offs, k, off))
  {
  }

  /** `queue_tcp` keeps the queue located: the new segment stands at its own position and no other moves. */
  lemma PlaceLocated(q: seq<Segment>, base: int, offs: seq<int>, low: int, high: int,
                     off: int, data: Bytes, psh: bool) returns (k: nat)
    requires Located(q, base, offs, low, high) && low <= off <= high
    ensures SlotAt(offs, off, k)
    ensures var s := Fresh(Wrap(base + off), data, psh);
            var r := Place(q, s.seqNo, data, psh);
            && r == Placed(q, k, k < |q| && offs[k] == off, s)
            && Located(r, base, Inserted(offs, k, off), low, high)
  {
    hide Wrap, Place, Placed;
    k := PlaceAtSlot(q, base, offs, low, high, off, data, psh);
    PlacedLocated(q, base, offs, low, high, off, k, Fresh(Wrap(base + off), data, psh));
  }

  lemma PlacedLocated(q: seq<Segment>, base: int, offs: seq<int>, low: int, high: int, off: int, k: nat, s: Segment)
    requires Located(q, base, offs, low, high) && low <= off <= high && SlotAt(offs, off, k)
    requires s.seqNo == Wrap(base + off)
    ensures Located(Placed(q, k, k < |q| && offs[k] == off, s), base, Inserted(offs, k, off), low, high)
  {
    hide Wrap, Rising;
    InsertedRises(offs, k, off);
    var again := k < |q| && offs[k] == off;
    var r, u := Placed(q, k, again, s), Inserted(offs, k, off);
    if !again {
      forall i | 0 <= i < |u| ensures low <= u[i] <= high && r[i].seqNo == Wrap(base + u[i]) {
        var was := if i < k then i else i - 1;
        assert i != k ==> u[i] == offs[was] && r[i] == q[was];
      }
    }
  }

  // ---- Order of the queue, in terms of `compare_u32` alone ----

  /** Strictly ascending in serial order, so no number twice. */
  ghost predicate Ascending(q: seq<Segment>) {
    forall i, j :: 0 <= i < j < |q| ==> Compare(q[i].seqNo, q[j].seqNo) < 0
  }

  /** Strictly ascending; only the head is partly sent, and then exactly up to the next expected byte. */
  ghost predicate Ordered(q: seq<Segment>, remoteSeq: u32) {
    && AllValid(q) && Ascending(q)
    && (forall i :: 0 < i < |q| ==> q[i].sent == 0)
    && (q != [] && q[0].sent > 0 ==> Wrap(q[0].seqNo + q[0].sent) == remoteSeq)
  }

  /** The numbers lie within half the circle from `low`. */
  ghost predicate Within(q: seq<Segment>, low: u32) {
    forall i :: 0 <= i < |q| ==> Dist(low, q[i].seqNo) <= HALF - 2
  }

  ghost function Offsets(q: seq<Segment>, low: u32): seq<int> {
    seq(|q|, i requires 0 <= i < |q| => Dist(low, q[i].seqNo))
  }

  lemma AscendingIsRising(q: seq<Segment>, low: u32)
    requires Within(q, low)
    ensures Ascending(q) <==> Rising(Offsets(q, low))
    ensures Ascending(q) ==> Located(q, low, Offsets(q, low), 0, HALF - 2)
  {
    var offs := Offsets(q, low);
    forall i | 0 <= i < |q| ensures q[i].seqNo == Wrap(low + offs[i]) {
      DistRestores(low, q[i].seqNo);
    }
    forall i, j | 0 <= i < |q| && 0 <= j < |q|
      ensures Compare(q[i].seqNo, q[j].seqNo) < 0 <==> offs[i] < offs[j]
    {
      CompareOffsets(low, offs[i], offs[j]);
    }
  }

  /** Every insertion keeps the order, across wraparound, when the numbers concerned span less than half the circle. */
  lemma EnqueueKeepsOrder(q: seq<Segment>, remoteSeq: u32, low: u32, seqNo: u32, data: Bytes, psh: bool)
    requires Ordered(q, remoteSeq) && |data| < 0x1_0000
    requires Within(q, low) && Dist(low, seqNo) <= HALF - 2 && Dist(low, remoteSeq) <= HALF - 2
    ensures Ordered(Enqueue(q, remoteSeq, seqNo, data, psh), remoteSeq)
  {
    var offs, off: int, next: int := Offsets(q, low), Dist(low, seqNo), Dist(low, remoteSeq);
    AscendingIsRising(q, low);
    DistRestores(low, seqNo);
    DistRestores(low, remoteSeq);
    CompareOffsets(low, off, next);
    if off >= next {
      if q != [] && q[0].sent > 0 {
        HeadBehind(q[0], remoteSeq, low);
      }
      PlaceOrdered(q, remoteSeq, low, off, data, psh);
    }
  }

  lemma PlaceOrdered(q: seq<Segment>, remoteSeq: u32, low: u32, off: int, data: Bytes, psh: bool)
    requires Ordered(q, remoteSeq) && |data| < 0x1_0000 && 0 <= off <= HALF - 2
    requires Located(q, low, Offsets(q, low), 0, HALF - 2)
    requires q != [] && q[0].sent > 0 ==> Offsets(q, low)[0] < off
    ensures Ordered(Place(q, Wrap(low + off), data, psh), remoteSeq)
  {
    hide Wrap, Compare, Place, Offsets;
    var offs, seqNo := Offsets(q, low), Wrap(low + off);
    var k := PlaceLocated(q, low, offs, 0, HALF - 2, off, data, psh);
    LocatedAscends(Place(q, seqNo, data, psh), low, Inserted(offs, k, off), 0, HALF - 2);
    EnqueueValid(q, seqNo, data, psh);
    PlacedSent(q, remoteSeq, k, k < |q| && offs[k] == off, Fresh(seqNo, data, psh));
  }

  lemma LocatedAscends(q: seq<Segment>, base: int, offs: seq<int>, low: int, high: int)
    requires Located(q, base, offs, low, high)
    ensures Ascending(q)
  {
    forall i, j | 0 <= i < j < |q| ensures Compare(q[i].seqNo, q[j].seqNo) < 0 {
      CompareOffsets(base, offs[i], offs[j]);
    }
  }

  lemma PlacedSent(q: seq<Segment>, remoteSeq: u32, k: nat, again: bool, s: Segment)
    requires Ordered(q, remoteSeq) && s.sent == 0 && k <= |q| && (again ==> k < |q|)
    requires q != [] && q[0].sent > 0 ==> k > 0 || again
    ensures var r := Placed(q, k, again, s);
            && (forall i :: 0 < i < |r| ==> r[i].sent == 0)
            && (r != [] && r[0].sent > 0 ==> Wrap(r[0].seqNo + r[0].sent) == remoteSeq)
  {
    hide Wrap, Ascending;
  }

  lemma HeadBehind(s: Segment, remoteSeq: u32, low: u32)
    requires 0 < s.sent < 0x1_0000 && Wrap(s.seqNo + s.sent) == remoteSeq
    requires Dist(low, s.seqNo) <= HALF - 2 && Dist(low, remoteSeq) <= HALF - 2
    ensures Dist(low, s.seqNo) < Dist(low, remoteSeq)
  {
    var d: int := Dist(low, s.seqNo);
    DistRestores(low, s.seqNo);
    WrapAdd(low + d, s.sent);
    assert remoteSeq == Wrap(low + (d + s.sent));
    DistOffsets(low, 0, d + s.sent);
    WrapNear(d + s.sent);
    WrapNear(low);
  }

  /** Every forwarding pass keeps the order. */
  lemma {:induction false} ForwardKeepsOrder(p: Pass, sends: nat -> SendResult)
    requires Ordered(p.queue, p.remoteSeq)
    ensures Ordered(Forward(p, sends).queue, Forward(p, sends).remoteSeq)
    decreases |p.queue|
  {
    hide Wrap, Pass.Advance, Ascending;
    if p.Ready() && sends(p.calls).Accepted? {
      var left := p.queue[0].len - p.queue[0].sent;
      var n := if sends(p.calls).n >= left then left else sends(p.calls).n;
      AdvanceKeepsOrder(p, n);
      AdvanceBudget(p, n);
      if n == left { ForwardKeepsOrder(p.Advance(left), sends); }
    }
  }

  lemma AdvanceKeepsOrder(p: Pass, n: nat)
    requires Ordered(p.queue, p.remoteSeq) && p.Ready() && n <= p.queue[0].len - p.queue[0].sent
    ensures Ordered(p.Advance(n).queue, p.Advance(n).remoteSeq)
  {
    hide Compare;
    var s := p.queue[0];
    if s.sent + n < s.len {
      assert forall i :: 0 < i < |p.queue| ==> p.Advance(n).queue[i] == p.queue[i];
    } else {
      assert p.Advance(n).queue == p.queue[1..];
    }
  }

  // ---- Budget ----

  /** A pass sends less than the free buffer and accounts for every byte; it stops only at an empty queue, a gap or
      an oversized head, or at a send that did not take everything. */
  lemma {:induction false} ForwardBudget(p: Pass, sends: nat -> SendResult)
    requires AllValid(p.queue)
    ensures var r := Forward(p, sends);
            && p.out <= r.out && p.calls <= r.calls
            && r.budget == p.budget - (|r.out| - |p.out|)
            && Unsent(r.queue) == Unsent(p.queue) - (|r.out| - |p.out|)
            && (r.calls > p.calls ==> r.budget > 0)
            && (r.calls == p.calls ==> r == p)
            && (r.Ready() ==> r.calls > p.calls && Short(sends(r.calls - 1), r.queue[0]))
    decreases |p.queue|
  {
    hide Wrap, Unsent, Pass.Advance;
    var r := Forward(p, sends);
    if p.Ready() && sends(p.calls).Accepted? {
      var left := p.queue[0].len - p.queue[0].sent;
      var n := if sends(p.calls).n >= left then left else sends(p.calls).n;
      AdvanceBudget(p, n);
      if n == left {
        ForwardBudget(p.Advance(left), sends);
      }
    }
  }

  lemma AdvanceBudget(p: Pass, n: nat)
    requires AllValid(p.queue) && p.Ready() && n <= p.queue[0].len - p.queue[0].sent
    ensures var r := p.Advance(n);
            && AllValid(r.queue) && p.out <= r.out && |r.out| == |p.out| + n && r.budget == p.budget - n > 0
            && Unsent(r.queue) == Unsent(p.queue) - n && r.calls == p.calls + 1
            && (n < p.queue[0].len - p.queue[0].sent ==> r.queue != [] && n <= r.queue[0].sent < r.queue[0].len)
            && (n == p.queue[0].len - p.queue[0].sent ==> r.queue == p.queue[1..])
  {
    hide Wrap;
    var s := p.queue[0];
    if s.sent + n == s.len {
      assert p.Advance(n).queue == p.queue[1..];
    } else {
      assert p.Advance(n).queue[1..] == p.queue[1..];
    }
  }

  /** The last send took nothing, or left the head partly sent. */
  ghost predicate Short(last: SendResult, head: Segment) {
    last.Accepted? ==> last.n <= head.sent < head.len
  }
}
