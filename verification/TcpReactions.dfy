/** How a session reacts to its socket and what refreshes it, event by event. */
module TcpReactions {
  import opened Bits
  import opened Serial
  import opened Wire
  import opened Segments
  import opened Tcp
  import opened TcpRuns
  import opened TcpSequence
  import opened TcpWindow
  import opened TcpReceive
  import opened TcpAcks
  import opened TcpMonitor

  /** The last packet written. */
  ghost predicate Last(r: Tcb, rst: bool, fin: bool, data: Bytes) {
    r.log.written != [] && var p := r.log.written[|r.log.written| - 1]; p.rst == rst && p.fin == fin && p.data == data
  }

  /** An error on the socket resets the peer. */
  lemma SocketError(t: Tcb, e: SocketEvent)
    requires t.Valid() && e.err
    ensures var r := CheckSocket(t, e);
            r.time == e.now && r.state == (if t.state == Close then Close else Closing) && Last(r, true, false, [])
  {
    hide Wrap, AllValid, Pow2;
  }

  // ---- Forwarding ----

  /** A pass fails if and only if its last send did. */
  lemma {:induction false} PassFails(p: Pass, sends: nat -> SendResult)
    requires AllValid(p.queue) && !p.failed
    ensures var r := Forward(p, sends);
            && r.calls >= p.calls && (r.failed <==> r.calls > p.calls && sends(r.calls - 1) == Failed)
            && (r.fwd <==> p.fwd || exists k :: p.calls <= k < r.calls && sends(k).Accepted?)
    decreases |p.queue|
  {
    hide Wrap, Pass.Advance;
    if p.Ready() && sends(p.calls).Accepted? {
      var left := p.queue[0].len - p.queue[0].sent;
      var n := if sends(p.calls).n >= left then left else sends(p.calls).n;
      AdvanceBudget(p, n);
      AdvanceCounts(p, n);
      if n == left {
        PassFails(p.Advance(left), sends);
        var r := Forward(p, sends);
        assert p.calls <= p.calls < r.calls && sends(p.calls).Accepted?;
      }
    }
  }

  /** What is acknowledged to the peer: a step in which something is delivered writes an acknowledgment, and so does one
      in which the window opens again, so that the peer is never left waiting. */
  lemma ProgressAcknowledged(t: Tcb, e: SocketEvent)
    requires t.Valid() && t.state != Listen && !e.err
    ensures var r := CheckSocket(t, e);
            |r.log.delivered| > |t.log.delivered| || (t.recvWindow == 0 && r.recvWindow > 0) ==>
              exists k :: |t.log.written| <= k < |r.log.written| && r.log.written[k].ack
                          && r.log.written[k].recvWindow == r.recvWindow && r.log.written[k].sent == e.ackOk
  {
    hide CheckForward, CheckAck, CheckRead, AllValid, Wrap;
    var r := CheckSocket(t, e);
    var f, a := CheckSocketStages(t, e);
    var fwd := CheckForward(t, e).1;
    ReadFrame(a, e);
    ReadKeepsWindow(a, e);
    ReadReplies(a, e);
    ForwardReplies(t, e, 0);
    ForwardReports(t, e);
    AckWrites(f, fwd, e);
    if fwd || (t.recvWindow == 0 && r.recvWindow > 0) {
      var k := |f.log.written|;
      assert r.log.written[k] == a.log.written[k];
    }
  }

  lemma ReadKeepsWindow(a: Tcb, e: SocketEvent)
    ensures CheckRead(a, e).recvWindow == a.recvWindow
  {
    hide Wrap, Tcb.WriteOr, Tcb.WriteRst, Tcb.SendWindow;
  }

  lemma ForwardReports(t: Tcb, e: SocketEvent)
    requires t.Valid()
    ensures var (f, fwd) := CheckForward(t, e);
            f.recvWindow == t.recvWindow && (|f.log.delivered| > |t.log.delivered| ==> fwd)
  {
    hide Forward, AllValid, Wrap, Tcb.WriteRst;
    if e.writable {
      PassReports(StartPass(t, e.free), e.sends);
    }
  }

  lemma {:induction false} PassReports(p: Pass, sends: nat -> SendResult)
    requires AllValid(p.queue)
    ensures var r := Forward(p, sends); (p.fwd ==> r.fwd) && (r.fwd || r.out == p.out)
    decreases |p.queue|
  {
    hide Wrap, Pass.Advance;
    if p.Ready() && sends(p.calls).Accepted? {
      var left := p.queue[0].len - p.queue[0].sent;
      var n := if sends(p.calls).n >= left then left else sends(p.calls).n;
      AdvanceBudget(p, n);
      AdvanceCounts(p, n);
      if n == left { PassReports(p.Advance(left), sends); }
    }
  }

  lemma AckWrites(f: Tcb, fwd: bool, e: SocketEvent)
    requires f.Valid()
    ensures var a := CheckAck(f, fwd, e); var n := |f.log.written|;
            && a.recvWindow == f.ReceiveWindow(e.freeAfter)
            && if fwd || (f.recvWindow == 0 && a.recvWindow > 0) then
                 && |a.log.written| == n + 1 && f.log.written <= a.log.written
                 && a.log.written[n].ack && a.log.written[n].recvWindow == a.recvWindow
                 && a.log.written[n].sent == e.ackOk
               else a.log == f.log
  {
    hide AllValid, Wrap, Tcb.ReceiveWindow, Pow2;
  }

  /** A send that fails for good resets the peer; one that is to be retried leaves the session alone. */
  lemma FailedSend(t: Tcb, e: SocketEvent)
    requires t.Valid() && t.state in {Established, CloseWait} && !e.err && e.writable && !e.readable
    ensures var r := CheckSocket(t, e);
            var p := Forward(Pass(t.queue, t.remoteSeq, e.free, t.log.delivered, false, false, 0), e.sends);
            if p.calls > 0 && e.sends(p.calls - 1) == Failed then
              r.state == Closing && exists k :: |t.log.written| <= k < |r.log.written| && r.log.written[k].rst
            else
              && (e.ackOk ==> r.state == t.state)
              && forall k :: |t.log.written| <= k < |r.log.written| ==> !r.log.written[k].rst
  {
    hide Forward, CheckAck, AllValid, Wrap, Tcb.WriteRst;
    var p := StartPass(t, e.free);
    PassFails(p, e.sends);
    var f, a := CheckSocketStages(t, e);
    var q := Forward(p, e.sends);
    var s := t.(queue := q.queue, remoteSeq := q.remoteSeq, log := t.log.(delivered := q.out));
    RstWritten(s);
    AckKeepsState(f, CheckForward(t, e).1, e);
    if q.failed {
      assert a.log.written[|t.log.written|] == f.log.written[|t.log.written|];
    }
  }

  lemma AckKeepsState(f: Tcb, fwd: bool, e: SocketEvent)
    requires f.Valid()
    ensures var a := CheckAck(f, fwd, e);
            && (a.state == f.state || a.state == Closing) && (e.ackOk ==> a.state == f.state)
            && f.log.written <= a.log.written
            && forall k :: |f.log.written| <= k < |a.log.written| ==> !a.log.written[k].rst
  {
    hide AllValid, Wrap, Tcb.ReceiveWindow, Pow2;
  }

  // ---- Reading ----

  /** A readable socket and nothing else. */
  predicate OnlyReadable(e: SocketEvent) {
    !e.err && e.readable && !e.writable && e.ackOk
  }

  function Smaller(x: nat, y: nat): nat {
    if x < y then x else y
  }

  /** What reading does while the peer's window is open: bytes go to the peer as far as window and segment size allow;
      an error resets the peer unless it is to be retried; the end of the stream closes the descriptor and ends the
      peer's stream with a FIN, or with a reset if data for the proxy is still queued. */
  ghost predicate ReadDone(t: Tcb, e: SocketEvent, r: Tcb) {
    && r.time == e.now && r.queue == t.queue
    && match e.recv
       case RecvError(retry) =>
         && r.log.received == t.log.received && r.open == t.open
         && (if retry then r.state == t.state else r.state == Closing && Last(r, true, false, []))
       case Received(data) => if data == [] then EofDone(t, e.dataOk, r) else DataDone(t, data, e.dataOk, r)
  }

  ghost predicate EofDone(t: Tcb, ok: bool, r: Tcb) {
    && r.log.received == t.log.received && !r.open && r.log.closes == t.log.closes + 1
    && if t.queue != [] then r.state == Closing && Last(r, true, false, [])
       else
         && Last(r, false, true, [])
         && r.state == (if !ok then Closing else if t.state == Established then FinWait1 else LastAck)
  }

  ghost predicate DataDone(t: Tcb, data: Bytes, ok: bool, r: Tcb) {
    var n := Smaller(|data|, Smaller(t.SendWindow(), t.cfg.mss));
    && r.log.received == t.log.received + data[..n] && Last(r, false, false, data[..n])
    && r.state == (if ok then t.state else Closing) && r.open == t.open
  }

  lemma ReadOutcome(t: Tcb, e: SocketEvent)
    requires t.Valid() && t.state in {Established, CloseWait} && t.cfg.mss > 0 && t.SendWindow() > 0 && OnlyReadable(e)
    ensures ReadDone(t, e, CheckSocket(t, e))
  {
    hide CheckForward, CheckAck, CheckRead, Tcb.SendWindow, AllValid, Wrap, Last;
    var f, a := CheckSocketStages(t, e);
    ReadableStages(t, e, f, a);
    SameSendWindow(t, a);
    ReadFrame(a, e);
    ReadResult(a, e);
  }

  lemma ReadableStages(t: Tcb, e: SocketEvent, f: Tcb, a: Tcb)
    requires t.Valid() && t.state in {Established, CloseWait} && OnlyReadable(e)
    requires f == CheckForward(t, e).0 && f.Valid() && a == CheckAck(f, CheckForward(t, e).1, e)
    ensures f == t && a.state == t.state
  {
    hide AllValid, Wrap, Tcb.ReceiveWindow;
  }

  lemma ReadResult(a: Tcb, e: SocketEvent)
    requires a.state in {Established, CloseWait} && a.cfg.mss > 0 && a.SendWindow() > 0 && OnlyReadable(e)
    ensures ReadDone(a, e, CheckRead(a, e))
  {
    hide Wrap, Tcb.SendWindow, Tcb.WriteRst, ReadEof, ReadData, Last, EofDone;
    var r := a.(time := e.now);
    RstLast(r);
    ReadFrame(a, e);
    EofResult(r, e.dataOk);
    EofTimeless(a, r, e.dataOk);
    if e.recv.Received? && e.recv.data != [] {
      var n := Smaller(|e.recv.data|, Smaller(a.SendWindow(), a.cfg.mss));
      assert e.recv.data[..|e.recv.data|] == e.recv.data;
      DataResult(r, e.recv.data[..n], e.dataOk);
    }
  }

  lemma EofTimeless(a: Tcb, r: Tcb, ok: bool)
    requires r == a.(time := r.time) && EofDone(r, ok, ReadEof(r, ok))
    ensures EofDone(a, ok, ReadEof(r, ok)) && ReadEof(r, ok).time == r.time
  {
    hide Wrap, Tcb.WriteOr, Tcb.WriteRst, Last;
  }

  lemma RstLast(t: Tcb)
    ensures Last(t.WriteRst(), true, false, [])
  {
    hide Wrap, Pow2;
  }

  lemma OrLast(t: Tcb, data: Bytes, fin: bool, ok: bool)
    ensures Last(t.WriteOr(data, false, fin, ok), false, fin, data)
  {
    hide Pow2;
  }

  lemma SameLast(t: Tcb, r: Tcb, rst: bool, fin: bool, data: Bytes)
    requires Last(t, rst, fin, data) && r.log.written == t.log.written
    ensures Last(r, rst, fin, data)
  {
  }

  lemma EofResult(t: Tcb, ok: bool)
    requires t.state in {Established, CloseWait}
    ensures EofDone(t, ok, ReadEof(t, ok))
  {
    hide Wrap, Tcb.WriteOr, Tcb.WriteRst, Last;
    var r := ReadEof(t, ok);
    RstLast(t);
    OrLast(t, [], true, ok);
    if t.queue != [] {
      SameLast(t.WriteRst(), r, true, false, []);
    } else {
      SameLast(t.WriteOr([], false, true, ok), r, false, true, []);
    }
  }

  lemma DataResult(t: Tcb, bytes: Bytes, ok: bool)
    ensures var r := ReadData(t, bytes, ok);
            && r.log.received == t.log.received + bytes && Last(r, false, false, bytes) && r.time == t.time
            && r.queue == t.queue && r.state == (if ok then t.state else Closing) && r.open == t.open
  {
    hide Wrap, Tcb.WriteOr, Last;
    var u := t.(log := t.log.(received := t.log.received + bytes));
    OrLast(u, bytes, false, ok);
    SameLast(u.WriteOr(bytes, false, false, ok), ReadData(t, bytes, ok), false, false, bytes);
  }

  // ---- What packets and events refresh ----

  /** Every packet of a live session that is not urgent refreshes its idle time and the peer's window. */
  lemma PacketRefreshes(t: Tcb, e: PacketEvent)
    requires t.cfg.port != HTTPS_PORT && Alive(t.state)
    ensures var r := HandlePacket(t, e);
            if e.packet.urg then r == t
            else r.time == e.now && r.sendWindow == Wrap(e.packet.window * Pow2(t.cfg.sendScale))
  {
    hide Wrap, SendConnect, HandleAck, Enqueue, Tcb.WriteRst, Pow2;
    SendConnectFrame(t, e);
    var r := t.(time := e.now, sendWindow := Wrap(e.packet.window * Pow2(t.cfg.sendScale)));
    HandleAckFrame(r, e);
    HandleAckTimeless(r, e);
    HandleAckFrame(QueuePacket(r, e.packet), e);
    HandleAckTimeless(QueuePacket(r, e.packet), e);
  }

  lemma HandleAckTimeless(t: Tcb, e: PacketEvent)
    ensures HandleAck(t, e).time == t.time
  {
    hide Wrap, Compare, Tcb.WriteOr, Tcb.WriteRst;
  }

  /** The acknowledged number becomes the packet's, if its acknowledgment is read and is everything sent, in a packet
      without SYN or FIN, or something older than that but newer than before. */
  lemma AckTaken(t: Tcb, e: PacketEvent)
    requires Flowing(t.state)
    ensures var a, p := HandlePacket(t, e).acked, e.packet;
            a == if ReadsAck(t, p)
                    && (if p.ackNo == t.localSeq then !p.syn && !p.fin
                        else
                          && Wrap(p.ackNo + 1) != t.localSeq
                          && Compare(p.ackNo, t.localSeq) < 0 && Compare(p.ackNo, t.acked) > 0)
                 then p.ackNo else t.acked
  {
    hide Wrap, SendConnect, Enqueue, Pow2, HandleExact, HandleOther, Compare;
    SendConnectFrame(t, e);
    var r := t.(time := e.now, sendWindow := Wrap(e.packet.window * Pow2(t.cfg.sendScale)));
    var q := QueuePacket(r, e.packet);
    ExactTakes(r, e);
    ExactTakes(q, e);
    OtherTakes(r, e.packet.ackNo);
    OtherTakes(q, e.packet.ackNo);
  }

  lemma ExactTakes(t: Tcb, e: PacketEvent)
    ensures HandleExact(t, e).acked
            == if !e.packet.syn && !e.packet.fin && e.packet.ack then e.packet.ackNo else t.acked
  {
    hide Wrap, Tcb.WriteOr;
  }

  lemma OtherTakes(t: Tcb, ackNo: u32)
    ensures HandleOther(t, ackNo).acked
            == if Wrap(ackNo + 1) != t.localSeq && Compare(ackNo, t.localSeq) < 0 && Compare(ackNo, t.acked) > 0
               then ackNo else t.acked
  {
    hide Wrap, Compare, Tcb.WriteRst;
  }

  // ---- The receive window ----

  /** The window is all the free buffer that is not spoken for by what is queued, up to what 16 scaled bits can say, or
      nothing if that is less than one unit of the scale. */
  lemma ReceiveWindowExact(t: Tcb, free: u32)
    requires t.Valid() && Unsent(t.queue) < MOD
    ensures var room := (if !t.open then 0 else Smaller(free, MaxWindow(t.cfg.recvScale))) - Unsent(t.queue);
            t.ReceiveWindow(free) == if room >= Pow2(t.cfg.recvScale) then room else 0
  {
    hide Unsent, Pow2, Wrap;
    var queued, max: u32 := Wrap(Unsent(t.queue)), Wrap(0xFFFF * Pow2(t.cfg.recvScale));
    WrapNear(Unsent(t.queue));
    WrapMax(t.cfg.recvScale);
    var buffer := if t.open then free else 0;
    var capped := if buffer > max then max else buffer;
    var window := if queued < capped then capped - queued else 0;
    FieldQuotient(window, Pow2(t.cfg.recvScale));
    assert t.ReceiveWindow(free) == if window / Pow2(t.cfg.recvScale) == 0 then 0 else window;
  }

  lemma FieldQuotient(window: nat, scale: nat)
    requires scale > 0
    ensures window / scale == 0 <==> window < scale
  {
    var q := window / scale;
    assert window == q * scale + window % scale;
    if window >= scale && q <= 0 { MulMono(q, 0, scale); }
    if window < scale && q >= 1 { MulMono(1, q, scale); }
  }
}
