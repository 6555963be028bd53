/** What `monitor_tcp_session` waits for is what `check_tcp_socket` can use, and how `handle_tcp` and `check_tcp_socket`
    open a session. */
module TcpMonitor {
  import opened Serial
  import opened Wire
  import opened Segments
  import opened Tcp
  import opened TcpRuns
  import opened TcpSequence
  import opened TcpAcks

  // ---- Waiting ----

  lemma MonitorWants(t: Tcb, e: MonitorEvent)
    requires t.Valid()
    ensures Monitor(t, e).wantsIn == WantsIn(t) && Monitor(t, e).wantsOut == WantsOut(t, e.free)
  {
    hide WantsIn, WantsOut, Tcb.WriteOr, Tcb.SendWindow, Wrap, AllValid;
  }

  /** Where data flows a session waits to write if and only if a pass over its queue with that buffer would send
      something, whatever the sends return. */
  lemma WaitsToWrite(t: Tcb, e: MonitorEvent, sends: nat -> SendResult)
    requires t.Valid() && t.state in {Established, CloseWait}
    ensures Monitor(t, e).wantsOut
            <==> Forward(Pass(t.queue, t.remoteSeq, e.free, t.log.delivered, false, false, 0), sends).calls > 0
  {
    hide Monitor, WantsIn, Wrap, Pass.Advance;
    MonitorWants(t, e);
    var p := Pass(t.queue, t.remoteSeq, e.free, t.log.delivered, false, false, 0);
    if p.Ready() && sends(0).Accepted? {
      var left := p.queue[0].len - p.queue[0].sent;
      var n := if sends(0).n >= left then left else sends(0).n;
      AdvanceBudget(p, n);
      if n == left { ForwardBudget(p.Advance(left), sends); }
    }
  }

  /** A readable socket, with nothing else going on and bytes to read. */
  predicate BytesReady(e: SocketEvent) {
    !e.err && e.readable && !e.writable && e.ackOk && e.recv.Received? && e.recv.data != []
  }

  /** Where data flows a session waits to read if and only if a readable socket would be read. */
  lemma WaitsToRead(t: Tcb, e: MonitorEvent, s: SocketEvent)
    requires t.Valid() && t.state in {Established, CloseWait} && t.cfg.mss > 0 && BytesReady(s)
    ensures Monitor(t, e).wantsIn <==> |CheckSocket(t, s).log.received| > |t.log.received|
  {
    hide Monitor, WantsOut, CheckAck, CheckForward, CheckRead, Tcb.SendWindow, AllValid, Wrap;
    MonitorWants(t, e);
    var f, a := CheckSocketStages(t, s);
    QuietStages(t, s, f, a);
    SameSendWindow(t, a);
    ReadsWhenOpen(a, s);
  }

  lemma QuietStages(t: Tcb, e: SocketEvent, f: Tcb, a: Tcb)
    requires t.Valid() && t.state in {Established, CloseWait} && BytesReady(e)
    requires f == CheckForward(t, e).0 && f.Valid() && a == CheckAck(f, CheckForward(t, e).1, e)
    ensures f == t && a.state == t.state
  {
    hide AllValid, Wrap, Tcb.ReceiveWindow;
  }

  lemma SameSendWindow(t: Tcb, a: Tcb)
    requires a.acked == t.acked && a.localSeq == t.localSeq && a.sendWindow == t.sendWindow
    ensures a.SendWindow() == t.SendWindow()
  {
    hide Wrap, Compare;
  }

  lemma ReadsWhenOpen(a: Tcb, e: SocketEvent)
    requires a.state in {Established, CloseWait} && a.cfg.mss > 0 && BytesReady(e)
    ensures |CheckRead(a, e).log.received| > |a.log.received| <==> a.SendWindow() > 0
  {
    hide Wrap, Tcb.SendWindow, Tcb.WriteOr, Tcb.WriteRst;
  }

  /** Before the SYN is answered a session waits for the answer to CONNECT exactly if that has been sent, and otherwise
      to be connected; in all other states it waits for nothing but errors. */
  lemma WaitsElsewhere(t: Tcb, e: MonitorEvent)
    requires t.Valid() && t.state !in {Established, CloseWait}
    ensures var r := Monitor(t, e);
            && (t.state == Listen ==>
                  (r.wantsIn <==> t.cfg.port == HTTPS_PORT && t.connect == Sent) && r.wantsOut == !r.wantsIn)
            && (t.state != Listen ==> !r.wantsIn && !r.wantsOut)
            && r.log == t.log
  {
  }

  /** A keep alive is written if and only if the peer's window is used up and the last one is more than 100 ms ago; it
      acknowledges one byte less than has been delivered, and changes no number. */
  lemma KeepsAlive(t: Tcb, e: MonitorEvent)
    requires t.Valid()
    ensures var r := Monitor(t, e); var n := |t.log.written|;
            if t.state in {Established, CloseWait} && t.SendWindow() == 0 && e.ms - t.lastKeepAlive > 100 then
              && |r.log.written| == n + 1 && r.log.written[n].ack && r.log.written[n].ackNo == Wrap(t.remoteSeq - 1)
              && !r.log.written[n].syn && !r.log.written[n].fin && !r.log.written[n].rst && r.log.written[n].data == []
              && r.lastKeepAlive == e.ms && r.remoteSeq == t.remoteSeq && r.localSeq == t.localSeq
            else r.log == t.log && r.lastKeepAlive == t.lastKeepAlive
  {
    hide WantsIn, WantsOut, Tcb.SendWindow, Wrap, AllValid, Tcb.WriteOr;
    AckAcknowledges(t.(lastKeepAlive := e.ms, remoteSeq := Wrap(t.remoteSeq - 1)), e.ackOk);
  }

  /** If epoll cannot be told what to wait for, or a keep alive cannot be written, the session closes; otherwise it
      stays in its state. */
  lemma MonitorState(t: Tcb, e: MonitorEvent)
    requires t.Valid()
    ensures var r := Monitor(t, e);
            && (r.state == t.state || r.state == Closing)
            && (e.epollOk && e.ackOk ==> r.state == t.state)
            && (!e.epollOk && (r.wantsIn != t.wantsIn || r.wantsOut != t.wantsOut) ==> r.state == Closing)
  {
    hide WantsIn, WantsOut, Tcb.SendWindow, Wrap, AllValid;
  }

  // ---- Opening ----

  /** Away from port 443 the first event of a new session's socket answers the SYN: the packet has both flags, the
      session's first number and the peer's next, and the session is in SYN_RECV if it could be written. */
  lemma SynAnswered(t: Tcb, e: SocketEvent)
    requires t.Valid() && t.state == Listen && !e.err && !e.readable
    ensures var r := CheckSocket(t, e); var n := |t.log.written|;
            && |r.log.written| == n + 1
            && var p := r.log.written[n];
               && p.syn && p.ack && !p.fin && !p.rst && p.data == []
               && p.seqNo == t.localSeq && p.ackNo == Wrap(t.remoteSeq + 1) == r.remoteSeq && p.sent == e.ackOk
               && r.state == (if e.ackOk then SynRecv else Closing)
               && r.localSeq == (if e.ackOk then Wrap(t.localSeq + 1) else t.localSeq)
  {
    hide Wrap, AllValid, Bits.Pow2;
  }

  /** The answer to CONNECT: one of the two accepted ones opens the session, every other one and a failed read resets
      it, and a session that has not asked ignores what it reads. */
  lemma ConnectAnswered(t: Tcb, e: SocketEvent)
    requires t.Valid() && t.state == Listen && !e.err && e.readable
    ensures var r := CheckSocket(t, e);
            var accepted := e.answer in {Some("HTTP/1.0 200"), Some("HTTP/1.1 200")};
            if e.answer.Some? && t.connect != Sent then r == t
            else if accepted then r.state == SynRecv && r.connect == Connected && r.log.written == t.log.written
            else r.state == Closing && r.connect == t.connect && ResetWritten(t, r)
  {
    hide Wrap, AllValid, Tcb.WriteRst;
    RstWritten(t);
    if e.answer.Some? { RstWritten(t.(log := t.log.(answers := t.log.answers + [e.answer.value]))); }
  }

  /** One reset has been written. */
  predicate ResetWritten(t: Tcb, r: Tcb) {
    var n := |t.log.written|;
    |r.log.written| == n + 1 && r.log.written[n].rst && !r.log.written[n].syn && !r.log.written[n].fin
  }

  lemma RstWritten(t: Tcb)
    ensures ResetWritten(t, t.WriteRst())
  {
    hide Wrap, Bits.Pow2;
  }

  /** CONNECT is sent once, with the first packet after the SYN for which a host name is known; if it cannot be sent the
      session is reset. Until the proxy has answered, packets are only queued. */
  lemma ConnectRequested(t: Tcb, e: PacketEvent)
    requires t.Valid() && t.cfg.port == HTTPS_PORT && t.connect != Connected && !e.packet.urg
    ensures var r := HandlePacket(t, e);
            && r.queue == Enqueue(t.queue, r.remoteSeq, e.packet.seqNo, e.packet.data, e.packet.psh)
            && if t.connect == Sent || !e.hostKnown then r == t.(queue := r.queue)
               else if e.connectOk && t.open then r == t.(queue := r.queue, connect := Sent, state := Listen)
               else r.connect == NotSent && r.state in {Closing, Close} && ResetWritten(t, r)
  {
    hide Wrap, AllValid, Enqueue, Tcb.WriteRst;
    RstWritten(t);
  }

  predicate AcksFuture(t: Tcb, p: PeerPacket) {
    && p.ack && p.ackNo != t.localSeq && Wrap(p.ackNo + 1) != t.localSeq
    && Compare(p.ackNo, t.localSeq) >= 0
  }

  /** A packet for a session that is over is answered with a reset, and so is data that cannot be taken, and an
      acknowledgment of something never sent; nothing else is reset. */
  lemma ResetsSent(t: Tcb, e: PacketEvent)
    requires t.Valid() && t.cfg.port != HTTPS_PORT && (t.state == FinWait1 ==> t.queue == [])
    ensures var r, p := HandlePacket(t, e), e.packet;
            if !p.urg && (!Alive(t.state) || !Examined(t, p) || (!p.rst && AcksFuture(t, p))) then ResetWritten(t, r)
            else forall i :: |t.log.written| <= i < |r.log.written| ==> !r.log.written[i].rst
  {
    hide Wrap, AllValid, SendConnect, Enqueue, Tcb.WriteRst, HandleAck, Compare, Bits.Pow2, ResetWritten;
    SendConnectFrame(t, e);
    RstWritten(t);
    var s := t.(time := e.now, sendWindow := Wrap(e.packet.window * Bits.Pow2(t.cfg.sendScale)));
    RstWritten(s);
    SameReset(t, s, s.WriteRst());
    AckResets(s, e);
    AckResets(QueuePacket(s, e.packet), e);
    if e.packet.data == [] {
      SameReset(t, s, HandleAck(s, e));
    } else {
      SameReset(t, QueuePacket(s, e.packet), HandleAck(QueuePacket(s, e.packet), e));
    }
  }

  lemma SameReset(t: Tcb, s: Tcb, r: Tcb)
    requires s.log == t.log
    ensures ResetWritten(t, r) <==> ResetWritten(s, r)
  {
  }

  lemma AckResets(t: Tcb, e: PacketEvent)
    ensures var r, p := HandleAck(t, e), e.packet;
            if !p.rst && AcksFuture(t, p) then ResetWritten(t, r)
            else forall i :: |t.log.written| <= i < |r.log.written| ==> !r.log.written[i].rst
  {
    hide Wrap, Compare, Tcb.WriteRst, Tcb.WriteOr, ResetWritten;
    RstWritten(t);
    AckAcknowledges(t.(remoteSeq := Wrap(t.remoteSeq + 1)), e.ackOk);
  }
}
