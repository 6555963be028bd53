/** What the peer is sent: every byte read from the proxy, once, in order, under its own sequence number. This is about
    the packets in the log alone. */
module TcpPeer {
  import opened Serial
  import opened Wire
  import opened Segments
  import opened Tcp
  import opened TcpRuns
  import opened TcpSequence

  // ---- The packets as a stream ----

  /** The data of all packets, in the order in which they were written. */
  function DataOf(written: seq<Packet>): Bytes {
    if written == [] then [] else DataOf(written[..|written| - 1]) + written[|written| - 1].data
  }

  /** Sequence numbers a packet takes up: a SYN and a FIN count as one byte each; a packet that was not sent does not
      count. */
  function Length(p: Packet): nat {
    if p.sent then |p.data| + (if p.syn then 1 else 0) + (if p.fin then 1 else 0) else 0
  }

  function LengthOf(written: seq<Packet>): nat {
    if written == [] then 0 else LengthOf(written[..|written| - 1]) + Length(written[|written| - 1])
  }

  /** Packets carry data within the segment size, or one of SYN, FIN and RST, or nothing but an acknowledgment. */
  predicate WellMade(p: Packet, mss: nat) {
    && |p.data| <= mss && (p.rst || p.ack) && (p.syn ==> p.data == [] && !p.fin && !p.rst)
    && (p.fin ==> p.data == [] && !p.rst) && (p.rst ==> p.data == [])
  }

  /** A packet with data or FIN has the number of the byte that follows those before it, counted after the SYN; the SYN
      has the first number and comes before all data. */
  ghost predicate InPlace(p: Packet, cfg: Config, before: Bytes) {
    && (p.data != [] || p.fin ==> p.seqNo == Wrap(cfg.localStart + (1 + |before|)))
    && (p.syn ==> p.seqNo == cfg.localStart && before == [])
  }

  /** Every packet starts where those before it end, and together they carry what was received; if `placed`, which port
      443 cannot promise, they also have the numbers of the bytes they carry. */
  ghost predicate Streamed(cfg: Config, localSeq: u32, received: Bytes, written: seq<Packet>, placed: bool) {
    && DataOf(written) == received && localSeq == Wrap(cfg.localStart + LengthOf(written))
    && forall i :: 0 <= i < |written| ==> Follows(written[i], cfg, written[..i], placed)
  }

  ghost predicate Follows(p: Packet, cfg: Config, before: seq<Packet>, placed: bool) {
    && WellMade(p, cfg.mss) && p.seqNo == Wrap(cfg.localStart + LengthOf(before))
    && (placed ==> InPlace(p, cfg, DataOf(before)))
  }

  /** Where the next packet with data, FIN or SYN may be written. */
  ghost predicate Due(cfg: Config, localSeq: u32, received: Bytes, syn: bool, more: bool) {
    && (more ==> localSeq == Wrap(cfg.localStart + (1 + |received|)))
    && (syn ==> localSeq == cfg.localStart && received == [])
  }

  lemma Appended(written: seq<Packet>, p: Packet)
    ensures DataOf(written + [p]) == DataOf(written) + p.data
    ensures LengthOf(written + [p]) == LengthOf(written) + Length(p)
    ensures forall i :: 0 <= i <= |written| ==> (written + [p])[..i] == written[..i]
  {
    assert (written + [p])[..|written|] == written;
  }

  lemma WriteStreamed(t: Tcb, received: Bytes, data: Bytes, syn: bool, ack: bool, fin: bool, rst: bool, ok: bool,
                      placed: bool)
    requires Streamed(t.cfg, t.localSeq, received, t.log.written, placed)
    requires placed ==> Due(t.cfg, t.localSeq, received, syn, data != [] || fin)
    requires |data| <= t.cfg.mss && (rst || ack) && (syn ==> data == [] && !fin && !rst)
    requires (fin ==> data == [] && !rst) && (rst ==> data == [])
    ensures var n := if ok then |data| + (if syn then 1 else 0) + (if fin then 1 else 0) else 0;
            Streamed(t.cfg, Wrap(t.localSeq + n), received + data, t.Write(data, syn, ack, fin, rst, ok).log.written,
                     placed)
  {
    hide Wrap, Bits.Pow2, DataOf, LengthOf, Follows;
    var w := t.Write(data, syn, ack, fin, rst, ok).log.written;
    var p := w[|w| - 1];
    Appended(t.log.written, p);
    WrapAdd(t.cfg.localStart + LengthOf(t.log.written), Length(p));
    NextFollows(p, t.cfg, t.localSeq, received, t.log.written, placed);
    assert forall i :: 0 <= i < |t.log.written| ==> w[i] == t.log.written[i];
  }

  lemma NextFollows(p: Packet, cfg: Config, localSeq: u32, received: Bytes, written: seq<Packet>, placed: bool)
    requires DataOf(written) == received && localSeq == Wrap(cfg.localStart + LengthOf(written))
    requires WellMade(p, cfg.mss) && p.seqNo == localSeq
    requires placed ==> Due(cfg, localSeq, received, p.syn, p.data != [] || p.fin)
    ensures Follows(p, cfg, written, placed)
  {
    hide Wrap;
  }

  ghost predicate Sends(t: Tcb, placed: bool) {
    Streamed(t.cfg, t.localSeq, t.log.received, t.log.written, placed)
  }

  lemma SameNumber(x: u32, received: Bytes)
    ensures Wrap(x + 0) == x && received + [] == received
  {
  }

  lemma RstStreamed(t: Tcb, placed: bool)
    requires Sends(t, placed)
    ensures Sends(t.WriteRst(), placed)
  {
    hide Wrap, Streamed, Bits.Pow2;
    var u := if t.state == Listen then t.(remoteSeq := Wrap(t.remoteSeq + 1)) else t;
    SameNumber(t.localSeq, t.log.received);
    WriteStreamed(u, t.log.received, [], false, t.state == Listen, false, true, true, placed);
  }

  lemma OrStreamed(t: Tcb, received: Bytes, data: Bytes, syn: bool, fin: bool, ok: bool, placed: bool)
    requires Streamed(t.cfg, t.localSeq, received, t.log.written, placed)
    requires placed ==> Due(t.cfg, t.localSeq, received, syn, data != [] || fin)
    requires |data| <= t.cfg.mss && (syn ==> data == [] && !fin) && (fin ==> data == [])
    ensures var n := if ok then |data| + (if syn then 1 else 0) + (if fin then 1 else 0) else 0;
            Streamed(t.cfg, Wrap(t.localSeq + n), received + data, t.WriteOr(data, syn, fin, ok).log.written, placed)
  {
    hide Wrap, Streamed, Bits.Pow2;
    WriteStreamed(t, received, data, syn, true, fin, false, ok, placed);
  }

  lemma AckStreamed(t: Tcb, ok: bool, placed: bool)
    requires Sends(t, placed)
    ensures Sends(t.WriteOr([], false, false, ok), placed)
  {
    hide Wrap, Streamed, Tcb.WriteOr;
    SameNumber(t.localSeq, t.log.received);
    OrStreamed(t, t.log.received, [], false, false, ok, placed);
  }

  // ---- Steps ----

  lemma ConnectingStreamed(t: Tcb, e: SocketEvent, placed: bool)
    requires Sends(t, placed) && (placed ==> Due(t.cfg, t.localSeq, t.log.received, true, false))
    ensures Sends(CheckConnecting(t, e), placed)
  {
    hide Wrap, Streamed, Tcb.WriteOr, Tcb.WriteRst;
    SameNumber(t.localSeq, t.log.received);
    RstStreamed(t, placed);
    OrStreamed(t.(remoteSeq := Wrap(t.remoteSeq + 1)), t.log.received, [], true, false, e.ackOk, placed);
    if e.answer.Some? { RstStreamed(t.(log := t.log.(answers := t.log.answers + [e.answer.value])), placed); }
  }

  lemma ForwardStreamed(t: Tcb, e: SocketEvent, placed: bool)
    requires t.Valid() && t.state != Listen && Sends(t, placed)
    ensures Sends(CheckForward(t, e).0, placed)
  {
    hide Forward, AllValid, Streamed, Wrap, Tcb.WriteRst;
    if e.writable {
      var p := Forward(StartPass(t, e.free), e.sends);
      RstStreamed(t.(queue := p.queue, remoteSeq := p.remoteSeq, log := t.log.(delivered := p.out)), placed);
    }
  }

  lemma AckStageStreamed(t: Tcb, fwd: bool, e: SocketEvent, placed: bool)
    requires t.Valid() && Sends(t, placed)
    ensures Sends(CheckAck(t, fwd, e), placed)
  {
    hide AllValid, Wrap, Tcb.WriteOr, Tcb.ReceiveWindow, Streamed;
    var r := t.(recvWindow := t.ReceiveWindow(e.freeAfter));
    AckStreamed(r, e.ackOk, placed);
    AckStreamed(r.(remoteSeq := Wrap(t.remoteSeq + 1)), e.ackOk, placed);
  }

  lemma ReadStreamed(t: Tcb, e: SocketEvent, placed: bool)
    requires Sends(t, placed) && (placed ==> Accounts(t))
    ensures Sends(CheckRead(t, e), placed)
  {
    hide Wrap, Tcb.SendWindow, Tcb.WriteRst, Streamed, ReadEof, ReadData;
    if t.state in {Established, CloseWait} {
      var r := t.(time := e.now);
      assert 1 + |t.log.received| == |t.log.received| + 1;
      RstStreamed(r, placed);
      EofStreamed(r, e.dataOk, placed);
      if e.recv.Received? {
        var window := t.SendWindow();
        var size := if window > t.cfg.mss then t.cfg.mss else window;
        DataStreamed(r, if |e.recv.data| > size then e.recv.data[..size] else e.recv.data, e.dataOk, placed);
      }
    }
  }

  lemma DataStreamed(t: Tcb, bytes: Bytes, ok: bool, placed: bool)
    requires Sends(t, placed) && |bytes| <= t.cfg.mss
    requires placed ==> Due(t.cfg, t.localSeq, t.log.received, false, true)
    ensures Sends(ReadData(t, bytes, ok), placed)
  {
    hide Wrap, Tcb.WriteOr, Streamed;
    SameNumber(t.localSeq, t.log.received);
    OrStreamed(t.(log := t.log.(received := t.log.received + bytes)), t.log.received, bytes, false, false, ok, placed);
  }

  lemma EofStreamed(t: Tcb, ok: bool, placed: bool)
    requires Sends(t, placed) && (placed ==> Due(t.cfg, t.localSeq, t.log.received, false, true))
    ensures Sends(ReadEof(t, ok), placed)
  {
    hide Wrap, Tcb.WriteOr, Tcb.WriteRst, Streamed;
    SameNumber(t.localSeq, t.log.received);
    OrStreamed(t, t.log.received, [], false, true, ok, placed);
    RstStreamed(t, placed);
  }

  lemma HandleAckStreamed(t: Tcb, e: PacketEvent, placed: bool)
    requires Sends(t, placed)
    ensures Sends(HandleAck(t, e), placed)
  {
    hide Wrap, Compare, Tcb.WriteOr, Tcb.WriteRst, Streamed;
    RstStreamed(t, placed);
    AckStreamed(t.(remoteSeq := Wrap(t.remoteSeq + 1)), e.ackOk, placed);
  }

  lemma PeerStreamed(t: Tcb, e: PacketEvent, placed: bool)
    requires Sends(t, placed)
    ensures Sends(HandlePacket(t, e), placed)
  {
    hide Wrap, SendConnect, HandleAck, Enqueue, Tcb.WriteRst, Streamed, Bits.Pow2;
    SendConnectStreamed(t, e, placed);
    var c := SendConnect(t, e);
    RstStreamed(c, placed);
    var r := c.(time := e.now, sendWindow := Wrap(e.packet.window * Bits.Pow2(c.cfg.sendScale)));
    RstStreamed(r, placed);
    HandleAckStreamed(r, e, placed);
    HandleAckStreamed(QueuePacket(r, e.packet), e, placed);
  }

  lemma SendConnectStreamed(t: Tcb, e: PacketEvent, placed: bool)
    requires Sends(t, placed)
    ensures Sends(SendConnect(t, e), placed)
  {
    hide Wrap, Tcb.WriteRst, Streamed;
    RstStreamed(t, placed);
  }

  lemma KeepAliveStreamed(t: Tcb, e: MonitorEvent, placed: bool)
    requires Sends(t, placed)
    ensures Sends(KeepAlive(t, e), placed)
  {
    hide Wrap, Streamed, Tcb.SendWindow, Tcb.WriteOr;
    AckStreamed(t.(lastKeepAlive := e.ms, remoteSeq := Wrap(t.remoteSeq - 1)), e.ackOk, placed);
  }

  /** What is assumed of a session for its packets to be in place. */
  ghost predicate Orderly(t: Tcb) {
    t.cfg.port != HTTPS_PORT && Lifecycle(t) && Accounts(t) && (t.state == Listen ==> t.log.received == [])
  }

  lemma StepStreamed(t: Tcb, e: Event, placed: bool)
    requires t.Valid() && EventFits(e) && Sends(t, placed) && (placed ==> Orderly(t))
    ensures Sends(Step(t, e), placed)
  {
    hide CheckConnecting, CheckForward, CheckAck, CheckRead, HandlePacket, AllValid, Wrap, KeepAlive, WantsIn, WantsOut,
      Tcb.WriteRst, Streamed, Lifecycle, Accounts;
    match e
    case Socket(s) =>
      if t.open {
        if s.err {
          RstStreamed(t.(time := s.now), placed);
        } else if t.state == Listen {
          if placed { FirstNumber(t); }
          ConnectingStreamed(t, s, placed);
        } else {
          var f, a := CheckSocketStages(t, s);
          ForwardStreamed(t, s, placed);
          AckStageStreamed(f, CheckForward(t, s).1, s, placed);
          if placed {
            ForwardAccounts(t, s);
            AckAccounts(f, CheckForward(t, s).1, s);
          }
          ReadStreamed(a, s, placed);
        }
      }
    case Peer(p) => PeerStreamed(t, p, placed);
    case Watch(m) => KeepAliveStreamed(t, m, placed);
    case Sweep(now, sessions, maxSessions) => RstStreamed(t, placed);
  }

  lemma FirstNumber(t: Tcb)
    requires Orderly(t) && t.state == Listen
    ensures Due(t.cfg, t.localSeq, t.log.received, true, false)
  {
  }

  lemma StepOrderly(t: Tcb, e: Event)
    requires t.Valid() && EventFits(e) && Orderly(t)
    ensures Orderly(Step(t, e))
  {
    hide Step, Lifecycle, Accounts;
    StepValid(t, e);
    StepLifecycle(t, e);
    StepAccounts(t, e);
    if t.state == Listen { ListenReads(t, e); }
  }

  /** Nothing is read before the SYN is answered. */
  lemma ListenReads(t: Tcb, e: Event)
    requires t.Valid() && EventFits(e) && t.state == Listen
    ensures Step(t, e).log.received == t.log.received
  {
    hide Wrap, HandleAck, SendConnect, Enqueue, AllValid, Tcb.WriteOr, Tcb.WriteRst, KeepAlive, WantsIn, WantsOut;
    match e
    case Socket(s) =>
    case Peer(p) =>
      SendConnectFrame(t, p);
      var c := SendConnect(t, p);
      var r := c.(time := p.now, sendWindow := Wrap(p.packet.window * Bits.Pow2(t.cfg.sendScale)));
      HandleAckFrame(r, p);
      HandleAckFrame(QueuePacket(r, p.packet), p);
    case Watch(m) => KeepAliveFrame(t, m);
    case Sweep(now, sessions, maxSessions) =>
  }

  /** The download direction, on every run and on every port: the packets written carry exactly the bytes read from the
      proxy, in order, cut to the segment size, and every packet starts where the packets sent before it end. Away from
      port 443 the packet that carries the bytes from index k on has the k-th number after the SYN, and so has the FIN
      after all of them. */
  lemma RunStreamed(t: Tcb, es: seq<Event>, placed: bool)
    requires t.Valid() && Fits(es) && Sends(t, placed) && (placed ==> Orderly(t))
    ensures var r := Run(t, es); var w := r.log.written;
            && Sends(r, placed) && r.cfg == t.cfg && DataOf(w) == r.log.received
            && (forall i :: 0 <= i < |w| ==> w[i].seqNo == Wrap(t.cfg.localStart + LengthOf(w[..i])))
            && (placed ==> forall i :: 0 <= i < |w| && (w[i].data != [] || w[i].fin) ==>
                  w[i].seqNo == Wrap(t.cfg.localStart + (1 + |DataOf(w[..i])|)))
  {
    hide Step, Streamed, Orderly, DataOf, LengthOf;
    RunSends(t, es, placed);
    SendsMeans(Run(t, es), placed);
  }

  lemma SendsMeans(r: Tcb, placed: bool)
    requires Sends(r, placed)
    ensures var w := r.log.written;
            && DataOf(w) == r.log.received
            && (forall i :: 0 <= i < |w| ==> w[i].seqNo == Wrap(r.cfg.localStart + LengthOf(w[..i])))
            && (placed ==> forall i :: 0 <= i < |w| && (w[i].data != [] || w[i].fin) ==>
                  w[i].seqNo == Wrap(r.cfg.localStart + (1 + |DataOf(w[..i])|)))
  {
    hide Wrap, DataOf, LengthOf;
    var w := r.log.written;
    forall i | 0 <= i < |w|
      ensures w[i].seqNo == Wrap(r.cfg.localStart + LengthOf(w[..i]))
      ensures placed && (w[i].data != [] || w[i].fin) ==> w[i].seqNo == Wrap(r.cfg.localStart + (1 + |DataOf(w[..i])|))
    {
      assert Follows(w[i], r.cfg, w[..i], placed);
    }
  }

  lemma {:induction false} RunSends(t: Tcb, es: seq<Event>, placed: bool)
    requires t.Valid() && Fits(es) && Sends(t, placed) && (placed ==> Orderly(t))
    ensures Sends(Run(t, es), placed) && Run(t, es).cfg == t.cfg
    decreases |es|
  {
    hide Step, Streamed, Orderly;
    if es != [] {
      StepValid(t, es[0]);
      StepStreamed(t, es[0], placed);
      if placed { StepOrderly(t, es[0]); }
      RunSends(Step(t, es[0]), es[1..], placed);
    }
  }

  /** New sessions have sent nothing. */
  lemma NewSessionSends(port: nat, mss: nat, scale: nat, window: u16, isn: u32, local: u32, free: u32, now: int,
                        placed: bool)
    requires scale <= 14 && (placed ==> port != HTTPS_PORT)
    ensures var t := NewSession(port, mss, scale, window, isn, local, free, now);
            t.Valid() && Sends(t, placed) && (placed ==> Orderly(t))
  {
    hide Tcb.ReceiveWindow, Bits.Pow2, Wrap;
    var t := NewSession(port, mss, scale, window, isn, local, free, now);
    WrapSelf(isn);
    WrapSelf(local);
    assert LengthOf(t.log.written) == 0 && DataOf(t.log.written) == [];
  }
}
