/** The peer's window: nothing is written beyond what the peer allows, and acknowledgments only move forward. */
module TcpWindow {
  import opened Bits
  import opened Serial
  import opened Wire
  import opened Segments
  import opened Tcp
  import opened TcpRuns
  import opened TcpSequence

  // ---- The peer's acknowledgments ----

  /** The most a 16-bit window with this scale can be. */
  function MaxWindow(scale: nat): nat {
    0xFFFF * Pow2(scale)
  }

  lemma MaxWindowBound(scale: nat)
    requires scale <= 14
    ensures 0xFFFF <= MaxWindow(scale) <= 0xFFFF * 0x4000 < 0x4000_0000
  {
    Pow2Mono(scale, 14);
    assert Pow2(14) == 0x4000;
  }

  lemma ScaledWindow(window: u16, scale: nat)
    requires scale <= 14
    ensures Wrap(window * Pow2(scale)) == window * Pow2(scale) <= MaxWindow(scale)
  {
    hide Wrap, Pow2;
    MaxWindowBound(scale);
    MulMono(window, 0xFFFF, Pow2(scale));
    WrapNear(window * Pow2(scale));
  }

  lemma MulMono(x: nat, y: nat, k: nat)
    requires x <= y
    ensures x * k <= y * k
  {
  }

  /** The one acknowledgment that `compare_u32` misjudges in `handle_tcp`: exactly half the circle behind, with one
      byte outstanding across the sign change. */
  predicate Corner(local: u32, acked: u32, ackNo: u32) {
    local == 0x8000_0000 && acked == 0x7FFF_FFFF && ackNo == 0
  }

  /** `handle_tcp` gets as far as reading the packet's acknowledgment. */
  predicate ReadsAck(t: Tcb, p: PeerPacket) {
    && p.ack && !p.rst && !p.urg && (t.cfg.port == HTTPS_PORT ==> t.connect == Connected)
    && (p.data != [] ==> t.open && t.state != CloseWait)
  }

  predicate Misread(t: Tcb, p: PeerPacket) {
    ReadsAck(t, p) && Corner(t.localSeq, t.acked, p.ackNo)
  }

  /** An older acknowledgment moves `acked` towards `local_seq` or leaves it, exactly outside that corner. */
  lemma OlderAckMovesForward(t: Tcb, ackNo: u32)
    requires Dist(t.acked, t.localSeq) <= 0x4000_0000 && ackNo != t.localSeq
    ensures Dist(HandleOther(t, ackNo).acked, t.localSeq) <= Dist(t.acked, t.localSeq)
            <==> !Corner(t.localSeq, t.acked, ackNo)
  {
    hide Tcb.WriteRst;
    var l: int, a: int, k: int := t.localSeq, t.acked, ackNo;
    WrapNear(l - a);
    WrapNear(l - k);
    if Corner(t.localSeq, t.acked, ackNo) { WrapNear(1); }
  }

  /** In the corner the acknowledged number jumps back by half the circle. */
  lemma CornerMovesBack(t: Tcb)
    requires Corner(t.localSeq, t.acked, 0)
    ensures HandleOther(t, 0).acked == 0 && Dist(0, t.localSeq) == HALF && Dist(t.acked, t.localSeq) == 1
  {
    WrapNear(1);
    WrapNear(0x8000_0000);
  }

  // ---- Send window ----

  /** Strictly, at most one window is unacknowledged where data flows. Otherwise it is enough that `compare_u32` takes
      the acknowledged number for an older one: then `get_send_window` still subtracts the whole distance, and nothing
      is written until the peer is back inside its window. */
  ghost predicate Held(t: Tcb, strict: bool) {
    && t.sendWindow <= MaxWindow(t.cfg.sendScale)
    && (Flowing(t.state) ==>
        || Dist(t.acked, t.localSeq) <= MaxWindow(t.cfg.sendScale)
        || (!strict && Compare(t.acked, t.localSeq) < 0))
  }

  ghost predicate WindowKept(t: Tcb) {
    Held(t, true)
  }

  /** While the peer is at most a window behind, `get_send_window` is what is left of its window. */
  lemma SendWindowExact(t: Tcb)
    requires Dist(t.acked, t.localSeq) <= 0x4000_0000
    ensures var d: int := Dist(t.acked, t.localSeq); t.SendWindow() == if d < t.sendWindow then t.sendWindow - d else 0
  {
    DistRestores(t.acked, t.localSeq);
    CompareOffsets(t.acked, 0, Dist(t.acked, t.localSeq));
    WrapNear(t.acked);
  }

  lemma SendWindowHeld(t: Tcb, strict: bool)
    requires t.cfg.Valid() && Held(t, strict) && Flowing(t.state)
    ensures var d: int := Dist(t.acked, t.localSeq); t.SendWindow() == if d < t.sendWindow then t.sendWindow - d else 0
  {
    hide Dist, Compare, MaxWindow;
    MaxWindowBound(t.cfg.sendScale);
    if Dist(t.acked, t.localSeq) <= 0x4000_0000 { SendWindowExact(t); }
  }

  lemma DistGrows(a: u32, l: u32, n: nat)
    requires Dist(a, l) + n < MOD
    ensures Dist(a, Wrap(l + n)) == Dist(a, l) + n
  {
    var x: int := l;
    WrapAdd(x + n, 0 - a);
    WrapAdd(x - a, n);
    WrapNear(Dist(a, l) + n);
  }

  /** A data or FIN packet ends inside the peer's window as it was when the packet was written. */
  predicate InsideWindow(p: Packet) {
    p.data != [] || p.fin ==> Dist(p.acked, p.seqNo) + |p.data| + (if p.fin then 1 else 0) <= p.sendWindow
  }

  predicate AllInside(written: seq<Packet>) {
    forall i :: 0 <= i < |written| ==> InsideWindow(written[i])
  }

  lemma WriteInside(t: Tcb, data: Bytes, syn: bool, ack: bool, fin: bool, rst: bool, ok: bool)
    requires AllInside(t.log.written)
    requires data != [] || fin ==>
               Dist(t.acked, t.localSeq) + |data| + (if fin then 1 else 0) <= t.sendWindow
    ensures AllInside(t.Write(data, syn, ack, fin, rst, ok).log.written)
  {
  }

  lemma RstInside(t: Tcb)
    requires AllInside(t.log.written)
    ensures AllInside(t.WriteRst().log.written)
  {
    hide Wrap;
    var u := if t.state == Listen then t.(remoteSeq := Wrap(t.remoteSeq + 1)) else t;
    WriteInside(u, [], false, t.state == Listen, false, true, true);
  }

  lemma OrInside(t: Tcb, data: Bytes, syn: bool, fin: bool, ok: bool)
    requires AllInside(t.log.written)
    requires data != [] || fin ==>
               Dist(t.acked, t.localSeq) + |data| + (if fin then 1 else 0) <= t.sendWindow
    ensures AllInside(t.WriteOr(data, syn, fin, ok).log.written)
  {
    hide Wrap;
    WriteInside(t, data, syn, true, fin, false, ok);
  }

  lemma ReadDataWindow(t: Tcb, bytes: Bytes, ok: bool, strict: bool)
    requires t.cfg.Valid() && Held(t, strict) && AllInside(t.log.written) && t.state in {Established, CloseWait}
    requires Dist(t.acked, t.localSeq) + |bytes| <= t.sendWindow
    ensures Held(ReadData(t, bytes, ok), strict) && AllInside(ReadData(t, bytes, ok).log.written)
  {
    hide Wrap, Dist, Tcb.WriteOr, MaxWindow, AllInside;
    MaxWindowBound(t.cfg.sendScale);
    DistGrows(t.acked, t.localSeq, |bytes|);
    OrInside(t.(log := t.log.(received := t.log.received + bytes)), bytes, false, false, ok);
  }

  lemma ReadWindow(t: Tcb, e: SocketEvent, strict: bool)
    requires t.cfg.Valid() && Held(t, strict) && AllInside(t.log.written) && t.state != Listen
    ensures Held(CheckRead(t, e), strict) && AllInside(CheckRead(t, e).log.written)
  {
    hide Wrap, Dist, Compare, Tcb.SendWindow, Tcb.WriteRst, MaxWindow, AllInside, ReadEof, ReadData;
    if t.state in {Established, CloseWait} && e.readable && t.SendWindow() > 0 {
      MaxWindowBound(t.cfg.sendScale);
      SendWindowHeld(t, strict);
      var r := t.(time := e.now);
      match e.recv
      case RecvError(retry) => RstInside(r);
      case Received(data) =>
        var window := t.SendWindow();
        var size := if window > t.cfg.mss then t.cfg.mss else window;
        var bytes := if |data| > size then data[..size] else data;
        if bytes == [] {
          EofWindow(r, e.dataOk, strict);
        } else {
          ReadDataWindow(r, bytes, e.dataOk, strict);
        }
    }
  }

  lemma EofWindow(t: Tcb, ok: bool, strict: bool)
    requires t.cfg.Valid() && Held(t, strict) && AllInside(t.log.written) && t.state in {Established, CloseWait}
    requires Dist(t.acked, t.localSeq) < t.sendWindow
    ensures Held(ReadEof(t, ok), strict) && AllInside(ReadEof(t, ok).log.written)
  {
    hide Wrap, Dist, Tcb.WriteOr, Tcb.WriteRst, MaxWindow, AllInside;
    MaxWindowBound(t.cfg.sendScale);
    DistGrows(t.acked, t.localSeq, 1);
    OrInside(t, [], false, true, ok);
    RstInside(t);
  }

  lemma ForwardInside(t: Tcb, e: SocketEvent)
    requires t.Valid() && t.state != Listen && AllInside(t.log.written)
    ensures AllInside(CheckForward(t, e).0.log.written)
  {
    hide Forward, AllValid, AllInside, Wrap, Tcb.WriteRst;
    if e.writable {
      var p := Forward(StartPass(t, e.free), e.sends);
      RstInside(t.(queue := p.queue, remoteSeq := p.remoteSeq, log := t.log.(delivered := p.out)));
    }
  }

  lemma AckInside(t: Tcb, fwd: bool, e: SocketEvent)
    requires t.Valid() && AllInside(t.log.written)
    ensures AllInside(CheckAck(t, fwd, e).log.written)
  {
    hide AllValid, AllInside, Wrap, Dist, Tcb.WriteOr, Tcb.ReceiveWindow;
    var r := t.(recvWindow := t.ReceiveWindow(e.freeAfter));
    OrInside(r, [], false, false, e.ackOk);
    OrInside(r.(remoteSeq := Wrap(t.remoteSeq + 1)), [], false, false, e.ackOk);
  }

  lemma ConnectingWindow(t: Tcb, e: SocketEvent, strict: bool)
    requires Held(t, strict) && AllInside(t.log.written) && t.state == Listen
    ensures Held(CheckConnecting(t, e), strict) && AllInside(CheckConnecting(t, e).log.written)
  {
    hide Wrap, Dist, Tcb.WriteOr, Tcb.WriteRst, MaxWindow, AllInside;
    RstInside(t);
    OrInside(t.(remoteSeq := Wrap(t.remoteSeq + 1)), [], true, false, e.ackOk);
    if e.answer.Some? { RstInside(t.(log := t.log.(answers := t.log.answers + [e.answer.value]))); }
  }

  lemma HandleAckWindow(t: Tcb, e: PacketEvent, strict: bool)
    requires t.cfg.Valid() && Held(t, strict) && AllInside(t.log.written)
    requires strict && Flowing(t.state) && e.packet.ack && !e.packet.rst ==>
               !Corner(t.localSeq, t.acked, e.packet.ackNo)
    ensures Held(HandleAck(t, e), strict) && AllInside(HandleAck(t, e).log.written)
  {
    hide Wrap, Dist, Compare, HandleFin, HandleOther, MaxWindow, AllInside, Corner;
    MaxWindowBound(t.cfg.sendScale);
    var p := e.packet;
    if !p.rst {
      if !p.ack || p.ackNo == t.localSeq {
        HandleFinWindow(t, e.ackOk, strict);
        DistSelf(t.localSeq);
      } else {
        if strict && Flowing(t.state) { OlderAckMovesForward(t, p.ackNo); }
        HandleOtherWindow(t, p.ackNo, strict);
      }
    }
  }

  lemma DistSelf(x: u32)
    ensures Dist(x, x) == 0
  {
  }

  lemma HandleFinWindow(t: Tcb, ok: bool, strict: bool)
    requires Held(t, strict) && AllInside(t.log.written)
    ensures Held(HandleFin(t, ok), strict) && AllInside(HandleFin(t, ok).log.written)
  {
    hide Wrap, Dist, Tcb.WriteOr, MaxWindow, AllInside;
    OrInside(t.(remoteSeq := Wrap(t.remoteSeq + 1)), [], false, false, ok);
  }

  lemma HandleOtherWindow(t: Tcb, ackNo: u32, strict: bool)
    requires Held(t, strict) && AllInside(t.log.written)
    requires strict && Flowing(t.state) ==> Dist(HandleOther(t, ackNo).acked, t.localSeq) <= Dist(t.acked, t.localSeq)
    ensures Held(HandleOther(t, ackNo), strict) && AllInside(HandleOther(t, ackNo).log.written)
  {
    hide Wrap, Dist, Compare, Tcb.WriteRst, MaxWindow, AllInside;
    RstInside(t);
  }

  lemma SendConnectWindow(t: Tcb, e: PacketEvent, strict: bool)
    requires Held(t, strict) && AllInside(t.log.written)
    ensures Held(SendConnect(t, e), strict) && AllInside(SendConnect(t, e).log.written)
    ensures Flowing(SendConnect(t, e).state) ==> SendConnect(t, e) == t
  {
    hide Wrap, Dist, Tcb.WriteRst, MaxWindow, AllInside;
    RstInside(t);
  }

  lemma PeerWindow(t: Tcb, e: PacketEvent, strict: bool)
    requires t.Valid() && Held(t, strict) && AllInside(t.log.written)
    requires strict && Flowing(t.state) ==> !Misread(t, e.packet)
    ensures Held(HandlePacket(t, e), strict) && AllInside(HandlePacket(t, e).log.written)
  {
    hide Wrap, Dist, Compare, SendConnect, HandleAck, Enqueue, Tcb.WriteRst, MaxWindow, AllInside, AllValid, Corner;
    SendConnectFrame(t, e);
    SendConnectWindow(t, e, strict);
    var c := SendConnect(t, e);
    ScaledWindow(e.packet.window, t.cfg.sendScale);
    RstInside(c);
    var r := c.(time := e.now, sendWindow := Wrap(e.packet.window * Pow2(t.cfg.sendScale)));
    RstInside(r);
    if !e.packet.urg && Alive(c.state) && (t.cfg.port == HTTPS_PORT ==> c.connect == Connected) {
      if e.packet.data == [] {
        HandleAckWindow(r, e, strict);
      } else if r.open && r.state != CloseWait {
        HandleAckWindow(QueuePacket(r, e.packet), e, strict);
      }
    }
  }

  lemma KeepAliveInside(t: Tcb, e: MonitorEvent)
    requires AllInside(t.log.written)
    ensures AllInside(KeepAlive(t, e).log.written)
  {
    hide Wrap, AllInside, Tcb.SendWindow, Tcb.WriteOr, Dist;
    OrInside(t.(lastKeepAlive := e.ms, remoteSeq := Wrap(t.remoteSeq - 1)), [], false, false, e.ackOk);
  }

  lemma StepWindow(t: Tcb, e: Event, strict: bool)
    requires t.Valid() && EventFits(e) && Held(t, strict) && AllInside(t.log.written)
    requires strict && e.Peer? && Flowing(t.state) ==> !Misread(t, e.peer.packet)
    ensures Held(Step(t, e), strict) && AllInside(Step(t, e).log.written)
  {
    hide CheckConnecting, CheckForward, CheckAck, CheckRead, HandlePacket, AllValid, Wrap, KeepAlive, WantsIn, WantsOut,
      Tcb.WriteRst, Dist, MaxWindow, AllInside, Corner;
    match e
    case Socket(s) =>
      if t.open {
        if s.err {
          RstInside(t.(time := s.now));
        } else if t.state == Listen {
          ConnectingWindow(t, s, strict);
        } else {
          var f, a := CheckSocketStages(t, s);
          ForwardInside(t, s);
          AckInside(f, CheckForward(t, s).1, s);
          ReadWindow(a, s, strict);
        }
      }
    case Peer(p) => PeerWindow(t, p, strict);
    case Watch(m) =>
      KeepAliveFrame(t, m);
      KeepAliveInside(t, m);
    case Sweep(now, sessions, maxSessions) =>
      RstInside(t);
  }

  // ---- The acknowledged number ----

  lemma ExactAcked(t: Tcb, e: PacketEvent)
    ensures HandleExact(t, e).acked in {t.acked, e.packet.ackNo}
    ensures !e.packet.ack ==> HandleExact(t, e).acked == t.acked
  {
    hide Wrap, Tcb.WriteOr;
  }

  /** Where data flows, what a packet does to the acknowledged number. */
  lemma PeerAcked(t: Tcb, e: PacketEvent)
    requires Flowing(t.state)
    ensures var a, p := HandlePacket(t, e).acked, e.packet;
            if !ReadsAck(t, p) then a == t.acked
            else if p.ackNo == t.localSeq then a in {t.acked, t.localSeq}
            else a == HandleOther(t, p.ackNo).acked
  {
    hide Wrap, SendConnect, HandleExact, HandleOther, Enqueue, Pow2;
    SendConnectFrame(t, e);
    var r := t.(time := e.now, sendWindow := Wrap(e.packet.window * Pow2(t.cfg.sendScale)));
    var q := QueuePacket(r, e.packet);
    ExactAcked(r, e);
    ExactAcked(q, e);
    OtherAcked(t, r, e.packet.ackNo);
    OtherAcked(t, q, e.packet.ackNo);
  }

  lemma OtherAcked(t: Tcb, r: Tcb, ackNo: u32)
    requires r.acked == t.acked && r.localSeq == t.localSeq
    ensures HandleOther(r, ackNo).acked == HandleOther(t, ackNo).acked
  {
    hide Wrap, Compare;
  }

  lemma PeerAdvances(t: Tcb, e: PacketEvent)
    requires Flowing(t.state) && Dist(t.acked, t.localSeq) <= 0x4000_0000
    ensures Dist(HandlePacket(t, e).acked, t.localSeq) <= Dist(t.acked, t.localSeq) <==> !Misread(t, e.packet)
  {
    hide Wrap, Dist, HandlePacket, HandleOther;
    PeerAcked(t, e);
    DistSelf(t.localSeq);
    if e.packet.ackNo != t.localSeq { OlderAckMovesForward(t, e.packet.ackNo); }
  }

  /** Every step that starts where data flows leaves `acked` or moves it towards what had been sent before the step, if
      and only if it is not the reading of the misjudged acknowledgment. */
  lemma StepAdvances(t: Tcb, e: Event)
    requires t.Valid() && EventFits(e) && WindowKept(t) && Flowing(t.state)
    ensures Dist(Step(t, e).acked, t.localSeq) <= Dist(t.acked, t.localSeq)
            <==> !(e.Peer? && Misread(t, e.peer.packet))
  {
    hide CheckForward, CheckAck, CheckRead, HandlePacket, AllValid, Wrap, KeepAlive, WantsIn, WantsOut, Tcb.WriteRst,
      Dist, MaxWindow, Misread;
    MaxWindowBound(t.cfg.sendScale);
    match e
    case Socket(s) =>
      if t.open && !s.err {
        var f, a := CheckSocketStages(t, s);
        ReadFrame(a, s);
      }
    case Peer(p) => PeerAdvances(t, p);
    case Watch(m) => KeepAliveFrame(t, m);
    case Sweep(now, sessions, maxSessions) =>
  }

  /** The misjudged acknowledgment leaves more than a window unacknowledged while data still flows. */
  lemma MisreadBreaks(t: Tcb, e: PacketEvent)
    requires t.cfg.Valid() && Flowing(t.state) && Misread(t, e.packet)
    ensures var r := HandlePacket(t, e);
            && r.acked == 0 && r.localSeq == t.localSeq && r.state == t.state
            && Dist(r.acked, r.localSeq) == HALF > MaxWindow(t.cfg.sendScale)
  {
    hide Enqueue, Pow2;
    MaxWindowBound(t.cfg.sendScale);
    WrapNear(1);
    WrapNear(0x8000_0000);
  }

  // ---- Whole runs ----

  /** Send-window safety: on every run, every data or FIN packet ever written ended inside the peer's window of that
      moment. */
  lemma {:induction false} RunInside(t: Tcb, es: seq<Event>)
    requires t.Valid() && Fits(es) && Held(t, false) && AllInside(t.log.written)
    ensures var r := Run(t, es); AllInside(r.log.written) && Held(r, false) && r.cfg == t.cfg
    decreases |es|
  {
    hide Step, AllInside, Held;
    if es != [] {
      StepValid(t, es[0]);
      StepWindow(t, es[0], false);
      RunInside(Step(t, es[0]), es[1..]);
    }
  }

  /** At no step of the run is the misjudged acknowledgment read where data flows. */
  ghost predicate NoMisread(t: Tcb, es: seq<Event>)
    requires t.Valid() && Fits(es)
    decreases |es|
  {
    es == [] ||
    (&& !(es[0].Peer? && Flowing(t.state) && Misread(t, es[0].peer.packet))
     && (StepValid(t, es[0]); NoMisread(Step(t, es[0]), es[1..])))
  }

  /** At every step of the run that starts where data flows, `acked` stays or moves towards what had been sent. */
  ghost predicate Advances(t: Tcb, es: seq<Event>)
    requires t.Valid() && Fits(es)
    decreases |es|
  {
    es == [] ||
    (&& (Flowing(t.state) ==> Dist(Step(t, es[0]).acked, t.localSeq) <= Dist(t.acked, t.localSeq))
     && (StepValid(t, es[0]); Advances(Step(t, es[0]), es[1..])))
  }

  /** After every step of the run, at most one scaled window is unacknowledged where data flows. */
  ghost predicate Bounded(t: Tcb, es: seq<Event>)
    requires t.Valid() && Fits(es)
    decreases |es|
  {
    es == [] ||
    (StepValid(t, es[0]);
     var r := Step(t, es[0]);
     && (Flowing(r.state) ==> Dist(r.acked, r.localSeq) <= MaxWindow(r.cfg.sendScale))
     && Bounded(r, es[1..]))
  }

  /** Throughout a run `acked` only advances, and at most one scaled window is unacknowledged, if and only if the run
      never reads the misjudged acknowledgment. */
  lemma {:induction false} RunAdvances(t: Tcb, es: seq<Event>)
    requires t.Valid() && Fits(es) && WindowKept(t) && AllInside(t.log.written)
    ensures Advances(t, es) <==> NoMisread(t, es)
    ensures Bounded(t, es) <==> NoMisread(t, es)
    decreases |es|
  {
    hide Step, AllInside, Dist, MaxWindow, Misread;
    if es != [] {
      var e := es[0];
      StepValid(t, e);
      if Flowing(t.state) { StepAdvances(t, e); }
      if e.Peer? && Flowing(t.state) && Misread(t, e.peer.packet) {
        StepMisread(t, e);
      } else {
        StepWindow(t, e, true);
        RunAdvances(Step(t, e), es[1..]);
      }
    }
  }

  lemma StepMisread(t: Tcb, e: Event)
    requires t.Valid() && EventFits(e) && e.Peer? && Flowing(t.state) && Misread(t, e.peer.packet)
    ensures var r := Step(t, e);
            Flowing(r.state) && r.cfg == t.cfg && Dist(r.acked, r.localSeq) > MaxWindow(r.cfg.sendScale)
  {
    hide HandlePacket, Misread, Dist, MaxWindow;
    StepValid(t, e);
    MisreadBreaks(t, e.peer);
  }

  /** At the end of such a run at most one scaled window is unacknowledged where data flows. */
  lemma {:induction false} RunWindow(t: Tcb, es: seq<Event>)
    requires t.Valid() && Fits(es) && WindowKept(t) && AllInside(t.log.written) && NoMisread(t, es)
    ensures var r := Run(t, es);
            && AllInside(r.log.written) && WindowKept(r) && r.cfg == t.cfg
            && (Flowing(r.state) ==> Dist(r.acked, r.localSeq) <= MaxWindow(r.cfg.sendScale))
    decreases |es|
  {
    hide Step, AllInside, Dist, MaxWindow, Misread;
    if es != [] {
      StepValid(t, es[0]);
      StepWindow(t, es[0], true);
      RunWindow(Step(t, es[0]), es[1..]);
    }
  }

  // ---- The misjudged acknowledgment is reached ----

  function Quiet(readable: bool, writable: bool, recv: RecvResult): SocketEvent {
    SocketEvent(false, readable, writable, 0, 0, 0, _ => Retry, true, None, recv, true)
  }

  function PlainAck(ackNo: u32): PacketEvent {
    PacketEvent(PeerPacket(0, ackNo, 0xFFFF, false, true, false, false, false, false, []), 0, false, false, false)
  }

  /** The session has state s, and these numbers of its own. */
  ghost predicate Stands(t: Tcb, s: State, local: u32, acked: u32) {
    && t.Valid() && t.state == s && t.open && t.cfg.port != HTTPS_PORT && t.cfg.mss > 0
    && t.localSeq == local && t.acked == acked
  }

  lemma SynAckStep(t: Tcb)
    requires t.connect != Sent && t.localSeq == 0x7FFF_FFFE && Stands(t, Listen, t.localSeq, t.acked)
    ensures var r := CheckSocket(t, Quiet(false, true, RecvError(true))); Stands(r, SynRecv, 0x7FFF_FFFF, t.acked)
  {
    hide AllValid, Tcb.WriteRst;
    WrapNear(0x7FFF_FFFF);
  }

  lemma EstablishStep(t: Tcb)
    requires Stands(t, SynRecv, 0x7FFF_FFFF, t.acked)
    ensures var r := HandlePacket(t, PlainAck(0x7FFF_FFFF));
            Stands(r, Established, 0x7FFF_FFFF, 0x7FFF_FFFF) && r.sendWindow >= 0xFFFF
  {
    hide AllValid, Pow2, Wrap, Compare;
    ScaledWindow(0xFFFF, t.cfg.sendScale);
    MaxWindowBound(t.cfg.sendScale);
  }

  lemma OneByteStep(t: Tcb)
    requires Stands(t, Established, 0x7FFF_FFFF, 0x7FFF_FFFF) && t.sendWindow >= 0xFFFF
    ensures var r := CheckSocket(t, Quiet(true, false, Received([0]))); Stands(r, Established, 0x8000_0000, 0x7FFF_FFFF)
  {
    hide AllValid, Compare, CheckAck, CheckRead, Tcb.Valid;
    var e := Quiet(true, false, Received([0]));
    var f, a := CheckSocketStages(t, e);
    QuietAck(t, e);
    WrapNear(0);
    SendWindowExact(a);
    OneByteRead(a, e);
    StepValid(t, Socket(e));
  }

  lemma QuietAck(t: Tcb, e: SocketEvent)
    requires t.Valid() && e.ackOk
    ensures CheckAck(t, false, e).state == t.state
  {
    hide Wrap, AllValid, Tcb.ReceiveWindow;
  }

  lemma OneByteRead(a: Tcb, e: SocketEvent)
    requires a.state == Established && a.localSeq == 0x7FFF_FFFF && a.cfg.mss > 0 && a.SendWindow() > 0
    requires e.readable && e.recv == Received([0]) && e.dataOk
    ensures var r := CheckRead(a, e);
            r.state == Established && r.localSeq == 0x8000_0000 && r.acked == a.acked && r.open == a.open
  {
    hide Tcb.SendWindow;
    WrapNear(0x8000_0000);
  }

  /** From every new session with that initial number, away from port 443, four events lead through the misjudged
      acknowledgment to an established session whose peer has apparently acknowledged nothing for half the circle. */
  lemma MisreadReached(port: nat, mss: nat, scale: nat, window: u16, isn: u32, free: u32, now: int)
    returns (es: seq<Event>)
    requires scale <= 14 && mss > 0 && port != HTTPS_PORT
    ensures Fits(es) && |es| == 4
    ensures var t := NewSession(port, mss, scale, window, isn, 0x7FFF_FFFE, free, now);
            && t.Valid() && !NoMisread(t, es)
            && Run(t, es).state == Established && Run(t, es).acked == 0 && Run(t, es).localSeq == 0x8000_0000
  {
    hide NewSession, Step, CheckSocket, HandlePacket, Tcb.Valid, Run, NoMisread, Fits, Misread;
    var t := NewSession(port, mss, scale, window, isn, 0x7FFF_FFFE, free, now);
    var e1, e2 := Socket(Quiet(false, true, RecvError(true))), Peer(PlainAck(0x7FFF_FFFF));
    var e3, e4 := Socket(Quiet(true, false, Received([0]))), Peer(PlainAck(0));
    NewSessionStands(port, mss, scale, window, isn, free, now);
    StepIs(t, e1);
    SynAckStep(t);
    var t1 := Step(t, e1);
    StepIs(t1, e2);
    EstablishStep(t1);
    var t2 := Step(t1, e2);
    StepIs(t2, e3);
    OneByteStep(t2);
    var t3 := Step(t2, e3);
    StepIs(t3, e4);
    ReadsMisread(t3);
    MisreadBreaks(t3, PlainAck(0));
    RunNothing(t3);
    RunFirst(t3, e4, []);
    RunNothing(Step(t3, e4));
    RunFirst(t2, e3, [e4] + []);
    RunFirst(t1, e2, [e3] + ([e4] + []));
    RunFirst(t, e1, [e2] + ([e3] + ([e4] + [])));
    es := [e1] + ([e2] + ([e3] + ([e4] + [])));
  }

  lemma ReadsMisread(t: Tcb)
    requires Stands(t, Established, 0x8000_0000, 0x7FFF_FFFF)
    ensures t.cfg.Valid() && Misread(t, PlainAck(0).packet)
  {
  }

  lemma RunNothing(t: Tcb)
    requires t.Valid()
    ensures Fits([]) && Run(t, []) == t
  {
  }

  lemma RunFirst(t: Tcb, e: Event, es: seq<Event>)
    requires t.Valid() && EventFits(e) && Fits(es)
    ensures Step(t, e).Valid() && Fits([e] + es) && Run(t, [e] + es) == Run(Step(t, e), es)
    ensures NoMisread(t, [e] + es)
            <==> !(e.Peer? && Flowing(t.state) && Misread(t, e.peer.packet)) && NoMisread(Step(t, e), es)
  {
    hide Step, Misread, Tcb.Valid, EventFits;
    StepValid(t, e);
    assert ([e] + es)[1..] == es;
  }

  lemma StepIs(t: Tcb, e: Event)
    requires t.Valid() && EventFits(e) && t.open
    ensures e.Socket? ==> Step(t, e) == CheckSocket(t, e.socket)
    ensures e.Peer? ==> Step(t, e) == HandlePacket(t, e.peer)
  {
    hide CheckSocket, HandlePacket;
  }

  lemma NewSessionStands(port: nat, mss: nat, scale: nat, window: u16, isn: u32, free: u32, now: int)
    requires scale <= 14 && mss > 0 && port != HTTPS_PORT
    ensures var t := NewSession(port, mss, scale, window, isn, 0x7FFF_FFFE, free, now);
            Stands(t, Listen, 0x7FFF_FFFE, 0) && t.connect != Sent
  {
    hide Wrap, Pow2, Tcb.ReceiveWindow;
  }
}
