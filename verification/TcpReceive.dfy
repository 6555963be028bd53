/** The window offered to the peer: it fits the buffer behind it, and the field on the wire says what was computed. */
module TcpReceive {
  import opened Bits
  import opened Serial
  import opened Wire
  import opened Segments
  import opened Tcp
  import opened TcpRuns
  import opened TcpSequence
  import opened TcpWindow

  // ---- The window against the buffer ----

  /** A nonzero window together with everything queued fits the free buffer, exactly while the 32-bit sum of the
      queued bytes has not wrapped. */
  lemma ReceiveWindowFits(t: Tcb, free: u32)
    requires t.Valid() && t.ReceiveWindow(free) > 0
    ensures t.ReceiveWindow(free) + Unsent(t.queue) <= free <==> Unsent(t.queue) < MOD
    ensures t.open
  {
    hide Unsent, Pow2;
    var u := Unsent(t.queue);
    if u < MOD { WrapNear(u); }
  }

  // ---- The field on the wire ----

  /** A window as `get_receive_window` computes it: within 16 scaled bits, and zero if it would be a zero field. */
  predicate Offerable(window: u32, scale: nat) {
    window <= MaxWindow(scale) && (window > 0 ==> window >= Pow2(scale))
  }

  /** The 16-bit field loses only the low bits that the scale drops, and a nonzero window is not a zero field. */
  predicate FieldTells(p: Packet, scale: nat) {
    && p.window * Pow2(scale) <= p.recvWindow < (p.window + 1) * Pow2(scale)
    && p.window <= 0xFFFF && (p.recvWindow > 0 ==> p.window > 0)
  }

  predicate FieldsTell(cfg: Config, recvWindow: u32, written: seq<Packet>) {
    && cfg.Valid() && Offerable(recvWindow, cfg.recvScale)
    && forall i :: 0 <= i < |written| ==> FieldTells(written[i], cfg.recvScale)
  }

  lemma WrapMax(scale: nat)
    requires scale <= 14
    ensures Wrap(0xFFFF * Pow2(scale)) == MaxWindow(scale)
  {
    MaxWindowBound(scale);
    WrapNear(0xFFFF * Pow2(scale));
  }

  lemma FieldBound(window: nat, scale: nat)
    requires scale > 0 && window <= 0xFFFF * scale
    ensures window / scale <= 0xFFFF && (window / scale) * scale <= window < (window / scale + 1) * scale
    ensures window >= scale ==> window / scale > 0
  {
    var f := window / scale;
    assert window == f * scale + window % scale;
    if f >= 0x1_0000 { MulMono(0x1_0000, f, scale); }
  }

  lemma ReceiveWindowOfferable(t: Tcb, free: u32)
    requires t.Valid()
    ensures Offerable(t.ReceiveWindow(free), t.cfg.recvScale)
  {
    hide Unsent, Wrap, Pow2;
    WrapMax(t.cfg.recvScale);
    forall w: u32 | w / Pow2(t.cfg.recvScale) > 0 ensures w >= Pow2(t.cfg.recvScale) {
      QuotientPositive(w, Pow2(t.cfg.recvScale));
    }
  }

  lemma QuotientPositive(window: nat, scale: nat)
    requires scale > 0 && window / scale > 0
    ensures window >= scale
  {
  }

  lemma WriteTells(t: Tcb, data: Bytes, syn: bool, ack: bool, fin: bool, rst: bool, ok: bool)
    requires FieldsTell(t.cfg, t.recvWindow, t.log.written)
    ensures FieldsTell(t.cfg, t.recvWindow, t.Write(data, syn, ack, fin, rst, ok).log.written)
  {
    hide Pow2;
    FieldBound(t.recvWindow, Pow2(t.cfg.recvScale));
  }

  lemma RstTells(t: Tcb)
    requires FieldsTell(t.cfg, t.recvWindow, t.log.written)
    ensures FieldsTell(t.cfg, t.recvWindow, t.WriteRst().log.written)
  {
    hide Wrap, FieldsTell, Pow2;
    var u := if t.state == Listen then t.(remoteSeq := Wrap(t.remoteSeq + 1)) else t;
    WriteTells(u, [], false, t.state == Listen, false, true, true);
  }

  lemma OrTells(t: Tcb, data: Bytes, syn: bool, fin: bool, ok: bool)
    requires FieldsTell(t.cfg, t.recvWindow, t.log.written)
    ensures FieldsTell(t.cfg, t.recvWindow, t.WriteOr(data, syn, fin, ok).log.written)
  {
    hide FieldsTell, Pow2;
    WriteTells(t, data, syn, true, fin, false, ok);
  }

  ghost predicate Tells(t: Tcb) {
    FieldsTell(t.cfg, t.recvWindow, t.log.written)
  }

  lemma ConnectingTells(t: Tcb, e: SocketEvent)
    requires Tells(t)
    ensures Tells(CheckConnecting(t, e))
  {
    hide Wrap, Tcb.WriteOr, Tcb.WriteRst, FieldsTell;
    RstTells(t);
    OrTells(t.(remoteSeq := Wrap(t.remoteSeq + 1)), [], true, false, e.ackOk);
    if e.answer.Some? { RstTells(t.(log := t.log.(answers := t.log.answers + [e.answer.value]))); }
  }

  lemma ForwardTells(t: Tcb, e: SocketEvent)
    requires t.Valid() && t.state != Listen && Tells(t)
    ensures Tells(CheckForward(t, e).0)
  {
    hide Forward, AllValid, FieldsTell, Wrap, Tcb.WriteRst;
    if e.writable {
      var p := Forward(StartPass(t, e.free), e.sends);
      RstTells(t.(queue := p.queue, remoteSeq := p.remoteSeq, log := t.log.(delivered := p.out)));
    }
  }

  /** The one step that changes the window. */
  lemma AckTells(t: Tcb, fwd: bool, e: SocketEvent)
    requires t.Valid() && Tells(t)
    ensures Tells(CheckAck(t, fwd, e))
  {
    hide AllValid, Wrap, Tcb.WriteOr, Tcb.ReceiveWindow, Pow2, FieldTells, Offerable;
    var r := t.(recvWindow := t.ReceiveWindow(e.freeAfter));
    ReceiveWindowOfferable(t, e.freeAfter);
    assert Tells(r);
    OrTells(r, [], false, false, e.ackOk);
    OrTells(r.(remoteSeq := Wrap(t.remoteSeq + 1)), [], false, false, e.ackOk);
  }

  lemma ReadTells(t: Tcb, e: SocketEvent)
    requires Tells(t)
    ensures Tells(CheckRead(t, e))
  {
    hide Wrap, Tcb.SendWindow, Tcb.WriteRst, FieldsTell, ReadEof, ReadData;
    var r := t.(time := e.now);
    RstTells(r);
    EofTells(r, e.dataOk);
    if e.recv.Received? {
      var window := t.SendWindow();
      var size := if window > t.cfg.mss then t.cfg.mss else window;
      DataTells(r, if |e.recv.data| > size then e.recv.data[..size] else e.recv.data, e.dataOk);
    }
  }

  lemma DataTells(t: Tcb, bytes: Bytes, ok: bool)
    requires Tells(t)
    ensures Tells(ReadData(t, bytes, ok))
  {
    hide Wrap, Tcb.WriteOr, FieldsTell;
    OrTells(t.(log := t.log.(received := t.log.received + bytes)), bytes, false, false, ok);
  }

  lemma EofTells(t: Tcb, ok: bool)
    requires Tells(t)
    ensures Tells(ReadEof(t, ok))
  {
    hide Wrap, Tcb.WriteOr, Tcb.WriteRst, FieldsTell;
    OrTells(t, [], false, true, ok);
    RstTells(t);
  }

  lemma HandleAckTells(t: Tcb, e: PacketEvent)
    requires Tells(t)
    ensures Tells(HandleAck(t, e))
  {
    hide Wrap, Compare, Tcb.WriteOr, Tcb.WriteRst, FieldsTell;
    RstTells(t);
    OrTells(t.(remoteSeq := Wrap(t.remoteSeq + 1)), [], false, false, e.ackOk);
  }

  lemma SendConnectTells(t: Tcb, e: PacketEvent)
    requires Tells(t)
    ensures Tells(SendConnect(t, e))
  {
    hide Wrap, Tcb.WriteRst, FieldsTell;
    RstTells(t);
  }

  lemma PeerTells(t: Tcb, e: PacketEvent)
    requires Tells(t)
    ensures Tells(HandlePacket(t, e))
  {
    hide Wrap, SendConnect, HandleAck, Enqueue, Tcb.WriteRst, FieldsTell, Pow2;
    SendConnectTells(t, e);
    var c := SendConnect(t, e);
    RstTells(c);
    var r := c.(time := e.now, sendWindow := Wrap(e.packet.window * Pow2(c.cfg.sendScale)));
    RstTells(r);
    HandleAckTells(r, e);
    HandleAckTells(QueuePacket(r, e.packet), e);
  }

  lemma KeepAliveTells(t: Tcb, e: MonitorEvent)
    requires Tells(t)
    ensures Tells(KeepAlive(t, e))
  {
    hide Wrap, FieldsTell, Tcb.SendWindow, Tcb.WriteOr;
    OrTells(t.(lastKeepAlive := e.ms, remoteSeq := Wrap(t.remoteSeq - 1)), [], false, false, e.ackOk);
  }

  lemma StepTells(t: Tcb, e: Event)
    requires t.Valid() && EventFits(e) && Tells(t)
    ensures Tells(Step(t, e))
  {
    hide CheckConnecting, CheckForward, CheckAck, CheckRead, HandlePacket, AllValid, Wrap, KeepAlive, WantsIn, WantsOut,
      Tcb.WriteRst, FieldsTell;
    match e
    case Socket(s) =>
      if t.open {
        if s.err {
          RstTells(t.(time := s.now));
        } else if t.state == Listen {
          ConnectingTells(t, s);
        } else {
          var f, a := CheckSocketStages(t, s);
          ForwardTells(t, s);
          AckTells(f, CheckForward(t, s).1, s);
          ReadTells(a, s);
        }
      }
    case Peer(p) => PeerTells(t, p);
    case Watch(m) => KeepAliveTells(t, m);
    case Sweep(now, sessions, maxSessions) => RstTells(t);
  }

  /** On every run, whatever has been queued since the window was last computed, every packet ever written carries a
      window field that loses only the low bits of the window, and no nonzero window went out as a zero field. */
  lemma {:induction false} RunWindowField(t: Tcb, es: seq<Event>)
    requires t.Valid() && Fits(es) && Tells(t)
    ensures var r := Run(t, es);
            && Tells(r) && r.cfg == t.cfg
            && (forall i :: 0 <= i < |r.log.written| ==> FieldTells(r.log.written[i], t.cfg.recvScale))
    decreases |es|
  {
    hide Step, FieldTells, Offerable;
    if es != [] {
      StepValid(t, es[0]);
      StepTells(t, es[0]);
      RunWindowField(Step(t, es[0]), es[1..]);
    }
  }

  // ---- The 32-bit sum can wrap ----

  /** The most a TCP packet over IPv4 carries when packets are read into 10000 bytes. */
  const CHUNK: nat := 9960
  const LAST: nat := 6136
  const CHUNKS: nat := 431221

  function Zeros(n: nat): (b: Bytes)
    ensures |b| == n
  {
    seq(n, _ => 0)
  }

  /** m overlapping chunks, each starting one byte before the next, and a last segment at position `top` from r. */
  function Pile(r: int, top: int, m: nat): seq<Segment> {
    if m == 0 then [Fresh(Wrap(r + top), Zeros(LAST), false)]
    else [Fresh(Wrap(r + (top - m)), Zeros(CHUNK), false)] + Pile(r, top, m - 1)
  }

  lemma {:induction false} PileUnsent(r: int, top: int, m: nat)
    ensures AllValid(Pile(r, top, m)) && Unsent(Pile(r, top, m)) == CHUNK * m + LAST
    ensures forall i :: 0 <= i < |Pile(r, top, m)| ==> Pile(r, top, m)[i].sent == 0
  {
    hide Wrap;
    if m > 0 {
      PileUnsent(r, top, m - 1);
      assert Pile(r, top, m)[1..] == Pile(r, top, m - 1);
    }
  }

  ghost function PileOffsets(top: int, m: nat): seq<int> {
    if m == 0 then [top] else [top - m] + PileOffsets(top, m - 1)
  }

  lemma {:induction false} PileLocated(r: int, top: int, m: nat)
    requires m < HALF - 2
    ensures Located(Pile(r, top, m), r, PileOffsets(top, m), top - m, top)
  {
    hide Wrap;
    if m > 0 { PileLocated(r, top, m - 1); }
  }

  /** Each chunk is queued in front of those that arrived before it. */
  lemma PileGrows(r: u32, top: int, m: nat)
    requires 0 < top - m - 1 && top <= HALF - 2
    ensures Enqueue(Pile(r, top, m), r, Wrap(r + (top - m - 1)), Zeros(CHUNK), false) == Pile(r, top, m + 1)
  {
    hide Wrap, Compare, Zeros;
    var base: int := r;
    WrapSelf(r);
    CompareOffsets(base, top - m - 1, 0);
    CompareOffsets(base, top - m, top - m - 1);
    assert base + 0 == base;
    assert top - m - 1 == top - (m + 1);
    assert Pile(r, top, m)[0].seqNo == Wrap(base + (top - m));
  }

  lemma PileStarts(r: u32, top: int)
    requires 0 < top <= HALF - 2
    ensures Enqueue([], r, Wrap(r + top), Zeros(LAST), false) == Pile(r, top, 0)
  {
    hide Wrap, Compare, Zeros;
    var base: int := r;
    WrapSelf(r);
    CompareOffsets(base, top, 0);
    assert base + 0 == base;
  }

  /** A data packet that acknowledges everything. */
  function DataPacket(seqNo: u32, ackNo: u32, data: Bytes): Event {
    var p := PeerPacket(seqNo, ackNo, 0xFFFF, false, true, false, false, false, false, data);
    Peer(PacketEvent(p, 0, false, false, false))
  }

  ghost predicate Receiving(t: Tcb, r: u32, l: u32) {
    && t.Valid() && t.state == Established && t.open && t.cfg.port != HTTPS_PORT
    && t.remoteSeq == r && t.localSeq == l
  }

  lemma DataArrives(t: Tcb, seqNo: u32, data: Bytes)
    requires Receiving(t, t.remoteSeq, t.localSeq) && data != [] && |data| < 0x1_0000
    ensures var e := DataPacket(seqNo, t.localSeq, data); var s := Step(t, e);
            && EventFits(e) && Receiving(s, t.remoteSeq, t.localSeq) && s.cfg == t.cfg
            && s.queue == Enqueue(t.queue, t.remoteSeq, seqNo, data, false)
  {
    hide Wrap, Pow2, Enqueue, AllValid;
    StepValid(t, DataPacket(seqNo, t.localSeq, data));
  }

  /** The arrivals that take the pile from m to k chunks. */
  function Arrivals(r: int, l: u32, top: int, m: nat, k: nat): seq<Event>
    requires m <= k
    decreases k - m
  {
    if m == k then []
    else [DataPacket(Wrap(r + (top - m - 1)), l, Zeros(CHUNK))] + Arrivals(r, l, top, m + 1, k)
  }

  /** Only packets that fit a read of 10000 bytes. */
  ghost predicate Small(es: seq<Event>) {
    forall i :: 0 <= i < |es| ==> es[i].Peer? && |es[i].peer.packet.data| <= CHUNK
  }

  lemma {:induction false} RunPiles(t: Tcb, top: int, m: nat, k: nat)
    requires Receiving(t, t.remoteSeq, t.localSeq) && t.queue == Pile(t.remoteSeq, top, m)
    requires m <= k < top <= HALF - 2
    ensures var es := Arrivals(t.remoteSeq, t.localSeq, top, m, k);
            && Fits(es) && Receiving(Run(t, es), t.remoteSeq, t.localSeq) && Run(t, es).cfg == t.cfg
            && Run(t, es).queue == Pile(t.remoteSeq, top, k)
            && Small(es)
    decreases k - m
  {
    hide Wrap, Step, Enqueue, Pile, EventFits;
    if m < k {
      var e := DataPacket(Wrap(t.remoteSeq + (top - m - 1)), t.localSeq, Zeros(CHUNK));
      DataArrives(t, Wrap(t.remoteSeq + (top - m - 1)), Zeros(CHUNK));
      PileGrows(t.remoteSeq, top, m);
      var s := Step(t, e);
      RunPiles(s, top, m + 1, k);
      var es := Arrivals(t.remoteSeq, t.localSeq, top, m, k);
      assert es[1..] == Arrivals(t.remoteSeq, t.localSeq, top, m + 1, k);
    }
  }

  /** Such a wrap can be reached: from every established session with an empty queue there is a run of data packets of
      at most 9960 bytes after which 2^32 bytes are queued, in order, and any free buffer is offered as if none were. */
  lemma WrappedSumOverstates(t: Tcb) returns (es: seq<Event>)
    requires t.Valid() && t.state == Established && t.open && t.queue == [] && t.cfg.port != HTTPS_PORT
    ensures Fits(es) && Small(es)
    ensures var r := Run(t, es);
            && r.Valid() && r.cfg == t.cfg && Ordered(r.queue, r.remoteSeq) && Unsent(r.queue) == MOD
            && (forall free: u32 :: r.ReceiveWindow(free) == r.(queue := []).ReceiveWindow(free))
            && (forall free: u32 :: free >= Pow2(t.cfg.recvScale) ==> r.ReceiveWindow(free) > 0)
  {
    hide Wrap, Step, Enqueue, Pile, Pow2, EventFits;
    var k, top := CHUNKS, CHUNKS + 1;
    var first := DataPacket(Wrap(t.remoteSeq + top), t.localSeq, Zeros(LAST));
    DataArrives(t, Wrap(t.remoteSeq + top), Zeros(LAST));
    PileStarts(t.remoteSeq, top);
    var s := Step(t, first);
    RunPiles(s, top, 0, k);
    es := [first] + Arrivals(t.remoteSeq, t.localSeq, top, 0, k);
    assert es[1..] == Arrivals(t.remoteSeq, t.localSeq, top, 0, k);
    PileUnsent(t.remoteSeq, top, k);
    PileLocated(t.remoteSeq, top, k);
    LocatedAscends(Pile(t.remoteSeq, top, k), t.remoteSeq, PileOffsets(top, k), top - k, top);
    FullSumOffersAll(Run(t, es));
  }

  lemma FullSumOffersAll(t: Tcb)
    requires t.Valid() && t.open && Unsent(t.queue) == MOD
    ensures forall free: u32 :: t.ReceiveWindow(free) == t.(queue := []).ReceiveWindow(free)
    ensures forall free: u32 :: free >= Pow2(t.cfg.recvScale) ==> t.ReceiveWindow(free) > 0
  {
    hide Pow2;
    var scale := Pow2(t.cfg.recvScale);
    WrapMax(t.cfg.recvScale);
    MulMono(1, 0xFFFF, scale);
    forall free: u32 | free >= scale ensures t.ReceiveWindow(free) > 0 {
      FieldBound(if free > 0xFFFF * scale then 0xFFFF * scale else free, scale);
    }
  }

  /** New sessions satisfy what the run theorems assume. */
  lemma NewSessionFits(port: nat, mss: nat, scale: nat, window: u16, isn: u32, local: u32, free: u32, now: int,
                       stream: Bytes)
    requires scale <= 14
    ensures var t := NewSession(port, mss, scale, window, isn, local, free, now);
            && t.Valid() && Lifecycle(t) && Gate(t) && Accounts(t) && InOrder(t, stream)
            && WindowKept(t) && AllInside(t.log.written) && Tells(t)
  {
    hide Pow2, Wrap, Tcb.ReceiveWindow;
    var t := NewSession(port, mss, scale, window, isn, local, free, now);
    NewSessionStarts(port, mss, scale, window, isn, local, free, now);
    ReceiveWindowOfferable(t.(recvWindow := 0), free);
    ScaledWindow(window, scale);
    WrapSelf(isn);
    WrapSelf(local);
    assert t.remoteSeq == Wrap(t.cfg.remoteStart + 1 + (|t.log.delivered| + 0 - 1));
    NothingRelayed(t, stream);
  }

  lemma NothingRelayed(t: Tcb, stream: Bytes)
    requires t.queue == [] && t.log.delivered == [] && t.state == Listen && t.connect != Sent
    requires t.remoteSeq == Wrap(t.cfg.remoteStart + 1 + (|t.log.delivered| + 0 - 1))
    ensures InOrder(t, stream)
  {
    hide Wrap;
    assert Relays(t, stream, [], 0);
  }
}
