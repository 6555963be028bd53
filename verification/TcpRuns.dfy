/** Runs of a TCP session: every interleaving of packets, socket events, monitoring and sweeps.

    Here: what each stage of a step leaves alone, the lifecycle of states and descriptors, and the CONNECT gate. */
module TcpRuns {
  import opened Bits
  import opened Serial
  import opened Wire
  import opened Segments
  import opened Tcp

  // ---- What the stages of check_tcp_socket leave alone ----

  predicate SameWindowAndGate(t: Tcb, r: Tcb) {
    && r.cfg == t.cfg && r.acked == t.acked && r.sendWindow == t.sendWindow
    && r.connect == t.connect && r.log.answers == t.log.answers
  }

  predicate SameSocket(t: Tcb, r: Tcb) {
    && r.open == t.open && r.log.closes == t.log.closes && r.localSeq == t.localSeq && r.log.received == t.log.received
    && (r.state == t.state || r.state == Closing)
  }

  lemma ForwardFrame(t: Tcb, e: SocketEvent)
    requires t.Valid() && t.state != Listen
    ensures var f := CheckForward(t, e).0;
            f.Valid() && SameWindowAndGate(t, f) && SameSocket(t, f) && f.recvWindow == t.recvWindow
  {
    hide Forward, AllValid;
  }

  lemma AckFrame(t: Tcb, fwd: bool, e: SocketEvent)
    requires t.Valid()
    ensures var a := CheckAck(t, fwd, e);
            && a.Valid() && SameWindowAndGate(t, a) && SameSocket(t, a)
            && a.queue == t.queue && a.log.delivered == t.log.delivered
  {
    hide Wrap, Tcb.WriteOr, Tcb.WriteRst, Tcb.ReceiveWindow, AllValid;
  }

  ghost predicate ReadOnly(t: Tcb, r: Tcb) {
    && SameWindowAndGate(t, r) && r.queue == t.queue && r.log.delivered == t.log.delivered
    && r.remoteSeq == t.remoteSeq
    && (r.state == t.state || r.state == Closing || (t.state == Established && r.state == FinWait1)
        || (t.state == CloseWait && r.state == LastAck))
  }

  lemma ReadFrame(t: Tcb, e: SocketEvent)
    requires t.state != Listen
    ensures ReadOnly(t, CheckRead(t, e))
  {
    hide Wrap, Tcb.WriteOr, Tcb.WriteRst, Tcb.SendWindow, ReadEof;
    EofFrame(t.(time := e.now), e.dataOk);
  }

  lemma EofFrame(t: Tcb, ok: bool)
    requires t.state != Listen
    ensures ReadOnly(t, ReadEof(t, ok))
  {
    hide Wrap, Tcb.WriteOr, Tcb.WriteRst, SendFin;
    FinFrame(t, ok);
  }

  lemma FinFrame(t: Tcb, ok: bool)
    ensures var f := SendFin(t, ok);
            ReadOnly(t, f) && f.open == t.open && f.log.closes == t.log.closes && f.log.received == t.log.received
  {
    hide Wrap, Tcb.WriteOr;
  }

  /** The three stages in order. */
  lemma CheckSocketStages(t: Tcb, e: SocketEvent) returns (f: Tcb, a: Tcb)
    requires t.Valid() && t.state != Listen && !e.err
    ensures f == CheckForward(t, e).0 && f.Valid() && SameWindowAndGate(t, f) && SameSocket(t, f)
    ensures a == CheckAck(f, CheckForward(t, e).1, e) && a.Valid() && SameWindowAndGate(t, a) && SameSocket(t, a)
    ensures a.queue == f.queue && a.log.delivered == f.log.delivered && CheckSocket(t, e) == CheckRead(a, e)
    ensures a.state != Listen && f.state != Listen
  {
    hide CheckForward, CheckAck, CheckRead, Tcb.Valid;
    var (g, fwd) := CheckForward(t, e);
    f := g;
    ForwardFrame(t, e);
    AckFrame(f, fwd, e);
    a := CheckAck(f, fwd, e);
  }

  // ---- Sessions stay well formed ----

  lemma StepValid(t: Tcb, e: Event)
    requires t.Valid() && EventFits(e)
    ensures Step(t, e).Valid() && Step(t, e).cfg == t.cfg
  {
    hide CheckConnecting, CheckForward, CheckAck, CheckRead, HandlePacket, AllValid, Wrap, Tcb.WriteOr, Tcb.WriteRst,
      KeepAlive, WantsIn, WantsOut;
    match e
    case Socket(s) =>
      ConnectingFrame(t, s);
      if t.open && !s.err && t.state != Listen {
        var f, a := CheckSocketStages(t, s);
        ReadFrame(a, s);
      }
    case Peer(p) => HandleFrame(t, p);
    case Watch(m) => KeepAliveFrame(t, m);
    case Sweep(now, sessions, maxSessions) =>
  }

  lemma ConnectingFrame(t: Tcb, e: SocketEvent)
    ensures CheckConnecting(t, e).queue == t.queue && CheckConnecting(t, e).cfg == t.cfg
  {
    hide Wrap, Tcb.WriteOr, Tcb.WriteRst;
  }

  lemma KeepAliveFrame(t: Tcb, e: MonitorEvent)
    ensures var k := KeepAlive(t, e);
            && SameWindowAndGate(t, k) && SameSocket(t, k) && k.queue == t.queue && k.remoteSeq == t.remoteSeq
            && k.log.delivered == t.log.delivered && (k.state != t.state ==> t.state in {Established, CloseWait})
  {
    hide Wrap, Tcb.WriteOr, Tcb.WriteRst, Tcb.SendWindow;
  }

  lemma HandleFrame(t: Tcb, e: PacketEvent)
    requires t.Valid() && |e.packet.data| < 0x1_0000
    ensures HandlePacket(t, e).Valid() && HandlePacket(t, e).cfg == t.cfg
  {
    hide Wrap, Tcb.WriteOr, Tcb.WriteRst, AllValid, HandleAck, SendConnect, Place;
    SendConnectFrame(t, e);
    var c := SendConnect(t, e);
    EnqueueValid(c.queue, e.packet.seqNo, e.packet.data, e.packet.psh);
    var r := c.(time := e.now, sendWindow := Wrap(e.packet.window * Pow2(t.cfg.sendScale)));
    HandleAckFrame(r, e);
    HandleAckFrame(QueuePacket(r, e.packet), e);
  }

  lemma SendConnectFrame(t: Tcb, e: PacketEvent)
    ensures var c := SendConnect(t, e);
            && c.queue == t.queue && c.cfg == t.cfg && c.log.answers == t.log.answers && c.open == t.open
            && c.log.closes == t.log.closes && c.log.delivered == t.log.delivered && c.log.received == t.log.received
            && c.acked == t.acked && c.localSeq == t.localSeq && c.sendWindow == t.sendWindow
            && (t.cfg.port != HTTPS_PORT || t.connect != NotSent ==> c == t)
            && (c.connect == t.connect || (t.connect == NotSent && c.connect == Sent && c.open && c.state == Listen))
            && (c.connect == t.connect && c != t ==> c.state == if t.state == Close then Close else Closing)
  {
    hide Wrap, Tcb.WriteOr, Tcb.WriteRst;
  }

  ghost predicate AckOnly(t: Tcb, r: Tcb) {
    && r.queue == t.queue && r.cfg == t.cfg && r.open == t.open && r.log.closes == t.log.closes
    && r.connect == t.connect && r.log.answers == t.log.answers && r.sendWindow == t.sendWindow
    && r.log.delivered == t.log.delivered && r.log.received == t.log.received && r.localSeq == t.localSeq
  }

  lemma HandleAckFrame(t: Tcb, e: PacketEvent)
    ensures AckOnly(t, HandleAck(t, e))
  {
    hide Wrap, Tcb.WriteOr, Tcb.WriteRst, Compare, HandleExact, HandleOther;
    HandleExactFrame(t, e);
    HandleOtherFrame(t, e.packet.ackNo);
  }

  lemma HandleExactFrame(t: Tcb, e: PacketEvent)
    ensures AckOnly(t, HandleExact(t, e))
  {
    hide Wrap, Tcb.WriteOr, HandleFin;
    HandleFinFrame(t, e.ackOk);
  }

  lemma HandleFinFrame(t: Tcb, ok: bool)
    ensures AckOnly(t, HandleFin(t, ok))
  {
    hide Wrap, Tcb.WriteOr;
  }

  lemma HandleOtherFrame(t: Tcb, ackNo: u32)
    ensures AckOnly(t, HandleOther(t, ackNo))
  {
    hide Wrap, Tcb.WriteOr, Tcb.WriteRst, Compare;
  }

  // ---- Runs ----

  ghost predicate Fits(es: seq<Event>) {
    es == [] || (EventFits(es[0]) && Fits(es[1..]))
  }

  function Run(t: Tcb, es: seq<Event>): Tcb
    requires t.Valid() && Fits(es)
    decreases |es|
  {
    if es == [] then t
    else
      StepValid(t, es[0]);
      Run(Step(t, es[0]), es[1..])
  }

  // ---- Lifecycle ----

  /** The states in which the proxy descriptor is open, and those in which it is closed; Closing may be either. */
  ghost predicate Lifecycle(t: Tcb) {
    && t.log.closes == (if t.open then 0 else 1)
    && (t.state in {Listen, SynRecv, Established, CloseWait} ==> t.open)
    && (t.state in {FinWait1, LastAck, Close} ==> !t.open)
  }

  /** Position of a state on the way from Listen to Close. */
  function Rank(s: State): nat {
    match s
    case Listen => 0
    case SynRecv => 1
    case Established => 2
    case CloseWait => 3
    case FinWait1 => 3
    case LastAck => 4
    case Closing => 5
    case Close => 6
  }

  /** On port 443 sending CONNECT takes a session back to Listen, but only once. */
  function Height(t: Tcb): nat {
    Rank(t.state) + if t.cfg.port == HTTPS_PORT && t.connect != NotSent then 6 else 0
  }

  ghost predicate Climbs(t: Tcb, r: Tcb) {
    && (t.state == Close ==> r.state == Close)
    && Height(t) <= Height(r) && (r.state != t.state ==> Height(t) < Height(r))
  }

  lemma ReadLifecycle(t: Tcb, e: SocketEvent)
    requires Lifecycle(t) && t.open
    ensures Lifecycle(CheckRead(t, e))
  {
    hide Wrap, Tcb.WriteOr, Tcb.WriteRst, Tcb.SendWindow, ReadEof;
    if t.state in {Established, CloseWait} { EofLifecycle(t.(time := e.now), e.dataOk); }
  }

  lemma EofLifecycle(t: Tcb, ok: bool)
    requires Lifecycle(t) && t.state in {Established, CloseWait}
    ensures Lifecycle(ReadEof(t, ok))
  {
    hide Wrap, Tcb.WriteOr, Tcb.WriteRst;
  }

  lemma ConnectingLifecycle(t: Tcb, e: SocketEvent)
    requires Lifecycle(t) && t.state == Listen
    ensures Lifecycle(CheckConnecting(t, e)) && Climbs(t, CheckConnecting(t, e))
  {
    hide Wrap, Tcb.WriteOr, Tcb.WriteRst;
  }

  lemma HandleAckLifecycle(t: Tcb, e: PacketEvent)
    requires Lifecycle(t) && t.state !in {Closing, Close}
    ensures Lifecycle(HandleAck(t, e)) && Climbs(t, HandleAck(t, e))
  {
    hide Wrap, Tcb.WriteRst, HandleExact, HandleOther;
    HandleExactLifecycle(t, e);
    HandleOtherLifecycle(t, e.packet.ackNo);
  }

  lemma HandleExactLifecycle(t: Tcb, e: PacketEvent)
    requires Lifecycle(t) && t.state !in {Closing, Close}
    ensures Lifecycle(HandleExact(t, e)) && Climbs(t, HandleExact(t, e))
  {
    hide HandleFin;
    HandleFinLifecycle(t, e.ackOk);
  }

  lemma HandleFinLifecycle(t: Tcb, ok: bool)
    requires Lifecycle(t) && t.state !in {Closing, Close}
    ensures Lifecycle(HandleFin(t, ok)) && Climbs(t, HandleFin(t, ok))
  {
    hide Wrap, Tcb.WriteOr;
  }

  lemma HandleOtherLifecycle(t: Tcb, ackNo: u32)
    requires Lifecycle(t) && t.state !in {Closing, Close}
    ensures Lifecycle(HandleOther(t, ackNo)) && Climbs(t, HandleOther(t, ackNo))
  {
    hide Wrap, Tcb.WriteRst, Compare;
  }

  lemma PeerLifecycle(t: Tcb, e: PacketEvent)
    requires t.Valid() && Lifecycle(t)
    ensures Lifecycle(HandlePacket(t, e)) && Climbs(t, HandlePacket(t, e))
  {
    hide Wrap, Tcb.WriteOr, Tcb.WriteRst, HandleAck, SendConnect, Place, Compare, AllValid;
    SendConnectFrame(t, e);
    var c := SendConnect(t, e);
    if c.state !in {Closing, Close} {
      var r := c.(time := e.now, sendWindow := Wrap(e.packet.window * Pow2(t.cfg.sendScale)));
      HandleAckLifecycle(r, e);
      HandleAckLifecycle(QueuePacket(r, e.packet), e);
    }
  }

  lemma SweepLifecycle(t: Tcb, now: int, sessions: nat, maxSessions: nat)
    requires maxSessions > 0 && Lifecycle(t)
    ensures var r := CheckSession(t, now, sessions, maxSessions).0; Lifecycle(r) && Climbs(t, r)
  {
    hide Wrap, Tcb.WriteRst, Timeout;
  }

  lemma StepLifecycle(t: Tcb, e: Event)
    requires t.Valid() && EventFits(e) && Lifecycle(t)
    ensures Lifecycle(Step(t, e)) && Climbs(t, Step(t, e))
  {
    hide CheckConnecting, CheckForward, CheckAck, CheckRead, HandlePacket, CheckSession, AllValid, Wrap, Tcb.WriteOr,
      Tcb.WriteRst, KeepAlive, WantsIn, WantsOut;
    match e
    case Socket(s) =>
      if t.open && !s.err {
        if t.state == Listen {
          ConnectingLifecycle(t, s);
        } else {
          var f, a := CheckSocketStages(t, s);
          ReadFrame(a, s);
          ReadLifecycle(a, s);
        }
      }
    case Peer(p) => PeerLifecycle(t, p);
    case Watch(m) => KeepAliveFrame(t, m);
    case Sweep(now, sessions, maxSessions) => SweepLifecycle(t, now, sessions, maxSessions);
  }

  /** A session is only given up for deletion once its descriptor is closed. */
  lemma DeletedIsClosed(t: Tcb, now: int, sessions: nat, maxSessions: nat)
    requires maxSessions > 0 && Lifecycle(t) && CheckSession(t, now, sessions, maxSessions).1
    ensures var r := CheckSession(t, now, sessions, maxSessions).0;
            !r.open && r.log.closes == 1 && r.state == Close
  {
  }

  function Transitions(t: Tcb, es: seq<Event>): nat
    requires t.Valid() && Fits(es)
    decreases |es|
  {
    if es == [] then 0
    else
      StepValid(t, es[0]);
      var r := Step(t, es[0]);
      (if r.state == t.state then 0 else 1) + Transitions(r, es[1..])
  }

  /** On every run the descriptor is closed at most once and exactly when the states say so, Close is final, and the
      session makes at most 12 state transitions; away from port 443 at most 6, each one upwards. */
  lemma {:induction false} RunLifecycle(t: Tcb, es: seq<Event>)
    requires t.Valid() && Fits(es) && Lifecycle(t)
    ensures var r := Run(t, es);
            && Lifecycle(r) && (t.state == Close ==> r.state == Close)
            && Height(t) + Transitions(t, es) <= Height(r) <= (if t.cfg.port == HTTPS_PORT then 12 else 6)
            && (t.cfg.port != HTTPS_PORT ==> Rank(t.state) + Transitions(t, es) <= Rank(r.state))
    decreases |es|
  {
    hide Step, Lifecycle;
    if es != [] {
      StepValid(t, es[0]);
      StepLifecycle(t, es[0]);
      RunLifecycle(Step(t, es[0]), es[1..]);
    }
  }

  // ---- The CONNECT gate ----

  predicate Accepted200(answers: seq<string>) {
    exists i :: 0 <= i < |answers| && (answers[i] == OK10 || answers[i] == OK11)
  }

  /** The states in which data flows. */
  predicate Flowing(s: State) {
    s in {Established, CloseWait, FinWait1, LastAck}
  }

  ghost predicate Gate(t: Tcb) {
    t.cfg.port == HTTPS_PORT ==>
      && (Flowing(t.state) ==> t.connect == Connected)
      && (t.connect == Connected ==> Accepted200(t.log.answers))
  }

  predicate ConnectMoves(t: Tcb, r: Tcb) {
    || r.connect == t.connect
    || (t.connect == NotSent && r.connect == Sent)
    || (t.connect == Sent && r.connect == Connected)
  }

  lemma Remembered(answers: seq<string>, a: string)
    ensures Accepted200(answers) || a == OK10 || a == OK11 ==> Accepted200(answers + [a])
  {
    var l := answers + [a];
    assert l[|answers|] == a;
    if i :| 0 <= i < |answers| && (answers[i] == OK10 || answers[i] == OK11) {
      assert l[i] == answers[i];
    }
  }

  lemma ConnectingGate(t: Tcb, e: SocketEvent)
    requires Gate(t) && t.state == Listen
    ensures Gate(CheckConnecting(t, e)) && ConnectMoves(t, CheckConnecting(t, e))
  {
    hide Wrap, Tcb.WriteOr, Tcb.WriteRst, Accepted200;
    if e.answer.Some? { Remembered(t.log.answers, e.answer.value); }
  }

  lemma PeerGate(t: Tcb, e: PacketEvent)
    requires Gate(t)
    ensures Gate(HandlePacket(t, e)) && ConnectMoves(t, HandlePacket(t, e))
  {
    hide Wrap, Tcb.WriteOr, Tcb.WriteRst, HandleAck, SendConnect, Enqueue, Accepted200;
    SendConnectFrame(t, e);
    var c := SendConnect(t, e);
    var r := c.(time := e.now, sendWindow := Wrap(e.packet.window * Pow2(t.cfg.sendScale)));
    HandleAckFrame(r, e);
    HandleAckFrame(QueuePacket(r, e.packet), e);
  }

  lemma StepGate(t: Tcb, e: Event)
    requires t.Valid() && EventFits(e) && Gate(t)
    ensures Gate(Step(t, e)) && ConnectMoves(t, Step(t, e))
  {
    hide CheckConnecting, CheckForward, CheckAck, CheckRead, HandlePacket, AllValid, Wrap, Tcb.WriteOr, Tcb.WriteRst,
      KeepAlive, WantsIn, WantsOut, Accepted200;
    match e
    case Socket(s) =>
      if t.open && !s.err {
        if t.state == Listen {
          ConnectingGate(t, s);
        } else {
          var f, a := CheckSocketStages(t, s);
          ReadFrame(a, s);
        }
      }
    case Peer(p) => PeerGate(t, p);
    case Watch(m) => KeepAliveFrame(t, m);
    case Sweep(now, sessions, maxSessions) =>
  }

  /** On every run a port-443 session carries data only after the proxy has answered 200 to CONNECT. */
  lemma {:induction false} RunGate(t: Tcb, es: seq<Event>)
    requires t.Valid() && Fits(es) && Gate(t)
    ensures var r := Run(t, es);
            && Gate(r) && r.cfg == t.cfg
            && (r.cfg.port == HTTPS_PORT && Flowing(r.state) ==> r.connect == Connected && Accepted200(r.log.answers))
    decreases |es|
  {
    hide Step, Accepted200;
    if es != [] {
      StepValid(t, es[0]);
      StepGate(t, es[0]);
      RunGate(Step(t, es[0]), es[1..]);
    }
  }

  /** New sessions satisfy all of this. */
  lemma NewSessionStarts(port: nat, mss: nat, scale: nat, window: u16, isn: u32, local: u32, free: u32, now: int)
    requires scale <= 14
    ensures var t := NewSession(port, mss, scale, window, isn, local, free, now);
            t.Valid() && Lifecycle(t) && Gate(t)
  {
  }
}
