/** What the peer is told about its own stream: every acknowledgment is the end of what has been delivered, plus the
    SYN, plus the FIN once it has been read and nothing in front of it is left. And what the peer's packets do: the
    state follows the FIN, RST and ACK packets that are read. */
module TcpAcks {
  import opened Serial
  import opened Wire
  import opened Segments
  import opened Tcp
  import opened TcpRuns
  import opened TcpSequence

  // ---- The acknowledgments a step writes ----

  /** All packets of `to` beyond those of `from` acknowledge n, if anything. */
  ghost predicate Replies(from: seq<Packet>, to: seq<Packet>, n: u32) {
    from <= to && forall i :: |from| <= i < |to| && to[i].ack ==> to[i].ackNo == n
  }

  lemma RepliesJoin(a: seq<Packet>, b: seq<Packet>, c: seq<Packet>, n: u32)
    requires Replies(a, b, n) && Replies(b, c, n)
    ensures Replies(a, c, n)
  {
    forall i | |a| <= i < |c| && c[i].ack ensures c[i].ackNo == n {
      if i < |b| { assert c[i] == b[i]; }
    }
  }

  lemma NoReplies(a: seq<Packet>, n: u32)
    ensures Replies(a, a, n)
  {
  }

  /** A reset acknowledges the SYN if that has not been done, and nothing otherwise. */
  lemma RstReplies(t: Tcb, n: u32)
    requires t.state == Listen ==> n == Wrap(t.remoteSeq + 1)
    ensures Replies(t.log.written, t.WriteRst().log.written, n)
  {
    hide Wrap, Bits.Pow2;
  }

  lemma OrReplies(t: Tcb, data: Bytes, syn: bool, fin: bool, ok: bool)
    ensures Replies(t.log.written, t.WriteOr(data, syn, fin, ok).log.written, t.remoteSeq)
  {
    hide Bits.Pow2;
  }

  lemma ConnectingReplies(t: Tcb, e: SocketEvent)
    requires t.state == Listen
    ensures Replies(t.log.written, CheckConnecting(t, e).log.written, CheckConnecting(t, e).remoteSeq)
  {
    hide Wrap, Tcb.WriteOr, Tcb.WriteRst, Replies;
    NoReplies(t.log.written, t.remoteSeq);
    RstReplies(t, Wrap(t.remoteSeq + 1));
    OrReplies(t.(remoteSeq := Wrap(t.remoteSeq + 1)), [], true, false, e.ackOk);
    if e.answer.Some? {
      var r := t.(log := t.log.(answers := t.log.answers + [e.answer.value]));
      RstReplies(r, Wrap(t.remoteSeq + 1));
      NoReplies(t.log.written, CheckConnecting(t, e).remoteSeq);
    }
  }

  lemma ForwardReplies(t: Tcb, e: SocketEvent, n: u32)
    requires t.Valid() && t.state != Listen
    ensures Replies(t.log.written, CheckForward(t, e).0.log.written, n)
  {
    hide Forward, AllValid, Replies, Wrap, Tcb.WriteRst;
    NoReplies(t.log.written, n);
    if e.writable {
      var p := Forward(StartPass(t, e.free), e.sends);
      RstReplies(t.(queue := p.queue, remoteSeq := p.remoteSeq, log := t.log.(delivered := p.out)), n);
    }
  }

  lemma AckReplies(t: Tcb, fwd: bool, e: SocketEvent)
    requires t.Valid()
    ensures Replies(t.log.written, CheckAck(t, fwd, e).log.written, CheckAck(t, fwd, e).remoteSeq)
  {
    hide AllValid, Replies, Wrap, Tcb.WriteOr, Tcb.ReceiveWindow;
    var r := t.(recvWindow := t.ReceiveWindow(e.freeAfter));
    NoReplies(t.log.written, t.remoteSeq);
    OrReplies(r, [], false, false, e.ackOk);
    OrReplies(r.(remoteSeq := Wrap(t.remoteSeq + 1)), [], false, false, e.ackOk);
  }

  lemma ReadReplies(t: Tcb, e: SocketEvent)
    requires t.state != Listen
    ensures Replies(t.log.written, CheckRead(t, e).log.written, t.remoteSeq)
  {
    hide Wrap, Tcb.SendWindow, Tcb.WriteRst, Tcb.WriteOr, Replies;
    NoReplies(t.log.written, t.remoteSeq);
    var r := t.(time := e.now);
    RstReplies(r, t.remoteSeq);
    OrReplies(r, [], false, true, e.dataOk);
    if e.recv.Received? {
      var window := t.SendWindow();
      var size := if window > t.cfg.mss then t.cfg.mss else window;
      var bytes := if |e.recv.data| > size then e.recv.data[..size] else e.recv.data;
      OrReplies(r.(log := r.log.(received := r.log.received + bytes)), bytes, false, false, e.dataOk);
    }
  }

  lemma HandleAckReplies(t: Tcb, e: PacketEvent)
    ensures Replies(t.log.written, HandleAck(t, e).log.written, HandleAck(t, e).remoteSeq)
  {
    hide Wrap, Compare, Tcb.WriteOr, Tcb.WriteRst, Replies;
    NoReplies(t.log.written, t.remoteSeq);
    RstReplies(t, if t.state == Listen then Wrap(t.remoteSeq + 1) else t.remoteSeq);
    OrReplies(t.(remoteSeq := Wrap(t.remoteSeq + 1)), [], false, false, e.ackOk);
  }

  lemma PeerReplies(t: Tcb, e: PacketEvent)
    requires t.cfg.port != HTTPS_PORT
    ensures Replies(t.log.written, HandlePacket(t, e).log.written, HandlePacket(t, e).remoteSeq)
  {
    hide Wrap, SendConnect, HandleAck, Enqueue, Tcb.WriteRst, Replies, Bits.Pow2;
    SendConnectFrame(t, e);
    NoReplies(t.log.written, t.remoteSeq);
    var r := t.(time := e.now, sendWindow := Wrap(e.packet.window * Bits.Pow2(t.cfg.sendScale)));
    RstReplies(t, if t.state == Listen then Wrap(t.remoteSeq + 1) else t.remoteSeq);
    RstReplies(r, if t.state == Listen then Wrap(t.remoteSeq + 1) else t.remoteSeq);
    HandleAckReplies(r, e);
    HandleAckReplies(QueuePacket(r, e.packet), e);
  }

  lemma KeepAliveReplies(t: Tcb, e: MonitorEvent)
    ensures Replies(t.log.written, KeepAlive(t, e).log.written, Wrap(t.remoteSeq - 1))
  {
    hide Wrap, Replies, Tcb.SendWindow, Tcb.WriteOr;
    NoReplies(t.log.written, Wrap(t.remoteSeq - 1));
    OrReplies(t.(lastKeepAlive := e.ms, remoteSeq := Wrap(t.remoteSeq - 1)), [], false, false, e.ackOk);
  }

  /** Away from port 443, what a step acknowledges is the next expected number it leaves behind; a keep alive
      acknowledges one less. */
  lemma StepReplies(t: Tcb, e: Event)
    requires t.Valid() && EventFits(e) && t.cfg.port != HTTPS_PORT
    ensures var r := Step(t, e);
            Replies(t.log.written, r.log.written, if e.Watch? then Wrap(t.remoteSeq - 1) else r.remoteSeq)
  {
    hide CheckConnecting, CheckForward, CheckAck, CheckRead, HandlePacket, AllValid, Wrap, KeepAlive, WantsIn, WantsOut,
      Tcb.WriteRst, Replies;
    var r := Step(t, e);
    NoReplies(t.log.written, r.remoteSeq);
    match e
    case Socket(s) =>
      if t.open {
        if s.err {
          RstReplies(t.(time := s.now), r.remoteSeq);
        } else if t.state == Listen {
          ConnectingReplies(t, s);
        } else {
          var f, a := CheckSocketStages(t, s);
          ForwardReplies(t, s, a.remoteSeq);
          AckReplies(f, CheckForward(t, s).1, s);
          ReadReplies(a, s);
          ReadFrame(a, s);
          RepliesJoin(t.log.written, f.log.written, a.log.written, a.remoteSeq);
          RepliesJoin(t.log.written, a.log.written, r.log.written, a.remoteSeq);
        }
      }
    case Peer(p) => PeerReplies(t, p);
    case Watch(m) =>
      NoReplies(t.log.written, Wrap(t.remoteSeq - 1));
      KeepAliveReplies(t, m);
    case Sweep(now, sessions, maxSessions) =>
      RstReplies(t, if t.state == Listen then Wrap(t.remoteSeq + 1) else t.remoteSeq);
  }

  // ---- What the peer's packets do ----

  /** The packet's flags are looked at: it is not urgent, and its data, if any, is taken. */
  predicate Examined(t: Tcb, p: PeerPacket) {
    !p.urg && (p.data != [] ==> t.open && t.state != CloseWait)
  }

  /** A FIN that the session accepts: it acknowledges everything or nothing, in a state that waits for a FIN. */
  predicate ReadsFin(t: Tcb, p: PeerPacket) {
    && Examined(t, p) && t.state in {Established, FinWait1}
    && p.fin && !p.syn && !p.rst && (p.ack ==> p.ackNo == t.localSeq)
  }

  /** The state diagram for packets, away from port 443. `left`: data is queued after this packet's has been. */
  function NextState(t: Tcb, p: PeerPacket, left: bool, ok: bool): State {
    if p.urg then t.state
    else if !Examined(t, p) || p.rst then Closing
    else if p.ack && p.ackNo != t.localSeq then
      if Wrap(p.ackNo + 1) != t.localSeq && Compare(p.ackNo, t.localSeq) >= 0 then Closing else t.state
    else if p.syn then t.state
    else if ReadsFin(t, p) then
      if t.state == Established && left then CloseWait
      else if !ok then Closing
      else if t.state == Established then CloseWait
      else Close
    else if p.ack && !p.fin then
      if t.state == SynRecv then Established else if t.state == LastAck then Closing else t.state
    else t.state
  }

  /** `handle_tcp` in a live session away from port 443: the state follows the diagram, and the next expected number
      counts the FIN that is read, unless data is still queued. */
  lemma PacketReaction(t: Tcb, e: PacketEvent)
    requires t.cfg.port != HTTPS_PORT && Alive(t.state) && t.state != Listen
    requires t.state == FinWait1 ==> t.queue == [] && !t.open
    ensures var r, p := HandlePacket(t, e), e.packet;
            && r.state == NextState(t, p, r.queue != [], e.ackOk)
            && r.remoteSeq == (if ReadsFin(t, p) && r.queue == [] then Wrap(t.remoteSeq + 1) else t.remoteSeq)
            && r.log.delivered == t.log.delivered && r.log.received == t.log.received
            && (!Examined(t, p) || p.data == [] ==> r.queue == t.queue)
  {
    hide Wrap, SendConnect, HandleAck, Enqueue, Tcb.WriteRst, Bits.Pow2, Compare;
    SendConnectFrame(t, e);
    var r := t.(time := e.now, sendWindow := Wrap(e.packet.window * Bits.Pow2(t.cfg.sendScale)));
    if e.packet.data == [] {
      HandleAckFrame(r, e);
      HandleAckReaction(r, e);
    } else if Examined(t, e.packet) {
      HandleAckFrame(QueuePacket(r, e.packet), e);
      HandleAckReaction(QueuePacket(r, e.packet), e);
    }
  }

  lemma HandleAckReaction(t: Tcb, e: PacketEvent)
    requires t.state !in {Listen, Closing, Close} && (t.state == FinWait1 ==> t.queue == [])
    ensures var r, p := HandleAck(t, e), e.packet.(urg := false, data := []);
            && r.state == NextState(t, p, t.queue != [], e.ackOk)
            && r.remoteSeq == if ReadsFin(t, p) && t.queue == [] then Wrap(t.remoteSeq + 1) else t.remoteSeq
  {
    hide Wrap, Compare, Tcb.WriteOr, Tcb.WriteRst;
  }

  /** One acknowledgment of the next expected number has been added. */
  ghost predicate Acknowledged(from: seq<Packet>, r: Tcb, ok: bool) {
    && |r.log.written| == |from| + 1 && from <= r.log.written
    && var p := r.log.written[|from|];
       p.ack && !p.syn && !p.fin && !p.rst && p.data == [] && p.ackNo == r.remoteSeq && p.sent == ok
  }

  lemma AckAcknowledges(t: Tcb, ok: bool)
    ensures Acknowledged(t.log.written, t.WriteOr([], false, false, ok), ok)
  {
    hide Bits.Pow2;
  }

  lemma HandleFinAnswered(t: Tcb, ok: bool)
    requires t.state in {Established, FinWait1} && (t.state == FinWait1 ==> t.queue == [])
    ensures var r := HandleFin(t, ok);
            if t.queue != [] then r.log == t.log else Acknowledged(t.log.written, r, ok)
  {
    hide Wrap, Tcb.WriteOr;
    AckAcknowledges(t.(remoteSeq := Wrap(t.remoteSeq + 1)), ok);
  }

  /** A FIN that is read with nothing left in front of it is acknowledged by the one packet written; with data left it
      is not, and nothing is written. */
  lemma FinAnswered(t: Tcb, e: PacketEvent)
    requires t.cfg.port != HTTPS_PORT && (t.state == FinWait1 ==> t.queue == [] && !t.open) && ReadsFin(t, e.packet)
    ensures var r := HandlePacket(t, e);
            if r.queue != [] then r.log == t.log else Acknowledged(t.log.written, r, e.ackOk)
  {
    hide Wrap, SendConnect, Enqueue, Tcb.WriteRst, Bits.Pow2, Compare, HandleFin, HandleOther, Acknowledged;
    SendConnectFrame(t, e);
    var r := t.(time := e.now, sendWindow := Wrap(e.packet.window * Bits.Pow2(t.cfg.sendScale)));
    var q := if e.packet.data == [] then r else QueuePacket(r, e.packet);
    HandleFinAnswered(q, e.ackOk);
    HandleFinFrame(q, e.ackOk);
    assert HandlePacket(t, e) == HandleFin(q, e.ackOk);
  }

  /** A pass that drains the queue behind a FIN counts and acknowledges it. */
  lemma DrainAnswered(t: Tcb, e: SocketEvent)
    requires t.Valid() && t.open && !e.err && t.state == CloseWait && t.queue != []
    requires Step(t, Socket(e)).queue == []
    ensures var r := Step(t, Socket(e));
            && r.remoteSeq == Wrap(t.remoteSeq + (|r.log.delivered| - |t.log.delivered| + 1))
            && exists k :: |t.log.written| <= k < |r.log.written| && r.log.written[k].ack
                           && r.log.written[k].ackNo == r.remoteSeq && r.log.written[k].sent == e.ackOk
  {
    hide CheckForward, CheckAck, CheckRead, AllValid, Wrap, Acknowledged;
    var r := Step(t, Socket(e));
    var f, a := CheckSocketStages(t, e);
    ReadFrame(a, e);
    DrainForwards(t, e);
    DrainAcknowledges(f, e);
    WrapAdd(t.remoteSeq + (|f.log.delivered| - |t.log.delivered|), 1);
    ReadReplies(a, e);
    ForwardReplies(t, e, 0);
    AckSlot(t, f, a, r, e.ackOk);
  }

  lemma AckSlot(t: Tcb, f: Tcb, a: Tcb, r: Tcb, ok: bool)
    requires t.log.written <= f.log.written && Acknowledged(f.log.written, a, ok) && a.log.written <= r.log.written
    requires r.remoteSeq == a.remoteSeq
    ensures exists k :: |t.log.written| <= k < |r.log.written| && r.log.written[k].ack
                        && r.log.written[k].ackNo == r.remoteSeq && r.log.written[k].sent == ok
  {
    var k := |f.log.written|;
    assert r.log.written[k] == a.log.written[k];
  }

  lemma DrainForwards(t: Tcb, e: SocketEvent)
    requires t.Valid() && t.state == CloseWait && t.queue != [] && CheckForward(t, e).0.queue == []
    ensures var (f, fwd) := CheckForward(t, e);
            fwd && f.state == CloseWait && f.remoteSeq == Wrap(t.remoteSeq + (|f.log.delivered| - |t.log.delivered|))
  {
    hide Forward, AllValid, Wrap, Tcb.WriteRst;
    ForwardCounts(StartPass(t, e.free), e.sends);
  }

  lemma DrainAcknowledges(f: Tcb, e: SocketEvent)
    requires f.Valid() && f.state == CloseWait && f.queue == []
    ensures var a := CheckAck(f, true, e);
            a.remoteSeq == Wrap(f.remoteSeq + 1) && Acknowledged(f.log.written, a, e.ackOk)
  {
    hide AllValid, Wrap, Tcb.WriteOr, Tcb.ReceiveWindow, Acknowledged;
    var r := f.(recvWindow := f.ReceiveWindow(e.freeAfter), remoteSeq := Wrap(f.remoteSeq + 1));
    AckAcknowledges(r, e.ackOk);
    SameAcknowledged(f.log.written, r.WriteOr([], false, false, e.ackOk), CheckAck(f, true, e), e.ackOk);
  }

  lemma SameAcknowledged(from: seq<Packet>, r: Tcb, s: Tcb, ok: bool)
    requires Acknowledged(from, r, ok) && s.log == r.log && s.remoteSeq == r.remoteSeq
    ensures Acknowledged(from, s, ok)
  {
  }

  // ---- The FIN over a run ----

  function FinRead(t: Tcb, e: Event): nat {
    if e.Peer? && ReadsFin(t, e.peer.packet) then 1 else 0
  }

  /** How many FINs the session accepts on a run. */
  function FinsRead(t: Tcb, es: seq<Event>): nat
    requires t.Valid() && Fits(es)
    decreases |es|
  {
    if es == [] then 0
    else
      StepValid(t, es[0]);
      FinRead(t, es[0]) + FinsRead(Step(t, es[0]), es[1..])
  }

  /** A live session is in CLOSE_WAIT or LAST_ACK if and only if a FIN has been read, which happens at most once. */
  ghost predicate FollowsFin(t: Tcb, fins: nat) {
    fins <= 1 && (Alive(t.state) ==> (fins == 1 <==> t.state in {CloseWait, LastAck}))
  }

  function Counted(fins: nat, drained: bool): nat {
    if fins > 0 && drained then 2 else 1
  }

  /** The next expected number: the bytes delivered, the SYN, and the FIN once it is read and the queue is empty. */
  ghost predicate Level(t: Tcb, fins: nat) {
    t.remoteSeq == Wrap(t.cfg.remoteStart + (|t.log.delivered| + Counted(fins, t.queue == [])))
  }

  /** ... at most, once the session is closing. */
  ghost predicate NotAbove(t: Tcb, fins: nat) {
    exists c: nat :: LevelAt(t, fins, c)
  }

  ghost predicate LevelAt(t: Tcb, fins: nat, c: nat) {
    c <= Counted(fins, t.queue == []) && t.remoteSeq == Wrap(t.cfg.remoteStart + (|t.log.delivered| + c))
  }

  /** What is assumed of a session, and kept: see `RunAccounts` and `RunLifecycle`. */
  ghost predicate Regular(t: Tcb, fins: nat) {
    && t.Valid() && t.cfg.port != HTTPS_PORT && Lifecycle(t) && Accounts(t) && FollowsFin(t, fins) && NotAbove(t, fins)
  }

  lemma AliveLevel(t: Tcb, fins: nat)
    requires Accounts(t) && FollowsFin(t, fins) && Alive(t.state) && t.state != Listen
    ensures Level(t, fins)
  {
    hide Wrap;
  }

  /** One of the two lies between forwarding and acknowledging. */
  lemma PassLevel(t: Tcb, e: SocketEvent, fins: nat)
    requires t.Valid() && t.state != Listen && Alive(t.state) && Level(t, fins)
    ensures var (f, fwd) := CheckForward(t, e);
            f.remoteSeq == Wrap(t.cfg.remoteStart + (|f.log.delivered| + Counted(fins, f.queue == [] && !fwd)))
    ensures var (f, fwd) := CheckForward(t, e); f.state == t.state || f.queue != []
  {
    hide Forward, Wrap, Tcb.WriteRst, AllValid;
    if e.writable {
      var p := Forward(StartPass(t, e.free), e.sends);
      ForwardCounts(StartPass(t, e.free), e.sends);
      Bump(t.cfg.remoteStart, |t.log.delivered| + Counted(fins, t.queue == []), |p.out| - |t.log.delivered|);
    }
  }

  lemma SocketLevel(t: Tcb, e: SocketEvent, fins: nat)
    requires Regular(t, fins) && Alive(t.state) && t.state != Listen && t.open && !e.err
    ensures var r := CheckSocket(t, e); Level(r, fins) && FollowsFin(r, fins)
  {
    hide CheckForward, CheckAck, CheckRead, AllValid, Wrap, Accounts, Lifecycle, Tcb.Valid;
    OpenAlive(t);
    AliveLevel(t, fins);
    var f, a := CheckSocketStages(t, e);
    var fwd := CheckForward(t, e).1;
    PassLevel(t, e, fins);
    AckRemote(f, fwd, e);
    Bump(t.cfg.remoteStart, |f.log.delivered| + 1, 1);
    ReadFrame(a, e);
  }

  lemma OpenAlive(t: Tcb)
    requires Lifecycle(t) && t.open && Alive(t.state)
    ensures t.state in {Listen, SynRecv, Established, CloseWait}
  {
  }

  lemma PeerLevel(t: Tcb, e: PacketEvent, fins: nat)
    requires Regular(t, fins) && Alive(t.state) && t.state != Listen
    ensures var r, f := HandlePacket(t, e), fins + FinRead(t, Peer(e));
            Level(r, f) && FollowsFin(r, f) && r.log.delivered == t.log.delivered
  {
    hide HandlePacket, Wrap, Compare, AllValid;
    AliveLevel(t, fins);
    PacketReaction(t, e);
    HandleConfig(t, e);
    Bump(t.cfg.remoteStart, |t.log.delivered| + 1, 1);
  }

  lemma HandleConfig(t: Tcb, e: PacketEvent)
    requires t.cfg.port != HTTPS_PORT
    ensures HandlePacket(t, e).cfg == t.cfg
  {
    hide Wrap, SendConnect, HandleAck, Enqueue, Tcb.WriteRst, Bits.Pow2;
    SendConnectFrame(t, e);
    var r := t.(time := e.now, sendWindow := Wrap(e.packet.window * Bits.Pow2(t.cfg.sendScale)));
    HandleAckFrame(r, e);
    HandleAckFrame(QueuePacket(r, e.packet), e);
  }

  /** A step of a live session. */
  lemma LiveStep(t: Tcb, e: Event, fins: nat)
    requires Regular(t, fins) && EventFits(e) && Alive(t.state) && t.state != Listen
    ensures var r, f := Step(t, e), fins + FinRead(t, e); Level(r, f) && FollowsFin(r, f)
  {
    hide CheckSocket, HandlePacket, AllValid, Wrap, KeepAlive, WantsIn, WantsOut, Accounts, Lifecycle, NotAbove;
    AliveLevel(t, fins);
    match e
    case Socket(s) => if t.open && !s.err { SocketLevel(t, s, fins); } else { QuietLevel(t, e, fins); }
    case Peer(p) => PeerLevel(t, p, fins);
    case Watch(m) => KeepAliveFrame(t, m);
    case Sweep(now, sessions, maxSessions) => QuietLevel(t, e, fins);
  }

  lemma QuietLevel(t: Tcb, e: Event, fins: nat)
    requires Regular(t, fins) && EventFits(e) && Alive(t.state) && t.state != Listen && Level(t, fins)
    requires e.Sweep? || (e.Socket? && (!t.open || e.socket.err))
    ensures var r := Step(t, e); Level(r, fins) && FollowsFin(r, fins)
  {
    hide Wrap, AllValid, Timeout, Accounts, NotAbove;
  }

  /** Nothing is delivered, and either nothing is written and nothing counted, or the SYN is counted. */
  ghost predicate Opens(t: Tcb, r: Tcb) {
    && r.cfg == t.cfg && r.log.delivered == t.log.delivered && r.state in {Listen, SynRecv, Closing, Close}
    && (r.remoteSeq == Wrap(t.remoteSeq + 1) || (r.remoteSeq == t.remoteSeq && r.log.written == t.log.written))
  }

  lemma RstOpens(t: Tcb)
    requires t.state == Listen
    ensures Opens(t, t.WriteRst())
  {
    hide Wrap;
  }

  lemma ConnectingOpens(t: Tcb, e: SocketEvent)
    requires t.state == Listen
    ensures Opens(t, CheckConnecting(t, e))
  {
    hide Wrap, Tcb.WriteOr, Tcb.WriteRst;
    RstCounts(t);
  }

  lemma HandleAckOpens(t: Tcb, e: PacketEvent)
    requires t.state == Listen
    ensures Opens(t, HandleAck(t, e))
  {
    hide Wrap, Tcb.WriteOr, Tcb.WriteRst, Compare, Opens;
    RstOpens(t);
    if HandleAck(t, e).log == t.log { NothingOpens(t, HandleAck(t, e)); }
  }

  lemma NothingOpens(t: Tcb, r: Tcb)
    requires r.cfg == t.cfg && r.log.delivered == t.log.delivered && r.log.written == t.log.written
    requires r.remoteSeq == t.remoteSeq && r.state in {Listen, SynRecv, Closing, Close}
    ensures Opens(t, r)
  {
  }

  lemma PeerOpens(t: Tcb, e: PacketEvent)
    requires t.state == Listen && t.cfg.port != HTTPS_PORT
    ensures Opens(t, HandlePacket(t, e))
  {
    hide Wrap, SendConnect, HandleAck, Enqueue, Tcb.WriteRst, Bits.Pow2;
    SendConnectFrame(t, e);
    var r := t.(time := e.now, sendWindow := Wrap(e.packet.window * Bits.Pow2(t.cfg.sendScale)));
    RstOpens(r);
    HandleAckOpens(r, e);
    HandleAckOpens(QueuePacket(r, e.packet), e);
  }

  /** A step before the SYN is answered. */
  lemma ListenStep(t: Tcb, e: Event)
    requires t.Valid() && EventFits(e) && t.state == Listen && t.cfg.port != HTTPS_PORT
    ensures Opens(t, Step(t, e)) && FinRead(t, e) == 0
  {
    hide CheckConnecting, HandlePacket, Wrap, AllValid, Tcb.WriteRst, WantsIn, WantsOut, Timeout, Opens;
    match e
    case Socket(s) =>
      if !t.open {
        NothingOpens(t, t);
      } else {
        ConnectingOpens(t, s);
        OpensTimed(t, s.now);
      }
    case Peer(p) => PeerOpens(t, p);
    case Watch(m) => NothingOpens(t, Step(t, e));
    case Sweep(now, sessions, maxSessions) => NothingOpens(t, Step(t, e));
  }

  lemma OpensTimed(t: Tcb, now: int)
    requires t.state == Listen
    ensures Opens(t, t.(time := now).WriteRst())
  {
    hide Wrap;
  }

  lemma RstCounts(t: Tcb)
    requires t.state == Listen
    ensures t.WriteRst().remoteSeq == Wrap(t.remoteSeq + 1)
  {
    hide Wrap;
  }

  /** A step of a session that is closing. */
  lemma DeadStep(t: Tcb, e: Event, fins: nat)
    requires Regular(t, fins) && EventFits(e) && !Alive(t.state)
    ensures var r := Step(t, e); NotAbove(r, fins) && FollowsFin(r, fins) && FinRead(t, e) == 0
  {
    hide CheckForward, CheckAck, CheckRead, HandlePacket, AllValid, Wrap, KeepAlive, WantsIn, WantsOut, Accounts,
      Timeout, Lifecycle;
    var c: nat :| LevelAt(t, fins, c);
    var r := Step(t, e);
    match e
    case Socket(s) =>
      if t.open && !s.err {
        var f, a := CheckSocketStages(t, s);
        ReadFrame(a, s);
        DeadPass(t, s, fins, c);
        AckRemote(f, CheckForward(t, s).1, s);
      }
      assert LevelAt(r, fins, c);
    case Peer(p) =>
      DeadPeer(t, p);
      assert LevelAt(r, fins, c);
    case Watch(m) =>
      KeepAliveFrame(t, m);
      assert LevelAt(r, fins, c);
    case Sweep(now, sessions, maxSessions) =>
      assert LevelAt(r, fins, c);
  }

  lemma DeadPeer(t: Tcb, e: PacketEvent)
    requires !Alive(t.state) && t.cfg.port != HTTPS_PORT
    ensures var r := HandlePacket(t, e);
            && r.cfg == t.cfg && r.queue == t.queue && r.remoteSeq == t.remoteSeq && !Alive(r.state)
            && r.log.delivered == t.log.delivered
  {
    hide Wrap, SendConnect, HandleAlive;
    SendConnectFrame(t, e);
  }

  lemma DeadPass(t: Tcb, e: SocketEvent, fins: nat, c: nat)
    requires t.Valid() && !Alive(t.state) && LevelAt(t, fins, c)
    ensures var f := CheckForward(t, e).0; LevelAt(f, fins, c) && !Alive(f.state) && f.cfg == t.cfg
  {
    hide Forward, Wrap, Tcb.WriteRst, AllValid;
    ForwardFrame(t, e);
    if e.writable {
      var p := Forward(StartPass(t, e.free), e.sends);
      ForwardCounts(StartPass(t, e.free), e.sends);
      Bump(t.cfg.remoteStart, |t.log.delivered| + c, |p.out| - |t.log.delivered|);
    }
  }

  // ---- Whole runs ----

  /** A byte count and a number of SYNs and FINs behind an acknowledgment number. */
  ghost predicate Says(cfg: Config, n: u32, bytes: int, count: int) {
    n == Wrap(cfg.remoteStart + (bytes + count))
  }

  /** Every acknowledgment of a step of a live session says exactly what has been delivered, plus the SYN, plus the FIN
      once it has been read and the queue is empty; a keep alive says one less. A closing session says no more. */
  ghost predicate Answers(t: Tcb, e: Event, fins: nat)
    requires t.Valid() && EventFits(e)
  {
    var r := Step(t, e);
    var f := fins + FinRead(t, e);
    && t.log.written <= r.log.written && t.log.delivered <= r.log.delivered
    && forall i :: |t.log.written| <= i < |r.log.written| && r.log.written[i].ack ==>
         var n := r.log.written[i].ackNo;
         if Alive(t.state) then
           Says(t.cfg, n, |r.log.delivered|, Counted(f, r.queue == []) - if e.Watch? then 1 else 0)
         else exists c: nat :: c <= Counted(f, r.queue == []) && Says(t.cfg, n, |r.log.delivered|, c)
  }

  ghost predicate AnswersAlong(t: Tcb, es: seq<Event>, fins: nat)
    requires t.Valid() && Fits(es)
    decreases |es|
  {
    es == [] ||
    (&& Answers(t, es[0], fins)
     && (StepValid(t, es[0]); AnswersAlong(Step(t, es[0]), es[1..], fins + FinRead(t, es[0]))))
  }

  lemma StepDelivers(t: Tcb, e: Event)
    requires t.Valid() && EventFits(e) && t.cfg.port != HTTPS_PORT
    ensures t.log.delivered <= Step(t, e).log.delivered
  {
    hide CheckConnecting, CheckForward, CheckAck, CheckRead, HandlePacket, AllValid, Wrap, KeepAlive, WantsIn, WantsOut,
      Tcb.WriteRst;
    match e
    case Socket(s) =>
      ConnectingDelivers(t, s);
      if t.open && !s.err && t.state != Listen {
        var f, a := CheckSocketStages(t, s);
        ReadFrame(a, s);
        ForwardDelivers(t, s);
      }
    case Peer(p) => PeerDelivers(t, p);
    case Watch(m) => KeepAliveFrame(t, m);
    case Sweep(now, sessions, maxSessions) =>
  }

  lemma ConnectingDelivers(t: Tcb, e: SocketEvent)
    ensures CheckConnecting(t, e).log.delivered == t.log.delivered
  {
    hide Wrap, Tcb.WriteOr, Tcb.WriteRst;
  }

  lemma ForwardDelivers(t: Tcb, e: SocketEvent)
    requires t.Valid()
    ensures t.log.delivered <= CheckForward(t, e).0.log.delivered
  {
    hide Forward, AllValid, Wrap, Tcb.WriteRst;
    ForwardBudget(StartPass(t, e.free), e.sends);
  }

  lemma PeerDelivers(t: Tcb, e: PacketEvent)
    requires t.cfg.port != HTTPS_PORT
    ensures HandlePacket(t, e).log.delivered == t.log.delivered
  {
    hide Wrap, SendConnect, HandleAck, Enqueue, Tcb.WriteRst, Bits.Pow2;
    SendConnectFrame(t, e);
    var r := t.(time := e.now, sendWindow := Wrap(e.packet.window * Bits.Pow2(t.cfg.sendScale)));
    HandleAckFrame(r, e);
    HandleAckFrame(QueuePacket(r, e.packet), e);
  }

  lemma DeadWatch(t: Tcb, e: Event)
    requires t.Valid() && EventFits(e) && e.Watch? && t.state !in {Established, CloseWait}
    ensures Step(t, e).log.written == t.log.written
  {
    hide WantsIn, WantsOut;
  }

  /** What a step leaves, whether live, new or closing. */
  lemma StepRegular(t: Tcb, e: Event, fins: nat)
    requires Regular(t, fins) && EventFits(e)
    ensures Regular(Step(t, e), fins + FinRead(t, e)) && Step(t, e).cfg == t.cfg
    ensures var r, f := Step(t, e), fins + FinRead(t, e);
            Alive(t.state) ==>
              Level(r, f) || (t.state == Listen && r.log.written == t.log.written)
  {
    hide Step, Lifecycle, Accounts, Tcb.Valid, Wrap, ReadsFin;
    var r, f := Step(t, e), fins + FinRead(t, e);
    StepValid(t, e);
    StepLifecycle(t, e);
    StepAccounts(t, e);
    if !Alive(t.state) {
      DeadStep(t, e, fins);
    } else if t.state == Listen {
      ListenStep(t, e);
      ListenLevel(t, r, fins);
    } else {
      LiveStep(t, e, fins);
      LevelIsAt(r, f);
    }
  }

  lemma LevelIsAt(t: Tcb, fins: nat)
    requires Level(t, fins)
    ensures NotAbove(t, fins)
  {
    assert LevelAt(t, fins, Counted(fins, t.queue == []));
  }

  lemma ListenLevel(t: Tcb, r: Tcb, fins: nat)
    requires Regular(t, fins) && t.state == Listen && Opens(t, r)
    ensures FollowsFin(r, fins) && NotAbove(r, fins) && (Level(r, fins) || r.log.written == t.log.written)
  {
    hide Wrap;
    Bump(t.cfg.remoteStart, |t.log.delivered|, 1);
    if r.remoteSeq == t.remoteSeq { assert LevelAt(r, fins, 0); } else { LevelIsAt(r, fins); }
  }

  lemma StepAnswers(t: Tcb, e: Event, fins: nat)
    requires Regular(t, fins) && EventFits(e)
    ensures Answers(t, e, fins)
  {
    hide Step, Lifecycle, Accounts, Tcb.Valid, Wrap, ReadsFin;
    var r, f := Step(t, e), fins + FinRead(t, e);
    StepRegular(t, e, fins);
    StepReplies(t, e);
    StepDelivers(t, e);
    if e.Watch? && t.state !in {Established, CloseWait} {
      DeadWatch(t, e);
    } else if e.Watch? {
      WatchLevel(t, e);
      WrapAdd(t.cfg.remoteStart + (|r.log.delivered| + Counted(f, r.queue == [])), 0 - 1);
    } else if !Alive(t.state) {
      var c: nat :| LevelAt(r, f, c);
      assert Says(t.cfg, r.remoteSeq, |r.log.delivered|, c);
    }
  }

  lemma WatchLevel(t: Tcb, e: Event)
    requires t.Valid() && EventFits(e) && e.Watch?
    ensures Step(t, e).remoteSeq == t.remoteSeq
  {
    hide KeepAlive, WantsIn, WantsOut;
    KeepAliveFrame(t, e.watch);
  }

  /** On every run away from port 443 the peer is told the truth: every acknowledgment says what has been delivered when
      it is written, plus the SYN, plus the FIN exactly if one has been read and nothing in front of it is left (a keep
      alive one less), so that no byte is acknowledged before it has been delivered. And a live session is in CLOSE_WAIT
      or LAST_ACK if and only if a FIN has been read. */
  lemma {:induction false} RunAnswers(t: Tcb, es: seq<Event>, fins: nat)
    requires Regular(t, fins) && Fits(es)
    ensures AnswersAlong(t, es, fins)
    ensures var r, f := Run(t, es), fins + FinsRead(t, es);
            && Regular(r, f) && f <= 1 && (Alive(r.state) ==> (f == 1 <==> r.state in {CloseWait, LastAck}))
    decreases |es|
  {
    hide Step, Lifecycle, Accounts, Tcb.Valid, Answers, NotAbove, ReadsFin;
    if es != [] {
      StepValid(t, es[0]);
      StepAnswers(t, es[0], fins);
      StepRegular(t, es[0], fins);
      RunAnswers(Step(t, es[0]), es[1..], fins + FinRead(t, es[0]));
    }
  }

  // ---- The FIN is acknowledged ----

  /** Once a FIN is counted, a packet that acknowledges it has been sent. */
  ghost predicate Settled(t: Tcb, fins: nat) {
    Alive(t.state) && fins == 1 && t.queue == [] ==> Confirmed(t.log.written, t.remoteSeq)
  }

  ghost predicate Confirmed(written: seq<Packet>, n: u32) {
    exists k :: 0 <= k < |written| && written[k].ack && written[k].sent && written[k].ackNo == n
  }

  lemma ConfirmedStays(from: seq<Packet>, to: seq<Packet>, n: u32)
    requires Confirmed(from, n) && from <= to
    ensures Confirmed(to, n)
  {
    var k :| 0 <= k < |from| && from[k].ack && from[k].sent && from[k].ackNo == n;
    assert to[k] == from[k];
  }

  lemma StepSettled(t: Tcb, e: Event, fins: nat)
    requires Regular(t, fins) && EventFits(e) && Settled(t, fins)
    ensures Settled(Step(t, e), fins + FinRead(t, e))
  {
    hide Step, Lifecycle, Accounts, Tcb.Valid, Confirmed, Level, NotAbove, Replies;
    var r, f := Step(t, e), fins + FinRead(t, e);
    StepRegular(t, e, fins);
    if Alive(r.state) && f == 1 && r.queue == [] {
      StepReplies(t, e);
      RepliesExtend(t, r, if e.Watch? then Wrap(t.remoteSeq - 1) else r.remoteSeq);
      StaysAlive(t, e);
      if fins == 1 && t.queue == [] {
        CountedStays(t, e, fins);
        ConfirmedStays(t.log.written, r.log.written, t.remoteSeq);
      } else if fins == 1 {
        DrainSettles(t, e, fins);
      } else {
        FinSettles(t, e);
      }
    }
  }

  lemma RepliesExtend(t: Tcb, r: Tcb, n: u32)
    requires Replies(t.log.written, r.log.written, n)
    ensures t.log.written <= r.log.written
  {
  }

  lemma StaysAlive(t: Tcb, e: Event)
    requires t.Valid() && EventFits(e) && t.cfg.port != HTTPS_PORT && Lifecycle(t) && Alive(Step(t, e).state)
    ensures Alive(t.state)
  {
    hide Step, Lifecycle;
    StepValid(t, e);
    StepLifecycle(t, e);
  }

  lemma CountedStays(t: Tcb, e: Event, fins: nat)
    requires Regular(t, fins) && EventFits(e) && Alive(t.state) && fins == 1 && t.queue == [] && Alive(Step(t, e).state)
    ensures Step(t, e).remoteSeq == t.remoteSeq
  {
    hide CheckForward, CheckAck, CheckRead, HandlePacket, AllValid, Wrap, KeepAlive, WantsIn, WantsOut, Accounts,
      Timeout, NotAbove;
    match e
    case Socket(s) =>
      if t.open && !s.err {
        var f, a := CheckSocketStages(t, s);
        ReadFrame(a, s);
        EmptyPass(t, s);
        AckRemote(f, CheckForward(t, s).1, s);
      }
    case Peer(p) =>
      AccountsEmpty(t);
      PacketReaction(t, p);
    case Watch(m) => KeepAliveFrame(t, m);
    case Sweep(now, sessions, maxSessions) =>
  }

  lemma AccountsEmpty(t: Tcb)
    requires Accounts(t) && Lifecycle(t)
    ensures t.state == FinWait1 ==> t.queue == [] && !t.open
  {
  }

  lemma EmptyPass(t: Tcb, e: SocketEvent)
    requires t.Valid() && t.queue == []
    ensures CheckForward(t, e).0.remoteSeq == t.remoteSeq || t.state == Listen
    ensures !CheckForward(t, e).1 && CheckForward(t, e).0.queue == []
  {
    hide Forward, AllValid, Wrap, Tcb.WriteRst;
    ForwardCounts(StartPass(t, e.free), e.sends);
  }

  lemma DrainSettles(t: Tcb, e: Event, fins: nat)
    requires Regular(t, fins) && EventFits(e) && Alive(t.state) && fins == 1 && t.queue != []
    requires Alive(Step(t, e).state) && Step(t, e).queue == []
    ensures Confirmed(Step(t, e).log.written, Step(t, e).remoteSeq)
  {
    hide CheckSocket, HandlePacket, AllValid, Wrap, KeepAlive, WantsIn, WantsOut, Timeout, NotAbove;
    match e
    case Socket(s) =>
      if t.open && !s.err {
        DrainAnswered(t, s);
        DrainSent(t, s);
      } else if t.open {
        ErrorCloses(t, s);
      }
    case Peer(p) =>
      AccountsEmpty(t);
      PacketReaction(t, p);
    case Watch(m) => KeepAliveFrame(t, m);
    case Sweep(now, sessions, maxSessions) =>
  }

  /** If the acknowledgment cannot be written the session closes. */
  lemma DrainSent(t: Tcb, e: SocketEvent)
    requires t.Valid() && t.open && !e.err && t.state == CloseWait && t.queue != []
    requires CheckSocket(t, e).queue == [] && Alive(CheckSocket(t, e).state)
    ensures e.ackOk
  {
    hide CheckForward, CheckAck, CheckRead, AllValid, Wrap;
    var f, a := CheckSocketStages(t, e);
    ReadFrame(a, e);
    DrainForwards(t, e);
    AckOutcome(f, e);
  }

  lemma AckOutcome(f: Tcb, e: SocketEvent)
    requires f.Valid()
    ensures !e.ackOk ==> CheckAck(f, true, e).state == Closing
  {
    hide AllValid, Wrap, Tcb.ReceiveWindow;
  }

  lemma ErrorCloses(t: Tcb, e: SocketEvent)
    requires t.Valid() && e.err
    ensures !Alive(CheckSocket(t, e).state)
  {
    hide Wrap;
  }

  lemma FinSettles(t: Tcb, e: Event)
    requires t.Valid() && EventFits(e) && t.cfg.port != HTTPS_PORT && Accounts(t) && Lifecycle(t) && FinRead(t, e) == 1
    requires Alive(Step(t, e).state) && Step(t, e).queue == []
    ensures Confirmed(Step(t, e).log.written, Step(t, e).remoteSeq)
  {
    hide HandlePacket, AllValid, Wrap;
    AccountsEmpty(t);
    PacketReaction(t, e.peer);
    FinAnswered(t, e.peer);
    var r := Step(t, e);
    assert r.log.written[|t.log.written|].ack;
  }

  /** On every run away from port 443: once a FIN has been read and the queue has drained, a packet that acknowledges it
      has been sent, as long as the session lives. */
  lemma {:induction false} RunSettled(t: Tcb, es: seq<Event>, fins: nat)
    requires Regular(t, fins) && Fits(es) && Settled(t, fins)
    ensures Settled(Run(t, es), fins + FinsRead(t, es))
    decreases |es|
  {
    hide Step, Regular, Settled, ReadsFin;
    if es != [] {
      RegularValid(t, fins);
      StepValid(t, es[0]);
      StepSettled(t, es[0], fins);
      StepRegular(t, es[0], fins);
      RunSettled(Step(t, es[0]), es[1..], fins + FinRead(t, es[0]));
    }
  }

  lemma RegularValid(t: Tcb, fins: nat)
    requires Regular(t, fins)
    ensures t.Valid()
  {
  }

  /** New sessions have read no FIN. */
  lemma NewSessionRegular(port: nat, mss: nat, scale: nat, window: u16, isn: u32, local: u32, free: u32, now: int)
    requires scale <= 14 && port != HTTPS_PORT
    ensures var t := NewSession(port, mss, scale, window, isn, local, free, now); Regular(t, 0) && Settled(t, 0)
  {
    hide Tcb.ReceiveWindow, Bits.Pow2, Wrap;
    var t := NewSession(port, mss, scale, window, isn, local, free, now);
    WrapSelf(isn);
    WrapSelf(local);
    assert LevelAt(t, 0, 0);
  }
}
