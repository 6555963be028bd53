/** Sequence numbers of a TCP session on every run: what they count, and that the proxy receives a prefix of the
    peer's stream. */
module TcpSequence {
  import opened Bits
  import opened Serial
  import opened Wire
  import opened Segments
  import opened Stream
  import opened Tcp
  import opened TcpRuns

  // ---- Accounting ----

  /** How many of the peer's SYN and FIN the next expected number counts. */
  function RemoteCount(state: State, drained: bool): nat {
    match state
    case Listen => 0
    case CloseWait => if drained then 2 else 1
    case LastAck => 2
    case _ => 1
  }

  /** How many of its own SYN and FIN the session's next number counts. */
  function LocalCount(state: State): nat {
    match state
    case Listen => 0
    case FinWait1 => 2
    case LastAck => 2
    case _ => 1
  }

  predicate Alive(s: State) {
    s != Closing && s != Close
  }

  ghost predicate Accounts(t: Tcb) {
    && t.connect != Sent
    && (Alive(t.state) ==>
        && t.remoteSeq == Wrap(t.cfg.remoteStart + (|t.log.delivered| + RemoteCount(t.state, t.queue == [])))
        && t.localSeq == Wrap(t.cfg.localStart + (|t.log.received| + LocalCount(t.state))))
    && (t.state in {FinWait1, LastAck} ==> t.queue == [])
  }

  lemma Bump(start: int, n: int, k: int)
    ensures Wrap(Wrap(start + n) + k) == Wrap(start + (n + k))
  {
    WrapAdd(start + n, k);
  }

  lemma ConnectingAccounts(t: Tcb, e: SocketEvent)
    requires Accounts(t) && t.state == Listen
    ensures Accounts(CheckConnecting(t, e))
  {
    hide Wrap, Tcb.WriteOr, Tcb.WriteRst;
    Bump(t.cfg.remoteStart, |t.log.delivered|, 1);
    Bump(t.cfg.localStart, |t.log.received|, 1);
  }

  /** A pass moves the next expected number by the bytes it sends, and reports progress if it empties the queue. */
  lemma {:induction false} ForwardCounts(p: Pass, sends: nat -> SendResult)
    requires AllValid(p.queue)
    ensures var r := Forward(p, sends);
            && |r.out| >= |p.out| && r.remoteSeq == Wrap(p.remoteSeq + (|r.out| - |p.out|))
            && (r.queue == [] ==> p.queue == [] || r.fwd) && (p.queue == [] ==> r == p)
            && (r.failed && !p.failed ==> r.queue != [])
    decreases |p.queue|
  {
    hide Wrap, Pass.Advance;
    WrapSelf(p.remoteSeq);
    if p.Ready() && sends(p.calls).Accepted? {
      var left := p.queue[0].len - p.queue[0].sent;
      var n := if sends(p.calls).n >= left then left else sends(p.calls).n;
      AdvanceBudget(p, n);
      AdvanceCounts(p, n);
      if n == left {
        ForwardCounts(p.Advance(left), sends);
        WrapAdd(p.remoteSeq + n, |Forward(p, sends).out| - |p.out| - n);
      }
    }
  }

  lemma WrapSelf(x: u32)
    ensures Wrap(x + 0) == x
  {
  }

  lemma AdvanceCounts(p: Pass, n: nat)
    requires p.queue != [] && p.queue[0].Valid() && p.Ready() && n <= p.queue[0].len - p.queue[0].sent
    ensures p.Advance(n).remoteSeq == Wrap(p.remoteSeq + n) && p.Advance(n).fwd && p.Advance(n).failed == p.failed
  {
    WrapAdd(p.queue[0].seqNo + p.queue[0].sent, n);
  }

  /** Between forwarding and acknowledging, a FIN is not yet counted if the queue has just drained. */
  ghost predicate Pending(t: Tcb, fwd: bool) {
    && t.connect != Sent
    && (Alive(t.state) ==>
        && t.remoteSeq == Wrap(t.cfg.remoteStart + (|t.log.delivered| + RemoteCount(t.state, t.queue == [] && !fwd)))
        && t.localSeq == Wrap(t.cfg.localStart + (|t.log.received| + LocalCount(t.state))))
    && (t.state in {FinWait1, LastAck} ==> t.queue == [])
  }

  lemma ForwardAccounts(t: Tcb, e: SocketEvent)
    requires t.Valid() && t.state != Listen && Accounts(t)
    ensures Pending(CheckForward(t, e).0, CheckForward(t, e).1)
  {
    hide Forward, Wrap, Tcb.WriteRst, AllValid;
    if e.writable {
      ForwardCounts(StartPass(t, e.free), e.sends);
      var p := Forward(StartPass(t, e.free), e.sends);
      Bump(t.cfg.remoteStart, |t.log.delivered| + RemoteCount(t.state, t.queue == []), |p.out| - |t.log.delivered|);
    }
  }

  lemma AckAccounts(t: Tcb, fwd: bool, e: SocketEvent)
    requires t.Valid() && t.state != Listen && Pending(t, fwd)
    ensures Accounts(CheckAck(t, fwd, e))
  {
    hide Wrap, CheckAck, AllValid;
    AckFrame(t, fwd, e);
    AckRemote(t, fwd, e);
    Bump(t.cfg.remoteStart, |t.log.delivered| + RemoteCount(t.state, t.queue == [] && !fwd), 1);
  }

  lemma ReadAccounts(t: Tcb, e: SocketEvent)
    requires Accounts(t) && t.state != Listen
    ensures Accounts(CheckRead(t, e))
  {
    hide Wrap, Tcb.WriteRst, Tcb.SendWindow, ReadEof, ReadData;
    if t.state in {Established, CloseWait} {
      var r := t.(time := e.now);
      EofAccounts(r, e.dataOk);
      if e.recv.Received? {
        var window := t.SendWindow();
        var size := if window > t.cfg.mss then t.cfg.mss else window;
        DataAccounts(r, if |e.recv.data| > size then e.recv.data[..size] else e.recv.data, e.dataOk);
      }
    }
  }

  lemma DataAccounts(t: Tcb, bytes: Bytes, ok: bool)
    requires Accounts(t) && t.state in {Established, CloseWait}
    ensures Accounts(ReadData(t, bytes, ok))
  {
    hide Wrap, Tcb.WriteOr;
    Bump(t.cfg.localStart, |t.log.received| + LocalCount(t.state), |bytes|);
  }

  lemma EofAccounts(t: Tcb, ok: bool)
    requires Accounts(t) && t.state in {Established, CloseWait}
    ensures Accounts(ReadEof(t, ok))
  {
    hide Wrap, Tcb.WriteOr, Tcb.WriteRst;
    Bump(t.cfg.localStart, |t.log.received| + LocalCount(t.state), 1);
  }

  lemma HandleAckAccounts(t: Tcb, e: PacketEvent)
    requires Accounts(t) && Alive(t.state)
    ensures Accounts(HandleAck(t, e))
  {
    hide Wrap, HandleFin, HandleOther, Compare;
    HandleFinAccounts(t, e.ackOk);
    HandleOtherAccounts(t, e.packet.ackNo);
  }

  lemma HandleFinAccounts(t: Tcb, ok: bool)
    requires Accounts(t) && Alive(t.state)
    ensures Accounts(HandleFin(t, ok))
  {
    hide Wrap, Tcb.WriteOr;
    Bump(t.cfg.remoteStart, |t.log.delivered| + RemoteCount(t.state, t.queue == []), 1);
  }

  lemma HandleOtherAccounts(t: Tcb, ackNo: u32)
    requires Accounts(t)
    ensures Accounts(HandleOther(t, ackNo))
  {
    hide Wrap, Tcb.WriteRst, Compare;
  }

  /** Away from port 443 a packet is queued only in states whose count does not depend on the queue. */
  lemma PeerAccounts(t: Tcb, e: PacketEvent)
    requires t.cfg.port != HTTPS_PORT && Lifecycle(t) && Accounts(t)
    ensures Accounts(HandlePacket(t, e))
  {
    hide Wrap, Tcb.WriteRst, HandleAck, Enqueue, Compare;
    SendConnectFrame(t, e);
    if Alive(t.state) {
      var r := t.(time := e.now, sendWindow := Wrap(e.packet.window * Pow2(t.cfg.sendScale)));
      HandleAckAccounts(r, e);
      if r.open && r.state != CloseWait {
        HandleAckAccounts(QueuePacket(r, e.packet), e);
      }
    }
  }

  lemma StepAccounts(t: Tcb, e: Event)
    requires t.Valid() && EventFits(e) && t.cfg.port != HTTPS_PORT && Lifecycle(t) && Accounts(t)
    ensures Accounts(Step(t, e))
  {
    hide CheckConnecting, CheckForward, CheckAck, CheckRead, HandlePacket, AllValid, Wrap, KeepAlive, WantsIn, WantsOut,
      Tcb.WriteRst;
    match e
    case Socket(s) =>
      if t.open && !s.err {
        if t.state == Listen {
          ConnectingAccounts(t, s);
        } else {
          var f, a := CheckSocketStages(t, s);
          ForwardAccounts(t, s);
          AckAccounts(f, CheckForward(t, s).1, s);
          ReadAccounts(a, s);
        }
      }
    case Peer(p) => PeerAccounts(t, p);
    case Watch(m) => KeepAliveFrame(t, m);
    case Sweep(now, sessions, maxSessions) =>
  }

  /** On every run of a session away from port 443, the sequence numbers count the bytes relayed plus each SYN and
      FIN exactly once, as the state says. */
  lemma {:induction false} RunAccounts(t: Tcb, es: seq<Event>)
    requires t.Valid() && Fits(es) && t.cfg.port != HTTPS_PORT && Lifecycle(t) && Accounts(t)
    ensures Accounts(Run(t, es))
    decreases |es|
  {
    hide Step, Accounts, Lifecycle;
    if es != [] {
      StepValid(t, es[0]);
      StepLifecycle(t, es[0]);
      StepAccounts(t, es[0]);
      RunAccounts(Step(t, es[0]), es[1..]);
    }
  }

  // ---- In-order delivery ----

  /** The queue holds pieces of the peer's stream and the socket has received a prefix of it; `count` SYNs and FINs
      are counted in the next expected number. Byte 0 of the stream follows the SYN. */
  ghost predicate Relays(t: Tcb, stream: Bytes, offs: seq<int>, count: nat) {
    && Holds(t.queue, offs, t.cfg.remoteStart + 1, stream, |t.log.delivered|)
    && t.log.delivered <= stream
    && t.remoteSeq == Wrap(t.cfg.remoteStart + 1 + (|t.log.delivered| + count - 1))
    && count <= 2 && (count == 0 ==> t.log.delivered == []) && (count == 2 ==> t.queue == [])
    && (Alive(t.state) ==> count == RemoteCount(t.state, t.queue == []))
    && (t.state in {FinWait1, LastAck} ==> t.queue == [])
    && t.connect != Sent
  }

  ghost predicate InOrder(t: Tcb, stream: Bytes) {
    exists offs, count :: Relays(t, stream, offs, count)
  }

  /** The packet's data is the piece of the stream at `off`, near what has been delivered so far. */
  ghost predicate CarriesPiece(t: Tcb, p: PeerPacket, off: nat, stream: Bytes) {
    InWindow(p.seqNo, p.data, off, t.cfg.remoteStart + 1, stream, |t.log.delivered|)
  }

  ghost predicate PeerFits(t: Tcb, e: Event, stream: Bytes) {
    e.Peer? && e.peer.packet.data != [] ==> exists off :: CarriesPiece(t, e.peer.packet, off, stream)
  }

  ghost predicate StreamFits(t: Tcb, es: seq<Event>, stream: Bytes)
    requires t.Valid() && Fits(es)
    decreases |es|
  {
    es == [] || (PeerFits(t, es[0], stream) && (StepValid(t, es[0]); StreamFits(Step(t, es[0]), es[1..], stream)))
  }

  /** Nothing about the relay changes but the SYN or FIN that is counted. */
  lemma CountMoves(t: Tcb, r: Tcb, stream: Bytes, offs: seq<int>, count: nat, count': nat)
    requires Relays(t, stream, offs, count)
    requires r.cfg == t.cfg && r.queue == t.queue && r.log.delivered == t.log.delivered && r.connect != Sent
    requires r.remoteSeq == if count' == count then t.remoteSeq else Wrap(t.remoteSeq + 1)
    requires count <= count' <= count + 1
    requires count' <= 2 && (count' == 2 ==> t.queue == [])
    requires Alive(r.state) ==> count' == RemoteCount(r.state, r.queue == [])
    requires r.state in {FinWait1, LastAck} ==> r.queue == []
    ensures Relays(r, stream, offs, count')
  {
    hide Wrap, Holds;
    WrapAdd(t.cfg.remoteStart + 1 + (|t.log.delivered| + count - 1), 1);
  }

  lemma ConnectingRelays(t: Tcb, e: SocketEvent, stream: Bytes, offs: seq<int>, count: nat) returns (count': nat)
    requires t.state == Listen && Relays(t, stream, offs, count)
    ensures Relays(CheckConnecting(t, e), stream, offs, count')
  {
    hide Wrap, Tcb.WriteOr, Tcb.WriteRst, Holds;
    count' := if e.readable && e.answer.Some? then 0 else 1;
    CountMoves(t, CheckConnecting(t, e), stream, offs, count, count');
  }

  lemma ForwardRelays(t: Tcb, e: SocketEvent, stream: Bytes, offs: seq<int>, count: nat) returns (offs': seq<int>)
    requires t.Valid() && t.state != Listen && Relays(t, stream, offs, count)
    ensures var (f, fwd) := CheckForward(t, e);
            && Holds(f.queue, offs', t.cfg.remoteStart + 1, stream, |f.log.delivered|) && f.log.delivered <= stream
            && f.remoteSeq == Wrap(t.cfg.remoteStart + 1 + (|f.log.delivered| + count - 1))
            && (count != 1 ==> f.queue == t.queue && f.log.delivered == t.log.delivered && !fwd)
            && (t.queue == [] ==> f.queue == [] && !fwd) && (f.queue == [] ==> t.queue == [] || fwd)
  {
    hide Forward, Wrap, Tcb.WriteRst, AllValid, Holds;
    offs' := offs;
    if e.writable {
      var p := StartPass(t, e.free);
      var n := |t.log.delivered|;
      offs' := ForwardHolds(p, e.sends, offs, t.cfg.remoteStart + 1, stream, n, n + count - 1);
      ForwardCounts(p, e.sends);
    }
  }

  lemma PumpRelays(t: Tcb, e: SocketEvent, stream: Bytes, offs: seq<int>, count: nat)
    returns (offs': seq<int>, count': nat)
    requires t.Valid() && t.state != Listen && Relays(t, stream, offs, count)
    ensures CheckForward(t, e).0.Valid()
    ensures Relays(CheckAck(CheckForward(t, e).0, CheckForward(t, e).1, e), stream, offs', count')
  {
    hide CheckForward, Wrap, Holds, AllValid;
    offs' := ForwardRelays(t, e, stream, offs, count);
    ForwardFrame(t, e);
    var (f, fwd) := CheckForward(t, e);
    count' := AckRelays(t, f, fwd, e, stream, offs', count);
  }

  lemma AckRelays(t: Tcb, f: Tcb, fwd: bool, e: SocketEvent, stream: Bytes, offs: seq<int>, count: nat)
    returns (count': nat)
    requires f.Valid() && f.cfg == t.cfg && f.connect != Sent && (f.state == t.state || f.state == Closing)
    requires Holds(f.queue, offs, t.cfg.remoteStart + 1, stream, |f.log.delivered|) && f.log.delivered <= stream
    requires f.remoteSeq == Wrap(t.cfg.remoteStart + 1 + (|f.log.delivered| + count - 1)) && count <= 2
    requires (count == 0 ==> f.log.delivered == []) && (count == 2 ==> f.queue == []) && (count != 1 ==> !fwd)
    requires Alive(t.state) ==> count == RemoteCount(t.state, t.queue == [])
    requires t.state in {FinWait1, LastAck} ==> t.queue == []
    requires (t.queue == [] ==> f.queue == [] && !fwd) && (f.queue == [] ==> t.queue == [] || fwd)
    ensures Relays(CheckAck(f, fwd, e), stream, offs, count')
  {
    hide Wrap, CheckAck, AllValid, Holds;
    count' := if fwd && f.queue == [] && f.state == CloseWait then 2 else count;
    AckFrame(f, fwd, e);
    AckRemote(f, fwd, e);
    WrapAdd(t.cfg.remoteStart + 1 + (|f.log.delivered| + count - 1), 1);
  }

  lemma AckRemote(t: Tcb, fwd: bool, e: SocketEvent)
    requires t.Valid()
    ensures CheckAck(t, fwd, e).remoteSeq
            == if fwd && t.queue == [] && t.state == CloseWait then Wrap(t.remoteSeq + 1) else t.remoteSeq
  {
    hide Wrap, Tcb.WriteOr, Tcb.ReceiveWindow, AllValid;
  }

  lemma ReadRelays(t: Tcb, e: SocketEvent, stream: Bytes, offs: seq<int>, count: nat)
    requires t.state != Listen && Relays(t, stream, offs, count)
    ensures Relays(CheckRead(t, e), stream, offs, count)
  {
    hide Wrap, CheckRead, Holds;
    ReadFrame(t, e);
    EofNeedsEmpty(t, e);
    CountMoves(t, CheckRead(t, e), stream, offs, count, count);
  }

  lemma EofNeedsEmpty(t: Tcb, e: SocketEvent)
    ensures CheckRead(t, e).state in {FinWait1, LastAck} && CheckRead(t, e).state != t.state ==> t.queue == []
  {
    hide Wrap, Tcb.WriteOr, Tcb.WriteRst, Tcb.SendWindow, ReadEof;
    EofNeedsDrained(t.(time := e.now), e.dataOk);
  }

  lemma EofNeedsDrained(t: Tcb, ok: bool)
    ensures ReadEof(t, ok).state in {FinWait1, LastAck} && ReadEof(t, ok).state != t.state ==> t.queue == []
  {
    hide Wrap, Tcb.WriteOr, Tcb.WriteRst;
  }

  lemma HandleAckRelays(t: Tcb, e: PacketEvent, stream: Bytes, offs: seq<int>, count: nat) returns (count': nat)
    requires Alive(t.state) && Relays(t, stream, offs, count)
    ensures Relays(HandleAck(t, e), stream, offs, count')
  {
    hide Wrap, Holds, Compare, HandleFin, HandleOther, Relays;
    var p := e.packet;
    if p.rst || ((!p.ack || p.ackNo == t.localSeq) && (p.syn || !p.fin)) {
      count' := count;
      PlainRelays(t, HandleAck(t, e), stream, offs, count);
    } else if !p.ack || p.ackNo == t.localSeq {
      count' := HandleFinRelays(t, e.ackOk, stream, offs, count);
    } else {
      count' := HandleOtherRelays(t, p.ackNo, stream, offs, count);
    }
  }

  /** Steps that touch neither the queue nor the next expected number. */
  lemma PlainRelays(t: Tcb, r: Tcb, stream: Bytes, offs: seq<int>, count: nat)
    requires Relays(t, stream, offs, count) && r.cfg == t.cfg && r.queue == t.queue
    requires r.log == t.log && r.connect == t.connect && r.remoteSeq == t.remoteSeq
    requires r.state == t.state || r.state == Closing || (t.state == SynRecv && r.state == Established)
    ensures Relays(r, stream, offs, count)
  {
    hide Wrap, Holds;
  }

  lemma HandleFinRelays(t: Tcb, ok: bool, stream: Bytes, offs: seq<int>, count: nat) returns (count': nat)
    requires Alive(t.state) && Relays(t, stream, offs, count)
    ensures Relays(HandleFin(t, ok), stream, offs, count')
  {
    hide Wrap, Holds, Tcb.WriteOr;
    count' := if t.state == FinWait1 || (t.state == Established && t.queue == []) then count + 1 else count;
    CountMoves(t, HandleFin(t, ok), stream, offs, count, count');
  }

  lemma HandleOtherRelays(t: Tcb, ackNo: u32, stream: Bytes, offs: seq<int>, count: nat) returns (count': nat)
    requires Alive(t.state) && Relays(t, stream, offs, count)
    ensures Relays(HandleOther(t, ackNo), stream, offs, count')
  {
    hide Wrap, Holds, Tcb.WriteRst, Compare;
    var r := HandleOther(t, ackNo);
    count' := if t.state == Listen && r.state == Closing then count + 1 else count;
    CountMoves(t, r, stream, offs, count, count');
  }

  lemma QueueRelays(t: Tcb, p: PeerPacket, stream: Bytes, offs: seq<int>, count: nat, off: nat)
    returns (offs': seq<int>)
    requires t.state in {Listen, SynRecv, Established} && Relays(t, stream, offs, count)
    requires InWindow(p.seqNo, p.data, off, t.cfg.remoteStart + 1, stream, |t.log.delivered|)
    ensures Relays(QueuePacket(t, p), stream, offs', count)
  {
    hide Wrap, Holds, Enqueue;
    var n := |t.log.delivered|;
    offs' := EnqueueHolds(t.queue, offs, t.cfg.remoteStart + 1, stream, n, n + count - 1, p.seqNo, p.data, p.psh, off);
  }

  lemma PeerRelays(t: Tcb, e: PacketEvent, stream: Bytes, offs: seq<int>, count: nat)
    returns (offs': seq<int>, count': nat)
    requires t.cfg.port != HTTPS_PORT && Lifecycle(t) && Relays(t, stream, offs, count) && PeerFits(t, Peer(e), stream)
    ensures Relays(HandlePacket(t, e), stream, offs', count')
  {
    hide Wrap, Tcb.WriteRst, HandleAck, Enqueue, Compare, Holds, InWindow;
    SendConnectFrame(t, e);
    offs', count' := offs, count;
    if e.packet.urg {
    } else if !Alive(t.state) {
      CountMoves(t, t.WriteRst(), stream, offs, count, count);
    } else {
      var r := t.(time := e.now, sendWindow := Wrap(e.packet.window * Pow2(t.cfg.sendScale)));
      if e.packet.data == [] {
        count' := HandleAckRelays(r, e, stream, offs, count);
      } else if !r.open || r.state == CloseWait {
        CountMoves(r, r.WriteRst(), stream, offs, count, count);
      } else {
        var off :| CarriesPiece(t, e.packet, off, stream);
        offs' := QueueRelays(r, e.packet, stream, offs, count, off);
        count' := HandleAckRelays(QueuePacket(r, e.packet), e, stream, offs', count);
      }
    }
  }

  lemma StepRelays(t: Tcb, e: Event, stream: Bytes, offs: seq<int>, count: nat) returns (offs': seq<int>, count': nat)
    requires t.Valid() && EventFits(e) && t.cfg.port != HTTPS_PORT && Lifecycle(t)
    requires Relays(t, stream, offs, count) && PeerFits(t, e, stream)
    ensures Relays(Step(t, e), stream, offs', count')
  {
    hide CheckConnecting, CheckForward, CheckAck, CheckRead, HandlePacket, AllValid, Wrap, KeepAlive, WantsIn, WantsOut,
      Tcb.WriteRst, Holds;
    offs', count' := offs, count;
    match e
    case Socket(s) =>
      if t.open {
        if s.err {
          count' := if t.state == Listen then 1 else count;
          CountMoves(t, Step(t, e), stream, offs, count, count');
        } else if t.state == Listen {
          count' := ConnectingRelays(t, s, stream, offs, count);
        } else {
          var f, a := CheckSocketStages(t, s);
          offs', count' := PumpRelays(t, s, stream, offs, count);
          ReadRelays(a, s, stream, offs', count');
        }
      }
    case Peer(p) => offs', count' := PeerRelays(t, p, stream, offs, count);
    case Watch(m) =>
      KeepAliveFrame(t, m);
      CountMoves(t, Step(t, e), stream, offs, count, count);
    case Sweep(now, sessions, maxSessions) =>
      CountMoves(t, Step(t, e), stream, offs, count, count);
  }

  lemma RelayedAscends(t: Tcb, stream: Bytes, offs: seq<int>, count: nat)
    requires Relays(t, stream, offs, count)
    ensures Ascending(t.queue)
  {
    var n := |t.log.delivered|;
    LocatedAscends(t.queue, t.cfg.remoteStart + 1, offs, n - BEHIND, n + WINDOW);
  }

  /** In-order delivery: on every run away from ports 80 and 443, whatever the order, overlap and repetition of the
      peer's segments and however sends split or fail, the socket has been handed exactly a prefix of the peer's
      stream, and the next expected number is the end of that prefix (plus the SYN and FIN counted so far). */
  lemma {:induction false} RunInOrder(t: Tcb, es: seq<Event>, stream: Bytes)
    requires t.Valid() && Fits(es) && t.cfg.port !in {HTTP_PORT, HTTPS_PORT} && Lifecycle(t)
    requires InOrder(t, stream) && StreamFits(t, es, stream)
    ensures var r := Run(t, es);
            && r.log.delivered <= stream && InOrder(r, stream) && Ascending(r.queue)
            && (Alive(r.state) ==>
                r.remoteSeq == Wrap(r.cfg.remoteStart + (|r.log.delivered| + RemoteCount(r.state, r.queue == []))))
    decreases |es|
  {
    hide Step, Lifecycle, Holds, PeerFits;
    var offs, count :| Relays(t, stream, offs, count);
    if es == [] {
      RelayedAscends(t, stream, offs, count);
      assert t.cfg.remoteStart + 1 + (|t.log.delivered| + count - 1) == t.cfg.remoteStart + (|t.log.delivered| + count);
    } else {
      StepValid(t, es[0]);
      StepLifecycle(t, es[0]);
      var offs', count' := StepRelays(t, es[0], stream, offs, count);
      RunInOrder(Step(t, es[0]), es[1..], stream);
    }
  }
}
