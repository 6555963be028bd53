/** Order independence of whole sessions: when the peer cuts its stream into fixed segments, what a session has queued
    depends only on which of them it has taken and on how much it has forwarded. */
module TcpTiling {
  import opened Serial
  import opened Wire
  import opened Segments
  import opened Stream
  import opened Tcp
  import opened TcpRuns
  import opened TcpSequence
  import opened TcpReceive
  import T = Tiling

  /** The session queues this packet's data. */
  predicate Takes(s: Tcb, p: PeerPacket) {
    p.data != [] && !p.urg && s.open && s.state !in {CloseWait, Closing, Close}
  }

  /** What one step does to the queue and to what has been delivered. */
  lemma QueueEffect(s: Tcb, e: Event)
    requires s.Valid() && EventFits(e) && s.cfg.port != HTTPS_PORT
    ensures var r := Step(s, e);
            match e
            case Peer(p) =>
              && r.log.delivered == s.log.delivered
              && r.queue == if Takes(s, p.packet)
                            then Enqueue(s.queue, s.remoteSeq, p.packet.seqNo, p.packet.data, p.packet.psh)
                            else s.queue
            case Socket(k) =>
              if s.open && !k.err && s.state != Listen
              then r.queue == CheckForward(s, k).0.queue && r.log.delivered == CheckForward(s, k).0.log.delivered
              else r.queue == s.queue && r.log.delivered == s.log.delivered
            case _ => r.queue == s.queue && r.log.delivered == s.log.delivered
  {
    hide CheckConnecting, CheckForward, CheckAck, CheckRead, HandlePacket, AllValid, Wrap, KeepAlive, WantsIn, WantsOut;
    match e
    case Socket(k) =>
      ConnectingQueue(s, k);
      if s.open && !k.err && s.state != Listen {
        var f, a := CheckSocketStages(s, k);
        ReadFrame(a, k);
      }
    case Peer(p) => PeerQueue(s, p);
    case Watch(m) => KeepAliveFrame(s, m);
    case Sweep(now, sessions, maxSessions) =>
  }

  lemma ConnectingQueue(s: Tcb, e: SocketEvent)
    ensures CheckConnecting(s, e).queue == s.queue && CheckConnecting(s, e).log.delivered == s.log.delivered
  {
    hide Wrap, Tcb.WriteOr, Tcb.WriteRst;
  }

  lemma PeerQueue(s: Tcb, e: PacketEvent)
    requires s.cfg.port != HTTPS_PORT
    ensures var r, p := HandlePacket(s, e), e.packet;
            && r.log.delivered == s.log.delivered
            && r.queue == if Takes(s, p) then Enqueue(s.queue, s.remoteSeq, p.seqNo, p.data, p.psh) else s.queue
  {
    hide Wrap, HandleAck, SendConnect, Enqueue, Tcb.WriteRst;
    SendConnectFrame(s, e);
    var r := s.(time := e.now, sendWindow := Wrap(e.packet.window * Bits.Pow2(s.cfg.sendScale)));
    HandleAckFrame(r, e);
    HandleAckFrame(QueuePacket(r, e.packet), e);
  }

  // ---- Sessions whose peer cuts its stream into fixed segments ----

  /** The packet's data is tile j, near what has been delivered so far. */
  ghost predicate IsTile(s: Tcb, p: PeerPacket, t: T.Tiling, j: nat)
    requires t.Valid()
  {
    && j < t.Count() && p.seqNo == Wrap(t.base + t.cuts[j]) && p.data == t.Data(j) && p.psh == t.psh[j]
    && |s.log.delivered| - WINDOW <= t.cuts[j] && t.cuts[j + 1] <= |s.log.delivered| + WINDOW
  }

  /** Every packet of the run with data carries the tile that `tiles` names for it. */
  ghost predicate RunCarries(s: Tcb, es: seq<Event>, tiles: seq<nat>, t: T.Tiling)
    requires s.Valid() && Fits(es) && t.Valid()
    decreases |es|
  {
    && |tiles| == |es|
    && (es == [] ||
        (&& (es[0].Peer? && es[0].peer.packet.data != [] ==> IsTile(s, es[0].peer.packet, t, tiles[0]))
         && (StepValid(s, es[0]); RunCarries(Step(s, es[0]), es[1..], tiles[1..], t))))
  }

  ghost function TakenBy(s: Tcb, e: Event, j: nat): set<nat> {
    if e.Peer? && Takes(s, e.peer.packet) then {j} else {}
  }

  /** The tiles the session takes on a run. */
  ghost function Taken(s: Tcb, es: seq<Event>, tiles: seq<nat>): set<nat>
    requires s.Valid() && Fits(es) && |tiles| == |es|
    decreases |es|
  {
    if es == [] then {}
    else
      StepValid(s, es[0]);
      TakenBy(s, es[0], tiles[0]) + Taken(Step(s, es[0]), es[1..], tiles[1..])
  }

  /** The queue is what has been taken and not forwarded, in order. */
  ghost predicate Tiled(s: Tcb, t: T.Tiling, taken: set<nat>) {
    && t.Valid() && t.base == s.cfg.remoteStart + 1
    && s.queue == t.Waiting(taken, |s.log.delivered|, 0)
    && T.Reached(t, taken, |s.log.delivered|) && s.log.delivered <= t.stream
  }

  /** ... as a state of the relay that expects the next undelivered byte. */
  ghost function AtPosition(s: Tcb, t: T.Tiling): T.RelayState {
    T.Relay(s.queue, Wrap(t.base + |s.log.delivered|), s.log.delivered)
  }

  lemma TiledIsDetermined(s: Tcb, t: T.Tiling, taken: set<nat>)
    requires s.Valid() && t.Valid()
    ensures Tiled(s, t, taken)
            <==> t.base == s.cfg.remoteStart + 1 && T.Determined(t, taken, AtPosition(s, t))
  {
    hide AllValid, T.Reached, T.Tiling.Valid, T.Tiling.Waiting, Wrap;
  }

  /** Whether the SYN has been counted makes no difference to where a segment goes. */
  lemma EnqueueBeforeSyn(q: seq<Segment>, base: int, c: int, data: Bytes, psh: bool)
    requires 0 <= c <= WINDOW
    ensures Enqueue(q, Wrap(base - 1), Wrap(base + c), data, psh)
            == Enqueue(q, Wrap(base + 0), Wrap(base + c), data, psh)
  {
    hide Wrap, Compare, Place;
    assert base - 1 == base + (0 - 1);
    CompareOffsets(base, c, 0 - 1);
    CompareOffsets(base, c, 0);
  }

  lemma TakeTiled(s: Tcb, p: PeerPacket, t: T.Tiling, taken: set<nat>, j: nat, offs: seq<int>, count: nat)
    requires s.Valid() && Tiled(s, t, taken) && Relays(s, t.stream, offs, count) && Lifecycle(s)
    requires Takes(s, p) && IsTile(s, p, t, j)
    ensures T.Determined(t, taken + {j},
                         AtPosition(s, t).(queue := Enqueue(s.queue, s.remoteSeq, p.seqNo, p.data, p.psh)))
  {
    hide Wrap, Compare, Place, Enqueue, AllValid, Holds, T.Reached, T.Tiling.Valid, T.Tiling.Waiting, T.Tiling.Data,
      T.Determined;
    TiledIsDetermined(s, t, taken);
    T.CutBounds(t, j);
    var r: T.RelayState := AtPosition(s, t);
    T.ArriveDetermined(t, taken, r, j);
    if count == 0 {
      EnqueueBeforeSyn(s.queue, t.base, t.cuts[j], p.data, p.psh);
    }
  }

  lemma ForwardTiled(s: Tcb, e: SocketEvent, t: T.Tiling, taken: set<nat>, offs: seq<int>, count: nat)
    requires s.Valid() && s.state != Listen && Tiled(s, t, taken) && Relays(s, t.stream, offs, count)
    ensures var f := CheckForward(s, e).0;
            f.Valid() && T.Determined(t, taken, AtPosition(f, t))
  {
    hide Wrap, Forward, AllValid, Holds, Tcb.WriteRst, T.Determined, T.Reached, T.Tiling.Waiting, T.Tiling.Valid;
    ForwardFrame(s, e);
    TiledIsDetermined(s, t, taken);
    var offs' := ForwardRelays(s, e, t.stream, offs, count);
    if count == 1 && e.writable {
      var p := StartPass(s, e.free);
      T.ForwardDetermined(t, taken, p, e.sends);
      var q := Forward(p, e.sends);
      assert q.remoteSeq == Wrap(t.base + |q.out|) by { DeterminedPosition(t, taken, q); }
    }
  }

  lemma DeterminedPosition(t: T.Tiling, taken: set<nat>, q: Pass)
    requires t.Valid() && AllValid(q.queue) && T.Determined(t, taken, T.Relay(q.queue, q.remoteSeq, q.out))
    ensures q.remoteSeq == Wrap(t.base + |q.out|)
  {
  }

  lemma StepTiled(s: Tcb, e: Event, t: T.Tiling, taken: set<nat>, j: nat, offs: seq<int>, count: nat)
    requires s.Valid() && EventFits(e) && s.cfg.port != HTTPS_PORT && Lifecycle(s)
    requires t.Valid() && Tiled(s, t, taken) && Relays(s, t.stream, offs, count)
    requires e.Peer? && e.peer.packet.data != [] ==> IsTile(s, e.peer.packet, t, j)
    ensures Tiled(Step(s, e), t, taken + TakenBy(s, e, j))
  {
    hide Step, Wrap, Enqueue, AllValid, Holds, Lifecycle, CheckForward, Tiled, IsTile, T.Determined, Relays;
    StepValid(s, e);
    QueueEffect(s, e);
    var r := Step(s, e);
    TiledIsDetermined(s, t, taken);
    TiledIsDetermined(r, t, taken + TakenBy(s, e, j));
    assert taken + {} == taken;
    match e
    case Peer(p) =>
      if Takes(s, p.packet) { TakeTiled(s, p.packet, t, taken, j, offs, count); }
    case Socket(k) =>
      if s.open && !k.err && s.state != Listen { ForwardTiled(s, k, t, taken, offs, count); }
    case Watch(_) =>
    case Sweep(_, _, _) =>
  }

  lemma TileIsPiece(s: Tcb, e: Event, t: T.Tiling, j: nat)
    requires t.Valid() && t.base == s.cfg.remoteStart + 1
    requires e.Peer? && e.peer.packet.data != [] ==> IsTile(s, e.peer.packet, t, j)
    ensures PeerFits(s, e, t.stream)
  {
    hide Wrap;
    if e.Peer? && e.peer.packet.data != [] {
      T.CutBounds(t, j);
      assert CarriesPiece(s, e.peer.packet, t.cuts[j], t.stream);
    }
  }

  /** Order independence: on every run of a session away from ports 80 and 443 whose packets carry the tiles of one
      tiling, in any order, with any duplicates, between any other events, the queue is exactly the tiles taken and not
      yet forwarded, in their order. */
  lemma {:induction false} RunTiled(s: Tcb, es: seq<Event>, tiles: seq<nat>, t: T.Tiling, taken: set<nat>)
    requires s.Valid() && Fits(es) && s.cfg.port !in {HTTP_PORT, HTTPS_PORT} && Lifecycle(s)
    requires Tiled(s, t, taken) && InOrder(s, t.stream) && RunCarries(s, es, tiles, t)
    ensures var r, all := Run(s, es), taken + Taken(s, es, tiles);
            && Tiled(r, t, all) && InOrder(r, t.stream) && Lifecycle(r)
            && r.queue == t.Waiting(all, |r.log.delivered|, 0) && r.log.delivered <= t.stream
    decreases |es|
  {
    hide Step, Lifecycle, Relays, TakenBy, IsTile, T.Reached, PeerFits, T.Tiling.Waiting, T.Tiling.Valid;
    if es == [] {
      assert taken + Taken(s, es, tiles) == taken;
    } else {
      var offs, count :| Relays(s, t.stream, offs, count);
      var r := Step(s, es[0]);
      StepValid(s, es[0]);
      StepLifecycle(s, es[0]);
      TileIsPiece(s, es[0], t, tiles[0]);
      StepTiled(s, es[0], t, taken, tiles[0], offs, count);
      var offs', count' := StepRelays(s, es[0], t.stream, offs, count);
      var next := taken + TakenBy(s, es[0], tiles[0]);
      RunTiled(r, es[1..], tiles[1..], t, next);
      assert next + Taken(r, es[1..], tiles[1..]) == taken + Taken(s, es, tiles);
    }
  }

  /** New sessions start out tiled. */
  lemma NewSessionTiled(port: nat, mss: nat, scale: nat, window: u16, isn: u32, local: u32, free: u32, now: int,
                        t: T.Tiling)
    requires scale <= 14 && t.Valid() && t.base == (isn as int) + 1
    ensures Tiled(NewSession(port, mss, scale, window, isn, local, free, now), t, {})
  {
    hide Bits.Pow2, Wrap;
    T.WaitingSkip(t, {}, 0, 0, t.Count());
  }

  lemma TiledDetermines(s: Tcb, s': Tcb, t: T.Tiling, taken: set<nat>)
    requires Tiled(s, t, taken) && Tiled(s', t, taken) && |s.log.delivered| == |s'.log.delivered|
    ensures s.queue == s'.queue && s.log.delivered == s'.log.delivered
  {
    assert s.log.delivered == t.stream[..|s.log.delivered|];
    assert s'.log.delivered == t.stream[..|s'.log.delivered|];
  }

  /** Order independence: two sessions for the same stream that have taken the same tiles in whatever order, with
      whatever else happening in between, and have delivered equally much, hold the same queue and have delivered the
      same bytes. */
  lemma SameTilesSameQueue(s: Tcb, es: seq<Event>, tiles: seq<nat>, s': Tcb, es': seq<Event>, tiles': seq<nat>,
                           t: T.Tiling)
    requires Begins(s, t) && Fits(es) && RunCarries(s, es, tiles, t)
    requires Begins(s', t) && Fits(es') && RunCarries(s', es', tiles', t)
    requires Taken(s, es, tiles) == Taken(s', es', tiles')
    requires |Run(s, es).log.delivered| == |Run(s', es').log.delivered|
    ensures Run(s, es).queue == Run(s', es').queue && Run(s, es).log.delivered == Run(s', es').log.delivered
  {
    hide Lifecycle, InOrder, Tiled, Run, Taken, Fits;
    RunTiled(s, es, tiles, t, {});
    RunTiled(s', es', tiles', t, {});
    TiledDetermines(Run(s, es), Run(s', es'), t, {} + Taken(s, es, tiles));
  }

  /** What a session is before its first event, away from ports 80 and 443. */
  ghost predicate Begins(s: Tcb, t: T.Tiling) {
    && s.Valid() && Lifecycle(s) && t.Valid() && s.cfg.port !in {HTTP_PORT, HTTPS_PORT}
    && Tiled(s, t, {}) && InOrder(s, t.stream)
  }

  lemma NewSessionBegins(port: nat, mss: nat, scale: nat, window: u16, isn: u32, local: u32, free: u32, now: int,
                         t: T.Tiling)
    requires scale <= 14 && t.Valid() && t.base == (isn as int) + 1 && port !in {HTTP_PORT, HTTPS_PORT}
    ensures Begins(NewSession(port, mss, scale, window, isn, local, free, now), t)
  {
    hide InOrder, Tiled, Lifecycle, Tcb.ReceiveWindow, Accounts, Gate;
    NewSessionFits(port, mss, scale, window, isn, local, free, now, t.stream);
    NewSessionTiled(port, mss, scale, window, isn, local, free, now, t);
  }

  /** Completeness: once a session that relays data has taken every tile, one writable event with full sends and enough
      buffer empties the queue, and the whole stream has been delivered. */
  lemma EverythingTakenDelivered(s: Tcb, e: SocketEvent, t: T.Tiling, taken: set<nat>)
    requires s.Valid() && s.cfg.port !in {HTTP_PORT, HTTPS_PORT} && Lifecycle(s)
    requires s.state in {SynRecv, Established, CloseWait} && Tiled(s, t, taken) && InOrder(s, t.stream)
    requires (forall i :: 0 <= i < t.Count() ==> i in taken)
    requires e.writable && !e.err && T.Full(e.sends) && e.free > |t.stream| - |s.log.delivered|
    ensures var r := Step(s, Socket(e)); r.queue == [] && r.log.delivered == t.stream
  {
    hide Step, Wrap, Forward, AllValid, Holds, T.Determined, T.Reached, T.Tiling.Waiting, T.Tiling.Valid;
    var offs, count :| Relays(s, t.stream, offs, count);
    QueueEffect(s, Socket(e));
    TiledIsDetermined(s, t, taken);
    var p := StartPass(s, e.free);
    if count == 1 {
      T.PassDelivers(t, taken, p, e.sends);
    } else {
      T.CompleteHeadReady(t, taken, p.(remoteSeq := Wrap(t.base + |s.log.delivered|)));
      var _ := ForwardRelays(s, e, t.stream, offs, count);
    }
  }
}
