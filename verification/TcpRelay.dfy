/** The session object over its whole life: driven by any sequence of events it takes the steps of module Tcp, so what
    is proved about runs holds of the object. */
module TcpRelay {
  import opened Serial
  import opened Wire
  import opened Tcp
  import opened TcpRuns
  import opened TcpSequence
  import opened TcpWindow
  import opened TcpReceive
  import opened TcpPeer
  import opened TcpAcks
  import opened TcpSession

  /** One event of the loop in `handle_events`, for one session. */
  method Handle(s: TcpSession, e: Event)
    requires s.Valid() && EventFits(e)
    modifies s, s.nodes
    ensures s.Valid() && forall n <- s.nodes :: n in old(s.nodes) || fresh(n)
    ensures old(s.View()).Valid() && s.View() == Step(old(s.View()), e)
  {
    hide CheckSocket, HandlePacket, Monitor, CheckSession;
    match e
    case Socket(socket) =>
      if s.socket >= 0 {
        s.CheckSocket(socket);
      }
    case Peer(peer) =>
      s.HandlePacket(peer);
    case Watch(watch) =>
      if s.socket >= 0 {
        s.Monitor(watch);
      }
    case Sweep(now, sessions, maxSessions) =>
      var _ := s.CheckSession(now, sessions, maxSessions);
  }

  /** Any sequence of events. */
  method Drive(s: TcpSession, es: seq<Event>)
    requires s.Valid() && Fits(es)
    modifies s, s.nodes
    ensures s.Valid() && old(s.View()).Valid() && s.View() == Run(old(s.View()), es)
  {
    hide Step, EventFits, Tcb.Valid;
    ViewValid(s);
    ghost var t := s.View();
    var i := 0;
    assert es[0..] == es;
    while i < |es|
      invariant i <= |es| && s.Valid() && s.View().Valid() && Fits(es[i..])
      invariant forall k :: 0 <= k < |s.nodes| ==> s.nodes[k] in old(s.nodes) || fresh(s.nodes[k])
      invariant Run(s.View(), es[i..]) == Run(t, es)
    {
      assert es[i..][1..] == es[i + 1..];
      ghost var had := s.nodes;
      label BeforeEvent:
      Handle(s, es[i]);
      forall k | 0 <= k < |s.nodes| ensures s.nodes[k] in old(s.nodes) || fresh(s.nodes[k]) {
        assert s.nodes[k] in had || fresh@BeforeEvent(s.nodes[k]);
      }
      ViewValid(s);
      i := i + 1;
    }
  }

  lemma ViewValid(s: TcpSession)
    requires s.Valid()
    ensures s.View().Valid()
  {
  }

  lemma NewSessionConfig(port: nat, mss: nat, scale: nat, window: u16, isn: u32, local: u32, free: u32, now: int)
    requires scale <= 14
    ensures NewSession(port, mss, scale, window, isn, local, free, now).cfg
            == Config(port, mss, scale, scale, isn, local)
  {
  }

  lemma NewSessionHeld(t: Tcb)
    requires WindowKept(t)
    ensures Held(t, false)
  {
  }

  /** A session from the peer's SYN through any sequence of events. Away from ports 80 and 443 the proxy socket has been
      handed a prefix of the peer's stream; away from port 443 the peer has been told the truth. On every port it was
      sent what was read from the proxy, inside its window, and the descriptor is closed at most once. */
  method Relay(port: nat, mss: nat, scale: nat, window: u16, isn: u32, local: u32, free: u32, now: int, socket: nat,
               es: seq<Event>, ghost stream: Bytes)
    returns (s: TcpSession)
    requires scale <= 14 && Fits(es)
    ensures fresh(s) && s.Valid()
    ensures var t := NewSession(port, mss, scale, window, isn, local, free, now);
            && t.Valid() && s.View() == Run(t, es)
            && (port !in {HTTP_PORT, HTTPS_PORT} && StreamFits(t, es, stream) ==> s.log.delivered <= stream)
            && s.log.closes <= 1 && (s.log.closes == 0 <==> s.socket >= 0)
            && AllInside(s.log.written) && DataOf(s.log.written) == s.log.received
            && (port != HTTPS_PORT ==> AnswersAlong(t, es, 0))
            && (forall i :: 0 <= i < |s.log.written| ==> FieldTells(s.log.written[i], scale))
  {
    hide Run, NewSession, InOrder, Accounts, Gate, WindowKept, AllInside, FieldTells, StreamFits, Offerable,
      AnswersAlong, Regular, Streamed, Orderly, DataOf;
    s := new TcpSession(port, mss, scale, window, isn, local, free, now, socket);
    ghost var t := s.View();
    NewSessionFits(port, mss, scale, window, isn, local, free, now, stream);
    Drive(s, es);
    NewSessionConfig(port, mss, scale, window, isn, local, free, now);
    RunLifecycle(t, es);
    RunWindowField(t, es);
    if port !in {HTTP_PORT, HTTPS_PORT} && StreamFits(t, es, stream) {
      RunInOrder(t, es, stream);
    }
    NewSessionHeld(t);
    RunInside(t, es);
    NewSessionSends(port, mss, scale, window, isn, local, free, now, false);
    RunStreamed(t, es, false);
    if port != HTTPS_PORT {
      NewSessionRegular(port, mss, scale, window, isn, local, free, now);
      RunAnswers(t, es, 0);
    }
  }
}
