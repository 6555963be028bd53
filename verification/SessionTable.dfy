/** The session list as the C code keeps it: a singly linked list that starts at `ng_session` and is edited in place.
    Every method is proved against the function of module Sessions that says what becomes of the list. */
module SessionTable {
  import opened Wire
  import opened Nodes
  import opened Tcp
  import opened Sessions

  /** `struct ng_session` */
  class SessionNode {
    var session: Session
    var next: SessionNode?

    constructor (session: Session, next: SessionNode?)
      ensures this.session == session && this.next == next
    {
      this.session, this.next := session, next;
    }
  }

  ghost function At(nodes: seq<SessionNode>, i: nat): SessionNode? {
    if i < |nodes| then nodes[i] else null
  }

  /** The node in front of position i. */
  ghost function Before(nodes: seq<SessionNode>, i: nat): SessionNode?
    requires i <= |nodes|
  {
    if i == 0 then null else nodes[i - 1]
  }

  ghost predicate Chained(nodes: seq<SessionNode>)
    reads nodes
  {
    forall i {:trigger nodes[i].next} :: 0 <= i < |nodes| ==> nodes[i].next == At(nodes, i + 1)
  }

  ghost predicate Carries(nodes: seq<SessionNode>, contents: seq<Session>)
    reads nodes
  {
    && |nodes| == |contents|
    && forall i {:trigger nodes[i].session} {:trigger contents[i]} ::
         0 <= i < |nodes| ==> nodes[i].session == contents[i]
  }

  /** The nodes form an acyclic list from `first` and hold these sessions. */
  ghost predicate Linked(first: SessionNode?, nodes: seq<SessionNode>, contents: seq<Session>)
    reads nodes
  {
    first == At(nodes, 0) && Distinct(nodes) && Chained(nodes) && Carries(nodes, contents)
  }

  // ---- One step of each list function, seen from position i of the list ----

  lemma SweepStep(t: seq<Session>, i: nat, u: seq<Session>, timeout: int, now: int, sessions: nat, maxSessions: nat)
    requires maxSessions > 0 && i < |t|
    requires var (r, delete) := Check(t[i], now, sessions, maxSessions);
             u == if delete then t[..i] + t[i + 1..] else t[i := r]
    ensures var (r, delete) := Check(t[i], now, sessions, maxSessions);
            var next := if delete then i else i + 1;
            && t[..i] + Kept(t[i..], now, sessions, maxSessions)
               == u[..next] + Kept(u[next..], now, sessions, maxSessions)
            && PollTimeout(timeout, t[i..], now, sessions, maxSessions)
               == PollTimeout(if delete then timeout else Shorten(timeout, r, now, sessions, maxSessions), u[next..],
                              now, sessions, maxSessions)
  {
    hide Check, Shorten;
    assert t[i..][1..] == t[i + 1..];
    var (r, delete) := Check(t[i], now, sessions, maxSessions);
    if delete {
      assert u[..i] == t[..i] && u[i..] == t[i + 1..];
    } else {
      assert u[i + 1..] == t[i + 1..] && u[..i + 1] == t[..i] + [r];
    }
  }

  lemma OnTime(t: seq<Session>, now: int, sessions: nat, maxSessions: nat)
    requires maxSessions > 0 && AllSessionsValid(t)
    ensures var k, p := Kept(t, now, sessions, maxSessions), PollTimeout(EPOLL_TIMEOUT, t, now, sessions, maxSessions);
            0 < p <= EPOLL_TIMEOUT
            && forall i :: 0 <= i < |k| && k[i].Live() ==>
                 now <= Deadline(k[i], sessions, maxSessions) && p <= Deadline(k[i], sessions, maxSessions) - now + 1
  {
    hide Check, Session.Valid, Session.Live, Deadline;
    SweepMeetsDeadlines(t, now, sessions, maxSessions);
  }

  lemma AllowedStep(t: seq<Session>, i: nat, u: seq<Session>)
    requires i < |t|
    requires var blocked := t[i].UdpSession? && t[i].state == Blocked;
             u == if blocked then t[..i] + t[i + 1..] else t[i := Disallowed(t[i])]
    ensures var next := if t[i].UdpSession? && t[i].state == Blocked then i else i + 1;
            t[..i] + CheckAllowed(t[i..]) == u[..next] + CheckAllowed(u[next..])
  {
    hide Disallowed;
    assert t[i..][1..] == t[i + 1..];
    if t[i].UdpSession? && t[i].state == Blocked {
      assert u[..i] == t[..i] && u[i..] == t[i + 1..];
    } else {
      assert u[i + 1..] == t[i + 1..] && u[..i + 1] == t[..i] + [Disallowed(t[i])];
    }
  }

  lemma SuffixValid(t: seq<Session>, i: nat)
    requires AllSessionsValid(t) && i <= |t|
    ensures AllSessionsValid(t[i..])
  {
  }

  lemma MonitorStep(t: seq<Session>, i: nat, u: seq<Session>, watch: nat -> MonitorEvent)
    requires AllSessionsValid(t) && i < |t| && t[i].Valid() && u == t[i := MonitorOne(t[i], watch(i))]
    ensures AllSessionsValid(t[i..]) && AllSessionsValid(u) && AllSessionsValid(u[i + 1..])
    ensures t[..i] + Monitored(t[i..], watch, i) == u[..i + 1] + Monitored(u[i + 1..], watch, i + 1)
    ensures CountLive(t[i..]) == (if t[i].Live() then 1 else 0) + CountLive(u[i + 1..])
  {
    hide MonitorOne, Session.Valid, Session.Live, AllSessionsValid;
    MonitorOneSucceeds(t[i], watch(i));
    UpdateValid(t, i, MonitorOne(t[i], watch(i)));
    SuffixValid(t, i);
    SuffixValid(u, i + 1);
    assert t[i..][1..] == t[i + 1..] == u[i + 1..];
    assert u[..i + 1] == t[..i] + [MonitorOne(t[i], watch(i))];
  }

  lemma NothingAfter(t: seq<Session>, i: nat)
    requires i == |t|
    ensures t[i..] == [] && t[..i] == t == t + []
  {
  }

  class SessionTable {
    var head: SessionNode?
    ghost var nodes: seq<SessionNode>
    ghost var contents: seq<Session>

    ghost predicate Valid()
      reads this, nodes
    {
      Linked(head, nodes, contents) && AllSessionsValid(contents) && Unique(contents)
    }

    constructor ()
      ensures Valid() && contents == []
    {
      head, nodes, contents := null, [], [];
    }

    // ---- Editing the list ----

    /** A new session goes to the front. */
    method Insert(s: Session)
      requires Linked(head, nodes, contents)
      modifies this
      ensures Linked(head, nodes, contents) && head != null && fresh(head)
      ensures nodes == [head] + old(nodes) && contents == [s] + old(contents)
    {
      head := new SessionNode(s, head);
      nodes, contents := [head] + nodes, [s] + contents;
      assert Chained(nodes) by {
        forall j | 0 <= j < |nodes| ensures nodes[j].next == At(nodes, j + 1) {
          if j > 0 { assert nodes[j] == old(nodes)[j - 1]; }
        }
      }
    }

    method Put(n: SessionNode, s: Session, ghost i: nat)
      requires Linked(head, nodes, contents) && i < |nodes| && n == nodes[i]
      modifies this`contents, n`session
      ensures Linked(head, nodes, contents) && contents == old(contents)[i := s]
    {
      OnlyAt(nodes, i);
      n.session := s;
      contents := contents[i := s];
    }

    /** Take a node out; `l` is the node in front of it. */
    method Unlink(l: SessionNode?, n: SessionNode, ghost i: nat)
      requires Linked(head, nodes, contents) && i < |nodes| && n == nodes[i] && l == Before(nodes, i)
      modifies this, if l == null then {} else {l}
      ensures Linked(head, nodes, contents)
      ensures nodes == old(nodes)[..i] + old(nodes)[i + 1..] && contents == old(contents)[..i] + old(contents)[i + 1..]
      ensures n.next == old(n.next) == At(nodes, i)
    {
      hide Distinct;
      ghost var was := nodes;
      RemoveDistinct(was, i);
      assert n.next == At(was, i + 1);
      if l == null {
        head := n.next;
      } else {
        l.next := n.next;
      }
      RemovedChained(was, i);
      RemovedCarries(was, contents, i);
      nodes, contents := was[..i] + was[i + 1..], contents[..i] + contents[i + 1..];
    }

    lemma RemovedChained(was: seq<SessionNode>, i: nat)
      requires i < |was|
      requires forall j {:trigger was[j].next} ::
                 0 <= j < |was| ==> was[j].next == if j + 1 == i then At(was, i + 1) else At(was, j + 1)
      ensures Chained(was[..i] + was[i + 1..])
    {
      var nodes := was[..i] + was[i + 1..];
      forall j | 0 <= j < |nodes| ensures nodes[j].next == At(nodes, j + 1) {
        assert nodes[j] == if j < i then was[j] else was[j + 1];
      }
    }

    lemma RemovedCarries(was: seq<SessionNode>, had: seq<Session>, i: nat)
      requires Carries(was, had) && i < |was|
      ensures Carries(was[..i] + was[i + 1..], had[..i] + had[i + 1..])
    {
    }

    // ---- Searching ----

    method FindTcp(flow: Flow) returns (cur: SessionNode?, ghost i: nat)
      requires Valid()
      ensures i == Sessions.FindTcp(contents, flow) && cur == At(nodes, i)
    {
      cur, i := head, 0;
      while cur != null && !(cur.session.TcpSession? && cur.session.flow == flow)
        invariant i <= |nodes| && cur == At(nodes, i)
        invariant Sessions.FindTcp(contents, flow) == i + Sessions.FindTcp(contents[i..], flow)
        decreases |nodes| - i
      {
        assert contents[i..][1..] == contents[i + 1..];
        cur, i := cur.next, i + 1;
      }
    }

    method FindUdp(flow: Flow) returns (cur: SessionNode?, ghost i: nat)
      requires Valid()
      ensures i == Sessions.FindUdp(contents, flow) && cur == At(nodes, i)
    {
      cur, i := head, 0;
      while cur != null && !(cur.session.UdpSession? && cur.session.flow == flow)
        invariant i <= |nodes| && cur == At(nodes, i)
        invariant Sessions.FindUdp(contents, flow) == i + Sessions.FindUdp(contents[i..], flow)
        decreases |nodes| - i
      {
        assert contents[i..][1..] == contents[i + 1..];
        cur, i := cur.next, i + 1;
      }
    }

    method FindIcmp(pair: Pair) returns (cur: SessionNode?, ghost i: nat)
      requires Valid()
      ensures i == Sessions.FindIcmp(contents, pair) && cur == At(nodes, i)
    {
      cur, i := head, 0;
      while cur != null && !(cur.session.IcmpSession? && !cur.session.stop && cur.session.pair == pair)
        invariant i <= |nodes| && cur == At(nodes, i)
        invariant Sessions.FindIcmp(contents, pair) == i + Sessions.FindIcmp(contents[i..], pair)
        decreases |nodes| - i
      {
        assert contents[i..][1..] == contents[i + 1..];
        cur, i := cur.next, i + 1;
      }
    }

    // ---- Packets ----

    method HandleTcp(a: Arrival)
      requires Valid() && a.TcpArrival? && a.Fits()
      modifies this, nodes
      ensures Valid() && forall n <- nodes :: n in old(nodes) || fresh(n)
      ensures contents == TcpArrives(old(contents), a)
    {
      hide Linked, Unique, AllSessionsValid, Session.Valid, Tcp.HandlePacket, NewSession;
      NextUnique(contents, Sessions.Packet(a));
      var p := a.event.packet;
      ghost var i;
      var cur;
      cur, i := FindTcp(a.flow);
      if p.urg {
        return;
      }
      Cursor(cur, i);
      if cur != null {
        Put(cur, TcpSession(a.flow, Tcp.HandlePacket(cur.session.tcb, a.event)), i);
      } else if p.syn && a.socketOk {
        var t := NewSession(a.flow.dest, a.mss, a.scale, p.window, p.seqNo, a.local, a.free, a.event.now);
        Insert(TcpSession(a.flow, t));
      }
    }

    method HandleUdp(a: Arrival)
      requires Valid() && a.UdpArrival?
      modifies this, nodes
      ensures Valid() && forall n <- nodes :: n in old(nodes) || fresh(n)
      ensures contents == UdpArrives(old(contents), a)
    {
      hide Linked, Unique, AllSessionsValid, Session.Valid;
      NextUnique(contents, Sessions.Packet(a));
      ghost var i;
      var cur;
      cur, i := FindUdp(a.flow);
      Cursor(cur, i);
      if cur != null && cur.session.state != Active {
        return;
      }
      if cur == null {
        if !a.socketOk {
          return;
        }
        Insert(UdpSession(a.flow, a.now, Active, true));
        cur, i := head, 0;
        Cursor(cur, i);
      }
      if a.dhcp {
        return;
      }
      Put(cur, cur.session.(udpTime := a.now), i);
      Cursor(cur, i);
      if a.sendFailed {
        Put(cur, cur.session.(state := Finishing), i);
      }
      assert contents == UdpArrives(old(contents), a);
    }

    method HandleIcmp(a: Arrival)
      requires Valid() && a.IcmpArrival?
      modifies this, nodes
      ensures Valid() && forall n <- nodes :: n in old(nodes) || fresh(n)
      ensures contents == IcmpArrives(old(contents), a)
    {
      hide Linked, Unique, AllSessionsValid, Session.Valid;
      NextUnique(contents, Sessions.Packet(a));
      if !a.echo {
        return;
      }
      ghost var i;
      var cur;
      cur, i := FindIcmp(a.pair);
      Cursor(cur, i);
      if cur == null {
        if !a.socketOk {
          return;
        }
        Insert(IcmpSession(a.pair, a.now, false, true));
        cur, i := head, 0;
        Cursor(cur, i);
      }
      Put(cur, cur.session.(icmpTime := a.now), i);
      Cursor(cur, i);
      if a.sendFailed {
        Put(cur, cur.session.(stop := true), i);
      }
      assert contents == IcmpArrives(old(contents), a);
    }

    lemma Head()
      requires Linked(head, nodes, contents)
      ensures head == At(nodes, 0) && |nodes| == |contents|
    {
    }

    /** What a cursor at position i sees. */
    lemma Cursor(cur: SessionNode?, i: nat)
      requires Linked(head, nodes, contents) && cur == At(nodes, i)
      ensures |nodes| == |contents| && (cur == null <==> i >= |contents|)
      ensures cur != null ==>
                cur in nodes && cur == nodes[i] && cur.session == contents[i] && cur.next == At(nodes, i + 1)
    {
    }

    // ---- Counting, sweeping, restarting ----

    /** The counting loop of `handle_events`, which also monitors the TCP sessions. */
    method Count(watch: nat -> MonitorEvent) returns (sessions: nat)
      requires Valid()
      modifies this`contents, nodes
      ensures Valid() && nodes == old(nodes)
      ensures sessions == CountLive(old(contents)) && contents == Monitored(old(contents), watch, 0)
    {
      hide Linked, Unique, AllSessionsValid, Session.Valid, Session.Live, MonitorOne, Monitored;
      NextUnique(contents, Watched(watch));
      Head();
      sessions := 0;
      var s, i: nat := head, 0;
      ghost var was := contents;
      while s != null
        invariant Linked(head, nodes, contents) && i <= |nodes| == |contents| && s == At(nodes, i)
        invariant AllSessionsValid(contents) && AllSessionsValid(contents[i..])
        invariant contents[..i] + Monitored(contents[i..], watch, i) == Monitored(was, watch, 0)
        invariant sessions + CountLive(contents[i..]) == CountLive(was)
        decreases |nodes| - i
      {
        Cursor(s, i);
        ghost var had := contents;
        SessionAt(contents, i);
        if s.session.Live() {
          sessions := sessions + 1;
        }
        Put(s, MonitorOne(s.session, watch(i)), i);
        MonitorStep(had, i, contents, watch);
        Cursor(s, i);
        s, i := s.next, i + 1;
      }
      NothingAfter(contents, i);
    }

    /** The sweep of `handle_events` with one reading of the clock: `sl` trails behind `s` so that a session can be
        taken out where it stands. */
    method Sweep(now: int, sessions: nat, maxSessions: nat) returns (timeout: int)
      requires Valid() && maxSessions > 0
      modifies this, nodes
      ensures Valid() && forall n <- nodes :: n in old(nodes)
      ensures contents == Kept(old(contents), now, sessions, maxSessions)
      ensures timeout == PollTimeout(EPOLL_TIMEOUT, old(contents), now, sessions, maxSessions)
      ensures 0 < timeout <= EPOLL_TIMEOUT
      ensures forall i :: 0 <= i < |contents| && contents[i].Live() ==>
                now <= Deadline(contents[i], sessions, maxSessions)
                && timeout <= Deadline(contents[i], sessions, maxSessions) - now + 1
    {
      hide Linked, Unique, AllSessionsValid, Session.Valid, Session.Live, Deadline, Check, Shorten;
      NextUnique(contents, SweepAll(now, sessions, maxSessions));
      OnTime(contents, now, sessions, maxSessions);
      timeout := EPOLL_TIMEOUT;
      var sl: SessionNode?, s := null, head;
      Head();
      ghost var i := 0;
      ghost var goal := Kept(contents, now, sessions, maxSessions);
      ghost var goalTimeout := PollTimeout(timeout, contents, now, sessions, maxSessions);
      while s != null
        invariant Linked(head, nodes, contents) && forall n <- nodes :: n in old(nodes)
        invariant i <= |nodes| == |contents| && s == At(nodes, i) && sl == Before(nodes, i)
        invariant sl != null ==> sl in old(nodes)
        invariant contents[..i] + Kept(contents[i..], now, sessions, maxSessions) == goal
        invariant PollTimeout(timeout, contents[i..], now, sessions, maxSessions) == goalTimeout
        decreases |nodes| - i
      {
        Cursor(s, i);
        ghost var had, due := contents, timeout;
        var delete := CheckSession(s, i, now, sessions, maxSessions);
        Cursor(s, i);
        if delete {
          Unlink(sl, s, i);
          assert contents == had[..i] + had[i + 1..];
          SweepStep(had, i, contents, due, now, sessions, maxSessions);
          s := s.next;
        } else {
          SweepStep(had, i, contents, due, now, sessions, maxSessions);
          timeout := Shorten(timeout, s.session, now, sessions, maxSessions);
          sl := s;
          s := s.next;
          i := i + 1;
        }
      }
      NothingAfter(contents, i);
    }

    /** `check_icmp_session`, `check_udp_session` and `check_tcp_session` */
    method CheckSession(n: SessionNode, ghost i: nat, now: int, sessions: nat, maxSessions: nat) returns (delete: bool)
      requires Linked(head, nodes, contents) && i < |nodes| && n == nodes[i] && maxSessions > 0
      modifies this`contents, n`session
      ensures Linked(head, nodes, contents)
      ensures |old(nodes)| == |old(contents)|
      ensures var r := Check(old(contents)[i], now, sessions, maxSessions);
              contents == old(contents)[i := r.0] && delete == r.1
    {
      hide Linked, Deadline, Tcp.CheckSession;
      Cursor(n, i);
      delete := false;
      var due := Deadline(n.session, sessions, maxSessions);
      match n.session {
        case IcmpSession(_, _, stop, _) =>
          if stop || due < now {
            Put(n, n.session.(icmpOpen := false), i);
            delete := true;
          }
        case UdpSession(_, _, _, _) =>
          if n.session.state == Active && due < now {
            Put(n, n.session.(state := Finishing), i);
            Cursor(n, i);
          }
          if n.session.state == Finishing {
            Put(n, n.session.(udpOpen := false, udpTime := now, state := Finished), i);
            Cursor(n, i);
          }
          delete := (n.session.state == Finished || n.session.state == Blocked)
                    && n.session.udpTime + UDP_KEEP_TIMEOUT < now;
        case TcpSession(flow, tcb) =>
          var (r, gone) := Tcp.CheckSession(tcb, now, sessions, maxSessions);
          Put(n, TcpSession(flow, r), i);
          delete := gone;
      }
    }

    /** `check_allowed`: the event thread has been restarted. */
    method EndAll()
      requires Valid()
      modifies this, nodes
      ensures Valid() && forall n <- nodes :: n in old(nodes)
      ensures contents == CheckAllowed(old(contents))
    {
      hide Linked, Unique, AllSessionsValid, Session.Valid, Disallowed;
      NextUnique(contents, Restart);
      var l: SessionNode?, s := null, head;
      Head();
      ghost var i := 0;
      ghost var goal := CheckAllowed(contents);
      while s != null
        invariant Linked(head, nodes, contents) && forall n <- nodes :: n in old(nodes)
        invariant i <= |nodes| == |contents| && s == At(nodes, i) && l == Before(nodes, i)
        invariant l != null ==> l in old(nodes)
        invariant contents[..i] + CheckAllowed(contents[i..]) == goal
        decreases |nodes| - i
      {
        Cursor(s, i);
        ghost var had := contents;
        if s.session.UdpSession? && s.session.state == Blocked {
          Unlink(l, s, i);
          AllowedStep(had, i, contents);
          s := s.next;
        } else {
          Put(s, Disallowed(s.session), i);
          AllowedStep(had, i, contents);
          Cursor(s, i);
          l := s;
          s := s.next;
          i := i + 1;
        }
      }
      NothingAfter(contents, i);
    }

    /** An event for one descriptor: `check_icmp_socket`, `check_udp_socket` or `check_tcp_socket`. */
    method HandleReady(n: SessionNode, ghost i: nat, e: Ready)
      requires Valid() && i < |nodes| && n == nodes[i] && n.session.Open()
      modifies this`contents, n`session
      ensures Valid() && |old(contents)| == |nodes| && AllSessionsValid(old(contents)) && old(contents)[i].Valid()
      ensures contents == old(contents)[i := OnReady(old(contents)[i], e)]
    {
      hide Linked, Unique, AllSessionsValid, Session.Valid, CheckSocket;
      Cursor(n, i);
      SessionAt(contents, i);
      NextUnique(contents, SocketReady(i, e));
      match n.session {
        case IcmpSession(_, _, _, _) =>
          if e.err {
            Put(n, n.session.(icmpTime := e.now, stop := true), i);
          } else if e.readable {
            Put(n, n.session.(icmpTime := e.now), i);
            Cursor(n, i);
            if e.fatal || e.received == Some(0) {
              Put(n, n.session.(stop := true), i);
            }
          }
        case UdpSession(flow, _, _, _) =>
          if e.err {
            Put(n, n.session.(udpTime := e.now, state := Finishing), i);
          } else if e.readable {
            Put(n, n.session.(udpTime := e.now), i);
            Cursor(n, i);
            if e.fatal || e.received == Some(0) || (e.received.Some? && flow.dest == 53) {
              Put(n, n.session.(state := Finishing), i);
            }
          }
        case TcpSession(_, tcb) =>
          Put(n, n.session.(tcb := CheckSocket(tcb, e.tcp)), i);
      }
      assert contents == old(contents)[i := OnReady(old(contents)[i], e)];
    }

    /** `clear` */
    method Clear()
      requires Valid()
      modifies this
      ensures Valid() && contents == []
    {
      head, nodes, contents := null, [], [];
    }
  }
}
