/** How long sessions last: the load-scaled timeouts in plain seconds, what ends a session and when it is deleted. */
module SessionTimes {
  import opened Wire
  import opened Tcp
  import opened Sessions
  import Bits
  import Serial

  // ---- Load scaling ----

  lemma QuotientMono(a: int, b: int)
    requires a <= b
    ensures Quotient(a, 100) <= Quotient(b, 100)
  {
  }

  /** The load in percent, and what it leaves of a timeout. */
  function Load(n: nat, m: nat): nat
    requires m > 0
  {
    n * 100 / m
  }

  function Left(x: nat, load: int): int {
    Quotient(x * (100 - load), 100)
  }

  lemma LoadMono(n: nat, n': nat, m: nat)
    requires n <= n' && m > 0
    ensures Load(n, m) <= Load(n', m)
  {
    var q, q' := n * 100 / m, n' * 100 / m;
    assert n * 100 == q * m + n * 100 % m && n' * 100 == q' * m + n' * 100 % m;
    if q > q' { Products(q' + 1, q, m); }
  }

  lemma FullLoad(m: nat)
    requires m > 0
    ensures Load(0, m) == 0 && Load(m, m) == 100
  {
  }

  lemma Products(a: int, b: int, m: nat)
    requires a <= b
    ensures a * m <= b * m
  {
  }

  lemma LeftEnds(x: nat)
    ensures Left(x, 0) == x && Left(x, 100) == 0
  {
  }

  lemma LeftMono(x: nat, q: int, q': int)
    requires q <= q'
    ensures Left(x, q') <= Left(x, q)
  {
    Products(100 - q', 100 - q, x);
    QuotientMono(x * (100 - q'), x * (100 - q));
  }

  lemma ScaledIsLeft(x: nat, n: nat, m: nat)
    requires m > 0
    ensures Scaled(x, n, m) == Left(x, Load(n, m))
  {
  }

  /** The whole timeout while there are no sessions, none when the table is full, and never more with more sessions. */
  lemma ScaledShape(x: nat, n: nat, n': nat, m: nat)
    requires m > 0 && n <= n'
    ensures Scaled(x, 0, m) == x && Scaled(x, m, m) == 0
    ensures Scaled(x, n', m) <= Scaled(x, n, m) <= x
    ensures n <= m ==> Scaled(x, n, m) >= 0
  {
    hide Scaled, Left, Load;
    ScaledIsLeft(x, 0, m);
    ScaledIsLeft(x, n, m);
    ScaledIsLeft(x, n', m);
    ScaledIsLeft(x, m, m);
    FullLoad(m);
    LeftEnds(x);
    LoadMono(0, n, m);
    LoadMono(n, n', m);
    LeftMono(x, 0, Load(n, m));
    LeftMono(x, Load(n, m), Load(n', m));
    if n <= m {
      LoadMono(n, m, m);
      LeftMono(x, Load(n, m), 100);
    }
  }

  /** In between it is the free share of the table, to the percent, in whole seconds. */
  lemma ScaledShare(x: nat, n: nat, m: nat)
    requires m > 0 && n <= m
    ensures 100 * m * Scaled(x, n, m) <= 100 * (x * (m - n)) + x * m
    ensures 100 * m * Scaled(x, n, m) >= 100 * (x * (m - n)) - 100 * m
  {
    hide Scaled, Left;
    var q := Load(n, m);
    var r := n * 100 - q * m;
    assert 0 <= r < m by { assert n * 100 == q * m + n * 100 % m; }
    FullLoad(m);
    LoadMono(n, m, m);
    ScaledIsLeft(x, n, m);
    var s := Left(x, q);
    LeftRounds(x, q);
    FreeShare(x, n, m, q, r);
    ShareBounds(x, m, s, x * (100 - q), x * (m - n), r);
  }

  lemma ShareBounds(x: nat, m: nat, s: int, a: int, free: int, r: nat)
    requires 100 * s <= a < 100 * s + 100 && a * m == 100 * free + x * r && r < m
    ensures 100 * free - 100 * m <= 100 * m * s <= 100 * free + x * m
  {
    Products(100 * s, a, m);
    Products(a, 100 * s + 100, m);
    Regroup(s, m);
    Products(r, m, x);
    Products(0, r, x);
  }

  lemma Regroup(s: int, m: nat)
    ensures (100 * s) * m == 100 * m * s && (100 * s + 100) * m == 100 * m * s + 100 * m
  {
  }

  lemma LeftRounds(x: nat, q: nat)
    requires q <= 100
    ensures 100 * Left(x, q) <= x * (100 - q) < 100 * Left(x, q) + 100
  {
    Products(0, 100 - q, x);
  }

  lemma FreeShare(x: nat, n: nat, m: nat, q: nat, r: nat)
    requires n * 100 == q * m + r
    ensures x * (100 - q) * m == 100 * (x * (m - n)) + x * r
  {
    var d := m - n;
    assert (100 - q) * m == 100 * m - q * m == 100 * d + r;
    assert x * (100 - q) * m == x * ((100 - q) * m);
    assert x * (100 * d + r) == 100 * (x * d) + x * r;
  }

  // ---- Limits ----

  /** How many seconds a live session may be idle while the table is empty. */
  function IdleLimit(s: Session): nat {
    match s
    case IcmpSession(_, _, _, _) => 15
    case UdpSession(flow, _, _, _) => if flow.dest == 53 then 15 else 300
    case TcpSession(_, tcb) =>
      match tcb.state
      case Established => 3600
      case _ => 30
  }

  function LastUsed(s: Session): int {
    match s
    case IcmpSession(_, time, _, _) => time
    case UdpSession(_, time, _, _) => time
    case TcpSession(_, tcb) => tcb.time
  }

  lemma DeadlineIs(s: Session, sessions: nat, maxSessions: nat)
    requires maxSessions > 0 && s.Live()
    ensures Deadline(s, sessions, maxSessions) == LastUsed(s) + Scaled(IdleLimit(s), sessions, maxSessions)
  {
    hide Scaled;
  }

  /** While the table is empty a live session survives a sweep unchanged if and only if it has not been idle for longer
      than its limit; a session that has been is over under every load, and in a full table one second is too long. */
  lemma IdleSurvives(s: Session, now: int, sessions: nat, maxSessions: nat)
    requires maxSessions > 0 && s.Live()
    ensures now <= LastUsed(s) + IdleLimit(s) ==> Check(s, now, 0, maxSessions) == (s, false)
    ensures now > LastUsed(s) + IdleLimit(s) ==> Ended(s, Check(s, now, sessions, maxSessions), now)
    ensures sessions >= maxSessions && now > LastUsed(s) ==> Ended(s, Check(s, now, sessions, maxSessions), now)
  {
    hide Scaled, Deadline, Timeout, Check;
    ScaledShape(IdleLimit(s), 0, sessions, maxSessions);
    if sessions >= maxSessions { ScaledShape(IdleLimit(s), maxSessions, sessions, maxSessions); }
    DeadlineIs(s, 0, maxSessions);
    DeadlineIs(s, sessions, maxSessions);
    CheckByDeadline(s, now, 0, maxSessions);
    CheckByDeadline(s, now, sessions, maxSessions);
  }

  /** How a session ends: its descriptor is closed; ICMP sessions are deleted at once, UDP and TCP sessions linger, and
      a TCP session whose SYN has been answered resets its peer. */
  ghost predicate Ended(s: Session, r: (Session, bool), now: int) {
    match s
    case IcmpSession(pair, time, stop, _) => r == (IcmpSession(pair, time, stop, false), true)
    case UdpSession(flow, _, _, _) => r == (UdpSession(flow, now, Finished, false), false)
    case TcpSession(flow, tcb) =>
      && !r.1 && r.0.TcpSession? && r.0.flow == flow
      && r.0.tcb.state == Close && !r.0.tcb.open && r.0.tcb.time == now
      && var n := |tcb.log.written|;
         if tcb.state == Listen then r.0.tcb.log.written == tcb.log.written
         else |r.0.tcb.log.written| == n + 1 && r.0.tcb.log.written[n].rst
  }

  lemma CheckByDeadline(s: Session, now: int, sessions: nat, maxSessions: nat)
    requires maxSessions > 0 && s.Live()
    ensures var r := Check(s, now, sessions, maxSessions);
            if now <= Deadline(s, sessions, maxSessions) then r == (s, false) else Ended(s, r, now)
  {
    hide Scaled, Timeout, Deadline;
    if s.TcpSession? {
      DeadlineOfTcp(s, sessions, maxSessions);
      CheckTcpByDeadline(s.tcb, now, sessions, maxSessions);
    }
  }

  lemma CheckTcpByDeadline(t: Tcb, now: int, sessions: nat, maxSessions: nat)
    requires maxSessions > 0 && t.state != Closing && t.state != Close
    ensures var (r, delete) := CheckSession(t, now, sessions, maxSessions);
            if now <= t.time + Timeout(t.state, sessions, maxSessions) then r == t && !delete
            else
              && !delete && r.state == Close && !r.open && r.time == now
              && var n := |t.log.written|;
                 if t.state == Listen then r.log.written == t.log.written
                 else |r.log.written| == n + 1 && r.log.written[n].rst
  {
    hide Timeout, Bits.Pow2, Serial.Wrap;
  }

  // ---- Lingering ----

  /** A TCP session in CLOSE is deleted once it has lingered for 300 seconds, a UDP session that is over after 60, a
      stopped ICMP session at once, and not before; nothing else is deleted. */
  lemma Lingers(s: Session, now: int, sessions: nat, maxSessions: nat)
    requires maxSessions > 0 && !s.Live()
    ensures var (r, delete) := Check(s, now, sessions, maxSessions);
            match s
            case IcmpSession(_, _, _, _) => delete && !r.Open()
            case UdpSession(flow, time, state, _) =>
              if state == Finishing then r == UdpSession(flow, now, Finished, false) && !delete
              else r == s && (delete <==> now > time + 60)
            case TcpSession(flow, tcb) =>
              if tcb.state == Closing then !delete && r.tcb.state == Close && !r.tcb.open && r.tcb.time == now
              else r == s && (delete <==> now > tcb.time + 300)
  {
    hide Timeout, Deadline;
  }

  // ---- What ends a session ----

  /** An active UDP session goes on after a socket event unless the socket has an error, or it is readable and that was
      fatal, the end of the stream, or the answer of a DNS server. */
  lemma DatagramEnds(s: Session, e: Ready)
    requires s.Valid() && s.UdpSession? && s.state == Active
    ensures var r := OnReady(s, e);
            var answered := e.received.Some? && s.flow.dest == 53;
            var over := e.err || (e.readable && (e.fatal || e.received == Some(0) || answered));
            && (r.Live() <==> !over) && (over ==> r.state == Finishing) && r.udpOpen == s.udpOpen
            && r.udpTime == if e.err || e.readable then e.now else s.udpTime
  {
  }

  /** The same for ICMP, without the last. */
  lemma EchoEnds(s: Session, e: Ready)
    requires s.Valid() && s.IcmpSession? && !s.stop
    ensures var r := OnReady(s, e);
            && (r.Live() <==> !(e.err || (e.readable && (e.fatal || e.received == Some(0)))))
            && r.icmpTime == if e.err || e.readable then e.now else s.icmpTime
  {
  }

  /** What a UDP packet leaves: if its flow has a session that is ending, or no socket can be opened for a new one,
      nothing changes; otherwise there is one session for the flow, in its old place or at the front, which is live
      unless the send failed, and all others are as they were. */
  lemma DatagramArrives(t: seq<Session>, a: Arrival)
    requires a.UdpArrival?
    ensures var u, i := UdpArrives(t, a), FindUdp(t, a.flow);
            if (i < |t| && !t[i].Live()) || (i == |t| && !a.socketOk) then u == t
            else
              var j := if i < |t| then i else 0;
              && |u| == |t| + (if i < |t| then 0 else 1)
              && FindUdp(u, a.flow) == j && u[j].udpOpen == (if i < |t| then t[i].udpOpen else true)
              && ((a.dhcp || !a.sendFailed) <==> u[j].Live()) && (!a.dhcp ==> u[j].udpTime == a.now)
              && forall k :: 0 <= k < |u| && k != j ==> u[k] == t[if i < |t| then k else k - 1]
  {
  }

  /** The same for an ICMP echo request; a stopped session does not count. Other ICMP messages change nothing. */
  lemma EchoArrives(t: seq<Session>, a: Arrival)
    requires a.IcmpArrival?
    ensures var u, i := IcmpArrives(t, a), FindIcmp(t, a.pair);
            if !a.echo || (i == |t| && !a.socketOk) then u == t
            else
              var j := if i < |t| then i else 0;
              && |u| == |t| + (if i < |t| then 0 else 1)
              && u[j].IcmpSession? && u[j].pair == a.pair && u[j].icmpOpen == (if i < |t| then t[i].icmpOpen else true)
              && (u[j].Live() <==> !a.sendFailed) && u[j].icmpTime == a.now
              && forall k :: 0 <= k < |u| && k != j ==> u[k] == t[if i < |t| then k else k - 1]
  {
  }

  /** A SYN of an unknown flow that is not urgent opens a session at the front if a socket can be opened; anything else
      of an unknown flow leaves the list alone. */
  lemma SynArrives(t: seq<Session>, a: Arrival)
    requires a.TcpArrival? && a.Fits() && FindTcp(t, a.flow) == |t|
    ensures var u, p := TcpArrives(t, a), a.event.packet;
            if !p.urg && p.syn && a.socketOk then
              && |u| == |t| + 1 && u[1..] == t && u[0].TcpSession? && u[0].flow == a.flow && u[0].Live() && u[0].Open()
              && var s := u[0].tcb;
                 && s.state == Listen && s.remoteSeq == p.seqNo && s.localSeq == a.local && s.time == a.event.now
                 && s.cfg == Config(a.flow.dest, a.mss, a.scale, a.scale, p.seqNo, a.local) && s.queue == []
                 && s.sendWindow == Serial.Wrap(p.window * Bits.Pow2(a.scale))
            else u == t
  {
    hide Bits.Pow2, Serial.Wrap, Tcb.ReceiveWindow;
  }

  // ---- Restarting ----

  /** Neither live nor blocked. */
  predicate Over(s: Session) {
    !s.Live() && !(s.UdpSession? && s.state == Blocked)
  }

  /** After a restart every session is over; sessions that were over already are as they were. */
  lemma {:induction false} AllEnd(t: seq<Session>)
    ensures var u := CheckAllowed(t);
            && (forall k :: 0 <= k < |u| ==> Over(u[k]))
            && (forall k :: 0 <= k < |t| && Over(t[k]) ==> t[k] in u)
  {
    hide Over, Disallowed;
    if t != [] {
      AllEnd(t[1..]);
      EndOne(t[0]);
      var u, rest := CheckAllowed(t), CheckAllowed(t[1..]);
      if t[0].UdpSession? && t[0].state == Blocked {
        assert u == rest;
      } else {
        assert u == [Disallowed(t[0])] + rest;
      }
      forall k | 0 <= k < |t| && Over(t[k]) ensures t[k] in u {
        if k > 0 { assert t[k] == t[1..][k - 1]; }
      }
    }
  }

  lemma EndOne(s: Session)
    ensures !(s.UdpSession? && s.state == Blocked) ==> Over(Disallowed(s))
    ensures Over(s) ==> Disallowed(s) == s && !(s.UdpSession? && s.state == Blocked)
  {
    hide Bits.Pow2, Serial.Wrap;
  }
}
