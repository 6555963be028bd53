/** The session list of session.c, udp.c and icmp.c as a sequence of values, newest first: lookup or insert, socket
    events, and the sweep that times sessions out, deletes them and computes how long to poll. */
module Sessions {
  import Serial
  import opened Wire
  import opened Segments
  import opened Tcp
  import opened TcpRuns

  datatype Flow = Flow(version: nat, saddr: Bytes, source: nat, daddr: Bytes, dest: nat)

  datatype Pair = Pair(version: nat, saddr: Bytes, daddr: Bytes)

  datatype UdpState = Active | Finishing | Finished | Blocked

  /** `struct ng_session` with its union; a TCP session's state is the one of module Tcp. */
  datatype Session =
    | IcmpSession(pair: Pair, icmpTime: int, stop: bool, icmpOpen: bool)
    | UdpSession(flow: Flow, udpTime: int, state: UdpState, udpOpen: bool)
    | TcpSession(flow: Flow, tcb: Tcb)
  {
    ghost predicate Valid() {
      && (TcpSession? ==> tcb.Valid() && Lifecycle(tcb))
      && (UdpSession? && state in {Finished, Blocked} ==> !udpOpen)
    }

    /** Counted as a session and subject to a timeout. */
    predicate Live() {
      match this
      case IcmpSession(_, _, stop, _) => !stop
      case UdpSession(_, _, state, _) => state == Active
      case TcpSession(_, tcb) => tcb.state != Closing && tcb.state != Close
    }

    /** The descriptor is open. */
    predicate Open() {
      match this
      case IcmpSession(_, _, _, open) => open
      case UdpSession(_, _, _, open) => open
      case TcpSession(_, tcb) => tcb.open
    }
  }

  // ---- Timeouts ----

  const ICMP_TIMEOUT: int := 15
  const UDP_TIMEOUT_53: int := 15
  const UDP_TIMEOUT_ANY: int := 300
  const UDP_KEEP_TIMEOUT: int := 60
  const EPOLL_TIMEOUT: int := 3600

  /** When a live session is over: `time` plus `get_icmp_timeout`, `get_udp_timeout` or `get_tcp_timeout`. */
  function Deadline(s: Session, sessions: nat, maxSessions: nat): int
    requires maxSessions > 0
  {
    match s
    case IcmpSession(_, time, _, _) => time + Scaled(ICMP_TIMEOUT, sessions, maxSessions)
    case UdpSession(flow, time, _, _) =>
      time + Scaled(if flow.dest == 53 then UDP_TIMEOUT_53 else UDP_TIMEOUT_ANY, sessions, maxSessions)
    case TcpSession(_, tcb) => tcb.time + Timeout(tcb.state, sessions, maxSessions)
  }

  // ---- check_icmp_session, check_udp_session, check_tcp_session ----

  /** The session after its check, and whether to delete it. */
  function Check(s: Session, now: int, sessions: nat, maxSessions: nat): (Session, bool)
    requires maxSessions > 0
  {
    match s
    case IcmpSession(pair, time, stop, open) =>
      if stop || Deadline(s, sessions, maxSessions) < now then (IcmpSession(pair, time, stop, false), true)
      else (s, false)
    case UdpSession(flow, time, state, open) =>
      var ended := if state == Active && Deadline(s, sessions, maxSessions) < now then Finishing else state;
      var r := if ended == Finishing then UdpSession(flow, now, Finished, false)
               else UdpSession(flow, time, ended, open);
      (r, r.state in {Finished, Blocked} && r.udpTime + UDP_KEEP_TIMEOUT < now)
    case TcpSession(flow, tcb) =>
      var (r, delete) := CheckSession(tcb, now, sessions, maxSessions);
      (TcpSession(flow, r), delete)
  }

  /** The list after a sweep. */
  function Kept(t: seq<Session>, now: int, sessions: nat, maxSessions: nat): seq<Session>
    requires maxSessions > 0
  {
    if t == [] then []
    else
      var (r, delete) := Check(t[0], now, sessions, maxSessions);
      (if delete then [] else [r]) + Kept(t[1..], now, sessions, maxSessions)
  }

  /** The poll timeout after seeing one surviving session. */
  function Shorten(timeout: int, s: Session, now: int, sessions: nat, maxSessions: nat): int
    requires maxSessions > 0
  {
    var left := Deadline(s, sessions, maxSessions) - now + 1;
    if s.Live() && 0 < left < timeout then left else timeout
  }

  /** The poll timeout the sweep arrives at, starting from `timeout`. */
  function PollTimeout(timeout: int, t: seq<Session>, now: int, sessions: nat, maxSessions: nat): int
    requires maxSessions > 0
  {
    if t == [] then timeout
    else
      var (r, delete) := Check(t[0], now, sessions, maxSessions);
      PollTimeout(if delete then timeout else Shorten(timeout, r, now, sessions, maxSessions),
                  t[1..], now, sessions, maxSessions)
  }

  function CountLive(t: seq<Session>): nat {
    if t == [] then 0 else (if t[0].Live() then 1 else 0) + CountLive(t[1..])
  }

  // ---- Deadlines ----

  /** A session that survives its check alive is not past its deadline; one that is deleted has given back its
      descriptor. */
  lemma CheckOutcome(s: Session, now: int, sessions: nat, maxSessions: nat)
    requires maxSessions > 0 && s.Valid()
    ensures var (r, delete) := Check(s, now, sessions, maxSessions);
            && r.Valid()
            && (!delete && r.Live() ==> r == s && now <= Deadline(r, sessions, maxSessions))
            && (delete ==> !r.Open())
  {
    hide Deadline, Timeout, Scaled, AllValid;
    if s.TcpSession? {
      TcpCheckOutcome(s.tcb, now, sessions, maxSessions);
      DeadlineOfTcp(s, sessions, maxSessions);
    }
  }

  lemma DeadlineOfTcp(s: Session, sessions: nat, maxSessions: nat)
    requires maxSessions > 0 && s.TcpSession?
    ensures Deadline(s, sessions, maxSessions) == s.tcb.time + Timeout(s.tcb.state, sessions, maxSessions)
  {
  }

  lemma TcpCheckOutcome(t: Tcb, now: int, sessions: nat, maxSessions: nat)
    requires maxSessions > 0 && t.Valid() && Lifecycle(t)
    ensures var (r, delete) := CheckSession(t, now, sessions, maxSessions);
            && r.Valid() && Lifecycle(r)
            && (r.state != Close && r.state != Closing ==>
                r == t && now <= t.time + Timeout(t.state, sessions, maxSessions))
            && (delete ==> !r.open)
  {
    hide Timeout, AllValid, Tcb.WriteRst;
  }

  /** A live session among the survivors is a live session of the old list that is not late. */
  lemma {:induction false} KeptOnTime(t: seq<Session>, now: int, sessions: nat, maxSessions: nat)
    requires maxSessions > 0 && forall i :: 0 <= i < |t| ==> t[i].Valid()
    ensures var k := Kept(t, now, sessions, maxSessions);
            && (forall i :: 0 <= i < |k| ==> k[i].Valid())
            && (forall i :: 0 <= i < |k| && k[i].Live() ==> k[i] in t && now <= Deadline(k[i], sessions, maxSessions))
  {
    hide Check, Deadline, Session.Valid, Session.Live;
    if t != [] {
      CheckOutcome(t[0], now, sessions, maxSessions);
      KeptOnTime(t[1..], now, sessions, maxSessions);
      KeptCases(t, now, sessions, maxSessions);
    }
  }

  /** Every survivor is the checked first session or a survivor of the rest. */
  lemma KeptCases(t: seq<Session>, now: int, sessions: nat, maxSessions: nat)
    requires maxSessions > 0 && t != []
    ensures var (r, delete) := Check(t[0], now, sessions, maxSessions);
            var k, rest := Kept(t, now, sessions, maxSessions), Kept(t[1..], now, sessions, maxSessions);
            && (delete ==> k == rest)
            && (!delete ==> |k| == |rest| + 1 && k[0] == r && forall i :: 0 < i < |k| ==> k[i] == rest[i - 1])
            && forall i :: 0 <= i < |rest| ==> rest[i] == k[if delete then i else i + 1]
  {
    hide Check;
  }

  /** The poll timeout is the least of its start and of what the live survivors have left, plus one second. */
  lemma {:induction false} PollTimeoutIsLeast(timeout: int, t: seq<Session>, now: int, sessions: nat, maxSessions: nat)
    requires maxSessions > 0 && timeout > 0 && forall i :: 0 <= i < |t| ==> t[i].Valid()
    ensures var k, p := Kept(t, now, sessions, maxSessions), PollTimeout(timeout, t, now, sessions, maxSessions);
            && 0 < p <= timeout
            && (forall i :: 0 <= i < |k| && k[i].Live() ==> p <= Deadline(k[i], sessions, maxSessions) - now + 1)
            && (p == timeout
                || exists i :: 0 <= i < |k| && k[i].Live() && p == Deadline(k[i], sessions, maxSessions) - now + 1)
  {
    hide Check, Deadline, Session.Valid, Session.Live;
    if t != [] {
      var (r, delete) := Check(t[0], now, sessions, maxSessions);
      CheckOutcome(t[0], now, sessions, maxSessions);
      var next := if delete then timeout else Shorten(timeout, r, now, sessions, maxSessions);
      PollTimeoutIsLeast(next, t[1..], now, sessions, maxSessions);
      KeptCases(t, now, sessions, maxSessions);
      var k, rest := Kept(t, now, sessions, maxSessions), Kept(t[1..], now, sessions, maxSessions);
      var p := PollTimeout(timeout, t, now, sessions, maxSessions);
      if !delete && p != timeout {
        if p == next {
          assert k[0] == r;
        } else {
          var i :| 0 <= i < |rest| && rest[i].Live() && p == Deadline(rest[i], sessions, maxSessions) - now + 1;
          assert k[i + 1] == rest[i];
        }
      }
    }
  }

  /** Deadline sweep: with one reading of the clock, no live session is past its load-scaled timeout afterwards, and
      the loop polls for at least a second and for at most one second beyond the earliest deadline. */
  lemma SweepMeetsDeadlines(t: seq<Session>, now: int, sessions: nat, maxSessions: nat)
    requires maxSessions > 0 && forall i :: 0 <= i < |t| ==> t[i].Valid()
    ensures var k, p := Kept(t, now, sessions, maxSessions), PollTimeout(EPOLL_TIMEOUT, t, now, sessions, maxSessions);
            && (forall i :: 0 <= i < |k| && k[i].Live() ==>
                now <= Deadline(k[i], sessions, maxSessions) && p <= Deadline(k[i], sessions, maxSessions) - now + 1)
            && 0 < p <= EPOLL_TIMEOUT
            && (p == EPOLL_TIMEOUT
                || exists i :: 0 <= i < |k| && k[i].Live() && p == Deadline(k[i], sessions, maxSessions) - now + 1)
  {
    KeptOnTime(t, now, sessions, maxSessions);
    PollTimeoutIsLeast(EPOLL_TIMEOUT, t, now, sessions, maxSessions);
  }

  // ---- Packets: lookup or insert ----

  /** The searches of `handle_tcp`, `handle_udp` and `handle_icmp`: the first match, or the end of the list. */
  function FindTcp(t: seq<Session>, flow: Flow): (i: nat)
    ensures i <= |t| && (i < |t| ==> t[i].TcpSession? && t[i].flow == flow)
    ensures forall j :: 0 <= j < i ==> !(t[j].TcpSession? && t[j].flow == flow)
  {
    if t == [] || (t[0].TcpSession? && t[0].flow == flow) then 0 else 1 + FindTcp(t[1..], flow)
  }

  function FindUdp(t: seq<Session>, flow: Flow): (i: nat)
    ensures i <= |t| && (i < |t| ==> t[i].UdpSession? && t[i].flow == flow)
    ensures forall j :: 0 <= j < i ==> !(t[j].UdpSession? && t[j].flow == flow)
  {
    if t == [] || (t[0].UdpSession? && t[0].flow == flow) then 0 else 1 + FindUdp(t[1..], flow)
  }

  function FindIcmp(t: seq<Session>, pair: Pair): (i: nat)
    ensures i <= |t| && (i < |t| ==> t[i].IcmpSession? && !t[i].stop && t[i].pair == pair)
    ensures forall j :: 0 <= j < i ==> !(t[j].IcmpSession? && !t[j].stop && t[j].pair == pair)
  {
    if t == [] || (t[0].IcmpSession? && !t[0].stop && t[0].pair == pair) then 0 else 1 + FindIcmp(t[1..], pair)
  }

  /** What the system calls on behalf of a packet return. `socketOk`: a socket could be opened for a new session. */
  datatype Arrival =
    | TcpArrival(flow: Flow, event: PacketEvent, socketOk: bool, mss: nat, scale: nat, local: Serial.u32,
                 free: Serial.u32)
    | UdpArrival(flow: Flow, now: int, socketOk: bool, dhcp: bool, sendFailed: bool)
    | IcmpArrival(pair: Pair, now: int, echo: bool, socketOk: bool, sendFailed: bool)
  {
    ghost predicate Fits() {
      TcpArrival? ==> |event.packet.data| < 0x1_0000 && scale <= 14 && (event.packet.syn ==> event.packet.data == [])
    }
  }

  /** An urgent packet is dropped; a SYN opens a session; anything else without a session is answered with a reset. */
  function TcpArrives(t: seq<Session>, a: Arrival): seq<Session>
    requires a.TcpArrival? && a.Fits()
  {
    var i := FindTcp(t, a.flow);
    var p := a.event.packet;
    if p.urg then t
    else if i < |t| then t[i := TcpSession(a.flow, HandlePacket(t[i].tcb, a.event))]
    else if p.syn && a.socketOk then
      [TcpSession(a.flow, NewSession(a.flow.dest, a.mss, a.scale, p.window, p.seqNo, a.local, a.free, a.event.now))] + t
    else t
  }

  /** Packets of sessions that are ending are ignored. */
  function UdpArrives(t: seq<Session>, a: Arrival): seq<Session>
    requires a.UdpArrival?
  {
    var i := FindUdp(t, a.flow);
    if i < |t| && t[i].state != Active then t
    else if i == |t| && !a.socketOk then t
    else
      var u := if i < |t| then t else [UdpSession(a.flow, a.now, Active, true)] + t;
      var j := if i < |t| then i else 0;
      if a.dhcp then u
      else u[j := u[j].(udpTime := a.now, state := if a.sendFailed then Finishing else Active)]
  }

  function IcmpArrives(t: seq<Session>, a: Arrival): seq<Session>
    requires a.IcmpArrival?
  {
    var i := FindIcmp(t, a.pair);
    if !a.echo || (i == |t| && !a.socketOk) then t
    else
      var u := if i < |t| then t else [IcmpSession(a.pair, a.now, false, true)] + t;
      var j := if i < |t| then i else 0;
      u[j := u[j].(icmpTime := a.now, stop := a.sendFailed)]
  }

  function Arrives(t: seq<Session>, a: Arrival): seq<Session>
    requires a.Fits()
  {
    match a
    case TcpArrival(_, _, _, _, _, _, _) => TcpArrives(t, a)
    case UdpArrival(_, _, _, _, _) => UdpArrives(t, a)
    case IcmpArrival(_, _, _, _, _) => IcmpArrives(t, a)
  }

  // ---- Socket events ----

  /** What epoll reports for a session; `received` is None for a recv error, and `fatal` says the error or the
      failed write to the tun device ends the session. */
  datatype Ready = Ready(err: bool, readable: bool, now: int, received: Option<nat>, fatal: bool, tcp: SocketEvent)

  /** `check_udp_socket`, `check_icmp_socket` and `check_tcp_socket`. DNS sessions end with their first answer. */
  function OnReady(s: Session, e: Ready): Session
    requires s.Valid()
  {
    match s
    case IcmpSession(_, _, _, _) =>
      if e.err then s.(icmpTime := e.now, stop := true)
      else if !e.readable then s
      else s.(icmpTime := e.now, stop := s.stop || e.fatal || e.received == Some(0))
    case UdpSession(flow, _, state, _) =>
      if e.err then s.(udpTime := e.now, state := Finishing)
      else if !e.readable then s
      else
        var answered := e.received.Some? && flow.dest == 53;
        s.(udpTime := e.now, state := if e.fatal || e.received == Some(0) || answered then Finishing else state)
    case TcpSession(_, tcb) => s.(tcb := CheckSocket(tcb, e.tcp))
  }

  // ---- Monitoring ----

  /** The counting loop also adjusts what open TCP sessions wait for; watch(k) is the outcome for the k-th entry. */
  function MonitorOne(s: Session, e: MonitorEvent): Session
    requires s.Valid()
  {
    if s.TcpSession? && s.Open() then s.(tcb := Monitor(s.tcb, e)) else s
  }

  function Monitored(t: seq<Session>, watch: nat -> MonitorEvent, k: nat): (r: seq<Session>)
    requires AllSessionsValid(t)
    ensures |r| == |t|
  {
    if t == [] then [] else [MonitorOne(t[0], watch(k))] + Monitored(t[1..], watch, k + 1)
  }

  // ---- check_allowed ----

  /** Ends every session: the event thread has been restarted. Blocked UDP sessions are removed at once. */
  function Disallowed(s: Session): Session {
    match s
    case IcmpSession(_, _, _, _) => s.(stop := true)
    case UdpSession(_, _, state, _) => if state == Active then s.(state := Finishing) else s
    case TcpSession(_, tcb) => if s.Live() then s.(tcb := tcb.WriteRst()) else s
  }

  function CheckAllowed(t: seq<Session>): seq<Session> {
    if t == [] then []
    else if t[0].UdpSession? && t[0].state == Blocked then CheckAllowed(t[1..])
    else [Disallowed(t[0])] + CheckAllowed(t[1..])
  }

  // ---- The table over runs ----

  /** Two sessions for the same traffic; a stopped ICMP session no longer counts. */
  predicate Clash(s: Session, r: Session) {
    match (s, r)
    case (IcmpSession(p, _, ps, _), IcmpSession(q, _, qs, _)) => p == q && !ps && !qs
    case (UdpSession(f, _, _, _), UdpSession(g, _, _, _)) => f == g
    case (TcpSession(f, _), TcpSession(g, _)) => f == g
    case _ => false
  }

  ghost predicate Unique(t: seq<Session>) {
    forall i, j :: 0 <= i < j < |t| ==> !Clash(t[i], t[j])
  }

  ghost predicate AllSessionsValid(t: seq<Session>) {
    forall i :: 0 <= i < |t| ==> t[i].Valid()
  }

  /** A later form of the same session: it clashes with no more than before. */
  predicate Succeeds(s: Session, r: Session) {
    match (s, r)
    case (IcmpSession(p, _, ps, _), IcmpSession(q, _, qs, _)) => p == q && (ps ==> qs)
    case (UdpSession(f, _, _, _), UdpSession(g, _, _, _)) => f == g
    case (TcpSession(f, _), TcpSession(g, _)) => f == g
    case _ => false
  }

  lemma UpdateUnique(t: seq<Session>, i: nat, s: Session)
    requires Unique(t) && i < |t| && Succeeds(t[i], s)
    ensures Unique(t[i := s])
  {
    var u := t[i := s];
    forall j, k | 0 <= j < k < |u| ensures !Clash(u[j], u[k]) {
      assert !Clash(t[j], t[k]);
    }
  }

  lemma InsertUnique(t: seq<Session>, s: Session)
    requires Unique(t) && forall j :: 0 <= j < |t| ==> !Clash(s, t[j])
    ensures Unique([s] + t)
  {
  }

  lemma UpdateValid(t: seq<Session>, i: nat, s: Session)
    requires AllSessionsValid(t) && i < |t| && s.Valid()
    ensures AllSessionsValid(t[i := s])
  {
  }

  lemma TcpArrivesUnique(t: seq<Session>, a: Arrival)
    requires a.TcpArrival? && a.Fits() && Unique(t) && AllSessionsValid(t)
    ensures Unique(TcpArrives(t, a)) && AllSessionsValid(TcpArrives(t, a))
  {
    hide HandlePacket, NewSession, Lifecycle, Tcb.Valid, Unique, AllSessionsValid;
    var i := FindTcp(t, a.flow);
    if i < |t| {
      SessionAt(t, i);
      StepValid(t[i].tcb, Peer(a.event));
      StepLifecycle(t[i].tcb, Peer(a.event));
      var r := TcpSession(a.flow, HandlePacket(t[i].tcb, a.event));
      UpdateUnique(t, i, r);
      UpdateValid(t, i, r);
    } else {
      var p := a.event.packet;
      var s := NewSession(a.flow.dest, a.mss, a.scale, p.window, p.seqNo, a.local, a.free, a.event.now);
      NewSessionStarts(a.flow.dest, a.mss, a.scale, p.window, p.seqNo, a.local, a.free, a.event.now);
      InsertUnique(t, TcpSession(a.flow, s));
      InsertValid(t, TcpSession(a.flow, s));
    }
  }

  lemma SessionAt(t: seq<Session>, i: nat)
    requires AllSessionsValid(t) && i < |t|
    ensures t[i].Valid()
  {
  }

  lemma InsertValid(t: seq<Session>, s: Session)
    requires AllSessionsValid(t) && s.Valid()
    ensures AllSessionsValid([s] + t)
  {
  }

  lemma UdpArrivesUnique(t: seq<Session>, a: Arrival)
    requires a.UdpArrival? && Unique(t) && AllSessionsValid(t)
    ensures Unique(UdpArrives(t, a)) && AllSessionsValid(UdpArrives(t, a))
  {
    hide Lifecycle, Tcb.Valid, Unique, AllSessionsValid;
    var i := FindUdp(t, a.flow);
    var u, j := t, i;
    if i == |t| {
      var s := UdpSession(a.flow, a.now, Active, true);
      InsertUnique(t, s);
      InsertValid(t, s);
      u, j := [s] + t, 0;
    }
    var r := u[j].(udpTime := a.now, state := if a.sendFailed then Finishing else Active);
    UpdateUnique(u, j, r);
    UpdateValid(u, j, r);
  }

  lemma IcmpArrivesUnique(t: seq<Session>, a: Arrival)
    requires a.IcmpArrival? && Unique(t) && AllSessionsValid(t)
    ensures Unique(IcmpArrives(t, a)) && AllSessionsValid(IcmpArrives(t, a))
  {
    hide Lifecycle, Tcb.Valid, Unique, AllSessionsValid;
    var i := FindIcmp(t, a.pair);
    var u, j := t, i;
    if i == |t| {
      var s := IcmpSession(a.pair, a.now, false, true);
      InsertUnique(t, s);
      InsertValid(t, s);
      u, j := [s] + t, 0;
    }
    var r := u[j].(icmpTime := a.now, stop := a.sendFailed);
    UpdateUnique(u, j, r);
    UpdateValid(u, j, r);
  }

  lemma OnReadySucceeds(s: Session, e: Ready)
    requires s.Valid() && s.Open()
    ensures Succeeds(s, OnReady(s, e)) && OnReady(s, e).Valid()
  {
    hide CheckSocket, Lifecycle, Tcb.Valid;
    if s.TcpSession? {
      StepValid(s.tcb, Socket(e.tcp));
      StepLifecycle(s.tcb, Socket(e.tcp));
    }
  }

  /** A list whose entries succeed entries of an old list, in their order. */
  ghost predicate Thinned(t: seq<Session>, k: seq<Session>, from: seq<nat>) {
    && |from| == |k| && (forall i, j :: 0 <= i < j < |from| ==> from[i] < from[j])
    && (forall i :: 0 <= i < |from| ==> from[i] < |t| && Succeeds(t[from[i]], k[i]))
  }

  lemma ThinnedUnique(t: seq<Session>, k: seq<Session>, from: seq<nat>)
    requires Thinned(t, k, from) && Unique(t)
    ensures Unique(k)
  {
    forall i, j | 0 <= i < j < |k| ensures !Clash(k[i], k[j]) {
      assert !Clash(t[from[i]], t[from[j]]);
    }
  }

  lemma ThinnedCons(s: Session, t: seq<Session>, k: seq<Session>, from: seq<nat>, kept: seq<Session>)
    returns (all: seq<nat>)
    requires Thinned(t, k, from) && |kept| <= 1 && (kept != [] ==> Succeeds(s, kept[0]))
    ensures Thinned([s] + t, kept + k, all) && |all| == |kept| + |from|
    ensures kept != [] ==> all[0] == 0
    ensures forall i :: 0 <= i < |from| ==> all[|kept| + i] == from[i] + 1
  {
    hide Succeeds;
    var moved := seq(|from|, i requires 0 <= i < |from| => from[i] + 1);
    all := (if kept == [] then [] else [0]) + moved;
    var m, u, l := |kept|, [s] + t, kept + k;
    forall i | 0 <= i < |all| ensures all[i] < |u| && Succeeds(u[all[i]], l[i]) {
      if i >= m {
        assert all[i] == from[i - m] + 1 && u[all[i]] == t[from[i - m]] && l[i] == k[i - m];
      }
    }
  }

  lemma CheckSucceeds(s: Session, now: int, sessions: nat, maxSessions: nat)
    requires maxSessions > 0
    ensures Succeeds(s, Check(s, now, sessions, maxSessions).0)
  {
    hide CheckSession, Deadline;
  }

  /** The sweep keeps exactly the sessions it does not delete, each in its checked form, in their order. */
  lemma {:induction false} KeptThins(t: seq<Session>, now: int, sessions: nat, maxSessions: nat)
    returns (from: seq<nat>)
    requires maxSessions > 0
    ensures Thinned(t, Kept(t, now, sessions, maxSessions), from)
    ensures CheckedForms(t, Kept(t, now, sessions, maxSessions), from, now, sessions, maxSessions)
    ensures forall i :: 0 <= i < |t| ==> (!Check(t[i], now, sessions, maxSessions).1 <==> i in from)
  {
    hide Check, Succeeds, Thinned, CheckedForms;
    from := [];
    if t == [] {
      NothingThinned(now, sessions, maxSessions);
    } else {
      var rest := KeptThins(t[1..], now, sessions, maxSessions);
      var (r, delete) := Check(t[0], now, sessions, maxSessions);
      CheckSucceeds(t[0], now, sessions, maxSessions);
      var k := Kept(t[1..], now, sessions, maxSessions);
      var kept := if delete then [] else [r];
      from := ThinnedCons(t[0], t[1..], k, rest, kept);
      assert [t[0]] + t[1..] == t;
      KeptIndices(t, from, rest, |kept|);
      FormsCons(t, k, rest, from, kept, now, sessions, maxSessions);
    }
  }

  ghost predicate CheckedForms(t: seq<Session>, k: seq<Session>, from: seq<nat>,
                               now: int, sessions: nat, maxSessions: nat)
    requires maxSessions > 0
  {
    && |from| == |k|
    && forall i :: 0 <= i < |k| ==> from[i] < |t| && k[i] == Check(t[from[i]], now, sessions, maxSessions).0
  }

  lemma NothingThinned(now: int, sessions: nat, maxSessions: nat)
    requires maxSessions > 0
    ensures Thinned([], [], []) && CheckedForms([], [], [], now, sessions, maxSessions)
  {
  }

  lemma FormsCons(t: seq<Session>, k: seq<Session>, rest: seq<nat>, from: seq<nat>, kept: seq<Session>,
                  now: int, sessions: nat, maxSessions: nat)
    requires maxSessions > 0 && t != [] && CheckedForms(t[1..], k, rest, now, sessions, maxSessions)
    requires |kept| <= 1 && |from| == |kept| + |rest| && (kept != [] ==> from[0] == 0)
    requires kept != [] ==> kept[0] == Check(t[0], now, sessions, maxSessions).0
    requires forall i :: 0 <= i < |rest| ==> from[|kept| + i] == rest[i] + 1
    ensures CheckedForms(t, kept + k, from, now, sessions, maxSessions)
  {
    hide Check;
    forall i | 0 <= i < |kept + k|
      ensures from[i] < |t| && (kept + k)[i] == Check(t[from[i]], now, sessions, maxSessions).0
    {
      if i >= |kept| {
        var j := i - |kept|;
        assert from[|kept| + j] == rest[j] + 1;
      }
    }
  }

  /** Index i + 1 of the list is kept if and only if index i of its tail is. */
  lemma KeptIndices(t: seq<Session>, from: seq<nat>, rest: seq<nat>, n: nat)
    requires t != [] && n <= 1 && |from| == n + |rest| && (n == 1 ==> from[0] == 0)
    requires forall i :: 0 <= i < |rest| ==> from[n + i] == rest[i] + 1
    ensures 0 in from <==> n == 1
    ensures forall i :: 0 < i < |t| ==> (i in from <==> i - 1 in rest)
  {
    forall i: nat ensures i in from <==> (i == 0 && n == 1) || i - 1 in rest {
      if j :| 0 <= j < |from| && from[j] == i {
        if j >= n {
          assert from[n + (j - n)] == rest[j - n] + 1;
        }
      }
      if j :| 0 <= j < |rest| && rest[j] == i - 1 {
        assert from[n + j] == i;
      }
    }
  }

  lemma {:induction false} AllowedThins(t: seq<Session>) returns (from: seq<nat>)
    requires AllSessionsValid(t)
    ensures Thinned(t, CheckAllowed(t), from) && AllSessionsValid(CheckAllowed(t))
  {
    hide Tcb.WriteRst, AllValid;
    from := [];
    if t != [] {
      var rest := AllowedThins(t[1..]);
      var gone := t[0].UdpSession? && t[0].state == Blocked;
      DisallowedValid(t[0]);
      from := ThinnedCons(t[0], t[1..], CheckAllowed(t[1..]), rest, if gone then [] else [Disallowed(t[0])]);
      assert [t[0]] + t[1..] == t;
      assert CheckAllowed(t) == (if gone then [] else [Disallowed(t[0])]) + CheckAllowed(t[1..]);
    }
  }

  lemma DisallowedValid(s: Session)
    requires s.Valid()
    ensures Disallowed(s).Valid() && Succeeds(s, Disallowed(s))
  {
    hide AllValid;
  }

  lemma MonitorOneSucceeds(s: Session, e: MonitorEvent)
    requires s.Valid()
    ensures Succeeds(s, MonitorOne(s, e)) && MonitorOne(s, e).Valid()
  {
    hide Monitor, Lifecycle, Tcb.Valid;
    if s.TcpSession? && s.Open() {
      StepValid(s.tcb, Watch(e));
      StepLifecycle(s.tcb, Watch(e));
    }
  }

  lemma {:induction false} MonitoredThins(t: seq<Session>, watch: nat -> MonitorEvent, k: nat) returns (from: seq<nat>)
    requires AllSessionsValid(t)
    ensures Thinned(t, Monitored(t, watch, k), from) && AllSessionsValid(Monitored(t, watch, k))
  {
    hide MonitorOne, Session.Valid;
    from := [];
    if t != [] {
      var rest := MonitoredThins(t[1..], watch, k + 1);
      MonitorOneSucceeds(t[0], watch(k));
      from := ThinnedCons(t[0], t[1..], Monitored(t[1..], watch, k + 1), rest, [MonitorOne(t[0], watch(k))]);
      assert [t[0]] + t[1..] == t;
    }
  }

  datatype Event =
    | Packet(arrival: Arrival)
    | Watched(watch: nat -> MonitorEvent)
    | SocketReady(index: nat, ready: Ready)
    | SweepAll(now: int, sessions: nat, maxSessions: nat)
    | Restart
    | Clear

  ghost predicate Fits(t: seq<Session>, e: Event) {
    match e
    case Packet(a) => a.Fits()
    case Watched(_) => true
    case SocketReady(i, _) => i < |t| && t[i].Open()
    case SweepAll(_, _, maxSessions) => maxSessions > 0
    case Restart => true
    case Clear => true
  }

  function Next(t: seq<Session>, e: Event): seq<Session>
    requires Fits(t, e) && AllSessionsValid(t)
  {
    match e
    case Packet(a) => Arrives(t, a)
    case Watched(watch) => Monitored(t, watch, 0)
    case SocketReady(i, r) => t[i := OnReady(t[i], r)]
    case SweepAll(now, sessions, maxSessions) => Kept(t, now, sessions, maxSessions)
    case Restart => CheckAllowed(t)
    case Clear => []
  }

  lemma NextUnique(t: seq<Session>, e: Event)
    requires AllSessionsValid(t) && Unique(t) && Fits(t, e)
    ensures AllSessionsValid(Next(t, e)) && Unique(Next(t, e))
  {
    hide TcpArrives, UdpArrives, IcmpArrives, OnReady, Check, Unique, Session.Valid, Succeeds, Thinned;
    match e
    case Packet(a) =>
      if a.TcpArrival? { TcpArrivesUnique(t, a); }
      if a.UdpArrival? { UdpArrivesUnique(t, a); }
      if a.IcmpArrival? { IcmpArrivesUnique(t, a); }
    case Watched(watch) =>
      var from := MonitoredThins(t, watch, 0);
      ThinnedUnique(t, Monitored(t, watch, 0), from);
    case SocketReady(i, r) =>
      OnReadySucceeds(t[i], r);
      UpdateUnique(t, i, OnReady(t[i], r));
    case SweepAll(now, sessions, maxSessions) =>
      KeptOnTime(t, now, sessions, maxSessions);
      var from := KeptThins(t, now, sessions, maxSessions);
      ThinnedUnique(t, Kept(t, now, sessions, maxSessions), from);
    case Restart =>
      var from := AllowedThins(t);
      ThinnedUnique(t, CheckAllowed(t), from);
    case Clear =>
      NothingUnique();
  }

  lemma NothingUnique()
    ensures Unique([])
  {
  }

  ghost predicate Reachable(t: seq<Session>, es: seq<Event>)
    decreases |es|
  {
    if es == [] then t == []
    else
      var last := es[|es| - 1];
      exists u :: Leads(u, last, t) && Reachable(u, es[..|es| - 1])
  }

  ghost predicate Leads(u: seq<Session>, e: Event, t: seq<Session>) {
    AllSessionsValid(u) && Fits(u, e) && t == Next(u, e)
  }

  /** In every reachable state there is at most one TCP and one UDP session per flow and at most one ICMP session per
      address pair that is not stopped. */
  lemma {:induction false} ReachableUnique(t: seq<Session>, es: seq<Event>)
    requires Reachable(t, es)
    ensures Unique(t) && AllSessionsValid(t)
    decreases |es|
  {
    hide Next, Unique, AllSessionsValid;
    if es == [] {
      NothingUnique();
      NothingValid();
    } else {
      var last := es[|es| - 1];
      var u :| Leads(u, last, t) && Reachable(u, es[..|es| - 1]);
      ReachableUnique(u, es[..|es| - 1]);
      NextUnique(u, last);
    }
  }

  lemma NothingValid()
    ensures AllSessionsValid([])
  {
  }
}
