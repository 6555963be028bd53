/** The TCP session engine of tcp.c as step functions on a session's state.

    Everything the kernel decides (event masks, results of send, recv, epoll_ctl and of writes to the tun device, the
    free socket buffer, the clock) is an input of a step. `send` on a closed descriptor fails. The log is the history
    of the run: what was handed to and read from the proxy socket, how often the descriptor was closed, the proxy's
    answers to CONNECT, and the packets written to the tun device. */
module Tcp {
  import opened Bits
  import opened Serial
  import opened Wire
  import opened Segments

  datatype State = Listen | SynRecv | Established | CloseWait | FinWait1 | LastAck | Closing | Close

  /** Progress of the CONNECT request: `connect_sent`. */
  datatype Connect = NotSent | Sent | Connected

  const HTTP_PORT: nat := 80
  const HTTPS_PORT: nat := 443

  /** A packet for the peer, and as history what the peer had acknowledged, its window and the unscaled window offered
      to it when the packet was written, and whether the write succeeded. */
  datatype Packet = Packet(seqNo: u32, ackNo: u32, window: nat, syn: bool, ack: bool, fin: bool, rst: bool, data: Bytes,
                           acked: u32, sendWindow: u32, recvWindow: u32, sent: bool)

  /** Fixed when the session is created. */
  datatype Config = Config(port: nat, mss: nat, recvScale: nat, sendScale: nat, remoteStart: u32, localStart: u32) {
    predicate Valid() { recvScale <= 14 && sendScale <= 14 }
  }

  /** The history of the run. */
  datatype Log = Log(delivered: Bytes, received: Bytes, closes: nat, answers: seq<string>, written: seq<Packet>)

  datatype Tcb = Tcb(
    cfg: Config,
    recvWindow: u32, sendWindow: u32, remoteSeq: u32, localSeq: u32, acked: u32,
    state: State, connect: Connect, open: bool, queue: seq<Segment>,
    time: int, lastKeepAlive: int, wantsIn: bool, wantsOut: bool, log: Log)
  {
    ghost predicate Valid() {
      AllValid(queue) && cfg.Valid()
    }

    // ---- Writing to the tun device ----

    /** `write_tcp`: 16 bits of scaled window; without the ACK flag the acknowledgment number is zero. */
    function Write(data: Bytes, syn: bool, ack: bool, fin: bool, rst: bool, ok: bool): Tcb {
      var p := Packet(localSeq, if ack then remoteSeq else 0, recvWindow / Pow2(cfg.recvScale) % 0x1_0000,
                      syn, ack, fin, rst, data, acked, sendWindow, recvWindow, ok);
      this.(log := log.(written := log.written + [p]))
    }

    /** `write_syn_ack`, `write_ack`, `write_data`, `write_fin_ack`: a failed write condemns the session. */
    function WriteOr(data: Bytes, syn: bool, fin: bool, ok: bool): (r: Tcb)
      ensures r == this.(state := if ok then state else Closing, log := log.(written := r.log.written))
      ensures log.written <= r.log.written && |r.log.written| == |log.written| + 1
    {
      var t := Write(data, syn, true, fin, false, ok);
      if ok then t else t.(state := Closing)
    }

    /** `write_rst`: whether the write succeeds makes no difference. */
    function WriteRst(): (r: Tcb)
      ensures r == this.(state := if state == Close then Close else Closing, log := log.(written := r.log.written),
                         remoteSeq := if state == Listen then Wrap(remoteSeq + 1) else remoteSeq)
      ensures log.written <= r.log.written && |r.log.written| == |log.written| + 1
    {
      var t := if state == Listen then this.(remoteSeq := Wrap(remoteSeq + 1)) else this;
      var w := t.Write([], false, state == Listen, false, true, true);
      if state == Close then w else w.(state := Closing)
    }

    /** close(): the descriptor is given back once. */
    function CloseSocket(): Tcb {
      this.(open := false, log := log.(closes := log.closes + 1))
    }

    // ---- Windows ----

    /** `get_send_window` */
    function SendWindow(): u32 {
      var behind := if Compare(acked, localSeq) <= 0 then Dist(acked, localSeq) else acked;
      if behind < sendWindow then sendWindow - behind else 0
    }

    /** `get_receive_window`; `free` is the free socket buffer, `toforward` a 32-bit sum. */
    function ReceiveWindow(free: u32): u32
      requires Valid()
    {
      var toForward := Wrap(Unsent(queue));
      var buffer := if open then free else 0;
      var max := Wrap(0xFFFF * Pow2(cfg.recvScale));
      var capped := if buffer > max then max else buffer;
      var window := if toForward < capped then capped - toForward else 0;
      if window / Pow2(cfg.recvScale) == 0 then 0 else window
    }
  }

  // ---- New sessions ----

  /** `handle_tcp` on a SYN without data for an unknown address: the session that is registered. The same scale is
      used in both directions. */
  function NewSession(port: nat, mss: nat, scale: nat, window: u16, isn: u32, local: u32, free: u32, now: int): Tcb
    requires scale <= 14
  {
    var t := Tcb(Config(port, mss, scale, scale, isn, local), 0, Wrap(window * Pow2(scale)), isn, local, 0,
                 Listen, if port == HTTP_PORT then Connected else NotSent, true, [],
                 now, 0, false, true, Log([], [], 0, [], []));
    t.(recvWindow := t.ReceiveWindow(free))
  }

  // ---- check_tcp_socket ----

  datatype RecvResult = RecvError(retry: bool) | Received(data: Bytes)

  /** What epoll reports and what the system calls of the step will return. */
  datatype SocketEvent = SocketEvent(err: bool, readable: bool, writable: bool,
                                     now: int, free: u32, freeAfter: u32, sends: nat -> SendResult,
                                     ackOk: bool, answer: Option<string>, recv: RecvResult, dataOk: bool)

  const OK10 := "HTTP/1.0 200"
  const OK11 := "HTTP/1.1 200"

  /** The connection to the proxy is being set up. An answer of None is a recv error. */
  function CheckConnecting(t: Tcb, e: SocketEvent): Tcb {
    if e.readable then
      match e.answer
      case None => t.WriteRst()
      case Some(a) =>
        if t.connect != Sent then t
        else
          var r := t.(log := t.log.(answers := t.log.answers + [a]));
          if a == OK10 || a == OK11 then r.(connect := Connected, state := SynRecv) else r.WriteRst()
    else
      var r := t.(remoteSeq := Wrap(t.remoteSeq + 1)).WriteOr([], true, false, e.ackOk);
      if e.ackOk then r.(time := e.now, localSeq := Wrap(t.localSeq + 1), state := SynRecv) else r
  }

  function StartPass(t: Tcb, free: u32): Pass {
    Pass(t.queue, t.remoteSeq, free, t.log.delivered, false, false, 0)
  }

  /** Forward queued data while the socket takes it. */
  function CheckForward(t: Tcb, e: SocketEvent): (Tcb, bool)
    requires t.Valid()
  {
    if !e.writable then (t, false)
    else
      var p := Forward(StartPass(t, e.free), e.sends);
      var r := t.(queue := p.queue, remoteSeq := p.remoteSeq, log := t.log.(delivered := p.out));
      (if p.failed then r.WriteRst() else r, p.fwd)
  }

  /** Recompute the receive window; acknowledge forwarded data, and the FIN once the queue has drained. */
  function CheckAck(t: Tcb, fwd: bool, e: SocketEvent): Tcb
    requires t.Valid()
  {
    var window := t.ReceiveWindow(e.freeAfter);
    var r := t.(recvWindow := window);
    if fwd || (t.recvWindow == 0 && window > 0) then
      var f := if fwd && t.queue == [] && t.state == CloseWait then r.(remoteSeq := Wrap(t.remoteSeq + 1)) else r;
      var a := f.WriteOr([], false, false, e.ackOk);
      if e.ackOk then a.(time := e.now) else a
    else r
  }

  /** Read from the proxy as much as the peer's window and segment size allow. */
  function CheckRead(t: Tcb, e: SocketEvent): Tcb {
    var window := t.SendWindow();
    if (t.state != Established && t.state != CloseWait) || !e.readable || window == 0 then t
    else
      var r := t.(time := e.now);
      var size := if window > t.cfg.mss then t.cfg.mss else window;
      match e.recv
      case RecvError(retry) => if retry then r else r.WriteRst()
      case Received(data) =>
        var bytes := if |data| > size then data[..size] else data;
        if bytes == [] then ReadEof(r, e.dataOk) else ReadData(r, bytes, e.dataOk)
  }

  function ReadData(t: Tcb, bytes: Bytes, ok: bool): Tcb {
    var w := t.(log := t.log.(received := t.log.received + bytes)).WriteOr(bytes, false, false, ok);
    if ok then w.(localSeq := Wrap(t.localSeq + |bytes|)) else w
  }

  function ReadEof(t: Tcb, ok: bool): Tcb {
    (if t.queue == [] then SendFin(t, ok) else t.WriteRst()).CloseSocket()
  }

  function SendFin(t: Tcb, ok: bool): Tcb {
    var w := t.WriteOr([], false, true, ok);
    var f := if ok then w.(localSeq := Wrap(t.localSeq + 1)) else w;
    if f.state == Established then f.(state := FinWait1)
    else if f.state == CloseWait then f.(state := LastAck)
    else f
  }

  /** `check_tcp_socket` */
  function CheckSocket(t: Tcb, e: SocketEvent): Tcb
    requires t.Valid()
  {
    if e.err then t.(time := e.now).WriteRst()
    else if t.state == Listen then CheckConnecting(t, e)
    else
      var (f, fwd) := CheckForward(t, e);
      CheckRead(CheckAck(f, fwd, e), e)
  }

  // ---- handle_tcp ----

  datatype PeerPacket = PeerPacket(seqNo: u32, ackNo: u32, window: u16, syn: bool, ack: bool, fin: bool, rst: bool,
                                   urg: bool, psh: bool, data: Bytes)

  /** `hostKnown`: a host name (or the address as text) is available for CONNECT. */
  datatype PacketEvent = PacketEvent(packet: PeerPacket, now: int, hostKnown: bool, connectOk: bool, ackOk: bool)

  function QueuePacket(t: Tcb, p: PeerPacket): Tcb {
    t.(queue := Enqueue(t.queue, t.remoteSeq, p.seqNo, p.data, p.psh))
  }

  /** The CONNECT request of a port-443 session goes out with the first packet after the SYN. */
  function SendConnect(t: Tcb, e: PacketEvent): Tcb {
    if t.cfg.port != HTTPS_PORT || t.connect != NotSent || !e.hostKnown then t
    else if e.connectOk && t.open then t.(connect := Sent, state := Listen)
    else t.WriteRst()
  }

  /** The peer's FIN. */
  function HandleFin(t: Tcb, ok: bool): Tcb {
    if t.state == Established && t.queue != [] then t.(state := CloseWait)
    else if t.state == Established || t.state == FinWait1 then
      var a := t.(remoteSeq := Wrap(t.remoteSeq + 1)).WriteOr([], false, false, ok);
      if ok then a.(state := if t.state == Established then CloseWait else Close) else a
    else t
  }

  /** A packet that acknowledges everything, or nothing. */
  function HandleExact(t: Tcb, e: PacketEvent): Tcb {
    var p := e.packet;
    if p.syn then t
    else if p.fin then HandleFin(t, e.ackOk)
    else if p.ack then
      t.(acked := p.ackNo,
         state := if t.state == SynRecv then Established else if t.state == LastAck then Closing else t.state)
    else t
  }

  /** An acknowledgment of something else than everything sent. */
  function HandleOther(t: Tcb, ackNo: u32): Tcb {
    if Wrap(ackNo + 1) == t.localSeq then t
    else if Compare(ackNo, t.localSeq) < 0 then
      if Compare(ackNo, t.acked) <= 0 then t else t.(acked := ackNo)
    else t.WriteRst()
  }

  function HandleAck(t: Tcb, e: PacketEvent): Tcb {
    if e.packet.rst then t.(state := Closing)
    else if !e.packet.ack || e.packet.ackNo == t.localSeq then HandleExact(t, e)
    else HandleOther(t, e.packet.ackNo)
  }

  /** A packet for a session that relays data. */
  function HandleAlive(t: Tcb, e: PacketEvent): Tcb {
    var r := t.(time := e.now, sendWindow := Wrap(e.packet.window * Pow2(t.cfg.sendScale)));
    if e.packet.data == [] then HandleAck(r, e)
    else if !r.open || r.state == CloseWait then r.WriteRst()
    else HandleAck(QueuePacket(r, e.packet), e)
  }

  /** `handle_tcp` for a packet of an existing session. */
  function HandlePacket(t: Tcb, e: PacketEvent): Tcb {
    if e.packet.urg then t
    else
      var c := SendConnect(t, e);
      if t.cfg.port == HTTPS_PORT && c.connect != Connected then QueuePacket(c, e.packet)
      else if c.state == Closing || c.state == Close then c.WriteRst()
      else HandleAlive(c, e)
  }

  // ---- monitor_tcp_session ----

  const MIN_CHECK: int := 100

  datatype MonitorEvent = MonitorEvent(ms: int, free: u32, ackOk: bool, epollOk: bool)

  /** A keep alive acknowledges one byte less than it could; the number itself is restored. */
  function KeepAlive(t: Tcb, e: MonitorEvent): Tcb {
    if (t.state == Established || t.state == CloseWait) && t.SendWindow() == 0
       && e.ms - t.lastKeepAlive > MIN_CHECK then
      var w := t.(lastKeepAlive := e.ms, remoteSeq := Wrap(t.remoteSeq - 1)).WriteOr([], false, false, e.ackOk);
      w.(remoteSeq := t.remoteSeq)
    else t
  }

  function WantsIn(t: Tcb): bool {
    match t.state
    case Listen => t.connect == Sent && t.cfg.port == HTTPS_PORT
    case Established => t.SendWindow() > 0
    case CloseWait => t.SendWindow() > 0
    case _ => false
  }

  function WantsOut(t: Tcb, free: u32): bool
    requires t.Valid()
  {
    match t.state
    case Listen => !(t.connect == Sent && t.cfg.port == HTTPS_PORT)
    case Established => StartPass(t, free).Ready()
    case CloseWait => StartPass(t, free).Ready()
    case _ => false
  }

  /** `monitor_tcp_session`: which events to wait for, decided on the state before the keep alive. */
  function Monitor(t: Tcb, e: MonitorEvent): Tcb
    requires t.Valid()
  {
    var k := KeepAlive(t, e);
    var i, o := WantsIn(t), WantsOut(t, e.free);
    if i == t.wantsIn && o == t.wantsOut then k
    else
      var m := k.(wantsIn := i, wantsOut := o);
      if e.epollOk then m else m.(state := Closing)
  }

  // ---- check_tcp_session ----

  const TCP_INIT_TIMEOUT: int := 30
  const TCP_IDLE_TIMEOUT: int := 3600
  const TCP_CLOSE_TIMEOUT: int := 30
  const TCP_KEEP_TIMEOUT: int := 300

  /** C division: towards zero. */
  function Quotient(a: int, b: int): int
    requires b > 0
  {
    if a >= 0 then a / b else -((-a) / b)
  }

  /** The load-scaled timeout of `get_tcp_timeout`, `get_udp_timeout` and `get_icmp_timeout`. */
  function Scaled(timeout: int, sessions: nat, maxSessions: nat): int
    requires maxSessions > 0
  {
    Quotient(timeout * (100 - sessions * 100 / maxSessions), 100)
  }

  function Timeout(state: State, sessions: nat, maxSessions: nat): int
    requires maxSessions > 0
  {
    Scaled(match state
           case Listen => TCP_INIT_TIMEOUT
           case SynRecv => TCP_INIT_TIMEOUT
           case Established => TCP_IDLE_TIMEOUT
           case _ => TCP_CLOSE_TIMEOUT, sessions, maxSessions)
  }

  /** `check_tcp_session`; the second component says whether the session is to be deleted. */
  function CheckSession(t: Tcb, now: int, sessions: nat, maxSessions: nat): (Tcb, bool)
    requires maxSessions > 0
  {
    var late := t.state != Closing && t.state != Close && t.time + Timeout(t.state, sessions, maxSessions) < now;
    var r := if !late then t else if t.state == Listen then t.(state := Closing) else t.WriteRst();
    var c := if r.state == Closing
             then (if r.open then r.CloseSocket() else r).(time := now, state := Close)
             else r;
    (c, c.state == Close && c.time + TCP_KEEP_TIMEOUT < now)
  }

  // ---- Runs ----

  datatype Event =
    | Socket(socket: SocketEvent)
    | Peer(peer: PacketEvent)
    | Watch(watch: MonitorEvent)
    | Sweep(now: int, sessions: nat, maxSessions: nat)

  ghost predicate EventFits(e: Event) {
    && (e.Peer? ==> |e.peer.packet.data| < 0x1_0000)
    && (e.Sweep? ==> e.maxSessions > 0)
  }

  /** One step of the event loop. Closed descriptors have no events and are not monitored. */
  function Step(t: Tcb, e: Event): Tcb
    requires t.Valid() && EventFits(e)
  {
    match e
    case Socket(s) => if t.open then CheckSocket(t, s) else t
    case Peer(p) => HandlePacket(t, p)
    case Watch(m) => if t.open then Monitor(t, m) else t
    case Sweep(now, sessions, maxSessions) => CheckSession(t, now, sessions, maxSessions).0
  }
}
