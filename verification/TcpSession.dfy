/** The TCP session as the C code keeps it: one object whose fields are updated in place and whose segments form a
    singly linked list. Every method is proved against the step function of the same name in module Tcp. */
module TcpSession {
  import opened Bits
  import opened Serial
  import opened Wire
  import opened Segments
  import opened Nodes
  import opened Tcp
  import opened TcpWindow

  /** `struct segment` */
  class SegmentNode {
    var seqNo: u32
    var len: nat
    var sent: nat
    var psh: bool
    var data: Bytes
    var next: SegmentNode?

    ghost function Value(): Segment
      reads `seqNo, `len, `sent, `psh, `data
    {
      Segment(seqNo, len, sent, psh, data)
    }

    constructor (seqNo: u32, data: Bytes, psh: bool, next: SegmentNode?)
      ensures Value() == Fresh(seqNo, data, psh) && this.next == next
    {
      this.seqNo, this.len, this.sent, this.psh, this.data, this.next := seqNo, |data|, 0, psh, data, next;
    }
  }

  ghost function At(nodes: seq<SegmentNode>, i: nat): SegmentNode? {
    if i < |nodes| then nodes[i] else null
  }

  ghost predicate Chained(nodes: seq<SegmentNode>)
    reads nodes
  {
    forall i {:trigger nodes[i].next} :: 0 <= i < |nodes| ==> nodes[i].next == At(nodes, i + 1)
  }

  ghost predicate Carries(nodes: seq<SegmentNode>, queue: seq<Segment>)
    reads nodes
  {
    && |nodes| == |queue|
    && forall i {:trigger nodes[i].Value()} {:trigger queue[i]} :: 0 <= i < |nodes| ==> nodes[i].Value() == queue[i]
  }

  /** The nodes form an acyclic list from `first` and hold these segments. */
  ghost predicate Linked(first: SegmentNode?, nodes: seq<SegmentNode>, queue: seq<Segment>)
    reads nodes
  {
    first == At(nodes, 0) && Distinct(nodes) && Chained(nodes) && Carries(nodes, queue)
  }

  lemma PlaceBefore(q: seq<Segment>, i: nat, seqNo: u32, data: Bytes, psh: bool)
    requires i < |q| && Compare(q[i].seqNo, seqNo) < 0
    ensures q[..i] + Place(q[i..], seqNo, data, psh) == q[..i + 1] + Place(q[i + 1..], seqNo, data, psh)
  {
    assert q[i..][1..] == q[i + 1..];
  }

  lemma PlaceHere(q: seq<Segment>, i: nat, seqNo: u32, data: Bytes, psh: bool)
    requires i <= |q| && (i < |q| ==> Compare(q[i].seqNo, seqNo) >= 0)
    ensures q[..i] + Place(q[i..], seqNo, data, psh)
            == if i == |q| || Compare(q[i].seqNo, seqNo) > 0 then q[..i] + [Fresh(seqNo, data, psh)] + q[i..]
               else if q[i].len < |data| then q[i := q[i].(data := data)] else q
  {
  }

  lemma UnsentFrom(q: seq<Segment>, i: nat)
    requires AllValid(q) && i < |q|
    ensures AllValid(q[i..]) && AllValid(q[i + 1..])
    ensures Unsent(q[i..]) == (q[i].len - q[i].sent) + Unsent(q[i + 1..])
  {
    assert q[i..][1..] == q[i + 1..];
  }

  lemma PassAdvanced(p: Pass, n: nat, queue: seq<Segment>, remoteSeq: u32, out: Bytes)
    requires p.queue != [] && p.queue[0].Valid() && n <= p.queue[0].len - p.queue[0].sent && n <= p.budget
    requires var s := p.queue[0];
             && queue == (if s.sent + n == s.len then p.queue[1..] else [s.(sent := s.sent + n)] + p.queue[1..])
             && remoteSeq == Wrap(s.seqNo + (s.sent + n)) && out == p.out + s.data[s.sent..s.sent + n]
    ensures p.Advance(n) == Pass(queue, remoteSeq, p.budget - n, out, true, p.failed, p.calls + 1)
  {
  }

  lemma AdvancedValid(q: seq<Segment>, n: nat)
    requires AllValid(q) && q != [] && n <= q[0].len - q[0].sent
    ensures q[0].Valid() && AllValid(q[1..]) && AllValid([q[0].(sent := q[0].sent + n)] + q[1..])
  {
  }

  lemma WrapSmall(x: u32)
    ensures Wrap(x) == x == Wrap(x + 0)
  {
  }

  /** `struct tcp_session` with the socket of its `struct ng_session`. */
  class TcpSession {
    const cfg: Config
    var recvWindow: u32
    var sendWindow: u32
    var remoteSeq: u32
    var localSeq: u32
    var acked: u32
    var state: State
    var connect: Connect
    var socket: int
    var forward: SegmentNode?
    var time: int
    var lastKeepAlive: int
    var wantsIn: bool
    var wantsOut: bool
    ghost var nodes: seq<SegmentNode>
    ghost var queue: seq<Segment>
    ghost var log: Log

    ghost predicate Valid()
      reads this, nodes
    {
      Linked(forward, nodes, queue) && AllValid(queue) && cfg.Valid()
    }

    /** The state the step functions are about. */
    ghost function View(): Tcb
      reads this
    {
      Tcb(cfg, recvWindow, sendWindow, remoteSeq, localSeq, acked, state, connect, socket >= 0, queue,
              time, lastKeepAlive, wantsIn, wantsOut, log)
    }

    constructor (port: nat, mss: nat, scale: nat, window: u16, isn: u32, local: u32, free: u32, now: int, socket: nat)
      requires scale <= 14
      ensures Valid() && nodes == []
      ensures View() == NewSession(port, mss, scale, window, isn, local, free, now)
    {
      cfg := Config(port, mss, scale, scale, isn, local);
      recvWindow, sendWindow := 0, Wrap(window * Pow2(scale));
      remoteSeq, localSeq, acked := isn, local, 0;
      state, connect := Listen, if port == HTTP_PORT then Connected else NotSent;
      this.socket, forward, time, lastKeepAlive := socket, null, now, 0;
      wantsIn, wantsOut := false, true;
      nodes, queue, log := [], [], Log([], [], 0, [], []);
      new;
      recvWindow := GetReceiveWindow(free);
    }

    /** The first node, if any, holds the first segment. */
    lemma Head()
      requires Valid()
      ensures forward == null <==> queue == []
      ensures forward != null ==> forward in nodes && forward.Value() == queue[0] && queue[0].Valid()
    {
    }

    // ---- The segment list ----

    /** `queue_tcp` */
    method QueueTcp(seqNo: u32, data: Bytes, psh: bool)
      requires Valid() && |data| < 0x1_0000
      modifies this`forward, this`nodes, this`queue, nodes
      ensures Valid() && forall n <- nodes :: n in old(nodes) || fresh(n)
      ensures queue == Enqueue(old(queue), remoteSeq, seqNo, data, psh)
    {
      if Compare(seqNo, remoteSeq) < 0 {
        return;
      }
      hide Wrap, Compare, AllValid, Place, Linked;
      EnqueueValid(queue, seqNo, data, psh);
      ghost var i: nat;
      var p, s;
      p, s, i := FindSlot(seqNo, data, psh);
      PlaceHere(queue, i, seqNo, data, psh);
      if s == null || Compare(s.seqNo, seqNo) > 0 {
        InsertNode(p, s, seqNo, data, psh, i);
      } else if s.len < |data| {
        ReplaceData(s, data, i);
      }
    }

    /** The search of `queue_tcp`: the first node not before `seqNo` and the node in front of it. */
    method FindSlot(seqNo: u32, ghost data: Bytes, ghost psh: bool)
      returns (p: SegmentNode?, s: SegmentNode?, ghost i: nat)
      requires Linked(forward, nodes, queue)
      ensures i <= |nodes| == |queue| && s == At(nodes, i) && p == if i == 0 then null else nodes[i - 1]
      ensures i < |queue| ==> Compare(queue[i].seqNo, seqNo) >= 0 && s.Value() == queue[i]
      ensures Place(queue, seqNo, data, psh) == queue[..i] + Place(queue[i..], seqNo, data, psh)
    {
      hide Wrap, Compare, Place, Distinct;
      p, s, i := null, forward, 0;
      while s != null && Compare(s.seqNo, seqNo) < 0
        invariant i <= |nodes| && s == At(nodes, i) && p == if i == 0 then null else nodes[i - 1]
        invariant Place(queue, seqNo, data, psh) == queue[..i] + Place(queue[i..], seqNo, data, psh)
        decreases |nodes| - i
      {
        assert s.Value() == queue[i];
        PlaceBefore(queue, i, seqNo, data, psh);
        p := s;
        s := s.next;
        i := i + 1;
      }
      if i < |queue| { assert s.Value() == queue[i]; }
    }

    method InsertNode(p: SegmentNode?, s: SegmentNode?, seqNo: u32, data: Bytes, psh: bool, ghost i: nat)
      requires Linked(forward, nodes, queue) && i <= |nodes|
      requires s == At(nodes, i) && p == if i == 0 then null else nodes[i - 1]
      modifies this`forward, this`nodes, this`queue, nodes
      ensures Linked(forward, nodes, queue) && forall n <- nodes :: n in old(nodes) || fresh(n)
      ensures queue == old(queue)[..i] + [Fresh(seqNo, data, psh)] + old(queue)[i..]
    {
      hide Distinct;
      ghost var was, had := nodes, queue;
      var n := new SegmentNode(seqNo, data, psh, s);
      InsertDistinct(was, n, i);
      if i > 0 { OnlyAt(was, i - 1); }
      if p == null {
        forward := n;
      } else {
        p.next := n;
      }
      nodes := was[..i] + [n] + was[i..];
      queue := had[..i] + [Fresh(seqNo, data, psh)] + had[i..];
      InsertedCarries(was, had, n, i);
      forall j | 0 <= j < |nodes| ensures nodes[j].next == At(nodes, j + 1) {
        assert nodes[j] == if j < i then was[j] else if j == i then n else was[j - 1];
      }
    }

    lemma InsertedCarries(was: seq<SegmentNode>, had: seq<Segment>, n: SegmentNode, i: nat)
      requires Carries(was, had) && i <= |was|
      ensures Carries(was[..i] + [n] + was[i..], had[..i] + [n.Value()] + had[i..])
    {
    }

    method ReplaceData(s: SegmentNode, data: Bytes, ghost i: nat)
      requires Linked(forward, nodes, queue) && i < |nodes| && s == nodes[i]
      modifies this`queue, s
      ensures Linked(forward, nodes, queue)
      ensures queue == old(queue)[i := old(queue)[i].(data := data)]
    {
      s.data := data;
      queue := queue[i := queue[i].(data := data)];
    }

    /** `get_receive_window`: add up what is queued, then see what the buffer leaves. */
    method GetReceiveWindow(free: u32) returns (window: u32)
      requires Valid()
      ensures window == View().ReceiveWindow(free)
    {
      hide Wrap, Pow2;
      var toForward: u32 := 0;
      var q := forward;
      ghost var i := 0;
      while q != null
        invariant i <= |nodes| && q == At(nodes, i)
        invariant Wrap(toForward + Unsent(queue[i..])) == Wrap(Unsent(queue))
        decreases |nodes| - i
      {
        UnsentFrom(queue, i);
        assert q.Value() == queue[i];
        WrapAdd(toForward + (q.len - q.sent), Unsent(queue[i + 1..]));
        toForward := Wrap(toForward + (q.len - q.sent));
        q := q.next;
        i := i + 1;
      }
      WrapSmall(toForward);
      window := if socket < 0 then 0 else free;
      var max := Wrap(0xFFFF * Pow2(cfg.recvScale));
      if window > max {
        window := max;
      }
      window := if toForward < window then window - toForward else 0;
      if window / Pow2(cfg.recvScale) == 0 {
        window := 0;
      }
    }

    /** The forwarding loop of `check_tcp_socket`; sends(k) is the outcome of its k-th send. */
    method ForwardQueued(free: u32, sends: nat -> SendResult) returns (fwd: bool, failed: bool)
      requires Valid()
      modifies this`forward, this`nodes, this`queue, this`remoteSeq, this`log, nodes
      ensures Valid() && forall n <- nodes :: n in old(nodes)
      ensures var r := Forward(old(StartPass(View(), free)), sends);
              && queue == r.queue && remoteSeq == r.remoteSeq && fwd == r.fwd && failed == r.failed
              && log == old(log).(delivered := r.out)
    {
      hide Wrap, Linked, AllValid, Pass.Advance;
      var budget: nat := free;
      var calls: nat := 0;
      fwd, failed := false, false;
      ghost var goal := Forward(StartPass(View(), free), sends);
      ghost var k: nat := 0;
      while true
        invariant Valid() && k <= |old(nodes)| && nodes == old(nodes)[k..]
        invariant !failed && log == old(log).(delivered := log.delivered)
        invariant Forward(Pass(queue, remoteSeq, budget, log.delivered, fwd, false, calls), sends) == goal
        decreases |queue|
      {
        Head();
        if forward == null || Wrap(forward.seqNo + forward.sent) != remoteSeq || forward.len - forward.sent >= budget {
          return;
        }
        var len := forward.len - forward.sent;
        match sends(calls) {
          case Retry =>
            return;
          case Failed =>
            failed := true;
            return;
          case Accepted(n) =>
            var sent := if n > len then len else n;
            ghost var pass := Pass(queue, remoteSeq, budget, log.delivered, fwd, false, calls);
            fwd := true;
            budget := budget - sent;
            calls := calls + 1;
            AdvancePass(sent, pass);
            k := if sent == len then k + 1 else k;
            if sent < len {
              return;
            }
        }
      }
    }

    method AdvancePass(n: nat, ghost pass: Pass)
      requires Valid() && forward != null && n <= forward.len - forward.sent
      requires AllValid(pass.queue) && pass.Ready() && pass.queue == queue && pass.out == log.delivered
      modifies this`forward, this`nodes, this`queue, this`remoteSeq, this`log, nodes
      ensures Valid() && log == old(log).(delivered := log.delivered)
      ensures if old(forward.sent) + n == old(forward.len) then nodes == old(nodes)[1..] && |queue| < |old(queue)|
              else nodes == old(nodes)
      ensures n <= pass.queue[0].len - pass.queue[0].sent
      ensures pass.Advance(n)
              == Pass(queue, remoteSeq, pass.budget - n, log.delivered, true, pass.failed, pass.calls + 1)
    {
      hide Wrap, Linked, AllValid, Pass.Advance;
      Head();
      AdvanceHead(n);
      AdvanceBudget(pass, n);
      PassAdvanced(pass, n, queue, remoteSeq, log.delivered);
    }

    /** Account for n more bytes of the head, and drop it when it is done. */
    method AdvanceHead(n: nat)
      requires Valid() && forward != null && n <= forward.len - forward.sent
      modifies this`forward, this`nodes, this`queue, this`remoteSeq, this`log, nodes
      ensures Valid()
      ensures nodes == if old(forward.sent) + n == old(forward.len) then old(nodes)[1..] else old(nodes)
      ensures var s := old(queue)[0];
              && queue == (if s.sent + n == s.len then old(queue)[1..] else [s.(sent := s.sent + n)] + old(queue)[1..])
              && remoteSeq == Wrap(s.seqNo + (s.sent + n))
              && log == old(log).(delivered := old(log.delivered) + s.data[s.sent..s.sent + n])
    {
      hide Wrap, AllValid, Linked;
      Head();
      AdvancedValid(queue, n);
      log := log.(delivered := log.delivered + forward.data[forward.sent..forward.sent + n]);
      remoteSeq := Wrap(forward.seqNo + (forward.sent + n));
      CountSent(n);
      HeadIs();
      if forward.len == forward.sent {
        DropHead();
      }
    }

    method CountSent(n: nat)
      requires Linked(forward, nodes, queue) && forward != null
      modifies this`queue, forward`sent
      ensures Linked(forward, nodes, queue) && forward.sent == old(forward.sent) + n && queue != []
      ensures queue == [old(queue)[0].(sent := old(queue)[0].sent + n)] + old(queue)[1..]
    {
      OnlyAt(nodes, 0);
      assert forward == nodes[0] && forward.Value() == queue[0];
      forward.sent := forward.sent + n;
      queue := [queue[0].(sent := queue[0].sent + n)] + queue[1..];
    }

    method DropHead()
      requires Linked(forward, nodes, queue) && forward != null
      modifies this`forward, this`nodes, this`queue
      ensures Linked(forward, nodes, queue) && old(queue) != [] && old(nodes) != []
      ensures nodes == old(nodes)[1..] && queue == old(queue)[1..]
    {
      assert forward == nodes[0];
      forward := forward.next;
      nodes, queue := nodes[1..], queue[1..];
    }

    lemma HeadIs()
      requires Linked(forward, nodes, queue) && forward != null
      ensures queue != [] && forward in nodes && forward.Value() == queue[0]
    {
    }

    // ---- Writing to the tun device ----

    method WriteTcp(data: Bytes, syn: bool, ack: bool, fin: bool, rst: bool, ok: bool)
      modifies this`log
      ensures View() == old(View()).Write(data, syn, ack, fin, rst, ok)
    {
      log := View().Write(data, syn, ack, fin, rst, ok).log;
    }

    method WriteOr(data: Bytes, syn: bool, fin: bool, ok: bool)
      modifies this`log, this`state
      ensures View() == old(View()).WriteOr(data, syn, fin, ok)
    {
      WriteTcp(data, syn, true, fin, false, ok);
      if !ok {
        state := Closing;
      }
    }

    method WriteRst()
      modifies this`log, this`state, this`remoteSeq
      ensures View() == old(View()).WriteRst()
    {
      var ack := false;
      if state == Listen {
        ack := true;
        remoteSeq := Wrap(remoteSeq + 1);
      }
      WriteTcp([], false, ack, false, true, true);
      if state != Close {
        state := Closing;
      }
    }

    method CloseSocket()
      modifies this`log, this`socket
      ensures View() == old(View()).CloseSocket()
    {
      socket := -1;
      log := log.(closes := log.closes + 1);
    }

    /** `get_send_window`: what is left of the peer's window, if no more than 2^30 bytes are outstanding. */
    method GetSendWindow() returns (window: u32)
      ensures window == View().SendWindow()
      ensures var d: int := Dist(acked, localSeq);
              d <= 0x4000_0000 ==> window == if d < sendWindow then sendWindow - d else 0
    {
      if Dist(acked, localSeq) <= 0x4000_0000 {
        SendWindowExact(View());
      }
      var behind := if Compare(acked, localSeq) <= 0 then Dist(acked, localSeq) else acked;
      window := if behind < sendWindow then sendWindow - behind else 0;
    }

    // ---- check_tcp_socket ----

    method CheckSocket(e: SocketEvent)
      requires Valid() && socket >= 0
      modifies this, nodes
      ensures Valid() && forall n <- nodes :: n in old(nodes)
      ensures View() == Tcp.CheckSocket(old(View()), e)
    {
      hide Wrap, Linked, AllValid, Tcp.CheckConnecting, Tcp.CheckForward, Tcp.CheckAck, Tcp.CheckRead, Tcb.WriteRst;
      if e.err {
        time := e.now;
        WriteRst();
      } else if state == Listen {
        CheckConnecting(e);
      } else {
        var fwd := CheckForward(e);
        CheckAck(fwd, e);
        CheckRead(e);
      }
    }

    method CheckConnecting(e: SocketEvent)
      modifies this`log, this`state, this`remoteSeq, this`localSeq, this`connect, this`time
      ensures View() == Tcp.CheckConnecting(old(View()), e)
    {
      hide Wrap, Tcb.WriteOr, Tcb.WriteRst;
      if e.readable {
        match e.answer {
          case None =>
            WriteRst();
          case Some(a) =>
            if connect == Sent {
              log := log.(answers := log.answers + [a]);
              if a == OK10 || a == OK11 {
                connect := Connected;
                state := SynRecv;
              } else {
                WriteRst();
              }
            }
        }
      } else {
        SendSynAck(e);
      }
    }

    method SendSynAck(e: SocketEvent)
      modifies this`log, this`state, this`remoteSeq, this`localSeq, this`time
      ensures View() == Tcp.CheckConnecting(old(View()), e.(readable := false))
    {
      hide Wrap, Tcb.WriteOr, Tcb.WriteRst;
      remoteSeq := Wrap(remoteSeq + 1);
      WriteOr([], true, false, e.ackOk);
      if e.ackOk {
        time := e.now;
        localSeq := Wrap(localSeq + 1);
        state := SynRecv;
      }
    }

    method CheckForward(e: SocketEvent) returns (fwd: bool)
      requires Valid() && state != Listen
      modifies this`forward, this`nodes, this`queue, this`remoteSeq, this`log, this`state, nodes
      ensures Valid() && forall n <- nodes :: n in old(nodes)
      ensures (View(), fwd) == Tcp.CheckForward(old(View()), e)
    {
      hide Wrap, Linked, AllValid, Tcb.WriteRst, Forward;
      fwd := false;
      if e.writable {
        var failed;
        fwd, failed := ForwardQueued(e.free, e.sends);
        if failed {
          WriteRst();
        }
      }
    }

    method CheckAck(fwd: bool, e: SocketEvent)
      requires Valid()
      modifies this`recvWindow, this`remoteSeq, this`log, this`state, this`time
      ensures View() == Tcp.CheckAck(old(View()), fwd, e)
    {
      hide Wrap, AllValid, Tcb.WriteOr, Tcb.ReceiveWindow;
      var window := GetReceiveWindow(e.freeAfter);
      var prev := recvWindow;
      recvWindow := window;
      if fwd || (prev == 0 && window > 0) {
        if fwd {
          ConfirmFin();
        }
        Acknowledge(e);
      }
    }

    /** The peer's FIN is counted once the queue has drained. */
    method ConfirmFin()
      requires Valid()
      modifies this`remoteSeq
      ensures View() == if old(View()).queue == [] && state == CloseWait
                        then old(View()).(remoteSeq := Wrap(old(remoteSeq) + 1)) else old(View())
    {
      hide Wrap, AllValid;
      if forward == null && state == CloseWait {
        remoteSeq := Wrap(remoteSeq + 1);
      }
    }

    method Acknowledge(e: SocketEvent)
      modifies this`log, this`state, this`time
      ensures var a := old(View()).WriteOr([], false, false, e.ackOk);
              View() == if e.ackOk then a.(time := e.now) else a
    {
      hide Tcb.WriteOr;
      WriteOr([], false, false, e.ackOk);
      if e.ackOk {
        time := e.now;
      }
    }

    method CheckRead(e: SocketEvent)
      requires Valid()
      modifies this`time, this`log, this`state, this`remoteSeq, this`localSeq, this`socket
      ensures View() == Tcp.CheckRead(old(View()), e)
    {
      hide Wrap, AllValid, Linked, Tcb.WriteOr, Tcb.WriteRst, Tcb.SendWindow, Tcp.ReadEof, Tcp.ReadData;
      if state == Established || state == CloseWait {
        var window := GetSendWindow();
        if e.readable && window > 0 {
          time := e.now;
          var size := if window > cfg.mss then cfg.mss else window;
          match e.recv {
            case RecvError(retry) =>
              if !retry {
                WriteRst();
              }
            case Received(data) =>
              var bytes := if |data| > size then data[..size] else data;
              if bytes == [] {
                ReadEof(e.dataOk);
              } else {
                ReadData(bytes, e.dataOk);
              }
          }
        }
      }
    }

    method ReadData(bytes: Bytes, ok: bool)
      modifies this`log, this`state, this`localSeq
      ensures View() == Tcp.ReadData(old(View()), bytes, ok)
    {
      hide Wrap, Tcb.WriteOr;
      log := log.(received := log.received + bytes);
      WriteOr(bytes, false, false, ok);
      if ok {
        localSeq := Wrap(localSeq + |bytes|);
      }
    }

    method ReadEof(ok: bool)
      requires Valid()
      modifies this`log, this`state, this`remoteSeq, this`localSeq, this`socket
      ensures View() == Tcp.ReadEof(old(View()), ok)
    {
      hide Wrap, AllValid, Tcb.WriteOr, Tcb.WriteRst;
      if forward == null {
        WriteOr([], false, true, ok);
        if ok {
          localSeq := Wrap(localSeq + 1);
        }
        if state == Established {
          state := FinWait1;
        } else if state == CloseWait {
          state := LastAck;
        }
      } else {
        WriteRst();
      }
      CloseSocket();
    }

    // ---- handle_tcp ----

    method HandlePacket(e: PacketEvent)
      requires Valid() && |e.packet.data| < 0x1_0000
      modifies this, nodes
      ensures Valid() && forall n <- nodes :: n in old(nodes) || fresh(n)
      ensures View() == Tcp.HandlePacket(old(View()), e)
    {
      hide Wrap, AllValid, Linked, Pow2, Tcp.QueuePacket, Tcb.WriteRst, Tcp.SendConnect, Tcp.HandleAlive;
      var p := e.packet;
      if p.urg {
        return;
      }
      SendConnect(e);
      if cfg.port == HTTPS_PORT && connect != Connected {
        QueuePacket(p);
        return;
      }
      if state == Closing || state == Close {
        WriteRst();
        return;
      }
      HandleAlive(e);
    }

    method HandleAlive(e: PacketEvent)
      requires Valid() && |e.packet.data| < 0x1_0000
      modifies this, nodes
      ensures Valid() && forall n <- nodes :: n in old(nodes) || fresh(n)
      ensures View() == Tcp.HandleAlive(old(View()), e)
    {
      hide Wrap, AllValid, Linked, Pow2, Tcp.QueuePacket, Tcb.WriteRst, Tcp.HandleAck;
      var p := e.packet;
      RecordPacket(e);
      if p.data != [] {
        if socket < 0 || state == CloseWait {
          WriteRst();
          return;
        }
        QueuePacket(p);
      }
      HandleAck(e);
    }

    method RecordPacket(e: PacketEvent)
      modifies this`time, this`sendWindow
      ensures View() == old(View()).(time := e.now, sendWindow := Wrap(e.packet.window * Pow2(cfg.sendScale)))
    {
      hide Wrap, Pow2;
      time := e.now;
      sendWindow := Wrap(e.packet.window * Pow2(cfg.sendScale));
    }

    method QueuePacket(p: PeerPacket)
      requires Valid() && |p.data| < 0x1_0000
      modifies this`forward, this`nodes, this`queue, nodes
      ensures Valid() && forall n <- nodes :: n in old(nodes) || fresh(n)
      ensures View() == Tcp.QueuePacket(old(View()), p)
    {
      hide Linked, AllValid, Enqueue;
      QueueTcp(p.seqNo, p.data, p.psh);
    }

    method SendConnect(e: PacketEvent)
      modifies this`log, this`state, this`remoteSeq, this`connect
      ensures View() == Tcp.SendConnect(old(View()), e)
    {
      if cfg.port == HTTPS_PORT && connect == NotSent && e.hostKnown {
        if !e.connectOk || socket < 0 {
          WriteRst();
        } else {
          connect := Sent;
          state := Listen;
        }
      }
    }

    method HandleAck(e: PacketEvent)
      requires Valid()
      modifies this`log, this`state, this`remoteSeq, this`acked
      ensures View() == Tcp.HandleAck(old(View()), e)
    {
      hide Wrap, AllValid, Linked, Compare, Tcb.WriteRst, Tcp.HandleFin;
      var p := e.packet;
      if p.rst {
        state := Closing;
      } else if !p.ack || p.ackNo == localSeq {
        if p.syn {
        } else if p.fin {
          HandleFin(e.ackOk);
        } else if p.ack {
          acked := p.ackNo;
          if state == SynRecv {
            state := Established;
          } else if state == LastAck {
            state := Closing;
          }
        }
      } else if Wrap(p.ackNo + 1) == localSeq {
      } else if Compare(p.ackNo, localSeq) < 0 {
        if Compare(p.ackNo, acked) > 0 {
          acked := p.ackNo;
        }
      } else {
        WriteRst();
      }
    }

    method HandleFin(ok: bool)
      requires Valid()
      modifies this`log, this`state, this`remoteSeq
      ensures View() == Tcp.HandleFin(old(View()), ok)
    {
      hide Wrap, AllValid, Tcb.WriteOr;
      if state == Established {
        if forward == null {
          remoteSeq := Wrap(remoteSeq + 1);
          WriteOr([], false, false, ok);
          if ok {
            state := CloseWait;
          }
        } else {
          state := CloseWait;
        }
      } else if state == FinWait1 {
        remoteSeq := Wrap(remoteSeq + 1);
        WriteOr([], false, false, ok);
        if ok {
          state := Close;
        }
      }
    }

    // ---- monitor_tcp_session ----

    method Monitor(e: MonitorEvent)
      requires Valid()
      modifies this`log, this`state, this`remoteSeq, this`lastKeepAlive, this`wantsIn, this`wantsOut
      ensures View() == Tcp.Monitor(old(View()), e)
    {
      hide Wrap, AllValid, Linked, KeepAlive, WantsIn, WantsOut;
      var i, o := EventsToWaitFor(e);
      if i != wantsIn || o != wantsOut {
        wantsIn, wantsOut := i, o;
        if !e.epollOk {
          state := Closing;
        }
      }
    }

    method EventsToWaitFor(e: MonitorEvent) returns (i: bool, o: bool)
      requires Valid()
      modifies this`log, this`state, this`remoteSeq, this`lastKeepAlive
      ensures View() == KeepAlive(old(View()), e) && i == WantsIn(old(View())) && o == WantsOut(old(View()), e.free)
    {
      hide Wrap, AllValid, Linked, Tcb.WriteOr, Tcb.SendWindow;
      i, o := false, false;
      if state == Listen {
        if connect == Sent && cfg.port == HTTPS_PORT {
          i := true;
        } else {
          o := true;
        }
      } else if state == Established || state == CloseWait {
        var window := GetSendWindow();
        o := CanForward(e.free);
        if window > 0 {
          i := true;
        } else if e.ms - lastKeepAlive > MIN_CHECK {
          SendKeepAlive(e);
        }
      }
    }

    /** The head is due and fits. */
    method CanForward(free: u32) returns (o: bool)
      requires Valid()
      ensures AllValid(queue) && o == StartPass(View(), free).Ready()
    {
      hide Wrap, AllValid, Linked;
      Head();
      o := forward != null && Wrap(forward.seqNo + forward.sent) == remoteSeq && forward.len - forward.sent < free;
    }

    method SendKeepAlive(e: MonitorEvent)
      modifies this`log, this`state, this`remoteSeq, this`lastKeepAlive
      ensures View() == old(View()).(lastKeepAlive := e.ms, remoteSeq := Wrap(old(remoteSeq) - 1))
                        .WriteOr([], false, false, e.ackOk).(remoteSeq := old(remoteSeq))
    {
      hide Wrap, Tcb.WriteOr;
      var next := remoteSeq;
      lastKeepAlive := e.ms;
      remoteSeq := Wrap(remoteSeq - 1);
      WriteOr([], false, false, e.ackOk);
      remoteSeq := next;
    }

    // ---- check_tcp_session ----

    method CheckSession(now: int, sessions: nat, maxSessions: nat) returns (delete: bool)
      requires maxSessions > 0
      modifies this`log, this`state, this`remoteSeq, this`socket, this`time
      ensures (View(), delete) == Tcp.CheckSession(old(View()), now, sessions, maxSessions)
    {
      hide Wrap, Tcb.WriteRst, Timeout;
      var timeout := Timeout(state, sessions, maxSessions);
      if state != Closing && state != Close && time + timeout < now {
        if state == Listen {
          state := Closing;
        } else {
          WriteRst();
        }
      }
      if state == Closing {
        if socket >= 0 {
          CloseSocket();
        }
        time := now;
        state := Close;
      }
      delete := state == Close && time + TCP_KEEP_TIMEOUT < now;
    }
  }
}
