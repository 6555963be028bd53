/** Order independence: the peer cuts its stream into fixed, non-empty segments; they arrive in any order, any number
    of times, between any forwarding passes. */
module Tiling {
  import opened Serial
  import opened Wire
  import opened Segments
  import opened Stream

  /** Segment i of the peer is stream[cuts[i]..cuts[i + 1]]; byte 0 has sequence number `base`. */
  datatype Tiling = Tiling(base: int, stream: Bytes, cuts: seq<nat>, psh: seq<bool>) {
    ghost predicate Valid() {
      && |cuts| == |psh| + 1 && cuts[0] == 0 && cuts[|psh|] == |stream|
      && (forall i, j :: 0 <= i < j < |cuts| ==> cuts[i] < cuts[j])
      && (forall i, j :: 0 <= i < |psh| && j == i + 1 ==> cuts[j] < cuts[i] + 0x1_0000)
    }

    function Count(): nat { |psh| }

    ghost function Data(i: nat): Bytes
      requires Valid() && i < Count()
    {
      stream[cuts[i]..cuts[i + 1]]
    }

    /** Tile i as it waits in the queue when everything before position pos has been forwarded. */
    ghost function Queued(i: nat, pos: nat): Segment
      requires Valid() && i < Count()
    {
      Segment(Wrap(base + cuts[i]), cuts[i + 1] - cuts[i], if cuts[i] < pos then pos - cuts[i] else 0, psh[i], Data(i))
    }

    /** The tiles from index i on that have arrived and are not wholly forwarded, in order. */
    ghost function Waiting(arrived: set<nat>, pos: nat, i: nat): seq<Segment>
      requires Valid()
      decreases Count() - i
    {
      if i >= Count() then []
      else if i in arrived && pos < cuts[i + 1] then [Queued(i, pos)] + Waiting(arrived, pos, i + 1)
      else Waiting(arrived, pos, i + 1)
    }
  }

  /** What matters of the session: its queue, the next expected number and what the socket took. */
  datatype RelayState = Relay(queue: seq<Segment>, remoteSeq: u32, out: Bytes)

  type Relay = r: RelayState | AllValid(r.queue) ghost witness Relay([], 0, [])

  datatype Op = Arrive(tile: nat) | ForwardPass(budget: nat, sends: nat -> SendResult)

  ghost predicate OpFits(t: Tiling, r: Relay, op: Op)
    requires t.Valid()
  {
    op.Arrive? ==> op.tile < t.Count() && |r.out| - WINDOW <= t.cuts[op.tile] && t.cuts[op.tile + 1] <= |r.out| + WINDOW
  }

  ghost function Start(t: Tiling): Relay {
    Relay([], Wrap(t.base), [])
  }

  ghost function Step(t: Tiling, r: Relay, op: Op): Relay
    requires t.Valid() && OpFits(t, r, op)
  {
    match op
    case Arrive(i) =>
      EnqueueValid(r.queue, Wrap(t.base + t.cuts[i]), t.Data(i), t.psh[i]);
      r.(queue := Enqueue(r.queue, r.remoteSeq, Wrap(t.base + t.cuts[i]), t.Data(i), t.psh[i]))
    case ForwardPass(budget, sends) =>
      var p := Forward(Pass(r.queue, r.remoteSeq, budget, r.out, false, false, 0), sends);
      Relay(p.queue, p.remoteSeq, p.out)
  }

  /** The relay is exactly determined by the set of tiles that have arrived and the number of bytes forwarded. */
  ghost predicate Determined(t: Tiling, arrived: set<nat>, r: RelayState)
    requires t.Valid()
  {
    && r.out <= t.stream && r.remoteSeq == Wrap(t.base + |r.out|)
    && r.queue == t.Waiting(arrived, |r.out|, 0) && Reached(t, arrived, |r.out|)
  }

  /** What has been forwarded has arrived, and nothing has arrived from beyond the window. */
  ghost predicate Reached(t: Tiling, arrived: set<nat>, pos: nat)
    requires t.Valid()
  {
    && (forall i {:trigger i in arrived} :: 0 <= i < t.Count() && t.cuts[i] < pos ==> i in arrived)
    && (forall i <- arrived :: i < t.Count() && t.cuts[i + 1] <= pos + WINDOW)
  }

  lemma CutBounds(t: Tiling, i: nat)
    requires t.Valid() && i < t.Count()
    ensures |t.cuts| == t.Count() + 1 && (i == 0 ==> t.cuts[i] == 0)
    ensures t.cuts[i] < t.cuts[i + 1] <= |t.stream| && t.cuts[i + 1] < t.cuts[i] + 0x1_0000
    ensures |t.Data(i)| == t.cuts[i + 1] - t.cuts[i]
    ensures forall k :: 0 <= k < i ==> t.cuts[k] < t.cuts[i]
    ensures forall k :: i < k < t.Count() ==> t.cuts[i + 1] <= t.cuts[k]
  {
  }

  // ---- The waiting list ----

  lemma {:induction false} WaitingValid(t: Tiling, arrived: set<nat>, pos: nat, i: nat)
    requires t.Valid()
    ensures AllValid(t.Waiting(arrived, pos, i))
    decreases t.Count() - i
  {
    if i < t.Count() { WaitingValid(t, arrived, pos, i + 1); }
  }

  /** The first waiting tile from i on. */
  lemma {:induction false} FirstWaiting(t: Tiling, arrived: set<nat>, pos: nat, i: nat) returns (h: nat)
    requires t.Valid() && t.Waiting(arrived, pos, i) != []
    ensures i <= h < t.Count() && h in arrived && pos < t.cuts[h + 1]
    ensures t.Waiting(arrived, pos, i) == [t.Queued(h, pos)] + t.Waiting(arrived, pos, h + 1)
    ensures forall k :: i <= k < h ==> k !in arrived || t.cuts[k + 1] <= pos
    decreases t.Count() - i
  {
    if i in arrived && pos < t.cuts[i + 1] {
      h := i;
    } else {
      h := FirstWaiting(t, arrived, pos, i + 1);
    }
  }

  /** Nothing to list between i and h. */
  lemma {:induction false} WaitingSkip(t: Tiling, arrived: set<nat>, pos: nat, i: nat, h: nat)
    requires t.Valid() && i <= h && forall k :: i <= k < h && k < t.Count() ==> k !in arrived || t.cuts[k + 1] <= pos
    ensures t.Waiting(arrived, pos, i) == t.Waiting(arrived, pos, h)
    decreases h - i
  {
    if i < h { WaitingSkip(t, arrived, pos, i + 1, h); }
  }

  /** Tiles that start at or after both positions wait in the same form. */
  lemma {:induction false} WaitingLater(t: Tiling, arrived: set<nat>, pos: nat, pos': nat, i: nat)
    requires t.Valid() && (i < t.Count() ==> pos <= t.cuts[i] && pos' <= t.cuts[i])
    ensures t.Waiting(arrived, pos, i) == t.Waiting(arrived, pos', i)
    decreases t.Count() - i
  {
    if i < t.Count() { WaitingLater(t, arrived, pos, pos', i + 1); }
  }

  /** An arrival that is already listed, forwarded or before i changes nothing. */
  lemma {:induction false} WaitingKnown(t: Tiling, arrived: set<nat>, pos: nat, i: nat, j: nat)
    requires t.Valid() && j < t.Count() && (j in arrived || t.cuts[j + 1] <= pos || j < i)
    ensures t.Waiting(arrived + {j}, pos, i) == t.Waiting(arrived, pos, i)
    decreases t.Count() - i
  {
    if i < t.Count() { WaitingKnown(t, arrived, pos, i + 1, j); }
  }

  // ---- Arrival ----

  /** `queue_tcp` puts a tile that is not yet due exactly where the list wants it. */
  lemma {:induction false} PlaceWaiting(t: Tiling, arrived: set<nat>, pos: nat, i: nat, j: nat)
    requires t.Valid() && i <= j < t.Count() && pos <= t.cuts[j] && t.cuts[j + 1] <= pos + WINDOW
    requires forall k <- arrived :: k < t.Count() && t.cuts[k + 1] <= pos + WINDOW
    ensures Place(t.Waiting(arrived, pos, i), Wrap(t.base + t.cuts[j]), t.Data(j), t.psh[j])
            == t.Waiting(arrived + {j}, pos, i)
    decreases t.Count() - i
  {
    if i == j {
      PlaceHere(t, arrived, pos, j);
    } else {
      PlaceWaiting(t, arrived, pos, i + 1, j);
      if i in arrived && pos < t.cuts[i + 1] {
        PlaceAfter(t, arrived, pos, i, j);
      }
    }
  }

  lemma PlaceHere(t: Tiling, arrived: set<nat>, pos: nat, j: nat)
    requires t.Valid() && j < t.Count() && pos <= t.cuts[j] && t.cuts[j + 1] <= pos + WINDOW
    requires forall k <- arrived :: k < t.Count() && t.cuts[k + 1] <= pos + WINDOW
    ensures Place(t.Waiting(arrived, pos, j), Wrap(t.base + t.cuts[j]), t.Data(j), t.psh[j])
            == t.Waiting(arrived + {j}, pos, j)
  {
    hide Wrap, Compare, Tiling.Valid, Tiling.Data;
    CutBounds(t, j);
    WaitingKnown(t, arrived, pos, j + 1, j);
    if j in arrived {
      CompareOffsets(t.base, t.cuts[j], t.cuts[j]);
    } else if t.Waiting(arrived, pos, j + 1) != [] {
      PlaceBeforeLater(t, arrived, pos, j);
    }
  }

  lemma PlaceBeforeLater(t: Tiling, arrived: set<nat>, pos: nat, j: nat)
    requires t.Valid() && j < t.Count() && pos <= t.cuts[j] && t.Waiting(arrived, pos, j + 1) != []
    requires forall k <- arrived :: k < t.Count() && t.cuts[k + 1] <= pos + WINDOW
    ensures var q, s := t.Waiting(arrived, pos, j + 1), Fresh(Wrap(t.base + t.cuts[j]), t.Data(j), t.psh[j]);
            Place(q, s.seqNo, s.data, s.psh) == [s] + q
  {
    hide Wrap, Compare, Tiling.Valid, Tiling.Data, Tiling.Waiting;
    var h := FirstWaiting(t, arrived, pos, j + 1);
    CutBounds(t, j);
    CutBounds(t, h);
    CompareOffsets(t.base, t.cuts[h], t.cuts[j]);
  }

  lemma PlaceAfter(t: Tiling, arrived: set<nat>, pos: nat, i: nat, j: nat)
    requires t.Valid() && i < j < t.Count() && pos <= t.cuts[j] && t.cuts[j + 1] <= pos + WINDOW
    requires i in arrived && pos < t.cuts[i + 1]
    ensures Place(t.Waiting(arrived, pos, i), Wrap(t.base + t.cuts[j]), t.Data(j), t.psh[j])
            == [t.Queued(i, pos)] + Place(t.Waiting(arrived, pos, i + 1), Wrap(t.base + t.cuts[j]), t.Data(j), t.psh[j])
  {
    hide Wrap, Compare, Tiling.Valid, Tiling.Data;
    CutBounds(t, i);
    CutBounds(t, j);
    CompareOffsets(t.base, t.cuts[i], t.cuts[j]);
    assert t.Waiting(arrived, pos, i)[1..] == t.Waiting(arrived, pos, i + 1);
  }

  lemma ArriveDetermined(t: Tiling, arrived: set<nat>, r: Relay, j: nat)
    requires t.Valid() && Determined(t, arrived, r) && OpFits(t, r, Arrive(j))
    ensures Determined(t, arrived + {j}, Step(t, r, Arrive(j)))
  {
    hide Wrap, Compare, Place, Tiling.Waiting, Tiling.Valid, Tiling.Data;
    CutBounds(t, j);
    var pos := |r.out|;
    CompareOffsets(t.base, t.cuts[j], pos);
    if t.cuts[j] < pos {
      WaitingKnown(t, arrived, pos, 0, j);
    } else {
      PlaceWaiting(t, arrived, pos, 0, j);
    }
  }

  // ---- Forwarding ----

  lemma AdvanceDetermined(t: Tiling, arrived: set<nat>, p: Pass, n: nat, h: nat)
    requires t.Valid() && Determined(t, arrived, Relay(p.queue, p.remoteSeq, p.out)) && AllValid(p.queue) && p.Ready()
    requires n <= p.queue[0].len - p.queue[0].sent
    requires h < t.Count() && h in arrived && |p.out| < t.cuts[h + 1]
    requires p.queue == [t.Queued(h, |p.out|)] + t.Waiting(arrived, |p.out|, h + 1)
    requires forall k :: 0 <= k < h ==> k !in arrived || t.cuts[k + 1] <= |p.out|
    ensures var r := p.Advance(n); Determined(t, arrived, Relay(r.queue, r.remoteSeq, r.out))
  {
    hide Wrap, Tiling.Waiting, Tiling.Valid, AllValid, Pass.Advance;
    var pos := |p.out|;
    AdvancedBytes(t, arrived, p, n, h);
    WaitingAdvances(t, arrived, pos, n, h);
    assert p.queue[1..] == t.Waiting(arrived, pos, h + 1);
    AdvancedQueue(t, arrived, p, n, h);
    AdvancedArrived(t, arrived, pos, n, h);
  }

  /** The next expected number and the bytes sent. */
  lemma AdvancedBytes(t: Tiling, arrived: set<nat>, p: Pass, n: nat, h: nat)
    requires t.Valid() && Determined(t, arrived, Relay(p.queue, p.remoteSeq, p.out)) && AllValid(p.queue) && p.Ready()
    requires n <= p.queue[0].len - p.queue[0].sent
    requires h < t.Count() && h in arrived && |p.out| < t.cuts[h + 1] && p.queue[0] == t.Queued(h, |p.out|)
    ensures var r := p.Advance(n);
            && p.queue[0].Valid() && r.out <= t.stream && |r.out| == |p.out| + n
            && r.remoteSeq == Wrap(t.base + |r.out|)
            && t.cuts[h] <= |p.out| && |p.out| + n <= t.cuts[h + 1]
  {
    hide Wrap, Tiling.Waiting, Tiling.Valid, AllValid;
    CutBounds(t, h);
    assert p.queue[0].data[..p.queue[0].len] == p.queue[0].data;
    AdvanceBytes(p, n, t.cuts[h], t.base, t.stream, |p.out|);
  }

  /** The tiles in front of the new position have arrived. */
  lemma AdvancedArrived(t: Tiling, arrived: set<nat>, pos: nat, n: nat, h: nat)
    requires t.Valid() && h < t.Count() && h in arrived && pos + n <= t.cuts[h + 1]
    requires forall i {:trigger i in arrived} :: 0 <= i < t.Count() && t.cuts[i] < pos ==> i in arrived
    requires forall i <- arrived :: i < t.Count() && t.cuts[i + 1] <= pos + WINDOW
    requires t.cuts[h] <= pos
    ensures forall i {:trigger i in arrived} :: 0 <= i < t.Count() && t.cuts[i] < pos + n ==> i in arrived
    ensures forall i <- arrived :: i < t.Count() && t.cuts[i + 1] <= pos + n + WINDOW
  {
    hide Tiling.Valid;
    CutBounds(t, h);
  }

  lemma AdvancedQueue(t: Tiling, arrived: set<nat>, p: Pass, n: nat, h: nat)
    requires t.Valid() && h < t.Count() && p.queue != [] && p.queue[0] == t.Queued(h, |p.out|) && p.queue[0].Valid()
    requires t.cuts[h] <= |p.out| && |p.out| + n <= t.cuts[h + 1] && n <= p.budget
    ensures p.Advance(n).queue
            == if |p.out| + n == t.cuts[h + 1] then p.queue[1..] else [t.Queued(h, |p.out| + n)] + p.queue[1..]
  {
    hide Wrap, Tiling.Waiting;
  }

  /** The list after n more bytes of its first tile h have gone. */
  lemma WaitingAdvances(t: Tiling, arrived: set<nat>, pos: nat, n: nat, h: nat)
    requires t.Valid() && h < t.Count() && h in arrived && t.cuts[h] <= pos < t.cuts[h + 1] && pos + n <= t.cuts[h + 1]
    requires forall k :: 0 <= k < h ==> k !in arrived || t.cuts[k + 1] <= pos
    ensures var rest := t.Waiting(arrived, pos, h + 1);
            t.Waiting(arrived, pos + n, 0)
            == if pos + n == t.cuts[h + 1] then rest else [t.Queued(h, pos + n)] + rest
  {
    WaitingLater(t, arrived, pos, pos + n, h + 1);
    WaitingSkip(t, arrived, pos + n, 0, h);
  }

  lemma {:induction false} ForwardDetermined(t: Tiling, arrived: set<nat>, p: Pass, sends: nat -> SendResult)
    requires t.Valid() && Determined(t, arrived, Relay(p.queue, p.remoteSeq, p.out)) && AllValid(p.queue)
    ensures var r := Forward(p, sends); Determined(t, arrived, Relay(r.queue, r.remoteSeq, r.out))
    decreases |p.queue|
  {
    hide Wrap, Pass.Advance, Determined;
    if p.Ready() && sends(p.calls).Accepted? {
      var left := p.queue[0].len - p.queue[0].sent;
      var n := if sends(p.calls).n >= left then left else sends(p.calls).n;
      var h := QueueHead(t, arrived, p);
      AdvanceDetermined(t, arrived, p, n, h);
      AdvanceBudget(p, n);
      if n == left { ForwardDetermined(t, arrived, p.Advance(left), sends); }
    }
  }

  lemma QueueHead(t: Tiling, arrived: set<nat>, p: Pass) returns (h: nat)
    requires t.Valid() && Determined(t, arrived, Relay(p.queue, p.remoteSeq, p.out)) && p.queue != []
    ensures h < t.Count() && h in arrived && |p.out| < t.cuts[h + 1]
    ensures p.queue == [t.Queued(h, |p.out|)] + t.Waiting(arrived, |p.out|, h + 1)
    ensures forall k :: 0 <= k < h ==> k !in arrived || t.cuts[k + 1] <= |p.out|
  {
    h := FirstWaiting(t, arrived, |p.out|, 0);
  }

  // ---- Whole runs ----

  ghost predicate RunFits(t: Tiling, r: Relay, ops: seq<Op>)
    requires t.Valid()
    decreases |ops|
  {
    ops == [] || (OpFits(t, r, ops[0]) && RunFits(t, Step(t, r, ops[0]), ops[1..]))
  }

  ghost function Run(t: Tiling, r: Relay, ops: seq<Op>): Relay
    requires t.Valid() && RunFits(t, r, ops)
    decreases |ops|
  {
    if ops == [] then r else Run(t, Step(t, r, ops[0]), ops[1..])
  }

  ghost function Arrivals(ops: seq<Op>): set<nat> {
    if ops == [] then {} else (if ops[0].Arrive? then {ops[0].tile} else {}) + Arrivals(ops[1..])
  }

  lemma {:induction false} RunDetermined(t: Tiling, arrived: set<nat>, r: Relay, ops: seq<Op>)
    requires t.Valid() && RunFits(t, r, ops) && Determined(t, arrived, r)
    ensures Determined(t, arrived + Arrivals(ops), Run(t, r, ops))
    decreases |ops|
  {
    hide Determined, Step, OpFits;
    if ops == [] {
      assert arrived + Arrivals(ops) == arrived;
    } else {
      var next := StepDetermined(t, arrived, r, ops[0]);
      RunDetermined(t, next, Step(t, r, ops[0]), ops[1..]);
      assert next + Arrivals(ops[1..]) == arrived + Arrivals(ops);
    }
  }

  lemma StepDetermined(t: Tiling, arrived: set<nat>, r: Relay, op: Op) returns (next: set<nat>)
    requires t.Valid() && Determined(t, arrived, r) && OpFits(t, r, op)
    ensures next == arrived + (if op.Arrive? then {op.tile} else {})
    ensures Determined(t, next, Step(t, r, op))
  {
    hide Determined;
    match op
    case Arrive(j) =>
      ArriveDetermined(t, arrived, r, j);
      next := arrived + {j};
    case ForwardPass(budget, sends) =>
      ForwardDetermined(t, arrived, Pass(r.queue, r.remoteSeq, budget, r.out, false, false, 0), sends);
      next := arrived;
  }

  /** Whatever the order of arrival, duplicates and passes, the queue is the arrived tiles not yet forwarded, in
      order, and what went out is a prefix of the stream. */
  lemma AnyOrderSameQueue(t: Tiling, ops: seq<Op>)
    requires t.Valid() && RunFits(t, Start(t), ops)
    ensures var r := Run(t, Start(t), ops);
            r.out <= t.stream && r.queue == t.Waiting(Arrivals(ops), |r.out|, 0)
  {
    WaitingSkip(t, {}, 0, 0, t.Count());
    assert t.base + 0 == t.base;
    RunDetermined(t, {}, Start(t), ops);
    assert {} + Arrivals(ops) == Arrivals(ops);
  }

  /** Every send takes all it is given. */
  ghost predicate Full(sends: nat -> SendResult) {
    forall i :: sends(i).Accepted? && sends(i).n >= 0xFFFF
  }

  lemma CompleteHeadReady(t: Tiling, arrived: set<nat>, p: Pass)
    requires t.Valid() && Determined(t, arrived, Relay(p.queue, p.remoteSeq, p.out))
    requires (forall i :: 0 <= i < t.Count() ==> i in arrived) && p.budget > |t.stream| - |p.out|
    ensures AllValid(p.queue) && (p.queue != [] ==> p.Ready()) && (p.queue == [] ==> p.out == t.stream)
  {
    hide Wrap, Tiling.Waiting, Tiling.Valid;
    var pos := |p.out|;
    WaitingValid(t, arrived, pos, 0);
    if p.queue != [] {
      var h := QueueHead(t, arrived, p);
      CutBounds(t, h);
      if h > 0 {
        var k := h - 1;
        assert k in arrived && t.cuts[k + 1] <= pos;
      } else {
        CutBounds(t, 0);
      }
      WrapAdd(t.base + t.cuts[h], pos - t.cuts[h]);
    } else if pos < |t.stream| {
      SomeTile(t);
      LastWaits(t, arrived, pos, 0);
    }
  }

  lemma SomeTile(t: Tiling)
    requires t.Valid() && |t.stream| > 0
    ensures t.Count() > 0
  {
  }

  lemma {:induction false} LastWaits(t: Tiling, arrived: set<nat>, pos: nat, i: nat)
    requires t.Valid() && i < t.Count() && t.Count() - 1 in arrived && pos < |t.stream|
    ensures t.Waiting(arrived, pos, i) != []
    decreases t.Count() - i
  {
    if i + 1 < t.Count() { LastWaits(t, arrived, pos, i + 1); }
  }

  /** Completeness: once every tile has arrived, in whatever order, a pass with full sends and enough buffer empties
      the queue and has delivered the whole stream. */
  lemma EverythingDelivered(t: Tiling, ops: seq<Op>, budget: nat, sends: nat -> SendResult)
    requires t.Valid() && RunFits(t, Start(t), ops) && (forall i :: 0 <= i < t.Count() ==> i in Arrivals(ops))
    requires var r := Run(t, Start(t), ops); budget > |t.stream| - |r.out| && Full(sends)
    ensures var r := Run(t, Start(t), ops);
            var p := Forward(Pass(r.queue, r.remoteSeq, budget, r.out, false, false, 0), sends);
            p.queue == [] && p.out == t.stream
  {
    hide Determined;
    var r, arrived := Run(t, Start(t), ops), Arrivals(ops);
    StartDetermined(t);
    RunDetermined(t, {}, Start(t), ops);
    assert {} + arrived == arrived;
    PassDelivers(t, arrived, Pass(r.queue, r.remoteSeq, budget, r.out, false, false, 0), sends);
  }

  lemma PassDelivers(t: Tiling, arrived: set<nat>, p: Pass, sends: nat -> SendResult)
    requires t.Valid() && Determined(t, arrived, Relay(p.queue, p.remoteSeq, p.out)) && AllValid(p.queue)
    requires (forall i :: 0 <= i < t.Count() ==> i in arrived) && p.budget > |t.stream| - |p.out| && Full(sends)
    ensures var q := Forward(p, sends); q.queue == [] && q.out == t.stream
  {
    hide Determined;
    CompleteHeadReady(t, arrived, p);
    ForwardDetermined(t, arrived, p, sends);
    var q := Forward(p, sends);
    ForwardBudget(p, sends);
    CompleteHeadReady(t, arrived, q);
    assert q.calls > 0 ==> sends(q.calls - 1).n >= 0xFFFF;
  }

  lemma StartDetermined(t: Tiling)
    requires t.Valid()
    ensures Determined(t, {}, Start(t))
  {
    WaitingSkip(t, {}, 0, 0, t.Count());
    assert t.base + 0 == t.base;
  }
}
