# Verification of the tun2http relay

A Dafny model of the native half of tun2http, the part that turns the packets of a tun device into connections to an
HTTP proxy, and of the address arithmetic of its VPN service, with proofs of what this code is meant to guarantee.
`dafny verify dfyconfig.toml` checks all of it.

| file | about |
|---|---|
| `Wire.dfy`, `Bits.dfy`, `Serial.dfy`, `Nodes.dfy` | bytes and their layouts; powers of two and masks; 32-bit sequence numbers; nodes of linked lists |
| `Segments.dfy`, `Stream.dfy`, `Tiling.dfy` | the queue of segments: order, stream content, independence of arrival order |
| `Tcp.dfy` | the TCP session as step functions on a value, with the history of the run |
| `TcpRuns.dfy`, `TcpSequence.dfy`, `TcpPeer.dfy`, `TcpAcks.dfy`, `TcpWindow.dfy`, `TcpReceive.dfy`, `TcpTiling.dfy` | what holds on every run of those steps |
| `TcpMonitor.dfy`, `TcpReactions.dfy` | how a session reacts to single events, and what it waits for |
| `TcpSession.dfy` | the session as an object updated in place with its linked list, proved to take those steps |
| `TcpRelay.dfy` | the object driven through whole runs |
| `Sessions.dfy`, `SessionTimes.dfy`, `SessionTable.dfy` | the session list: values and runs; timeouts and ends; the linked list edited in place |
| `Checksum.dfy`, `Packets.dfy` | the Internet checksum and the packets that carry it |
| `Tls.dfy`, `TlsHello.dfy` | finding the server name; the ClientHello grammar it is measured by |
| `Http.dfy`, `HttpRewrite.dfy` | rewriting a request to absolute form |
| `Cidr.dfy`, `CidrResults.dfy` | ranges of addresses as lists of blocks |

Everything the kernel decides is an input of a step and arbitrary: event masks, the results of send, recv, epoll_ctl
and of writes to the tun device, the free socket buffer, the clock, random numbers. The theorems about runs quantify
over every sequence of packets, socket events, monitoring and sweeps.

Three readings of the C code are used throughout. The subtraction in `compare_u32` is the mathematical one, so that its
second arm can be reached. The clamp `sent > len` (android_app/app/src/main/cpp/tcp.c:325) compares signed values, so
that a failed send reaches its error branch. A send on a closed descriptor fails, and epoll reports nothing for one.

Some expected properties do not hold of the code as it is. For each there is a lemma with the input that shows it, and
one that says exactly when the property does hold:

- `compare_u32` differs from RFC 1982 for one family of numbers 2^31 - 1 apart;
- one acknowledgment can move `acked` backwards;
- the receive window can overstate the buffer, when the 32-bit sum of the queue wraps;
- a UDP datagram over IPv6 whose sum is all ones goes out with a zero checksum and is discarded;
- a request is rewritten after its own method only if no method that is tried earlier occurs anywhere in it;
- the host is that of the Host line only if "Host: " does not occur before that line;
- a request that ends in the first letters of a method can make the length left to copy negative.

The comment of `check_allowed`'s caller speaks of sessions "not allowed anymore"
(android_app/app/src/main/cpp/session.c:55); the code ends every session, and so does the model.

## Model

| member | source | states |
|---|---|---|
| TcpSequence.RunInOrder | android_app/app/src/main/cpp/tcp.c:297-358 | On every run away from ports 80 and 443, for any order, overlap and repetition of segments cut from one peer stream and any partial, retried or failed sends, the bytes handed to the socket are a prefix of that stream; while the session is alive `remote_seq` is the end of that prefix plus the SYN and FIN counted so far; the queue is strictly ascending |
| TcpSequence.RunAccounts | android_app/app/src/main/cpp/tcp.c:287-291 | On every run away from port 443, `remote_seq` and `local_seq` are their start plus the bytes forwarded or received plus a number of SYNs and FINs fixed by the state (and, in CLOSE_WAIT, by whether the queue has drained) |
| TcpSequence.ForwardCounts | android_app/app/src/main/cpp/tcp.c:342-350 | A forwarding pass moves `remote_seq` by exactly the bytes it sends, and reports progress when it empties the queue |
| TcpPeer.RunStreamed | android_app/app/src/main/cpp/tcp.c:435-443 | The download direction, on every run and every port: the data of all packets written is exactly what was read from the proxy, in order, cut to the segment size, and every packet has the number at which the packets sent before it end; away from port 443 the packet with the bytes from index k on, and the FIN, have the k-th number after the SYN |
| TcpPeer.NewSessionSends | android_app/app/src/main/cpp/tcp.c:619-656 | The session registered for a SYN satisfies the assumptions of `TcpPeer.RunStreamed` |
| TcpAcks.RunAnswers | android_app/app/src/main/cpp/tcp.c:1167-1176 | On every run away from port 443, every acknowledgment written by a live session is exactly the bytes delivered by then, plus the SYN, plus the FIN if one has been read and the queue is empty (a keep alive one less), and one written by a closing session is no more, so that nothing undelivered is ever acknowledged; and a live session is in CLOSE_WAIT or LAST_ACK if and only if a FIN has been read, which happens at most once |
| TcpAcks.RunSettled | android_app/app/src/main/cpp/tcp.c:382-388 | On every run away from port 443, once a FIN has been read and the queue has drained, a packet that acknowledges it has been sent |
| TcpAcks.PacketReaction | android_app/app/src/main/cpp/tcp.c:785-894 | Away from port 443 the state follows the diagram `TcpAcks.NextState` of FIN, RST, ACK and SYN packets, and the next expected number counts the FIN that is read unless data is still queued |
| TcpAcks.FinAnswered | android_app/app/src/main/cpp/tcp.c:814-833 | A FIN that is read is answered by one acknowledgment of the next expected number, or by nothing while data is queued |
| TcpAcks.DrainAnswered | android_app/app/src/main/cpp/tcp.c:380-388 | The pass that drains the queue behind a FIN counts it and writes the acknowledgment |
| TcpAcks.NewSessionRegular | android_app/app/src/main/cpp/tcp.c:619-656 | The session registered for a SYN satisfies the assumptions of `TcpAcks.RunAnswers` and `TcpAcks.RunSettled` |
| TcpMonitor.WaitsToWrite | android_app/app/src/main/cpp/tcp.c:121-129 | Where data flows, a monitored session waits to write if and only if a pass over its queue with that buffer would send something |
| TcpMonitor.WaitsToRead | android_app/app/src/main/cpp/tcp.c:105-119 | Where data flows, it waits to read if and only if a readable socket would be read |
| TcpMonitor.WaitsElsewhere | android_app/app/src/main/cpp/tcp.c:95-102 | In LISTEN it waits for the answer exactly if CONNECT has been sent on port 443 and otherwise to be connected, in other states for errors alone |
| TcpMonitor.KeepsAlive | android_app/app/src/main/cpp/tcp.c:108-119 | A keep alive that acknowledges one less is written if and only if the window of the peer is used up and the last one is more than 100 ms ago |
| TcpMonitor.MonitorState | android_app/app/src/main/cpp/tcp.c:132-140 | Monitoring changes the state only to CLOSING, when a keep alive cannot be written or epoll refuses |
| TcpMonitor.SynAnswered | android_app/app/src/main/cpp/tcp.c:286-293 | The first socket event of a session that is neither error nor input answers the SYN with one SYN-ACK of the right numbers |
| TcpMonitor.ConnectAnswered | android_app/app/src/main/cpp/tcp.c:264-285 | One of the two accepted answers opens a session that has asked; any other answer, and a failed read, resets it |
| TcpMonitor.ConnectRequested | android_app/app/src/main/cpp/tcp.c:719-768 | CONNECT is sent once, as soon as a host name is known, or the session is reset; until the answer packets are only queued |
| TcpMonitor.ResetsSent | android_app/app/src/main/cpp/tcp.c:771-894 | A reset answers exactly the packets for sessions that are over, data that cannot be taken, and acknowledgments of something never sent |
| TcpReactions.ReadOutcome | android_app/app/src/main/cpp/tcp.c:390-446 | With the window of the peer open, bytes read go out in one packet as far as window and segment size allow, an error resets unless it is to be retried, and the end of the stream closes the descriptor and sends a FIN, or a reset if data is still queued |
| TcpReactions.ProgressAcknowledged | android_app/app/src/main/cpp/tcp.c:372-388 | A step that delivers something, or opens the window again, writes an acknowledgment with the new window |
| TcpReactions.FailedSend | android_app/app/src/main/cpp/tcp.c:329-338 | A send that fails for good resets the peer, one to be retried does not, and nothing else does in such a step |
| TcpReactions.SocketError | android_app/app/src/main/cpp/tcp.c:221-235 | An error on the socket resets the peer |
| TcpReactions.PacketRefreshes | android_app/app/src/main/cpp/tcp.c:782-783 | Every packet of a live session that is not urgent refreshes its idle time and the window of the peer |
| TcpReactions.AckTaken | android_app/app/src/main/cpp/tcp.c:836-885 | Which packets move the acknowledged number, and where to |
| TcpReactions.ReceiveWindowExact | android_app/app/src/main/cpp/tcp.c:174-194 | Without wrap the receive window is all of the buffer that is not spoken for, up to what 16 scaled bits can say, or nothing below one unit of the scale |
| TcpRuns.RunLifecycle | android_app/app/src/main/cpp/tcp.c:410-433 | On every run the descriptor is closed at most once and exactly when the states say so, and CLOSE is never left; there are at most 12 transitions, and away from port 443 at most 6, each of which climbs a rank |
| TcpRuns.DeletedIsClosed | android_app/app/src/main/cpp/tcp.c:62-88 | A session is given up for deletion only in CLOSE and with its descriptor closed, once |
| TcpRuns.RunGate | android_app/app/src/main/cpp/tcp.c:732-768 | On every run a port-443 session is in ESTABLISHED, CLOSE_WAIT, FIN_WAIT1 or LAST_ACK only after one of the two accepted 200 answers of the proxy was read |
| TcpRuns.StepGate | android_app/app/src/main/cpp/tcp.c:275-285 | In one step `connect_sent` only moves from NOT_SENT to SENT to ESTABLISHED |
| TcpWindow.RunInside | android_app/app/src/main/cpp/tcp.c:394-442 | On every run, every data or FIN packet ever written ended inside the peer's window as it stood then, across wraparound |
| TcpWindow.RunWindow | android_app/app/src/main/cpp/tcp.c:874-885 | At the end of every run that never reads the misjudged acknowledgment (`TcpWindow.Misread`), at most 65535 scaled by `send_scale` is unacknowledged in the states where data flows |
| TcpWindow.StepAdvances | android_app/app/src/main/cpp/tcp.c:809-894 | A step that starts where data flows leaves `acked` or moves it towards `local_seq` as it was before the step, if and only if it does not read the misjudged acknowledgment |
| TcpWindow.RunAdvances | android_app/app/src/main/cpp/tcp.c:809-894 | Throughout a run `acked` only advances, and after every step at most one scaled window is unacknowledged where data flows, if and only if the run never reads the misjudged acknowledgment |
| TcpWindow.OlderAckMovesForward | android_app/app/src/main/cpp/tcp.c:874-888 | An acknowledgment of something older moves `acked` towards `local_seq` or leaves it if and only if it is not the one misjudged triple `local_seq` 0x80000000, `acked` 0x7FFFFFFF, acknowledgment 0 |
| TcpWindow.CornerMovesBack | android_app/app/src/main/cpp/tcp.c:874-886 | For that triple `acked` jumps back by half the circle |
| TcpWindow.MisreadReached | android_app/app/src/main/cpp/tcp.c:874-886 | It is reached: from every new session with initial number 0x7FFFFFFE away from port 443, four events (SYN-ACK, its acknowledgment, one byte read, an acknowledgment of 0) leave an established session with `acked` 0 and `local_seq` 0x80000000 |
| TcpWindow.SendWindowExact | android_app/app/src/main/cpp/tcp.c:145-150 | While the peer is at most 2^30 behind, the send window is what is left of the peer's window, and never negative |
| TcpReceive.ReceiveWindowFits | android_app/app/src/main/cpp/tcp.c:174-194 | A nonzero receive window plus everything queued and unsent fits the free buffer if and only if the 32-bit sum of the queued bytes has not wrapped; the descriptor is then open |
| TcpReceive.WrappedSumOverstates | android_app/app/src/main/cpp/tcp.c:176-180 | Such a wrap can be reached: from every established session with an empty queue away from port 443 there is a run of data packets of at most 9960 bytes after which 2^32 bytes are queued in order, and every free buffer that the window scale can express is offered as if the queue were empty |
| TcpReceive.RunWindowField | android_app/app/src/main/cpp/tcp.c:1173 | On every run every packet ever written, keep-alives and resets included, carries a field that loses only the low scale bits of the window stored when it was written, whatever has been queued since, and is not zero for a nonzero window |
| TcpReceive.NewSessionFits | android_app/app/src/main/cpp/tcp.c:619-682 | The session registered for a SYN satisfies every assumption of the run theorems |
| Segments.EnqueueKeepsOrder | android_app/app/src/main/cpp/tcp.c:912-966 | Every insertion keeps the queue strictly ascending in serial order with no number twice, only the head partly sent and `sent <= len <=` bytes held, for numbers within half the circle |
| Segments.ForwardKeepsOrder | android_app/app/src/main/cpp/tcp.c:343-355 | Every forwarding pass keeps the same invariant, without any assumption on the numbers |
| Segments.PlaceLocated | android_app/app/src/main/cpp/tcp.c:917-959 | A new segment is put at its own position in the stream, before all larger and after all smaller ones; only an equal one takes its place, and only with longer data |
| Segments.ForwardBudget | android_app/app/src/main/cpp/tcp.c:299-357 | A pass sends less than the free buffer whenever it sends at all, accounts for every queued byte, and stops only at an empty queue, a gap, an oversized head, or a send that was short, retried or failed |
| Stream.EnqueueHolds | android_app/app/src/main/cpp/tcp.c:917-959 | Queueing a piece of the peer's stream leaves a queue of pieces of that stream at their positions, also when longer data replaces shorter data |
| Stream.ForwardHolds | android_app/app/src/main/cpp/tcp.c:299-357 | A forwarding pass hands over the next bytes of the stream and no others |
| Tiling.AnyOrderSameQueue | android_app/app/src/main/cpp/tcp.c:917-945 | For a stream cut into fixed non-empty segments that arrive in any order with any duplicates, between any passes, the queue is the arrived and not yet forwarded segments in order, whatever the order of arrival |
| Tiling.EverythingDelivered | android_app/app/src/main/cpp/tcp.c:300-357 | Once every segment has arrived, a pass with full sends and enough buffer empties the queue and has delivered the whole stream |
| TcpTiling.RunTiled | android_app/app/src/main/cpp/tcp.c:196-453 | The same for whole sessions away from ports 80 and 443: on every run of packets, socket events, monitoring and sweeps whose data packets carry the segments of one cut, the queue is the segments taken and not yet forwarded, in order |
| TcpTiling.NewSessionBegins | android_app/app/src/main/cpp/tcp.c:619-656 | The session registered for a SYN satisfies the assumptions of `TcpTiling.SameTilesSameQueue` and `TcpTiling.RunTiled` |
| TcpTiling.SameTilesSameQueue | android_app/app/src/main/cpp/tcp.c:917-945 | Two runs of sessions for the same stream on which the same segments were taken, in whatever order and between whatever other events, and equally much was delivered, end with the same queue and the same bytes delivered |
| TcpTiling.EverythingTakenDelivered | android_app/app/src/main/cpp/tcp.c:300-357 | Once a session that relays data has taken every segment, one writable event with full sends and enough buffer empties the queue and completes the stream |
| TcpSession.TcpSession.QueueTcp | android_app/app/src/main/cpp/tcp.c:912-966 | The search and insertion in the linked list, in place, keep it acyclic and turn the queue into `Enqueue` of the old queue |
| TcpSession.TcpSession.ForwardQueued | android_app/app/src/main/cpp/tcp.c:299-357 | The forwarding loop over the linked list has the queue, `remote_seq`, delivered bytes and outcome of `Forward` on the old queue |
| TcpSession.TcpSession.CheckSocket | android_app/app/src/main/cpp/tcp.c:196-453 | The whole new state of the session object is `CheckSocket` of the old one |
| TcpSession.TcpSession.HandlePacket | android_app/app/src/main/cpp/tcp.c:582-905 | The whole new state of the session object is `HandlePacket` of the old one |
| TcpSession.TcpSession.Monitor | android_app/app/src/main/cpp/tcp.c:91-143 | The whole new state, with the events waited for, is `Monitor` of the old one |
| TcpSession.TcpSession.CheckSession | android_app/app/src/main/cpp/tcp.c:32-89 | The whole new state and the verdict on deletion are `CheckSession` of the old one |
| TcpSession.TcpSession.GetReceiveWindow | android_app/app/src/main/cpp/tcp.c:174-194 | The 32-bit accumulation over the list gives `ReceiveWindow` |
| TcpSession.TcpSession.GetSendWindow | android_app/app/src/main/cpp/tcp.c:145-150 | With at most 2^30 bytes outstanding, what is left of the peer's window: the window less the circular distance from `acked` to `local_seq`, or zero |
| TcpRelay.Drive | android_app/app/src/main/cpp/session.c:89-263 | Driven by any sequence of events, the session object ends in the state that the run of the step functions gives |
| TcpRelay.Relay | android_app/app/src/main/cpp/tcp.c:582-693 | A session object from SYN to any later point: away from ports 80 and 443 it has handed the proxy a prefix of the peer's stream; away from port 443 every acknowledgment was true; on every port the packets written carry what was read from the proxy, inside the peer's window, and tell the session's own, and its descriptor was closed at most once |
| Sessions.ReachableUnique | android_app/app/src/main/cpp/session.c:89-263 | In every state reachable by packets, socket events, monitoring, sweeps, restarts and clearing there is at most one TCP and one UDP session per version, addresses and ports, and at most one ICMP session per version and addresses that is not stopped |
| Sessions.KeptThins | android_app/app/src/main/cpp/session.c:123-168 | A sweep keeps exactly the sessions whose check does not delete them, each in its checked form, in their old order |
| Sessions.SweepMeetsDeadlines | android_app/app/src/main/cpp/session.c:117-168 | With one reading of the clock, after a sweep no active session is past its load-scaled timeout; the poll timeout is positive and either the default or exactly one second beyond the earliest remaining deadline |
| Sessions.PollTimeoutIsLeast | android_app/app/src/main/cpp/session.c:130-150 | The computed poll timeout is the least of its start and of what the active survivors have left, plus one second |
| SessionTimes.ScaledShape | android_app/app/src/main/cpp/tcp.c:26-27 | A timeout is whole while there are no sessions, nothing when the table is full, never more with more sessions, and between nothing and the whole up to a full table |
| SessionTimes.ScaledShare | android_app/app/src/main/cpp/udp.c:10-11 | In between it is the free share of the table, to the percent, in whole seconds |
| SessionTimes.IdleSurvives | android_app/app/src/main/cpp/tcp.c:17-60 | While the table is empty, a live session survives a sweep unchanged if it has not been idle for more than 30, 3600 or 30 seconds by TCP state, 300 or (DNS) 15 for UDP and 15 for ICMP, and is ended under every load if it has; in a full table one idle second ends it |
| SessionTimes.Lingers | android_app/app/src/main/cpp/tcp.c:84-88 | A TCP session in CLOSE is deleted when it has lingered for more than 300 seconds, a UDP session that is over after 60, a stopped ICMP session at once, and nothing else is deleted |
| SessionTimes.DatagramEnds | android_app/app/src/main/cpp/udp.c:66-129 | A UDP session goes on after a socket event unless that is an error, fatal, the end of the stream, or the answer of a DNS server |
| SessionTimes.EchoEnds | android_app/app/src/main/cpp/icmp.c:46-129 | The same for ICMP without the last |
| SessionTimes.DatagramArrives | android_app/app/src/main/cpp/udp.c:239-366 | What a UDP packet leaves: one session for its flow, live unless the send failed, and all others as they were; or nothing new |
| SessionTimes.EchoArrives | android_app/app/src/main/cpp/icmp.c:154-268 | The same for an ICMP echo request |
| SessionTimes.SynArrives | android_app/app/src/main/cpp/tcp.c:582-693 | A SYN of an unknown flow opens a session at the front with the numbers and windows of the packet, and no other packet of an unknown flow changes the list |
| SessionTimes.AllEnd | android_app/app/src/main/cpp/session.c:286-356 | After a restart every session is over and no blocked one is left |
| Sessions.CheckOutcome | android_app/app/src/main/cpp/udp.c:16-64 | A session that stays active is unchanged and not late; one that is deleted has its descriptor closed (ICMP, UDP and TCP) |
| SessionTable.SessionTable.Sweep | android_app/app/src/main/cpp/session.c:122-168 | The trailing-pointer sweep edits the linked list in place into the survivors, keeps the uniqueness invariant, and returns a poll timeout that no active survivor's deadline undercuts by more than the extra second |
| SessionTable.SessionTable.CheckSession | android_app/app/src/main/cpp/icmp.c:16-44 | The checked session and the verdict on deletion are `Check` of the old session, for ICMP, UDP and TCP |
| SessionTable.SessionTable.Count | android_app/app/src/main/cpp/session.c:95-115 | The count is the number of active sessions before monitoring, and every open TCP session is monitored |
| SessionTable.SessionTable.EndAll | android_app/app/src/main/cpp/session.c:286-356 | Blocked UDP sessions are unlinked and all others ended, in place and in order |
| SessionTable.SessionTable.HandleTcp | android_app/app/src/main/cpp/tcp.c:530-755 | Lookup, or insertion at the head on a SYN, keeps one TCP session per flow; the list becomes `TcpArrives` of the old list |
| SessionTable.SessionTable.HandleUdp | android_app/app/src/main/cpp/udp.c:217-366 | The same for UDP: sessions that are ending ignore packets, unknown flows get a session, a failed send ends it |
| SessionTable.SessionTable.HandleIcmp | android_app/app/src/main/cpp/icmp.c:154-268 | The same for ICMP echo requests, where stopped sessions are passed over |
| SessionTable.SessionTable.HandleReady | android_app/app/src/main/cpp/udp.c:66-129 | A socket event turns the one session it is for into `OnReady` of it (ICMP, UDP and TCP) and no other |
| Serial.CompareAgreesWithRfc1982 | android_app/app/src/main/cpp/util.c:26-38 | Away from antipodal numbers, `compare_u32` orders as section 3.2 of RFC 1982 does if and only if the numbers are not exactly 2^31 - 1 steps apart without a signed wrap; in that family it answers 1 both ways |
| Serial.CompareDisagreesSomewhere | android_app/app/src/main/cpp/util.c:26-38 | A concrete pair of that family |
| Serial.CompareIsTotalOrder | android_app/app/src/main/cpp/util.c:26-38 | A strict total order on any numbers within less than half the circle of a base |
| Serial.CompareOffsets | android_app/app/src/main/cpp/util.c:26-38 | On wrapped positions less than half the circle apart the comparison is the order of the positions |
| Checksum.CalcChecksum | android_app/app/src/main/cpp/util.c:7-24 | The loops with their 32-bit register compute the folded sum of the start value and the buffer |
| Checksum.FoldValue | android_app/app/src/main/cpp/util.c:19-21 | Folding picks the representative modulo 65535 that is zero only for zero |
| Checksum.FoldContinues | android_app/app/src/main/cpp/util.c:19-21 | Carries may be folded early: fold(fold(x) + y) = fold(x + y) |
| Checksum.SumContinues | android_app/app/src/main/cpp/tcp.c:1191-1195 | Continuing over a second buffer equals one pass over both, when the first has even length |
| Checksum.NoOverflow | android_app/app/src/main/cpp/util.c:8-17 | The 32-bit register does not overflow for buffers of up to 131072 bytes |
| Checksum.LongBufferWraps | android_app/app/src/main/cpp/util.c:8-17 | A longer buffer of all ones wraps the register to zero |
| Checksum.ZeroOnlyForZeros | android_app/app/src/main/cpp/util.c:7-24 | The result is 0 if and only if the start and all bytes are 0 |
| Checksum.ByteOrderIndependent | android_app/app/src/main/cpp/util.c:12-23 | The sum over little-endian words is the byte swap of the sum over big-endian words (section 2(B) of RFC 1071) |
| Packets.ChainedChecksumVerifies | android_app/app/src/main/cpp/tcp.c:1123-1195 | Storing the complement of the sum chained over pseudo header, header and data of any length makes a receiver's single pass give 0xFFFF |
| Packets.SenderPseudoSum | android_app/app/src/main/cpp/tcp.c:1134-1159 | The pseudo header as the sender lays it out sums to that of the receiver, for IPv4 and IPv6 |
| Packets.BuildTcp | android_app/app/src/main/cpp/tcp.c:1160-1195 | Every emitted TCP segment, with any fields, options and payload, is accepted by a receiver of its pseudo header |
| Packets.TcpReads | android_app/app/src/main/cpp/tcp.c:1162-1189 | A receiver reads ports, numbers, header length, flags, window and data of an emitted segment back from their positions |
| Packets.FlagBits | android_app/app/src/main/cpp/tcp.c:1169-1172 | Each flag is its own bit, and the bits of PSH and URG are never set |
| Packets.BuildUdp | android_app/app/src/main/cpp/udp.c:428-506 | Every emitted UDP datagram sums to all ones with its pseudo header; a receiver accepts it if and only if it goes over IPv4 or the sum before the complement is not 0xFFFF, for otherwise the stored checksum is zero, which section 8.1 of RFC 8200 has IPv6 receivers discard |
| Packets.ZeroChecksumSent | android_app/app/src/main/cpp/udp.c:503-506 | A datagram of ten bytes over IPv6 for which this happens |
| Packets.UdpReads | android_app/app/src/main/cpp/udp.c:497-501 | A receiver reads ports, length and data of an emitted datagram back from their positions |
| Packets.BuildIp4 | android_app/app/src/main/cpp/tcp.c:1108-1124 | Every emitted IPv4 header is accepted |
| Packets.RewriteIcmp | android_app/app/src/main/cpp/icmp.c:104-120 | After the identifier of an IPv4 ICMP message is replaced the message is accepted and nothing but identifier and checksum has changed |
| Tls.ParseTlsHeader | android_app/app/src/main/cpp/tls.c:87-183 | On arbitrary bytes the parser terminates, reads only inside the data and writes only inside the name buffer, which then holds the name the search functions find, or is untouched |
| TlsHello.HelloParses | android_app/app/src/main/cpp/tls.c:87-183 | Round trip: for every serialized ClientHello (section 7.4.1.2 of RFC 5246, section 3 of RFC 6066) with any session id, ciphers, compressions, preceding extensions and preceding other names, exactly the first host name is found, cut to 255 bytes |
| TlsHello.HelloNameStored | android_app/app/src/main/cpp/tls.c:44-49 | A name of 1 to 255 bytes without NUL ends up as the C string in the buffer, whatever was in it before |
| TlsHello.FoundWasSerialized | android_app/app/src/main/cpp/tls.c:87-183 | Conversely, whenever a name is found the data starts with a serialized ClientHello whose first host name it is |
| Http.FindData | android_app/app/src/main/cpp/http.c:93-115 | The nested loops find the least position that is compared and matches without regard to case |
| Http.PatchHttpUrl | android_app/app/src/main/cpp/http.c:119-193 | Unless the chosen method runs over the end of the request, the buffer holds the rewritten request and its length is returned, or the buffer is untouched |
| Http.OverrunExactly | android_app/app/src/main/cpp/http.c:166-186 | The length left to copy is negative if and only if a Host header is found and the first place of the first method found reaches over the end of the request, not followed by "http:" |
| HttpRewrite.WordRunsOver | android_app/app/src/main/cpp/http.c:166-186 | A request of eleven bytes for which this happens |
| HttpRewrite.EndsInNoLetter | android_app/app/src/main/cpp/http.c:166-186 | It never happens to a request that ends in anything but a letter |
| HttpRewrite.RewriteIsAbsolute | android_app/app/src/main/cpp/http.c:137-192 | A request in origin form with a Host header becomes the request with "http://" and the host between method and target, if and only if no method that is tried earlier is found anywhere in it |
| HttpRewrite.EarlierWordMisplaces | android_app/app/src/main/cpp/http.c:139-156 | A POST request in origin form that is not put into absolute form, because GET occurs in its target |
| HttpRewrite.RewriteRestores | android_app/app/src/main/cpp/http.c:180-188 | Deleting the inserted span gives back the request |
| HttpRewrite.RewriteOnce | android_app/app/src/main/cpp/http.c:170-178 | With a space-free host, rewriting the rewritten request reports it as already patched |
| HttpRewrite.HostIsField | android_app/app/src/main/cpp/http.c:125-131 | The host taken is the header field up to its CR if and only if that comes within 511 bytes |
| HttpRewrite.HostContent | android_app/app/src/main/cpp/http.c:125-131 | The host taken is the field up to its CR, or its first 511 bytes |
| HttpRewrite.HostOfLine | android_app/app/src/main/cpp/http.c:123-126 | The host is taken from a given Host line if and only if "Host: " does not occur before it |
| HttpRewrite.OtherHeaderTaken | android_app/app/src/main/cpp/http.c:123-131 | A request whose host is taken from a header with a longer name |
| HttpRewrite.LowerCaseHostMissed | android_app/app/src/main/cpp/http.c:93-115 | A Host header within the request is only found if its first letter is a capital |
| Cidr.ToCidr | android_app/app/src/main/java/com/tun2http/app/utils/IPUtil.java:23-46 | The loops, including the search for the alignment prefix, produce the greedy decomposition of the range |
| Cidr.AlignmentPrefix | android_app/app/src/main/java/com/tun2http/app/utils/IPUtil.java:26-32 | The inner loop finds the largest block size the address is aligned to |
| Cidr.MaskTestsAlignment | android_app/app/src/main/java/com/tun2http/app/utils/IPUtil.java:49-51 | Masking with a prefix keeps an address if and only if it is aligned to the block |
| Cidr.PlusMinusInverse | android_app/app/src/main/java/com/tun2http/app/utils/IPUtil.java:74-80 | `plus1` and `minus1` undo each other, at both ends of the address space too |
| Cidr.CompareToOrders | android_app/app/src/main/java/com/tun2http/app/utils/IPUtil.java:113-118 | `compareTo` orders blocks by address and is zero for equal addresses alone |
| Cidr.OctetsOfValue | android_app/app/src/main/java/com/tun2http/app/utils/IPUtil.java:53-72 | Converting an address to a number and back gives the address |
| CidrResults.ToCidrPartition | android_app/app/src/main/java/com/tun2http/app/utils/IPUtil.java:23-41 | For every IPv4 range, /0 included: every block starts at its own address, each next start is `plus1` of the previous end, first start and last end are those of the range, the list ascends strictly under `compareTo`, and it is empty only for an empty range |
| CidrResults.GreedyIsOptimal | android_app/app/src/main/java/com/tun2http/app/utils/IPUtil.java:25-41 | No partition of the range into aligned power-of-two blocks has fewer blocks, and no other has as few |
| CidrResults.GreedyShape | android_app/app/src/main/java/com/tun2http/app/utils/IPUtil.java:25-41 | Block sizes rise strictly and then fall strictly, with at most one equal pair at the peak, and there are at most 62 |

## Left out

- TcpSequence.RunInOrder: ports 80 and 443 are excluded: on port 80 the bytes sent are rewritten ones while the originals are accounted for, and on port 443 the bytes before the CONNECT answer are held back; peer segments lie inside a window of 2^30 bytes and a SYN carries no data.
- TcpAcks.RunAnswers: port 443 is excluded as for `TcpSequence.RunAccounts`; the number of a FIN packet is not looked at, as in the code.
- TcpSequence.RunAccounts: port 443 is excluded, where sending CONNECT puts a session back into LISTEN, so that a repeated SYN or a second SYN-ACK is counted again.
- TcpRuns.RunLifecycle: on port 443 a transition need not climb, for sending CONNECT goes back to LISTEN, once.
- TcpWindow.RunWindow: a run that reads the misjudged acknowledgment is excluded, because more than a window is then unacknowledged (`TcpWindow.RunAdvances`); that nothing is written outside the window holds there too.
- TcpWindow.OlderAckMovesForward: assumes at most 2^30 bytes outstanding, which holds on every run up to the first misjudged acknowledgment (`TcpWindow.RunAdvances`).
- TcpTiling.RunTiled: ports 80 and 443 are excluded as for `TcpSequence.RunInOrder`; every data packet lies inside a window of 2^30 bytes.
- Segments.EnqueueKeepsOrder: assumes numbers within less than half the circle; wider ones are not ordered by `compare_u32`.
- Tiling.EverythingDelivered: assumes the fixed segment boundaries of one sender; a longer retransmission keeps the length of the segment it replaces, so its extra bytes are not forwarded by that pass.
- Checksum.ZeroOnlyForZeros: for buffers of up to 131072 bytes, more than any packet; beyond that `Checksum.LongBufferWraps` applies.
- Http.PatchHttpUrl: when a method runs over the end of the request (`Http.RunsOver`) the C code copies a wrapped-around length, which is undefined; the precondition excludes that and a request that does not fit the static buffer. Bytes beyond what can be read are taken not to match.
- Sessions.SweepMeetsDeadlines: one reading of the clock stands for the several calls of time() in a sweep; the check that sweeps at most every 100 ms and the shorter poll after a skipped sweep are not modelled. The limit on sessions is positive.
- SessionTable.SessionTable.HandleTcp: a node holds the TCP session as a value; that the object with its own list behaves as this value is proved in TcpSession. The reset for an unknown flow does not touch the list and is not modelled.
- TcpSession.TcpSession.CheckSocket: the byte counters shown to users, log lines and freeing of memory are not modelled, nor is draining the rest of the CONNECT answer.
- Cidr.ToCidr: addresses are IPv4; the logarithm is the exact floor of the base-2 logarithm, not a quotient of floating-point logarithms.
- Data on a SYN, and the loop over TCP options that reads `mss` and the window scale; the scale is at most 14 (section 2.3 of RFC 7323).
- The JNI entry points, the Java service, activities and receivers, threads and the stop pipe: platform plumbing.
- System calls (epoll, send, recv, ioctl, getsockopt, the reading of /proc): their results are inputs.
- `handle_ip` with `has_udp_session` and the walk over IPv6 extension headers, the IPv6 ICMP pseudo header, `dhcp.c` and `dns.c`.
- `get_header`, `next_header` and `block_udp`, which the relay does not use; a blocked UDP session is still a state the list handles.
- Host name lookup for CONNECT: whether a name is known is an input.
