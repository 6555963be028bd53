/** The packets that `write_tcp`, `write_udp` and `write_icmp` put on the tun device, byte by byte, on a
    little-endian machine. The result of each builder passes the checksum test of a receiver, except that a UDP
    datagram over IPv6 whose sum is all ones goes out without a checksum. */
module Packets {
  import opened Serial
  import opened Wire
  import opened Checksum

  datatype Version = V4 | V6

  predicate AddressOf(v: Version, a: Bytes) {
    |a| == if v == V4 then 4 else 16
  }

  /** The endpoints as a session stores them, from the peer's point of view: `saddr` is the local application. */
  datatype Endpoints = Endpoints(version: Version, saddr: Bytes, source: u16, daddr: Bytes, dest: u16) {
    ghost predicate Valid() {
      AddressOf(version, saddr) && AddressOf(version, daddr)
    }
  }

  // ---- The receiver's side ----

  /** The pseudo header of section 3.1 of RFC 9293 and section 8.1 of RFC 8200. */
  function PseudoHeader(version: Version, src: Bytes, dst: Bytes, protocol: byte, len: nat): Bytes {
    match version
    case V4 => src + dst + [0, protocol] + Be16(len)
    case V6 => src + dst + Be32(len) + [0, 0, 0, protocol]
  }

  /** A receiver sums everything, checksum included, in one pass and expects all ones. */
  predicate Accepts(pseudo: Bytes, segment: Bytes) {
    Sum(0, pseudo + segment) == 0xFFFF
  }

  // ---- The sender's side ----

  /** The pseudo header as the code lays it out: for version 6 the addresses are swapped and the 16-bit length
      is stored in the first half of the 32-bit field. */
  function SenderPseudo(e: Endpoints, protocol: byte, len: nat): Bytes {
    match e.version
    case V4 => e.daddr + e.saddr + [0, protocol] + Be16(len)
    case V6 => e.saddr + e.daddr + Be16(len) + [0, 0] + [0, 0, 0, protocol]
  }

  lemma SenderPseudoSum(e: Endpoints, protocol: byte, len: nat)
    requires e.Valid() && len < 0x1_0000
    ensures WordSum(SenderPseudo(e, protocol, len)) == WordSum(PseudoHeader(e.version, e.daddr, e.saddr, protocol, len))
    ensures |SenderPseudo(e, protocol, len)| == |PseudoHeader(e.version, e.daddr, e.saddr, protocol, len)|
    ensures |SenderPseudo(e, protocol, len)| % 2 == 0 && |SenderPseudo(e, protocol, len)| <= 40
  {
    if e.version == V6 {
      var tail, half: Bytes := [0, 0, 0, protocol], [0, 0];
      WordSumAppend(e.saddr, e.daddr);
      WordSumAppend(e.daddr, e.saddr);
      WordSumAppend(e.saddr + e.daddr, Be16(len) + half + tail);
      WordSumAppend(e.daddr + e.saddr, Be32(len) + tail);
      assert SenderPseudo(e, protocol, len) == e.saddr + e.daddr + (Be16(len) + half + tail);
      assert PseudoHeader(V6, e.daddr, e.saddr, protocol, len) == e.daddr + e.saddr + (Be32(len) + tail);
      WordSumAppend(Be16(len) + half, tail);
      WordSumAppend(Be16(len), half);
      WordSumAppend(Be32(len), tail);
      WordSumAppend(half, Be16(len));
      assert Be32(len) == half + Be16(len);
    }
  }

  /** A header with a two-byte hole for the checksum. */
  function WithChecksum(before: Bytes, check: u16, after: Bytes): (h: Bytes)
    ensures |h| == |before| + 2 + |after|
    ensures |before| % 2 == 0 && |after| % 2 == 0 ==> |h| % 2 == 0
  {
    before + Le16(check) + after
  }

  lemma ChecksumWord(before: Bytes, check: u16, after: Bytes)
    requires |before| % 2 == 0
    ensures WordSum(WithChecksum(before, check, after)) == WordSum(WithChecksum(before, 0, after)) + check
  {
    WordSumAppend(before, Le16(check) + after);
    WordSumAppend(before, Le16(0) + after);
    WordSumAppend(Le16(check), after);
    WordSumAppend(Le16(0), after);
    assert before + Le16(check) + after == before + (Le16(check) + after);
    assert before + Le16(0) + after == before + (Le16(0) + after);
  }

  /** Storing the complement of the sum makes the total sum all ones. */
  lemma ComplementVerifies(total: nat, check: u16)
    requires check == 0xFFFF - Fold(total)
    ensures Fold(total + check) == 0xFFFF
  {
    if total > 0 {
      var q := FoldSplits(total);
      FoldUnique(total + check, q, 0xFFFF);
    }
  }

  /** The general argument: chain the sum over a pseudo header, a header whose checksum field is zero, and a
      payload of any length; store the complement; a receiver with an equal pseudo header accepts. */
  lemma ChainedChecksumVerifies(pseudo: Bytes, wire: Bytes, before: Bytes, after: Bytes, payload: Bytes, check: u16)
    requires |pseudo| % 2 == 0 && |before| % 2 == 0 && |after| % 2 == 0
    requires |pseudo| == |wire| && WordSum(pseudo) == WordSum(wire)
    requires |pseudo| + |before| + |after| + |payload| + 2 <= 0x2_0000
    requires check == 0xFFFF - Sum(Sum(Sum(0, pseudo), WithChecksum(before, 0, after)), payload)
    ensures Accepts(wire, WithChecksum(before, check, after) + payload)
  {
    ChecksumWord(before, check, after);
    HoleAndChain(pseudo, wire, WithChecksum(before, 0, after), WithChecksum(before, check, after), payload, check);
  }

  lemma HoleAndChain(pseudo: Bytes, wire: Bytes, hole: Bytes, header: Bytes, payload: Bytes, check: u16)
    requires |pseudo| % 2 == 0 && |hole| % 2 == 0 && |pseudo| == |wire| && |hole| == |header|
    requires |pseudo| + |hole| + |payload| <= 0x2_0000
    requires WordSum(pseudo) == WordSum(wire) && WordSum(header) == WordSum(hole) + check
    requires check == 0xFFFF - Sum(Sum(Sum(0, pseudo), hole), payload)
    ensures Accepts(wire, header + payload)
  {
    var all := wire + (header + payload);
    assert all == wire + header + payload;
    ThreeCalls(pseudo, hole, payload);
    FilledHoleVerifies(pseudo, wire, hole, header, payload, check, all);
  }

  lemma ThreeCalls(a: Bytes, b: Bytes, c: Bytes)
    requires |a| % 2 == 0 && |b| % 2 == 0 && |a| + |b| + |c| <= 0x2_0000
    ensures Sum(Sum(Sum(0, a), b), c) == Sum(0, a + b + c)
  {
    SumContinues(0, a, b);
    SumContinues(0, a + b, c);
  }

  lemma FilledHoleVerifies(pseudo: Bytes, wire: Bytes, hole: Bytes, header: Bytes, payload: Bytes, check: u16,
                           all: Bytes)
    requires |pseudo| % 2 == 0 && |hole| % 2 == 0 && |pseudo| == |wire| && |hole| == |header|
    requires |pseudo| + |hole| + |payload| <= 0x2_0000
    requires WordSum(pseudo) == WordSum(wire) && WordSum(header) == WordSum(hole) + check
    requires check == 0xFFFF - Sum(0, pseudo + hole + payload) && all == wire + header + payload
    ensures Sum(0, all) == 0xFFFF
  {
    WordSumOfThree(pseudo, hole, payload);
    WordSumOfThree(wire, header, payload);
    var sent := pseudo + hole + payload;
    ComplementSum(sent, all, check);
  }

  lemma ComplementSum(sent: Bytes, received: Bytes, check: u16)
    requires |sent| <= 0x2_0000 && |received| <= 0x2_0000
    requires WordSum(received) == WordSum(sent) + check && check == 0xFFFF - Sum(0, sent)
    ensures Sum(0, received) == 0xFFFF
  {
    SumIs(0, sent, WordSum(sent));
    SumIs(0, received, WordSum(received));
    ComplementVerifies(WordSum(sent), check);
  }

  lemma WordSumOfThree(a: Bytes, b: Bytes, c: Bytes)
    requires |a| % 2 == 0 && |b| % 2 == 0
    ensures WordSum(a + b + c) == WordSum(a) + WordSum(b) + WordSum(c)
  {
    WordSumAppend(a + b, c);
    WordSumAppend(a, b);
  }

  // ---- TCP ----

  datatype TcpFields = TcpFields(seqNo: u32, ackNo: u32, window: u16, syn: bool, ack: bool, fin: bool, rst: bool)

  function Flag(b: bool, value: byte): byte {
    if b then value else 0
  }

  function TcpFlags(f: TcpFields): byte {
    Flag(f.fin, 1) + Flag(f.syn, 2) + Flag(f.rst, 4) + Flag(f.ack, 16)
  }

  /** The header up to the checksum; an acknowledgment number is sent only with the ACK flag. */
  function TcpBefore(e: Endpoints, f: TcpFields): (b: Bytes)
    ensures |b| == 16
  {
    Be16(e.dest) + Be16(e.source) + Be32(f.seqNo) + Be32(if f.ack then f.ackNo else 0)
    + [if f.syn then 0x70 else 0x50, TcpFlags(f)] + Be16(f.window)
  }

  /** Urgent pointer and options; the maximum segment size is stored without a byte swap. */
  function TcpAfter(f: TcpFields, mss: u16, scale: byte): (b: Bytes)
    ensures |b| % 2 == 0 && |b| <= 10
  {
    [0, 0] + TcpOptions(f, mss, scale)
  }

  function TcpOptions(f: TcpFields, mss: u16, scale: byte): (b: Bytes)
    ensures |b| == if f.syn then 8 else 0
  {
    if f.syn then [2, 4] + Le16(mss) + [3, 3, scale, 0] else []
  }

  const IPPROTO_TCP: byte := 6
  const IPPROTO_UDP: byte := 17

  /** The TCP part of `write_tcp`: three chained calls after the pseudo header. */
  method BuildTcp(e: Endpoints, f: TcpFields, mss: u16, scale: byte, data: Bytes) returns (segment: Bytes)
    requires e.Valid() && |data| <= 0xFFFF - 28
    ensures exists check: u16 ::
      segment == TcpBefore(e, f) + Le16(check) + [0, 0] + TcpOptions(f, mss, scale) + data
    ensures Accepts(PseudoHeader(e.version, e.daddr, e.saddr, IPPROTO_TCP, |segment|), segment)
  {
    var options := TcpOptions(f, mss, scale);
    var len := 20 + |options| + |data|;
    var header := TcpBefore(e, f) + Le16(0) + [0, 0];
    var csum := CalcChecksum(0, SenderPseudo(e, IPPROTO_TCP, len));
    csum := CalcChecksum(csum, header);
    csum := CalcChecksum(csum, options);
    csum := CalcChecksum(csum, data);
    var check := 0xFFFF - csum;
    segment := TcpBefore(e, f) + Le16(check) + [0, 0] + options + data;

    TcpVerifies(e, f, mss, scale, data, check, segment);
  }

  lemma TcpVerifies(e: Endpoints, f: TcpFields, mss: u16, scale: byte, data: Bytes, check: u16, segment: Bytes)
    requires e.Valid() && |data| <= 0xFFFF - 28
    requires var options := TcpOptions(f, mss, scale);
             var c := Sum(0, SenderPseudo(e, IPPROTO_TCP, 20 + |options| + |data|));
             check == 0xFFFF - Sum(Sum(Sum(c, TcpBefore(e, f) + Le16(0) + [0, 0]), options), data)
    requires segment == TcpBefore(e, f) + Le16(check) + [0, 0] + TcpOptions(f, mss, scale) + data
    ensures Accepts(PseudoHeader(e.version, e.daddr, e.saddr, IPPROTO_TCP, |segment|), segment)
  {
    var options := TcpOptions(f, mss, scale);
    var pseudo := SenderPseudo(e, IPPROTO_TCP, |segment|);
    var header := TcpBefore(e, f) + Le16(0) + [0, 0];
    var after := TcpAfter(f, mss, scale);
    SenderPseudoSum(e, IPPROTO_TCP, |segment|);
    SumContinues(Sum(0, pseudo), header, options);
    assert header + options == WithChecksum(TcpBefore(e, f), 0, after);
    assert segment == WithChecksum(TcpBefore(e, f), check, after) + data;
    ChainedChecksumVerifies(pseudo, PseudoHeader(e.version, e.daddr, e.saddr, IPPROTO_TCP, |segment|),
                            TcpBefore(e, f), after, data, check);
  }

  /** The 32-bit number at a position, as a receiver reads it. */
  function U32At(b: Bytes, pos: nat): nat
    requires pos + 4 <= |b|
  {
    0x1_0000 * U16At(b, pos) + U16At(b, pos + 2)
  }

  /** A bit of a byte. */
  predicate Bit(b: byte, value: byte)
    requires value > 0
  {
    b / value % 2 == 1
  }

  lemma Be16Reads(x: nat, rest: Bytes)
    requires x < 0x1_0000
    ensures U16At(Be16(x) + rest, 0) == x
  {
    var hi: int, lo: int := x / 0x100 % 0x100, x % 0x100;
    assert x == 0x100 * hi + lo;
  }

  lemma ReadsBehind(a: Bytes, b: Bytes, pos: nat)
    requires pos + 2 <= |b|
    ensures U16At(a + b, |a| + pos) == U16At(b, pos)
  {
  }

  lemma FlagBits(f: TcpFields)
    ensures (Bit(TcpFlags(f), 1) <==> f.fin) && (Bit(TcpFlags(f), 2) <==> f.syn)
    ensures (Bit(TcpFlags(f), 4) <==> f.rst) && (Bit(TcpFlags(f), 16) <==> f.ack)
    ensures !Bit(TcpFlags(f), 8) && !Bit(TcpFlags(f), 32)
  {
  }

  /** The header of a segment from its front, each part followed by the rest. */
  ghost predicate Laid(s: Bytes, e: Endpoints, f: TcpFields, offset: byte, rest: Bytes) {
    var ack := if f.ack then f.ackNo else 0;
    s == Be16(e.dest) + (Be16(e.source)
         + (Be32(f.seqNo) + (Be32(ack) + ([offset, TcpFlags(f)] + (Be16(f.window) + rest)))))
  }

  lemma TcpIsLaid(e: Endpoints, f: TcpFields, rest: Bytes)
    ensures Laid(TcpBefore(e, f) + rest, e, f, if f.syn then 0x70 else 0x50, rest)
  {
    hide TcpFlags, Be16, Be32;
  }

  lemma LaidReads(s: Bytes, e: Endpoints, f: TcpFields, offset: byte, rest: Bytes)
    requires Laid(s, e, f, offset, rest) && f.seqNo < 0x1_0000_0000 && f.ackNo < 0x1_0000_0000
    ensures |s| == 16 + |rest| && s[12] == offset && s[13] == TcpFlags(f) && s[16..] == rest
    ensures U16At(s, 0) == e.dest && U16At(s, 2) == e.source && U32At(s, 4) == f.seqNo
    ensures U32At(s, 8) == (if f.ack then f.ackNo else 0) && U16At(s, 14) == f.window
  {
    hide TcpFlags, Be16, Be32, U16At, U32At;
    var ack := if f.ack then f.ackNo else 0;
    var p6 := Be16(f.window) + rest;
    var p5 := [offset, TcpFlags(f)] + p6;
    var p4 := Be32(ack) + p5;
    var p3 := Be32(f.seqNo) + p4;
    var p2 := Be16(e.source) + p3;
    assert s == Be16(e.dest) + p2;
    Be16Reads(e.dest, p2);
    Be16Reads(e.source, p3);
    ReadsBehind(Be16(e.dest), p2, 0);
    NumberAt(s, 4, f.seqNo, p4);
    NumberAt(s, 8, ack, p5);
    assert s[14..] == p6;
    Be16Reads(f.window, rest);
    ReadsBehind(s[..14], p6, 0);
    assert s[..14] + p6 == s;
  }

  /** A receiver reads the fields back from where section 3.1 of RFC 9293 puts them: ports, numbers, the length of the
      header in words, flags, window, and the data behind the options. */
  lemma TcpReads(e: Endpoints, f: TcpFields, mss: u16, scale: byte, check: u16, data: Bytes)
    requires f.seqNo < 0x1_0000_0000 && f.ackNo < 0x1_0000_0000
    ensures var s := TcpBefore(e, f) + Le16(check) + [0, 0] + TcpOptions(f, mss, scale) + data;
            && |s| >= 20
            && U16At(s, 0) == e.dest && U16At(s, 2) == e.source && U32At(s, 4) == f.seqNo
            && U32At(s, 8) == (if f.ack then f.ackNo else 0) && s[13] == TcpFlags(f) && U16At(s, 14) == f.window
            && U16At(s, 18) == 0 && s[12] % 16 == 0 && 4 * (s[12] / 16) <= |s| && s[4 * (s[12] / 16)..] == data
            && (f.syn ==> |s| >= 28 && s[20..28] == [2, 4, mss % 0x100, mss / 0x100, 3, 3, scale, 0])
  {
    hide TcpFlags, TcpBefore, Laid, U16At, U32At;
    var options := TcpOptions(f, mss, scale);
    var rest := Le16(check) + [0, 0] + options + data;
    var s := TcpBefore(e, f) + Le16(check) + [0, 0] + options + data;
    assert s == TcpBefore(e, f) + rest;
    TcpIsLaid(e, f, rest);
    LaidReads(s, e, f, if f.syn then 0x70 else 0x50, rest);
    ZeroReads(s, 18);
    assert s[20 + |options|..] == data && s[20..20 + |options|] == options;
  }

  lemma ZeroReads(s: Bytes, pos: nat)
    requires pos + 2 <= |s| && s[pos] == 0 && s[pos + 1] == 0
    ensures U16At(s, pos) == 0
  {
  }

  lemma Be32Halves(x: nat)
    requires x < 0x1_0000_0000
    ensures Be32(x) == Be16(x / 0x1_0000) + Be16(x % 0x1_0000)
  {
    var hi, lo := x / 0x1_0000, x % 0x1_0000;
    LowWord(x, hi, lo / 0x100, lo % 0x100);
  }

  lemma LowWord(x: nat, hi: nat, b1: nat, b0: nat)
    requires x == 0x1_0000 * hi + 0x100 * b1 + b0 && b1 < 0x100 && b0 < 0x100
    ensures Be16(x) == [b1, b0] == Be16(0x100 * b1 + b0)
  {
    assert x == 0x100 * (0x100 * hi + b1) + b0;
    assert x / 0x100 == 0x100 * hi + b1;
  }

  lemma NumberAt(s: Bytes, pos: nat, x: nat, rest: Bytes)
    requires x < 0x1_0000_0000 && pos <= |s| && s[pos..] == Be32(x) + rest
    ensures pos + 4 <= |s| && U32At(s, pos) == x
  {
    hide U32At, Be16, Be32;
    Be32Halves(x);
    assert Be32(x) + rest == Be16(x / 0x1_0000) + (Be16(x % 0x1_0000) + rest);
    WordAt(s, pos, x, rest);
  }

  lemma WordAt(s: Bytes, pos: nat, x: nat, rest: Bytes)
    requires x < 0x1_0000_0000 && pos <= |s|
    requires s[pos..] == Be16(x / 0x1_0000) + (Be16(x % 0x1_0000) + rest)
    ensures pos + 4 <= |s| && U32At(s, pos) == x
  {
    hide U16At, Be16;
    var hi, lo := x / 0x1_0000, x % 0x1_0000;
    Be16Reads(hi, Be16(lo) + rest);
    Be16Reads(lo, rest);
    ReadsBehind(Be16(hi), Be16(lo) + rest, 0);
    ReadsBehind(s[..pos], s[pos..], 0);
    ReadsBehind(s[..pos], s[pos..], 2);
    assert s[..pos] + s[pos..] == s;
  }

  // ---- UDP ----

  function UdpBefore(e: Endpoints, len: nat): (b: Bytes)
    ensures |b| == 6
  {
    Be16(e.dest) + Be16(e.source) + Be16(len)
  }

  /** A UDP receiver: an all-zero checksum field means that there is none, which is fine over IPv4 (RFC 768) and gets
      the datagram discarded over IPv6 (section 8.1 of RFC 8200). */
  predicate AcceptsUdp(version: Version, pseudo: Bytes, datagram: Bytes)
    requires |datagram| >= 8
  {
    if datagram[6..8] == [0, 0] then version == V4 else Accepts(pseudo, datagram)
  }

  /** The sum of a datagram before it is complemented. */
  function UdpSum(e: Endpoints, data: Bytes): u16 {
    Sum(0, SenderPseudo(e, IPPROTO_UDP, 8 + |data|) + (UdpBefore(e, 8 + |data|) + Le16(0)) + data)
  }

  /** The UDP part of `write_udp`. It stores the complement as it is, so that a sum of all ones leaves no checksum. */
  method BuildUdp(e: Endpoints, data: Bytes) returns (datagram: Bytes)
    requires e.Valid() && |data| <= 0xFFFF - 8
    ensures datagram == UdpBefore(e, 8 + |data|) + Le16(0xFFFF - UdpSum(e, data)) + data
    ensures Accepts(PseudoHeader(e.version, e.daddr, e.saddr, IPPROTO_UDP, |datagram|), datagram)
    ensures AcceptsUdp(e.version, PseudoHeader(e.version, e.daddr, e.saddr, IPPROTO_UDP, |datagram|), datagram)
            <==> e.version == V4 || UdpSum(e, data) != 0xFFFF
  {
    var len := 8 + |data|;
    var csum := CalcChecksum(0, SenderPseudo(e, IPPROTO_UDP, len));
    csum := CalcChecksum(csum, UdpBefore(e, len) + Le16(0));
    csum := CalcChecksum(csum, data);
    var check := 0xFFFF - csum;
    datagram := UdpBefore(e, len) + Le16(check) + data;
    UdpVerifies(e, data, check, datagram);
  }

  lemma UdpVerifies(e: Endpoints, data: Bytes, check: u16, datagram: Bytes)
    requires e.Valid() && |data| <= 0xFFFF - 8
    requires var len := 8 + |data|;
             check == 0xFFFF - Sum(Sum(Sum(0, SenderPseudo(e, IPPROTO_UDP, len)), UdpBefore(e, len) + Le16(0)), data)
    requires datagram == UdpBefore(e, 8 + |data|) + Le16(check) + data
    ensures check == 0xFFFF - UdpSum(e, data)
    ensures Accepts(PseudoHeader(e.version, e.daddr, e.saddr, IPPROTO_UDP, |datagram|), datagram)
    ensures datagram[6..8] == [0, 0] <==> UdpSum(e, data) == 0xFFFF
  {
    hide Sum, WordSum, Accepts, SenderPseudo, PseudoHeader, UdpBefore;
    var len := 8 + |data|;
    SenderPseudoSum(e, IPPROTO_UDP, len);
    ThreeCalls(SenderPseudo(e, IPPROTO_UDP, len), UdpBefore(e, len) + Le16(0), data);
    assert UdpBefore(e, len) + Le16(0) == WithChecksum(UdpBefore(e, len), 0, []);
    assert datagram == WithChecksum(UdpBefore(e, len), check, []) + data;
    ChainedChecksumVerifies(SenderPseudo(e, IPPROTO_UDP, len),
                            PseudoHeader(e.version, e.daddr, e.saddr, IPPROTO_UDP, len),
                            UdpBefore(e, len), [], data, check);
    assert datagram[6..8] == Le16(check);
  }

  /** Such a datagram: over IPv6 between all-zero addresses and ports, the two bytes FF DA sum to all ones. */
  lemma ZeroChecksumSent()
    ensures var none: Bytes := seq(16, _ => 0);
            var e, data := Endpoints(V6, none, 0, none, 0), [0xFF, 0xDA];
            var datagram := UdpBefore(e, 10) + Le16(0xFFFF - UdpSum(e, data)) + data;
            UdpSum(e, data) == 0xFFFF && !AcceptsUdp(V6, PseudoHeader(V6, none, none, IPPROTO_UDP, 10), datagram)
  {
    hide Sum, Fold;
    var none: Bytes, data: Bytes := seq(16, _ => 0), [0xFF, 0xDA];
    var e := Endpoints(V6, none, 0, none, 0);
    var tail: Bytes, half: Bytes := [0, 0, 0, IPPROTO_UDP], [0, 0];
    var before := UdpBefore(e, 10) + Le16(0);
    assert before == [0, 0, 0, 0, 0, 10, 0, 0];
    WordSumZero(none);
    WordSumAppend(none, none);
    WordSumAppend(none + none, Be16(10));
    WordSumAppend(none + none + Be16(10), half);
    WordSumAppend(none + none + Be16(10) + half, tail);
    WordSumOfThree(SenderPseudo(e, IPPROTO_UDP, 10), before, data);
    SmallSums();
    SumIs(0, SenderPseudo(e, IPPROTO_UDP, 10) + before + data, 0xFFFF);
    FoldValue(0xFFFF);
    assert (UdpBefore(e, 10) + Le16(0) + data)[6..8] == [0, 0];
  }

  lemma SmallSums()
    ensures WordSum([0, 10]) == 0xA00 && WordSum([0, 0]) == 0 && WordSum([0xFF, 0xDA]) == 0xDAFF
    ensures WordSum([0, 0, 0, IPPROTO_UDP]) == 0x1100
    ensures WordSum([0, 0, 0, 0, 0, 10, 0, 0]) == 0xA00
  {
    var a: Bytes, b: Bytes, c: Bytes := [0, 0], [0, 10], [0, IPPROTO_UDP];
    WordSumAppend(a, c);
    assert a + c == [0, 0, 0, IPPROTO_UDP];
    WordSumAppend(a, a);
    WordSumAppend(a + a, b);
    WordSumAppend(a + a + b, a);
    assert a + a + b + a == [0, 0, 0, 0, 0, 10, 0, 0];
  }

  /** A receiver reads ports, length and data back from where RFC 768 puts them. */
  lemma UdpReads(e: Endpoints, check: u16, data: Bytes)
    requires |data| <= 0xFFFF - 8
    ensures var s := UdpBefore(e, 8 + |data|) + Le16(check) + data;
            && |s| == 8 + |data| && s[8..] == data
            && U16At(s, 0) == e.dest && U16At(s, 2) == e.source && U16At(s, 4) == |s|
  {
    hide Be16, U16At;
    var len := 8 + |data|;
    var tail := Le16(check) + data;
    var p3 := Be16(len) + tail;
    var p2 := Be16(e.source) + p3;
    var s := UdpBefore(e, len) + Le16(check) + data;
    assert s == Be16(e.dest) + p2;
    Be16Reads(e.dest, p2);
    Be16Reads(e.source, p3);
    Be16Reads(len, tail);
    ReadsBehind(Be16(e.dest), p2, 0);
    ReadsBehind(Be16(e.source), p3, 0);
    ReadsBehind(Be16(e.dest), p2, 2);
  }

  // ---- ICMP and the IPv4 header: no pseudo header ----

  /** Rewriting the identifier of an IPv4 ICMP message (bytes 4 and 5) and its checksum (bytes 2 and 3), as
      `handle_icmp` does towards the network and `check_icmp_socket` back. */
  method RewriteIcmp(message: Bytes, id: Bytes) returns (out: Bytes)
    requires 8 <= |message| <= 0xFFFF && |id| == 2
    ensures |out| == |message|
    ensures out[..2] == message[..2] && out[4..6] == id && out[6..] == message[6..]
    ensures Accepts([], out)
  {
    var before := message[..2];
    var payload := id + message[6..];
    var csum := CalcChecksum(0, before + Le16(0) + payload);
    var check := 0xFFFF - csum;
    out := before + Le16(check) + payload;

    var none: Bytes := [];
    assert before + Le16(0) + payload == WithChecksum(before, 0, []) + payload;
    assert out == WithChecksum(before, check, []) + payload;
    SumContinues(0, WithChecksum(before, 0, []), payload);
    ChainedChecksumVerifies(none, none, before, [], payload, check);
  }

  const IPDEFTTL: byte := 64

  /** The IPv4 header of `write_tcp`, `write_udp` and `write_icmp`. */
  method BuildIp4(e: Endpoints, protocol: byte, total: nat) returns (header: Bytes)
    requires e.Valid() && e.version == V4
    ensures exists check: u16 ::
      header == [0x45, 0] + Be16(total) + [0, 0, 0, 0, IPDEFTTL, protocol] + Le16(check) + e.daddr + e.saddr
    ensures Accepts([], header)
  {
    var before: Bytes := [0x45, 0] + Be16(total) + [0, 0, 0, 0, IPDEFTTL, protocol];
    var csum := CalcChecksum(0, before + Le16(0) + e.daddr + e.saddr);
    var check := 0xFFFF - csum;
    header := before + Le16(check) + e.daddr + e.saddr;

    assert before + Le16(0) + e.daddr + e.saddr == WithChecksum(before, 0, e.daddr + e.saddr);
    assert header == WithChecksum(before, check, e.daddr + e.saddr);
    PlainVerifies(before, e.daddr + e.saddr, check);
  }

  /** Without a pseudo header and with everything in the header. */
  lemma PlainVerifies(before: Bytes, after: Bytes, check: u16)
    requires |before| % 2 == 0 && |after| % 2 == 0 && |before| + |after| + 2 <= 0x2_0000
    requires check == 0xFFFF - Sum(0, WithChecksum(before, 0, after))
    ensures Accepts([], WithChecksum(before, check, after))
  {
    var hole, header := WithChecksum(before, 0, after), WithChecksum(before, check, after);
    ChecksumWord(before, check, after);
    ComplementSum(hole, header, check);
    assert [] + header == header;
  }
}
