/**
  * The packets CreateRejectPacket of iputil/packet.go answers with, and what their receiver makes of them.
  *
  * The receiver is written down on its own, from the bytes it gets: lengths, section 3.1 of RFC 791 for
  * the header checksum, section 3.1 of RFC 793 and section 8.1 of RFC 8200 for the pseudo-headers. Every
  * answer is shown to pass it, to go back to the sender, to stay within MaxRejectPacketSize, and to be
  * answered itself only when it is a reset.
  */
module RejectSpec {
  import opened Options
  import opened Checksum
  import U = UpperProtocol

  const IPV4_HEADER := 20
  const IPV6_HEADER := 40
  const TCP_LENGTH := 20
  /** MaxRejectPacketSize: an IPv6 header, an ICMPv6 header and 1000 bytes of the packet */
  const MAX_REJECT := 1048

  function Min(a: nat, b: nat): nat {
    if a < b then a else b
  }

  // ---- The parts of an answer ----

  function U32(n: nat): seq<Byte>
    requires n < TWO32
  {
    U16(n / 0x10000) + U16(n % 0x10000)
  }

  function Int32(b: seq<Byte>): (r: nat)
    requires |b| == 4
    ensures r < TWO32
  {
    Word(b[0], b[1]) * 0x10000 + Word(b[2], b[3])
  }

  function Ip4Start(total: nat, proto: Byte): seq<Byte>
    requires total < 0x10000
  {
    [0x45, 0] + U16(total) + [0, 0, 0, 0, 64, proto]
  }

  function Ip4(total: nat, proto: Byte, src: seq<Byte>, dst: seq<Byte>): seq<Byte>
    requires total < 0x10000
  {
    Seal([], Ip4Start(total, proto), src + dst)
  }

  function Ip6(length: nat, next: Byte, src: seq<Byte>, dst: seq<Byte>): seq<Byte>
    requires length < 0x10000
  {
    [0x60, 0, 0, 0] + U16(length) + [next, 64] + src + dst
  }

  function Icmp(pseudo: seq<Byte>, kind: Byte, code: Byte, body: seq<Byte>): seq<Byte> {
    Seal(pseudo, [kind, code], [0, 0, 0, 0] + body)
  }

  predicate HasAck(segment: seq<Byte>)
    requires |segment| >= TCP_LENGTH
  {
    segment[13] / 16 % 2 == 1
  }

  /** The sequence numbers a segment takes up: its bytes after the header, SYN and FIN. */
  function SegmentLength(segment: seq<Byte>): int
    requires |segment| >= TCP_LENGTH
  {
    (segment[13] as int) / 2 % 2 + (segment[13] as int) % 2 + |segment| - (segment[12] as int) / 16 * 4
  }

  /** The first sequence number after a segment, in 32 binary digits. */
  function AfterSegment(segment: seq<Byte>): (r: nat)
    requires |segment| >= TCP_LENGTH
    ensures r < TWO32
  {
    (Int32(segment[4..8]) + SegmentLength(segment)) % TWO32
  }

  function ResetSeq(segment: seq<Byte>): (r: nat)
    requires |segment| >= TCP_LENGTH
    ensures r < TWO32
  {
    if HasAck(segment) then Int32(segment[8..12]) else 0
  }

  function ResetAck(segment: seq<Byte>): (r: nat)
    requires |segment| >= TCP_LENGTH
    ensures r < TWO32
  {
    if HasAck(segment) then 0 else AfterSegment(segment)
  }

  function ResetStart(segment: seq<Byte>): seq<Byte>
    requires |segment| >= TCP_LENGTH
  {
    segment[2..4] + segment[0..2] + U32(ResetSeq(segment)) + U32(ResetAck(segment))
    + [80, if HasAck(segment) then 4 else 20, 0, 0]
  }

  function Reset(pseudo: seq<Byte>, segment: seq<Byte>): seq<Byte>
    requires |segment| >= TCP_LENGTH
  {
    Seal(pseudo, ResetStart(segment), [0, 0])
  }

  // ---- The answer ----

  function Ihl(packet: seq<Byte>): nat
    requires |packet| > 0
  {
    (packet[0] as int) % 16 * 4
  }

  function Tcp4(packet: seq<Byte>): seq<Byte>
    requires |packet| >= IPV4_HEADER && |packet| >= Ihl(packet) + TCP_LENGTH
  {
    Ip4(40, 6, packet[16..20], packet[12..16]) + Reset(Pseudo4(packet[16..20], packet[12..16], 6, TCP_LENGTH), packet[Ihl(packet)..])
  }

  function Icmp4(packet: seq<Byte>, quoted: nat): seq<Byte>
    requires |packet| >= IPV4_HEADER && quoted <= |packet| && quoted <= 68
  {
    Ip4(IPV4_HEADER + 8 + quoted, 1, packet[16..20], packet[12..16]) + Icmp([], 3, 13, packet[..quoted])
  }

  function Tcp6(packet: seq<Byte>, offset: nat): seq<Byte>
    requires |packet| >= IPV6_HEADER && |packet| >= offset + TCP_LENGTH
  {
    Ip6(TCP_LENGTH, 6, packet[24..40], packet[8..24]) + Reset(Pseudo6(packet[24..40], packet[8..24], 6, TCP_LENGTH), packet[offset..])
  }

  function Icmp6(packet: seq<Byte>, quoted: nat): seq<Byte>
    requires |packet| >= IPV6_HEADER && quoted <= |packet| && quoted <= 1000
  {
    Ip6(8 + quoted, 58, packet[24..40], packet[8..24]) + Icmp(Pseudo6(packet[24..40], packet[8..24], 58, 8 + quoted), 1, 1, packet[..quoted])
  }

  predicate IsIcmpError4(packet: seq<Byte>)
    requires |packet| >= IPV4_HEADER
  {
    packet[9] == 1 && |packet| > Ihl(packet) && packet[Ihl(packet)] in {3, 4, 5, 11, 12}
  }

  predicate IsIcmpError6(packet: seq<Byte>, proto: Byte, offset: nat) {
    proto == 58 && |packet| > offset && 1 <= packet[offset] <= 4
  }

  /** The answer to an IPv4 packet, with `room` bytes for it. */
  function Reply4(packet: seq<Byte>, room: nat): Option<seq<Byte>>
    requires |packet| >= IPV4_HEADER
  {
    if packet[9] == 6 then
      if |packet| < Ihl(packet) + TCP_LENGTH || IPV4_HEADER + TCP_LENGTH > room then None else Some(Tcp4(packet))
    else if |packet| < Ihl(packet) || IsIcmpError4(packet) then None
    else
      var quoted := Min(|packet|, Ihl(packet) + 8);
      if IPV4_HEADER + 8 + quoted > room then None else Some(Icmp4(packet, quoted))
  }

  function Reply6(packet: seq<Byte>, room: nat): Option<seq<Byte>>
    requires |packet| >= IPV6_HEADER
  {
    var found := U.Upper(packet);
    if found.NotFound? || found.isFragment then None
    else if found.next == 6 then
      if |packet| < found.offset + TCP_LENGTH || IPV6_HEADER + TCP_LENGTH > room then None else Some(Tcp6(packet, found.offset))
    else if IsIcmpError6(packet, found.next, found.offset) then None
    else
      var quoted := Min(|packet|, 1000);
      if IPV6_HEADER + 8 + quoted > room then None else Some(Icmp6(packet, quoted))
  }

  function Reply(packet: seq<Byte>, room: nat): Option<seq<Byte>> {
    if |packet| < 1 then None
    else if packet[0] / 16 == 4 then
      if |packet| < IPV4_HEADER || packet[6] % 32 != 0 || packet[7] != 0 then None else Reply4(packet, room)
    else if packet[0] / 16 == 6 then
      if |packet| < IPV6_HEADER then None else Reply6(packet, room)
    else None
  }

  // ---- The receiver ----

  /** An IPv4 packet without options, whole, with a header checksum and an ICMP or TCP checksum that verify. */
  predicate Accepts4(o: seq<Byte>) {
    && IPV4_HEADER <= |o| <= MAX_REJECT
    && o[0] == 0x45 && Word(o[2], o[3]) == |o|
    && Verifies(o[..20])
    && (o[9] == 1 || o[9] == 6)
    && (o[9] == 1 ==> Verifies(o[20..]))
    && (o[9] == 6 ==> Verifies(Pseudo4(o[12..16], o[16..20], 6, |o| - 20) + o[20..]))
  }

  /** A whole IPv6 packet whose ICMPv6 or TCP checksum verifies. */
  predicate Accepts6(o: seq<Byte>) {
    && IPV6_HEADER <= |o| <= MAX_REJECT
    && o[0] / 16 == 6 && Word(o[4], o[5]) == |o| - IPV6_HEADER
    && (o[6] == 58 || o[6] == 6)
    && Verifies(Pseudo6(o[8..24], o[24..40], o[6], |o| - IPV6_HEADER) + o[40..])
  }

  /** Section 3.4 of RFC 793, Reset Generation: the numbers of a reset for a segment with these fields. */
  predicate ResetRule(hasAck: bool, ackField: nat, after: nat, flags: Byte, seqNo: nat, ackSeq: nat) {
    && flags / 4 % 2 == 1
    && (hasAck ==> flags / 16 % 2 == 0 && seqNo == ackField)
    && (!hasAck ==> flags / 16 % 2 == 1 && seqNo == 0 && ackSeq == after)
  }

  /** A reset for a segment. */
  predicate Resets(segment: seq<Byte>, r: seq<Byte>) {
    && |segment| >= TCP_LENGTH && |r| == TCP_LENGTH
    && r[0..2] == segment[2..4] && r[2..4] == segment[0..2]
    && ResetRule(HasAck(segment), Int32(segment[8..12]), AfterSegment(segment), r[13], Int32(r[4..8]), Int32(r[8..12]))
  }

  lemma Ip4Is(total: nat, proto: Byte, src: seq<Byte>, dst: seq<Byte>, rest: seq<Byte>, o: seq<Byte>)
    requires total < 0x10000 && |src| == 4 && |dst| == 4 && o == Ip4(total, proto, src, dst) + rest
    ensures |o| == 20 + |rest| && o[0] == 0x45 && Word(o[2], o[3]) == total && o[9] == proto
    ensures o[1] == 0 && o[4] == 0 && o[5] == 0 && o[6] == 0 && o[7] == 0 && o[8] == 64
    ensures o[12..16] == src && o[16..20] == dst && o[20..] == rest && Verifies(o[..20])
  {
    SealVerifies([], Ip4Start(total, proto), src + dst);
    var h := Ip4(total, proto, src, dst);
    assert [] + h == h;
    assert o[..20] == h;
    assert o[12..20] == src + dst;
    assert o[12..16] == o[12..20][..4];
    assert o[16..20] == o[12..20][4..];
  }

  lemma Ip6Is(length: nat, next: Byte, src: seq<Byte>, dst: seq<Byte>, rest: seq<Byte>, o: seq<Byte>)
    requires length < 0x10000 && |src| == 16 && |dst| == 16 && o == Ip6(length, next, src, dst) + rest
    ensures |o| == 40 + |rest| && o[0] == 0x60 && Word(o[4], o[5]) == length && o[6] == next
    ensures o[1] == 0 && o[2] == 0 && o[3] == 0 && o[7] == 64
    ensures o[8..24] == src && o[24..40] == dst && o[40..] == rest
  {
  }

  /** Where the fields of a segment stand. */
  lemma FieldsStand(a: seq<Byte>, b: seq<Byte>, c: seq<Byte>, d: seq<Byte>, e: seq<Byte>, rest: seq<Byte>, r: seq<Byte>)
    requires |a| == 2 && |b| == 2 && |c| == 4 && |d| == 4 && |e| == 4 && r == a + b + c + d + e + rest
    ensures r[0..2] == a && r[2..4] == b && r[4..8] == c && r[8..12] == d && r[12..16] == e
  {
  }

  lemma ResetStands(pseudo: seq<Byte>, segment: seq<Byte>, r: seq<Byte>)
    requires |segment| >= TCP_LENGTH && r == Reset(pseudo, segment)
    ensures |r| == TCP_LENGTH && r[0..2] == segment[2..4] && r[2..4] == segment[0..2]
    ensures r[4..8] == U32(ResetSeq(segment)) && r[8..12] == U32(ResetAck(segment))
    ensures r[13] == if HasAck(segment) then 4 else 20
  {
    var e: seq<Byte> := [80, if HasAck(segment) then 4 else 20, 0, 0];
    var sum := U16(SumOver(pseudo, ResetStart(segment) + [0, 0] + [0, 0]));
    FieldsStand(segment[2..4], segment[0..2], U32(ResetSeq(segment)), U32(ResetAck(segment)), e, sum + [0, 0],
                ResetStart(segment) + (sum + [0, 0]));
    assert r == ResetStart(segment) + (sum + [0, 0]);
    assert r[13] == r[12..16][1] == e[1];
  }

  lemma ResetIs(pseudo: seq<Byte>, segment: seq<Byte>, r: seq<Byte>)
    requires |segment| >= TCP_LENGTH && r == Reset(pseudo, segment)
    ensures |r| == TCP_LENGTH && Resets(segment, r)
  {
    ResetStands(pseudo, segment, r);
    ResetNumbers(r, ResetSeq(segment), ResetAck(segment));
    RuleHolds(HasAck(segment), Int32(segment[8..12]), AfterSegment(segment), r[13], Int32(r[4..8]), Int32(r[8..12]));
  }

  lemma RuleHolds(hasAck: bool, ackField: nat, after: nat, flags: Byte, seqNo: nat, ackSeq: nat)
    requires flags == if hasAck then 4 else 20
    requires seqNo == if hasAck then ackField else 0
    requires ackSeq == if hasAck then 0 else after
    ensures ResetRule(hasAck, ackField, after, flags, seqNo, ackSeq)
  {
  }

  lemma ResetNumbers(r: seq<Byte>, seqNo: nat, ackSeq: nat)
    requires |r| == TCP_LENGTH && seqNo < TWO32 && ackSeq < TWO32 && r[4..8] == U32(seqNo) && r[8..12] == U32(ackSeq)
    ensures Int32(r[4..8]) == seqNo && Int32(r[8..12]) == ackSeq
  {
    U32Reads(seqNo);
    U32Reads(ackSeq);
  }

  lemma U32Reads(n: nat)
    requires n < TWO32
    ensures |U32(n)| == 4 && Int32(U32(n)) == n
  {
    var b := U32(n);
    assert Word(b[0], b[1]) == n / 0x10000;
    assert Word(b[2], b[3]) == n % 0x10000;
  }

  lemma IcmpIs(pseudo: seq<Byte>, kind: Byte, code: Byte, body: seq<Byte>, r: seq<Byte>)
    requires r == Icmp(pseudo, kind, code, body) && |pseudo| % 2 == 0
    ensures |r| == 8 + |body| && r[0] == kind && r[1] == code && r[4..8] == [0, 0, 0, 0] && r[8..] == body && Verifies(pseudo + r)
  {
    SealVerifies(pseudo, [kind, code], [0, 0, 0, 0] + body);
  }

  // ---- Every answer is accepted ----

  ghost predicate GoodAnswer4(packet: seq<Byte>, o: seq<Byte>) {
    && Accepts4(o) && |packet| >= IPV4_HEADER
    && o[1] == 0 && o[4] == 0 && o[5] == 0 && o[6] == 0 && o[7] == 0 && o[8] == 64
    && o[12..16] == packet[16..20] && o[16..20] == packet[12..16]
    && (packet[9] == 6 ==> o[9] == 6 && Ihl(packet) <= |packet| && Resets(packet[Ihl(packet)..], o[20..]))
    && (packet[9] != 6 ==> o[9] == 1 && |o| >= 28 && o[20] == 3 && o[21] == 13 && o[24..28] == [0, 0, 0, 0] && o[28..] == packet[..Min(|packet|, Ihl(packet) + 8)])
  }

  lemma Tcp4Good(packet: seq<Byte>, o: seq<Byte>)
    requires |packet| >= IPV4_HEADER && |packet| >= Ihl(packet) + TCP_LENGTH && packet[9] == 6 && o == Tcp4(packet)
    ensures GoodAnswer4(packet, o) && |o| == 40
  {
    var pseudo := Pseudo4(packet[16..20], packet[12..16], 6, TCP_LENGTH);
    var segment := packet[Ihl(packet)..];
    var r := Reset(pseudo, segment);
    ResetIs(pseudo, segment, r);
    Ip4Is(40, 6, packet[16..20], packet[12..16], r, o);
    SealVerifies(pseudo, ResetStart(segment), [0, 0]);
  }

  lemma Icmp4Good(packet: seq<Byte>, quoted: nat, o: seq<Byte>)
    requires |packet| >= IPV4_HEADER && packet[9] != 6 && quoted == Min(|packet|, Ihl(packet) + 8) && o == Icmp4(packet, quoted)
    ensures GoodAnswer4(packet, o) && |o| == 28 + quoted
  {
    var r := Icmp([], 3, 13, packet[..quoted]);
    IcmpIs([], 3, 13, packet[..quoted], r);
    assert [] + r == r;
    Ip4Is(28 + quoted, 1, packet[16..20], packet[12..16], r, o);
    assert o[20] == o[20..][0] && o[21] == o[20..][1];
    assert o[28..] == o[20..][8..] && o[24..28] == o[20..][4..8];
  }

  ghost predicate GoodAnswer6(packet: seq<Byte>, o: seq<Byte>) {
    && Accepts6(o) && o[0] == 0x60 && o[1] == 0 && o[2] == 0 && o[3] == 0 && o[7] == 64
    && |packet| >= IPV6_HEADER && U.Upper(packet).Found? && U.Upper(packet).offset <= |packet|
    && o[8..24] == packet[24..40] && o[24..40] == packet[8..24]
    && (U.Upper(packet).next == 6 ==> o[6] == 6 && Resets(packet[U.Upper(packet).offset..], o[40..]))
    && (U.Upper(packet).next != 6 ==> o[6] == 58 && |o| >= 48 && o[40] == 1 && o[41] == 1 && o[44..48] == [0, 0, 0, 0] && o[48..] == packet[..Min(|packet|, 1000)])
  }

  lemma Tcp6Good(packet: seq<Byte>, offset: nat, o: seq<Byte>)
    requires |packet| >= IPV6_HEADER && |packet| >= offset + TCP_LENGTH && o == Tcp6(packet, offset)
    requires U.Upper(packet).Found? && U.Upper(packet).next == 6 && U.Upper(packet).offset == offset
    ensures GoodAnswer6(packet, o) && |o| == 60
  {
    var pseudo := Pseudo6(packet[24..40], packet[8..24], 6, TCP_LENGTH);
    var segment := packet[offset..];
    var r := Reset(pseudo, segment);
    ResetIs(pseudo, segment, r);
    Ip6Is(TCP_LENGTH, 6, packet[24..40], packet[8..24], r, o);
    SealVerifies(pseudo, ResetStart(segment), [0, 0]);
  }

  lemma Icmp6Good(packet: seq<Byte>, quoted: nat, o: seq<Byte>)
    requires |packet| >= IPV6_HEADER && quoted == Min(|packet|, 1000) && o == Icmp6(packet, quoted)
    requires U.Upper(packet).Found? && U.Upper(packet).next != 6
    ensures GoodAnswer6(packet, o) && |o| == 48 + quoted
  {
    var pseudo := Pseudo6(packet[24..40], packet[8..24], 58, 8 + quoted);
    var r := Icmp(pseudo, 1, 1, packet[..quoted]);
    IcmpIs(pseudo, 1, 1, packet[..quoted], r);
    Ip6Is(8 + quoted, 58, packet[24..40], packet[8..24], r, o);
    assert o[40] == o[40..][0] && o[41] == o[40..][1];
    assert o[48..] == o[40..][8..] && o[44..48] == o[40..][4..8];
    U.FoundInside(packet);
  }

  /**
    * Every answer fits the room and MaxRejectPacketSize, is of the version of the packet, goes back to its
    * sender and is accepted: all its checksums verify.
    */
  lemma AnswersAreGood(packet: seq<Byte>, room: nat, o: seq<Byte>)
    requires Reply(packet, room) == Some(o)
    ensures |o| <= room && |o| <= MAX_REJECT
    ensures packet[0] / 16 == 4 ==> GoodAnswer4(packet, o)
    ensures packet[0] / 16 != 4 ==> packet[0] / 16 == 6 && GoodAnswer6(packet, o)
  {
    if packet[0] / 16 == 4 {
      Answers4AreGood(packet, room, o);
    } else {
      Answers6AreGood(packet, room, o);
    }
  }

  lemma Answers4AreGood(packet: seq<Byte>, room: nat, o: seq<Byte>)
    requires |packet| >= IPV4_HEADER && Reply4(packet, room) == Some(o)
    ensures |o| <= room && |o| <= MAX_REJECT && GoodAnswer4(packet, o)
  {
    if packet[9] == 6 {
      Tcp4Good(packet, o);
    } else {
      Icmp4Good(packet, Min(|packet|, Ihl(packet) + 8), o);
    }
  }

  lemma Answers6AreGood(packet: seq<Byte>, room: nat, o: seq<Byte>)
    requires |packet| >= IPV6_HEADER && Reply6(packet, room) == Some(o)
    ensures |o| <= room && |o| <= MAX_REJECT && GoodAnswer6(packet, o)
  {
    var found := U.Upper(packet);
    if found.next == 6 {
      Tcp6Good(packet, found.offset, o);
    } else {
      Icmp6Good(packet, Min(|packet|, 1000), o);
    }
  }

  // ---- Answers to answers ----

  /** The upper layer of an answer begins right after its header. */
  lemma UpperOfAnswer(o: seq<Byte>)
    requires |o| >= IPV6_HEADER && !U.IsExtension(o[6])
    ensures U.Upper(o) == U.Found(o[6], IPV6_HEADER, false, false)
  {
    var start := [U.Place(o[6], IPV6_HEADER)];
    assert start[..0] == [];
    assert U.Leads(o, start, U.Found(o[6], IPV6_HEADER, false, false));
    U.FoundIffChain(o, U.Found(o[6], IPV6_HEADER, false, false));
  }

  /** With room for any answer, an answer is answered in turn exactly when it is a reset; an unreachable never is. */
  lemma OnlyResetsAreAnswered(packet: seq<Byte>, room: nat, o: seq<Byte>, more: nat)
    requires Reply(packet, room) == Some(o) && more >= MAX_REJECT
    ensures Reply(o, more).Some? <==> (if packet[0] / 16 == 4 then o[9] == 6 else o[6] == 6)
  {
    AnswersAreGood(packet, room, o);
    if packet[0] / 16 == 4 {
      Answered4(packet, o, more);
    } else {
      Answered6(packet, o, more);
    }
  }

  lemma Answered4(packet: seq<Byte>, o: seq<Byte>, more: nat)
    requires GoodAnswer4(packet, o) && more >= MAX_REJECT
    ensures Reply(o, more).Some? <==> o[9] == 6
  {
    assert Ihl(o) == 20;
  }

  lemma Answered6(packet: seq<Byte>, o: seq<Byte>, more: nat)
    requires GoodAnswer6(packet, o) && more >= MAX_REJECT
    ensures Reply(o, more).Some? <==> o[6] == 6
  {
    UpperOfAnswer(o);
  }
}
