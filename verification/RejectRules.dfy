/**
  * When a packet is answered, and with what reset, in the terms of the standards.
  *
  * A TCP segment is put together here from its fields, as section 3.1 of RFC 793 lays them out, and the reset
  * for it is given as such fields too. When there is an answer at all is said by the version, the fragment
  * offset, the chain of headers and the type of an ICMP message.
  */
module RejectRules {
  import opened Options
  import opened Checksum
  import opened RejectSpec
  import U = UpperProtocol

  // ---- TCP segments from their fields ----

  datatype Tcp = Tcp(
    src: nat, dst: nat, seqNo: nat, ackNo: nat, offset: nat, reserved: nat,
    cwr: bool, ece: bool, urg: bool, ack: bool, psh: bool, rst: bool, syn: bool, fin: bool,
    window: nat, checksum: nat, urgent: nat)

  predicate Fits(h: Tcp) {
    && h.src < 0x10000 && h.dst < 0x10000 && h.seqNo < TWO32 && h.ackNo < TWO32 && h.offset < 16 && h.reserved < 16
    && h.window < 0x10000 && h.checksum < 0x10000 && h.urgent < 0x10000
  }

  function Bit(b: bool): (n: nat)
    ensures n <= 1
  {
    if b then 1 else 0
  }

  function Nibble(a: bool, b: bool, c: bool, d: bool): (n: nat)
    ensures n < 16
  {
    8 * Bit(a) + 4 * Bit(b) + 2 * Bit(c) + Bit(d)
  }

  function FlagByte(h: Tcp): Byte {
    16 * Nibble(h.cwr, h.ece, h.urg, h.ack) + Nibble(h.psh, h.rst, h.syn, h.fin)
  }

  function Header(h: Tcp): seq<Byte>
    requires Fits(h)
  {
    U16(h.src) + U16(h.dst) + U32(h.seqNo) + U32(h.ackNo) + [16 * h.offset + h.reserved, FlagByte(h)] + U16(h.window) + U16(h.checksum) + U16(h.urgent)
  }

  /** A segment whose data begins where its offset says. */
  function Segment(h: Tcp, options: seq<Byte>, data: seq<Byte>): seq<Byte>
    requires Fits(h)
  {
    Header(h) + options + data
  }

  /** The reset for a segment with these fields and so many bytes of data: section 3.4 of RFC 793, Reset Generation. */
  function ResetFor(h: Tcp, length: nat, checksum: nat): Tcp {
    Tcp(h.dst, h.src, if h.ack then h.ackNo else 0, if h.ack then 0 else (h.seqNo + length + Bit(h.syn) + Bit(h.fin)) % TWO32,
        5, 0, false, false, false, !h.ack, false, true, false, false, 0, checksum, 0)
  }

  lemma FlagBits(h: Tcp)
    ensures FlagByte(h) / 16 % 2 == Bit(h.ack) && FlagByte(h) / 2 % 2 == Bit(h.syn) && FlagByte(h) % 2 == Bit(h.fin)
  {
    var high, low := Nibble(h.cwr, h.ece, h.urg, h.ack), Nibble(h.psh, h.rst, h.syn, h.fin);
    assert FlagByte(h) / 16 == high;
    assert FlagByte(h) / 2 == 8 * high + 4 * Bit(h.psh) + 2 * Bit(h.rst) + Bit(h.syn);
  }

  lemma HeaderStands(h: Tcp, rest: seq<Byte>, s: seq<Byte>)
    requires Fits(h) && s == Header(h) + rest
    ensures |s| == TCP_LENGTH + |rest| && s[0..2] == U16(h.src) && s[2..4] == U16(h.dst)
    ensures s[4..8] == U32(h.seqNo) && s[8..12] == U32(h.ackNo) && s[12] == 16 * h.offset + h.reserved && s[13] == FlagByte(h)
  {
    var e := [16 * h.offset + h.reserved, FlagByte(h)] + U16(h.window);
    FieldsStand(U16(h.src), U16(h.dst), U32(h.seqNo), U32(h.ackNo), e, U16(h.checksum) + U16(h.urgent) + rest, s);
    assert s[12] == s[12..16][0] && s[13] == s[12..16][1];
  }

  /** The fields the answer is made out from are those of the segment. */
  lemma SegmentReads(h: Tcp, options: seq<Byte>, data: seq<Byte>, s: seq<Byte>)
    requires Fits(h) && |options| == 4 * h.offset - TCP_LENGTH && s == Segment(h, options, data)
    ensures |s| >= TCP_LENGTH && s[0..2] == U16(h.src) && s[2..4] == U16(h.dst)
    ensures HasAck(s) == h.ack && Int32(s[8..12]) == h.ackNo
    ensures AfterSegment(s) == (h.seqNo + |data| + Bit(h.syn) + Bit(h.fin)) % TWO32
  {
    assert s == Header(h) + (options + data);
    HeaderStands(h, options + data, s);
    AckReads(h, s);
    U32Reads(h.ackNo);
    AfterReads(h, s, |data|);
  }

  lemma AckReads(h: Tcp, s: seq<Byte>)
    requires |s| >= TCP_LENGTH && s[13] == FlagByte(h)
    ensures HasAck(s) == h.ack
  {
    FlagBits(h);
  }

  lemma AfterReads(h: Tcp, s: seq<Byte>, length: nat)
    requires Fits(h) && |s| == 4 * h.offset + length && |s| >= TCP_LENGTH
    requires s[4..8] == U32(h.seqNo) && s[12] == 16 * h.offset + h.reserved && s[13] == FlagByte(h)
    ensures AfterSegment(s) == (h.seqNo + length + Bit(h.syn) + Bit(h.fin)) % TWO32
  {
    assert Int32(s[4..8]) == h.seqNo by { U32Reads(h.seqNo); }
    LengthIs(h, s, length);
    SumIs(s, h.seqNo, SegmentLength(s));
  }

  lemma SumIs(s: seq<Byte>, seqNo: nat, length: int)
    requires |s| >= TCP_LENGTH && Int32(s[4..8]) == seqNo && SegmentLength(s) == length
    ensures AfterSegment(s) == (seqNo + length) % TWO32
  {}

  lemma LengthIs(h: Tcp, s: seq<Byte>, length: nat)
    requires Fits(h) && |s| == 4 * h.offset + length && |s| >= TCP_LENGTH && s[12] == 16 * h.offset + h.reserved && s[13] == FlagByte(h)
    ensures SegmentLength(s) == length + Bit(h.syn) + Bit(h.fin)
  {
    FlagBits(h);
    DataOffset(s[12], h.offset, h.reserved);
  }

  lemma DataOffset(b: int, offset: nat, reserved: nat)
    requires b == 16 * offset + reserved && reserved < 16
    ensures b / 16 * 4 == 4 * offset
  {}

  /** Every segment put together from fields is answered with the reset the standard asks for, put together the same way. */
  lemma ResetIsFor(pseudo: seq<Byte>, h: Tcp, options: seq<Byte>, data: seq<Byte>)
    requires Fits(h) && |options| == 4 * h.offset - TCP_LENGTH
    ensures |Segment(h, options, data)| >= TCP_LENGTH
    ensures exists checksum :: checksum < 0x10000 && Reset(pseudo, Segment(h, options, data)) == Header(ResetFor(h, |data|, checksum))
  {
    var s := Segment(h, options, data);
    SegmentReads(h, options, data, s);
    var sum := SumOver(pseudo, ResetStart(s) + [0, 0] + [0, 0]);
    ResetHeader(h, |data|, sum, s);
    assert Reset(pseudo, s) == ResetStart(s) + U16(sum) + [0, 0];
    assert Reset(pseudo, s) == Header(ResetFor(h, |data|, sum));
  }

  lemma ResetHeader(h: Tcp, length: nat, sum: nat, s: seq<Byte>)
    requires Fits(h) && sum < 0x10000 && |s| >= TCP_LENGTH && s[0..2] == U16(h.src) && s[2..4] == U16(h.dst)
    requires HasAck(s) == h.ack && Int32(s[8..12]) == h.ackNo
    requires AfterSegment(s) == (h.seqNo + length + Bit(h.syn) + Bit(h.fin)) % TWO32
    ensures Header(ResetFor(h, length, sum)) == ResetStart(s) + U16(sum) + [0, 0]
  {
    var r := ResetFor(h, length, sum);
    assert r.seqNo == ResetSeq(s) && r.ackNo == ResetAck(s);
    assert FlagByte(r) == if h.ack then 4 else 20;
    assert U16(0) == [0, 0];
    Regroup(U16(r.src) + U16(r.dst) + U32(r.seqNo) + U32(r.ackNo), [80, FlagByte(r)], [0, 0], U16(sum), [0, 0]);
  }

  lemma Regroup(a: seq<Byte>, b: seq<Byte>, c: seq<Byte>, d: seq<Byte>, e: seq<Byte>)
    ensures a + b + c + d + e == a + (b + c) + d + e
  {}

  // ---- When there is an answer ----

  /** Without room enough there is no answer; with more, the same one. */
  lemma RoomDecides(packet: seq<Byte>, room: nat)
    ensures var r := Reply(packet, MAX_REJECT);
      Reply(packet, room) == if r.Some? && |r.value| <= room then r else None
  {
    if Reply(packet, MAX_REJECT).Some? {
      AnswerLength(packet, MAX_REJECT, Reply(packet, MAX_REJECT).value);
    }
  }

  /** How long the answer to a packet is. */
  lemma AnswerLength(packet: seq<Byte>, room: nat, o: seq<Byte>)
    requires Reply(packet, room) == Some(o)
    ensures packet[0] / 16 == 4 ==> |packet| >= IPV4_HEADER && |o| == if packet[9] == 6 then 40 else 28 + Min(|packet|, Ihl(packet) + 8)
    ensures packet[0] / 16 != 4 ==> U.Upper(packet).Found? && |o| == if U.Upper(packet).next == 6 then 60 else 48 + Min(|packet|, 1000)
  {
    if packet[0] / 16 == 4 {
      if packet[9] == 6 { Tcp4Good(packet, o); } else { Icmp4Good(packet, Min(|packet|, Ihl(packet) + 8), o); }
    } else {
      var found := U.Upper(packet);
      if found.next == 6 { Tcp6Good(packet, found.offset, o); } else { Icmp6Good(packet, Min(|packet|, 1000), o); }
    }
  }

  /** Destination unreachable, source quench, redirect, time exceeded, parameter problem: RFC 792. */
  const ICMP_ERRORS: set<int> := {3, 4, 5, 11, 12}

  /** The thirteen binary digits of the fragment offset: section 3.1 of RFC 791. */
  function FragmentOffset(packet: seq<Byte>): nat
    requires |packet| >= IPV4_HEADER
  {
    Word(packet[6], packet[7]) % 0x2000
  }

  /** A first fragment, either of TCP with its whole fixed header or of something that is no ICMP error. */
  ghost predicate Answerable4(packet: seq<Byte>) {
    && |packet| >= IPV4_HEADER && packet[0] / 16 == 4 && FragmentOffset(packet) == 0
    && var header := 4 * (packet[0] % 16);
    if packet[9] == 6 then |packet| >= header + TCP_LENGTH
    else |packet| >= header && !(packet[9] == 1 && |packet| > header && packet[header] in ICMP_ERRORS)
  }

  /** A chain of at most seven extension headers that leads, past no later fragment, to TCP with its whole fixed
      header or to something that is no ICMPv6 error. */
  ghost predicate Answerable6(packet: seq<Byte>, places: seq<U.Place>, next: Byte, offset: nat, any: bool) {
    && |packet| >= IPV6_HEADER && packet[0] / 16 == 6
    && U.Leads(packet, places, U.Found(next, offset, false, any)) && |places| <= 8
    && if next == 6 then |packet| >= offset + TCP_LENGTH
       else !(next == 58 && |packet| > offset && 1 <= packet[offset] < 5)
  }

  lemma FragmentOffsetIs(packet: seq<Byte>)
    requires |packet| >= IPV4_HEADER
    ensures FragmentOffset(packet) == 0 <==> packet[6] % 32 == 0 && packet[7] == 0
  {
    var a: int, b: int := packet[6], packet[7];
    assert Word(packet[6], packet[7]) == 0x2000 * (a / 32) + (256 * (a % 32) + b);
  }

  /** With room for any answer, exactly these packets are answered. */
  lemma AnsweredIff(packet: seq<Byte>)
    ensures Reply(packet, MAX_REJECT).Some? <==>
      Answerable4(packet) || exists places, next, offset, any :: Answerable6(packet, places, next, offset, any)
  {
    if |packet| >= IPV4_HEADER {
      FragmentOffsetIs(packet);
    }
    if |packet| >= IPV6_HEADER && packet[0] / 16 == 6 {
      Answered6Iff(packet);
    }
  }

  lemma Answered6Iff(packet: seq<Byte>)
    requires |packet| >= IPV6_HEADER && packet[0] / 16 == 6
    ensures Reply6(packet, MAX_REJECT).Some? <==> exists places, next, offset, any :: Answerable6(packet, places, next, offset, any)
  {
    var found := U.Upper(packet);
    if Reply6(packet, MAX_REJECT).Some? {
      U.FoundIffChain(packet, found);
      var places :| U.Leads(packet, places, found) && |places| <= U.MAX_TURNS;
      assert Answerable6(packet, places, found.next, found.offset, found.anyFragment);
    }
    if places, next, offset, any :| Answerable6(packet, places, next, offset, any) {
      U.FoundIffChain(packet, U.Found(next, offset, false, any));
    }
  }
}
