/**
  * CreateRejectPacket of iputil/packet.go: the answer written into the caller's buffer, field by field,
  * every checksum taken over the bytes already there and then put in its place. The buffer's length is
  * the capacity of the source's slice.
  */
module RejectPacket {
  import opened Options
  import opened Checksum
  import opened RejectSpec
  import U = UpperProtocol

  /** s with b written over it from index i on. */
  function Spliced(s: seq<Byte>, i: nat, b: seq<Byte>): seq<Byte>
    requires i + |b| <= |s|
  {
    s[..i] + b + s[i + |b|..]
  }

  /** Bytes written right after bytes just written. */
  lemma SplicedOn(s: seq<Byte>, i: nat, a: seq<Byte>, b: seq<Byte>)
    requires i + |a| + |b| <= |s|
    ensures Spliced(Spliced(s, i, a), i + |a|, b) == Spliced(s, i, a + b)
  {}

  /** Two bytes written over two that were written before. */
  lemma SplicedOver(s: seq<Byte>, i: nat, a: seq<Byte>, b: seq<Byte>, c: seq<Byte>, tail: seq<Byte>)
    requires i + |a + b + tail| <= |s| && |b| == |c|
    ensures Spliced(Spliced(s, i, a + b + tail), i + |a|, c) == Spliced(s, i, a + c + tail)
  {}

  lemma SplicedIn(s: seq<Byte>, i: nat, b: seq<Byte>, end: nat)
    requires i + |b| == end <= |s|
    ensures Spliced(s, i, b)[i..end] == b
  {}

  /** copy */
  method Copy(out: array<Byte>, i: nat, b: seq<Byte>)
    requires i + |b| <= out.Length
    modifies out
    ensures out[..] == Spliced(old(out[..]), i, b)
  {
    var k := 0;
    while k < |b|
      invariant 0 <= k <= |b|
      invariant forall j :: 0 <= j < out.Length ==> out[j] == if i <= j < i + k then b[j - i] else old(out[j])
    {
      out[i + k] := b[k];
      k := k + 1;
    }
  }

  /** One more run of bytes after those written from index i on. */
  method Append(out: array<Byte>, i: nat, ghost a: seq<Byte>, end: nat, b: seq<Byte>, ghost s: seq<Byte>)
    requires end == i + |a| && end + |b| <= out.Length && |s| == out.Length
    requires out[..] == Spliced(s, i, a)
    modifies out
    ensures out[..] == Spliced(s, i, a + b)
  {
    Copy(out, end, b);
    SplicedOn(s, i, a, b);
  }

  /** The checksum of out[i..end] put at index at, where two zero bytes stand. */
  method PutChecksum(out: array<Byte>, i: nat, at: nat, end: nat, csum: nat,
                     ghost pseudo: seq<Byte>, ghost head: seq<Byte>, ghost tail: seq<Byte>, ghost s: seq<Byte>)
    requires at == i + |head| && end == at + 2 + |tail| && end <= out.Length && |s| == out.Length && end - i <= 0x10000
    requires csum == Sum(pseudo) <= MOST_START
    requires out[..] == Spliced(s, i, head + [0, 0] + tail)
    modifies out
    ensures out[..] == Spliced(s, i, Seal(pseudo, head, tail))
  {
    ghost var data := head + [0, 0] + tail;
    SplicedIn(s, i, data, end);
    assert out[i..end] == out[..][i..end];
    var sum := ChecksumOver(out[i..end], csum, pseudo);
    Copy(out, at, U16(sum));
    SplicedOver(s, i, head, [0, 0], U16(sum), tail);
  }

  // ---- The parts ----

  method PutIp4(out: array<Byte>, total: nat, proto: Byte, packet: seq<Byte>)
    requires |packet| >= IPV4_HEADER && total < 0x10000 && out.Length >= 20
    modifies out
    ensures out[..] == Spliced(old(out[..]), 0, Ip4(total, proto, packet[16..20], packet[12..16]))
  {
    ghost var s := out[..];
    ghost var start := Ip4Start(total, proto);
    Copy(out, 0, [0x45, 0]);
    Append(out, 0, [0x45, 0], 2, U16(total), s);
    Append(out, 0, [0x45, 0] + U16(total), 4, [0, 0, 0, 0, 64, proto], s);
    Append(out, 0, start, 10, [0, 0], s);
    Append(out, 0, start + [0, 0], 12, packet[16..20], s);
    Append(out, 0, start + [0, 0] + packet[16..20], 16, packet[12..16], s);
    assert start + [0, 0] + packet[16..20] + packet[12..16] == start + [0, 0] + (packet[16..20] + packet[12..16]);
    assert Sum([]) == 0;
    PutChecksum(out, 0, 10, 20, 0, [], start, packet[16..20] + packet[12..16], s);
  }

  method PutIp6(out: array<Byte>, length: nat, next: Byte, packet: seq<Byte>)
    requires |packet| >= IPV6_HEADER && length < 0x10000 && out.Length >= 40
    modifies out
    ensures out[..] == Spliced(old(out[..]), 0, Ip6(length, next, packet[24..40], packet[8..24]))
  {
    ghost var s := out[..];
    ghost var a := [0x60, 0, 0, 0];
    Copy(out, 0, [0x60, 0, 0, 0]);
    Append(out, 0, a, 4, U16(length), s);
    Append(out, 0, a + U16(length), 6, [next, 64], s);
    Append(out, 0, a + U16(length) + [next, 64], 8, packet[24..40], s);
    Append(out, 0, a + U16(length) + [next, 64] + packet[24..40], 24, packet[8..24], s);
  }

  method PutIcmp(out: array<Byte>, i: nat, kind: Byte, code: Byte, body: seq<Byte>, csum: nat, ghost pseudo: seq<Byte>)
    requires i + 8 + |body| <= out.Length && |body| <= 1000
    requires csum == Sum(pseudo) <= MOST_START
    modifies out
    ensures out[..] == Spliced(old(out[..]), i, Icmp(pseudo, kind, code, body))
  {
    ghost var s := out[..];
    Copy(out, i, [kind, code]);
    Append(out, i, [kind, code], i + 2, [0, 0], s);
    Append(out, i, [kind, code] + [0, 0], i + 4, [0, 0, 0, 0], s);
    Append(out, i, [kind, code] + [0, 0] + [0, 0, 0, 0], i + 8, body, s);
    assert [kind, code] + [0, 0] + [0, 0, 0, 0] + body == [kind, code] + [0, 0] + ([0, 0, 0, 0] + body);
    PutChecksum(out, i, i + 2, i + 8 + |body|, csum, pseudo, [kind, code], [0, 0, 0, 0] + body, s);
  }

  /** The sequence numbers and flags of a reset, as both TCP builders work them out. */
  method ResetFields(segment: seq<Byte>) returns (seqNo: nat, ackSeq: nat, flags: Byte)
    requires |segment| >= TCP_LENGTH
    ensures seqNo == ResetSeq(segment) && ackSeq == ResetAck(segment) && flags == if HasAck(segment) then 4 else 20
  {
    seqNo, ackSeq, flags := 0, 0, 4;
    if segment[13] / 16 % 2 == 1 {
      seqNo := Int32(segment[8..12]);
    } else {
      var inSyn := (segment[13] as int) / 2 % 2;
      var inFin := (segment[13] as int) % 2;
      ackSeq := (Int32(segment[4..8]) + inSyn + inFin + |segment| - (segment[12] as int) / 16 * 4) % TWO32;
      flags := 20;
    }
  }

  method PutReset(out: array<Byte>, i: nat, segment: seq<Byte>, csum: nat, ghost pseudo: seq<Byte>)
    requires i + TCP_LENGTH <= out.Length && |segment| >= TCP_LENGTH
    requires csum == Sum(pseudo) <= MOST_START
    modifies out
    ensures out[..] == Spliced(old(out[..]), i, Reset(pseudo, segment))
  {
    ghost var s := out[..];
    var seqNo, ackSeq, flags := ResetFields(segment);
    ghost var ports := segment[2..4] + segment[0..2];
    Copy(out, i, segment[2..4]);
    Append(out, i, segment[2..4], i + 2, segment[0..2], s);
    Append(out, i, ports, i + 4, U32(seqNo), s);
    Append(out, i, ports + U32(seqNo), i + 8, U32(ackSeq), s);
    Append(out, i, ports + U32(seqNo) + U32(ackSeq), i + 12, [80, flags, 0, 0], s);
    Append(out, i, ResetStart(segment), i + 16, [0, 0], s);
    Append(out, i, ResetStart(segment) + [0, 0], i + 18, [0, 0], s);
    PutChecksum(out, i, i + 16, i + 20, csum, pseudo, ResetStart(segment), [0, 0], s);
  }

  // ---- The builders ----

  /** What a builder promises: its answer at the front of the buffer and the rest as it was, or a buffer as it was. */
  ghost predicate Answered(was: seq<Byte>, now: seq<Byte>, answer: Option<seq<Byte>>, r: Option<nat>) {
    match answer
    case None => r == None && now == was
    case Some(o) => |o| <= |was| && r == Some(|o|) && now == Spliced(was, 0, o)
  }

  /** ipv4CreateRejectTCPPacket */
  method Ipv4CreateRejectTCPPacket(packet: seq<Byte>, out: array<Byte>) returns (r: Option<nat>)
    requires |packet| >= IPV4_HEADER && packet[9] == 6
    modifies out
    ensures Answered(old(out[..]), out[..], Reply4(packet, out.Length), r)
  {
    var ihl := (packet[0] as int) % 16 * 4;
    var outLen := IPV4_HEADER + TCP_LENGTH;
    if |packet| < ihl + TCP_LENGTH || outLen > out.Length {
      return None;
    }
    ghost var s := out[..];
    ghost var pseudo := Pseudo4(packet[16..20], packet[12..16], 6, TCP_LENGTH);
    ghost var head := Ip4(40, 6, packet[16..20], packet[12..16]);
    PutIp4(out, outLen, 6, packet);
    var csum := Ipv4PseudoheaderChecksum(packet[16..20], packet[12..16], 6, TCP_LENGTH);
    PutReset(out, 20, packet[ihl..], csum, pseudo);
    SplicedOn(s, 0, head, Reset(pseudo, packet[ihl..]));
    r := Some(outLen);
  }

  /** ipv4CreateRejectICMPPacket */
  method Ipv4CreateRejectICMPPacket(packet: seq<Byte>, out: array<Byte>) returns (r: Option<nat>)
    requires |packet| >= IPV4_HEADER && packet[9] != 6
    modifies out
    ensures Answered(old(out[..]), out[..], Reply4(packet, out.Length), r)
  {
    var ihl := (packet[0] as int) % 16 * 4;
    if |packet| < ihl {
      return None;
    }
    if packet[9] == 1 && |packet| > ihl {
      var icmpType := packet[ihl];
      if icmpType == 3 || icmpType == 4 || icmpType == 5 || icmpType == 11 || icmpType == 12 {
        return None;
      }
    }
    var packetLen := Min(|packet|, ihl + 8);
    var outLen := IPV4_HEADER + 8 + packetLen;
    if outLen > out.Length {
      return None;
    }
    PutIcmp4(out, packet, packetLen, outLen);
    r := Some(outLen);
  }

  method PutIcmp4(out: array<Byte>, packet: seq<Byte>, packetLen: nat, outLen: nat)
    requires |packet| >= IPV4_HEADER && packetLen <= |packet| && packetLen <= 68 && outLen == 28 + packetLen <= out.Length
    modifies out
    ensures |Icmp4(packet, packetLen)| == outLen && out[..] == Spliced(old(out[..]), 0, Icmp4(packet, packetLen))
  {
    ghost var s := out[..];
    PutIp4(out, outLen, 1, packet);
    assert Sum([]) == 0;
    PutIcmp(out, 20, 3, 13, packet[..packetLen], 0, []);
    SplicedOn(s, 0, Ip4(outLen, 1, packet[16..20], packet[12..16]), Icmp([], 3, 13, packet[..packetLen]));
  }

  /** ipv6CreateRejectTCPPacket */
  method Ipv6CreateRejectTCPPacket(packet: seq<Byte>, out: array<Byte>, offset: nat) returns (r: Option<nat>)
    requires |packet| >= IPV6_HEADER
    modifies out
    ensures Answered(old(out[..]), out[..],
                     if |packet| < offset + TCP_LENGTH || IPV6_HEADER + TCP_LENGTH > out.Length then None else Some(Tcp6(packet, offset)), r)
  {
    var outLen := IPV6_HEADER + TCP_LENGTH;
    if |packet| < offset + TCP_LENGTH || outLen > out.Length {
      return None;
    }
    ghost var s := out[..];
    ghost var pseudo := Pseudo6(packet[24..40], packet[8..24], 6, TCP_LENGTH);
    PutIp6(out, TCP_LENGTH, 6, packet);
    var csum := Ipv6PseudoheaderChecksum(packet[24..40], packet[8..24], 6, TCP_LENGTH);
    PutReset(out, 40, packet[offset..], csum, pseudo);
    SplicedOn(s, 0, Ip6(TCP_LENGTH, 6, packet[24..40], packet[8..24]), Reset(pseudo, packet[offset..]));
    r := Some(outLen);
  }

  /** ipv6CreateRejectICMPPacket */
  method Ipv6CreateRejectICMPPacket(packet: seq<Byte>, out: array<Byte>, proto: Byte, offset: nat) returns (r: Option<nat>)
    requires |packet| >= IPV6_HEADER
    modifies out
    ensures Answered(old(out[..]), out[..],
                     if IsIcmpError6(packet, proto, offset) || IPV6_HEADER + 8 + Min(|packet|, 1000) > out.Length then None
                     else Some(Icmp6(packet, Min(|packet|, 1000))), r)
  {
    if proto == 58 && |packet| > offset {
      var icmpType := packet[offset];
      if 1 <= icmpType <= 4 {
        return None;
      }
    }
    var packetLen := Min(|packet|, 1000);
    var outLen := IPV6_HEADER + 8 + packetLen;
    if outLen > out.Length {
      return None;
    }
    var payloadLen := outLen - IPV6_HEADER;
    ghost var s := out[..];
    ghost var pseudo := Pseudo6(packet[24..40], packet[8..24], 58, payloadLen);
    PutIp6(out, payloadLen, 58, packet);
    var csum := Ipv6PseudoheaderChecksum(packet[24..40], packet[8..24], 58, payloadLen);
    PutIcmp(out, 40, 1, 1, packet[..packetLen], csum, pseudo);
    SplicedOn(s, 0, Ip6(payloadLen, 58, packet[24..40], packet[8..24]), Icmp(pseudo, 1, 1, packet[..packetLen]));
    r := Some(outLen);
  }

  /** ipv6CreateRejectPacket */
  method Ipv6CreateRejectPacket(packet: seq<Byte>, out: array<Byte>) returns (r: Option<nat>)
    requires |packet| >= IPV6_HEADER
    modifies out
    ensures Answered(old(out[..]), out[..], Reply6(packet, out.Length), r)
  {
    var found := U.IPv6FindUpperProtocol(packet);
    if found.NotFound? || found.isFragment {
      return None;
    }
    if found.next == 6 {
      r := Ipv6CreateRejectTCPPacket(packet, out, found.offset);
    } else {
      r := Ipv6CreateRejectICMPPacket(packet, out, found.next, found.offset);
    }
  }

  /** CreateRejectPacket */
  method CreateRejectPacket(packet: seq<Byte>, out: array<Byte>) returns (r: Option<nat>)
    modifies out
    ensures Answered(old(out[..]), out[..], Reply(packet, out.Length), r)
    ensures r.Some? ==> r.value <= out.Length && r.value <= MAX_REJECT
    ensures r.Some? ==> Accepts4(out[..r.value]) || Accepts6(out[..r.value])
  {
    r := Build(packet, out);
    if r.Some? {
      ghost var o := Reply(packet, out.Length).value;
      assert out[..r.value] == o;
      AnswersAreGood(packet, out.Length, o);
    }
  }

  method Build(packet: seq<Byte>, out: array<Byte>) returns (r: Option<nat>)
    modifies out
    ensures Answered(old(out[..]), out[..], Reply(packet, out.Length), r)
  {
    if |packet| < 1 {
      return None;
    }
    var version := packet[0] / 16;
    if version == 4 {
      if |packet| < IPV4_HEADER || packet[6] % 32 != 0 || packet[7] != 0 {
        return None;
      }
      if packet[9] == 6 {
        r := Ipv4CreateRejectTCPPacket(packet, out);
      } else {
        r := Ipv4CreateRejectICMPPacket(packet, out);
      }
    } else if version == 6 {
      if |packet| < IPV6_HEADER {
        return None;
      }
      r := Ipv6CreateRejectPacket(packet, out);
    } else {
      return None;
    }
  }
}
