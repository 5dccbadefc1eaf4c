/** The bytes of every message of nebula.proto and of the handshake payload, field by field with their tags. */
module FieldTags {
  import opened Options
  import opened Wire
  import opened Messages
  import P = PayloadWire

  /** A number under its tag; zero leaves no trace. */
  function Num(tag: Byte, v: nat): seq<Byte> {
    if v == 0 then [] else [tag] + Varint(v)
  }

  /** Bytes under their tag, with their length before them. */
  function Block(tag: Byte, chunk: seq<Byte>): seq<Byte> {
    [tag] + (Varint(|chunk|) + chunk)
  }

  function MaybeBlock(tag: Byte, a: Option<Addr>): seq<Byte> {
    if a.None? then [] else Block(tag, AddrBytes(a.value))
  }

  lemma {:induction false} BytesJoin(parts: seq<Part>, more: seq<Part>)
    requires AllShort(parts) && AllShort(more)
    ensures AllShort(parts + more) && Bytes(parts + more) == Bytes(parts) + Bytes(more)
    decreases |parts|
  {
    if parts == [] {
      assert parts + more == more;
    } else {
      assert (parts + more)[1..] == parts[1..] + more;
      BytesJoin(parts[1..], more);
    }
  }

  lemma OneNumber(num: nat, v: nat)
    requires Short(num)
    ensures Bytes([NumberPart(num, v)]) == Num(8 * num, v)
  {
    assert [NumberPart(num, v)][1..] == [];
  }

  lemma OneChunk(num: nat, chunk: seq<Byte>)
    requires Short(num)
    ensures Bytes([ChunkPart(num, chunk)]) == Block(8 * num + 2, chunk)
  {
    assert [ChunkPart(num, chunk)][1..] == [];
  }

  lemma MaybeOne(num: nat, a: Option<Addr>)
    requires Short(num)
    ensures AllShort(MaybeAddr(num, a)) && Bytes(MaybeAddr(num, a)) == MaybeBlock(8 * num + 2, a)
  {
    if a.Some? { OneChunk(num, AddrBytes(a.value)); }
  }

  /** Numbers under tags, one after the other. */
  function Nums(fields: seq<(nat, nat)>): seq<Byte> {
    if fields == [] then [] else Nums(fields[..|fields| - 1]) + Num(8 * fields[|fields| - 1].0, fields[|fields| - 1].1)
  }

  lemma {:induction false} NumbersAre(fields: seq<(nat, nat)>, parts: seq<Part>)
    requires |parts| == |fields|
    requires forall k :: 0 <= k < |fields| ==> Short(fields[k].0) && parts[k] == NumberPart(fields[k].0, fields[k].1)
    ensures AllShort(parts) && Bytes(parts) == Nums(fields)
    decreases |fields|
  {
    if fields != [] {
      var k := |fields| - 1;
      NumbersAre(fields[..k], parts[..k]);
      OneNumber(fields[k].0, fields[k].1);
      assert parts == parts[..k] + [parts[k]] && parts[k] == NumberPart(fields[k].0, fields[k].1);
      BytesJoin(parts[..k], [parts[k]]);
    }
  }

  lemma NumsMore(fields: seq<(nat, nat)>, num: nat, v: nat)
    ensures Nums(fields + [(num, v)]) == Nums(fields) + Num(8 * num, v)
  {
    assert (fields + [(num, v)])[..|fields|] == fields;
  }

  lemma Nums2(a: (nat, nat), b: (nat, nat))
    ensures Nums([a, b]) == Num(8 * a.0, a.1) + Num(8 * b.0, b.1)
  {
    NumsMore([], a.0, a.1);
    NumsMore([a], b.0, b.1);
    assert [] + [a] == [a] && [a] + [b] == [a, b];
    assert Nums([]) + Num(8 * a.0, a.1) == Num(8 * a.0, a.1);
  }

  lemma Nums3(a: (nat, nat), b: (nat, nat), c: (nat, nat))
    ensures Nums([a, b, c]) == Num(8 * a.0, a.1) + Num(8 * b.0, b.1) + Num(8 * c.0, c.1)
  {
    Nums2(a, b);
    NumsMore([a, b], c.0, c.1);
    assert [a, b] + [c] == [a, b, c];
  }

  lemma Nums5(a: (nat, nat), b: (nat, nat), c: (nat, nat), d: (nat, nat), e: (nat, nat))
    ensures Nums([a, b, c, d, e]) == Num(8 * a.0, a.1) + Num(8 * b.0, b.1) + Num(8 * c.0, c.1) + Num(8 * d.0, d.1) + Num(8 * e.0, e.1)
  {
    Nums3(a, b, c);
    NumsMore([a, b, c], d.0, d.1);
    NumsMore([a, b, c, d], e.0, e.1);
    assert [a, b, c] + [d] == [a, b, c, d] && [a, b, c, d] + [e] == [a, b, c, d, e];
  }

  lemma AddrTags(a: Addr)
    ensures AddrBytes(a) == Num(0x08, a.hi) + Num(0x10, a.lo)
  {
    NumbersAre([(1, a.hi), (2, a.lo)], AddrParts(a));
    Nums2((1, a.hi), (2, a.lo));
  }

  lemma V4Tags(a: V4AddrPort)
    ensures V4Bytes(a) == Num(0x08, a.addr) + Num(0x10, a.port)
  {
    NumbersAre([(1, a.addr), (2, a.port)], V4Parts(a));
    Nums2((1, a.addr), (2, a.port));
  }

  lemma V6Tags(a: V6AddrPort)
    ensures V6Bytes(a) == Num(0x08, a.hi) + Num(0x10, a.lo) + Num(0x18, a.port)
  {
    NumbersAre([(1, a.hi), (2, a.lo), (3, a.port)], V6Parts(a));
    Nums3((1, a.hi), (2, a.lo), (3, a.port));
  }

  lemma ControlNumberTags(m: Control)
    requires m.kind < TWO32
    ensures Bytes(ControlNumbers(m))
         == Num(0x08, Extended(m.kind)) + Num(0x10, m.initiatorIndex) + Num(0x18, m.responderIndex) + Num(0x20, m.oldTo) + Num(0x28, m.oldFrom)
  {
    NumbersAre([(1, Extended(m.kind)), (2, m.initiatorIndex), (3, m.responderIndex), (4, m.oldTo), (5, m.oldFrom)], ControlNumbers(m));
    Nums5((1, Extended(m.kind)), (2, m.initiatorIndex), (3, m.responderIndex), (4, m.oldTo), (5, m.oldFrom));
  }

  lemma ControlTags(m: Control)
    requires m.kind < TWO32
    ensures ControlBytes(m)
         == Num(0x08, Extended(m.kind)) + Num(0x10, m.initiatorIndex) + Num(0x18, m.responderIndex) + Num(0x20, m.oldTo) + Num(0x28, m.oldFrom)
          + MaybeBlock(0x32, m.to) + MaybeBlock(0x3a, m.from)
  {
    ControlNumberTags(m);
    MaybeOne(6, m.to);
    MaybeOne(7, m.from);
    BytesJoin(ControlNumbers(m), MaybeAddr(6, m.to));
    BytesJoin(ControlNumbers(m) + MaybeAddr(6, m.to), MaybeAddr(7, m.from));
  }

  /** One block after the other, all under the same tag. */
  function Blocks(tag: Byte, chunks: seq<seq<Byte>>): seq<Byte> {
    if chunks == [] then [] else Block(tag, chunks[0]) + Blocks(tag, chunks[1..])
  }

  lemma {:induction false} RunTags(num: nat, chunks: seq<seq<Byte>>, parts: seq<Part>)
    requires Short(num) && |parts| == |chunks| && forall k :: 0 <= k < |chunks| ==> parts[k] == ChunkPart(num, chunks[k])
    ensures AllShort(parts) && Bytes(parts) == Blocks(8 * num + 2, chunks)
    decreases |chunks|
  {
    if chunks != [] {
      RunTags(num, chunks[1..], parts[1..]);
      OneChunk(num, chunks[0]);
      assert parts[0] == ChunkPart(num, chunks[0]);
    }
  }

  function V4Chunks(v4: seq<V4AddrPort>): seq<seq<Byte>> {
    seq(|v4|, k requires 0 <= k < |v4| => V4Bytes(v4[k]))
  }

  function V6Chunks(v6: seq<V6AddrPort>): seq<seq<Byte>> {
    seq(|v6|, k requires 0 <= k < |v6| => V6Bytes(v6[k]))
  }

  function AddrChunks(list: seq<Addr>): seq<seq<Byte>> {
    seq(|list|, k requires 0 <= k < |list| => AddrBytes(list[k]))
  }

  lemma PackedTag(ns: seq<nat>)
    ensures Bytes([PackedPart(5, ns)]) == if ns == [] then [] else Block(0x2a, PackedBytes(ns))
  {
    assert [PackedPart(5, ns)][1..] == [];
  }

  lemma FrontTags(m: Details)
    ensures Bytes(DetailsFront(m))
         == Num(0x08, m.oldVpnAddr) + Blocks(0x12, V4Chunks(m.v4)) + Num(0x18, m.counter) + Blocks(0x22, V6Chunks(m.v6))
  {
    OneNumber(1, m.oldVpnAddr);
    OneNumber(3, m.counter);
    RunTags(2, V4Chunks(m.v4), V4Run(m.v4));
    RunTags(4, V6Chunks(m.v6), V6Run(m.v6));
    BytesJoin([NumberPart(1, m.oldVpnAddr)], V4Run(m.v4));
    BytesJoin([NumberPart(1, m.oldVpnAddr)] + V4Run(m.v4), [NumberPart(3, m.counter)]);
    BytesJoin([NumberPart(1, m.oldVpnAddr)] + V4Run(m.v4) + [NumberPart(3, m.counter)], V6Run(m.v6));
  }

  lemma DetailsTags(m: Details)
    ensures DetailsBytes(m)
         == Num(0x08, m.oldVpnAddr) + Blocks(0x12, V4Chunks(m.v4)) + Num(0x18, m.counter) + Blocks(0x22, V6Chunks(m.v6))
          + (if m.oldRelays == [] then [] else Block(0x2a, PackedBytes(m.oldRelays)))
          + MaybeBlock(0x32, m.vpnAddr) + Blocks(0x3a, AddrChunks(m.relays))
  {
    FrontTags(m);
    BackTags(DetailsFront(m), m);
  }

  lemma BackTags(front: seq<Part>, m: Details)
    requires AllShort(front)
    ensures AllShort(front + [PackedPart(5, m.oldRelays)] + MaybeAddr(6, m.vpnAddr) + AddrRun(m.relays))
    ensures Bytes(front + [PackedPart(5, m.oldRelays)] + MaybeAddr(6, m.vpnAddr) + AddrRun(m.relays))
         == Bytes(front) + (if m.oldRelays == [] then [] else Block(0x2a, PackedBytes(m.oldRelays)))
          + MaybeBlock(0x32, m.vpnAddr) + Blocks(0x3a, AddrChunks(m.relays))
  {
    PackedTag(m.oldRelays);
    MaybeOne(6, m.vpnAddr);
    RunTags(7, AddrChunks(m.relays), AddrRun(m.relays));
    BytesJoin(front, [PackedPart(5, m.oldRelays)]);
    BytesJoin(front + [PackedPart(5, m.oldRelays)], MaybeAddr(6, m.vpnAddr));
    BytesJoin(front + [PackedPart(5, m.oldRelays)] + MaybeAddr(6, m.vpnAddr), AddrRun(m.relays));
  }

  lemma MetaTags(m: Meta)
    requires m.kind < TWO32
    ensures MetaBytes(m)
         == Num(0x08, Extended(m.kind)) + if m.details.None? then [] else Block(0x12, DetailsBytes(m.details.value))
  {
    OneNumber(1, Extended(m.kind));
    if m.details.Some? {
      OneChunk(2, DetailsBytes(m.details.value));
      BytesJoin([NumberPart(1, Extended(m.kind))], [ChunkPart(2, DetailsBytes(m.details.value))]);
    } else {
      assert MetaParts(m) == [NumberPart(1, Extended(m.kind))];
    }
  }

  /** A certificate is left out when there is none. */
  lemma PayloadTags(p: P.Payload)
    ensures ChunkField(1, P.DetailBytes(p)) == Block(0x0a, P.DetailBytes(p))
    ensures P.DetailBytes(p)
         == (if p.cert == [] then [] else Block(0x0a, p.cert))
          + (Num(0x10, p.initiatorIndex) + Num(0x18, p.responderIndex) + Num(0x28, p.time) + Num(0x40, p.certVersion))
  {
    var a, b, c, d := (2, p.initiatorIndex), (3, p.responderIndex), (5, p.time), (8, p.certVersion);
    NumbersAre([a, b, c, d], P.Numbers4(p));
    Nums3(a, b, c);
    NumsMore([a, b, c], 8, p.certVersion);
    assert [a, b, c] + [d] == [a, b, c, d];
    if p.cert != [] {
      OneChunk(1, p.cert);
      BytesJoin([ChunkPart(1, p.cert)], P.Numbers4(p));
    }
  }
}
