/** The messages of nebula.proto: their bytes, their size, and how they are read. */
module Messages {
  import opened Options
  import opened Wire

  datatype Addr = Addr(hi: nat, lo: nat)
  datatype V4AddrPort = V4AddrPort(addr: nat, port: nat)
  datatype V6AddrPort = V6AddrPort(hi: nat, lo: nat, port: nat)

  /** NebulaControl; the type is the bit pattern of an int32. */
  datatype Control = Control(
    kind: nat, initiatorIndex: nat, responderIndex: nat, oldTo: nat, oldFrom: nat, to: Option<Addr>, from: Option<Addr>)

  /** NebulaMetaDetails */
  datatype Details = Details(
    oldVpnAddr: nat, v4: seq<V4AddrPort>, counter: nat, v6: seq<V6AddrPort>, oldRelays: seq<nat>,
    vpnAddr: Option<Addr>, relays: seq<Addr>)

  /** NebulaMeta; the type is the bit pattern of an int32. */
  datatype Meta = Meta(kind: nat, details: Option<Details>)

  // ---- Which values the Go types can hold ----

  predicate AddrFits(a: Addr) { a.hi < TWO64 && a.lo < TWO64 }

  predicate V4Fits(a: V4AddrPort) { a.addr < TWO32 && a.port < TWO32 }

  predicate V6Fits(a: V6AddrPort) { a.hi < TWO64 && a.lo < TWO64 && a.port < TWO32 }

  predicate MaybeFits(a: Option<Addr>) { a.Some? ==> AddrFits(a.value) }

  predicate ControlFits(m: Control) {
    && m.kind < TWO32 && m.initiatorIndex < TWO32 && m.responderIndex < TWO32 && m.oldTo < TWO32 && m.oldFrom < TWO32
    && MaybeFits(m.to) && MaybeFits(m.from)
  }

  predicate DetailsFits(m: Details) {
    && m.oldVpnAddr < TWO32 && m.counter < TWO32 && MaybeFits(m.vpnAddr)
    && (forall k :: 0 <= k < |m.v4| ==> V4Fits(m.v4[k])) && (forall k :: 0 <= k < |m.v6| ==> V6Fits(m.v6[k]))
    && (forall k :: 0 <= k < |m.oldRelays| ==> m.oldRelays[k] < TWO32)
    && (forall k :: 0 <= k < |m.relays| ==> AddrFits(m.relays[k]))
    && |PackedBytes(m.oldRelays)| < TWO63 && |DetailsBytes(m)| < TWO63
  }

  predicate MetaFits(m: Meta) {
    m.kind < TWO32 && (m.details.Some? ==> DetailsFits(m.details.value))
  }

  // ---- Parts ----

  /** A message is written as a run of parts.  A zero number and an empty packed list leave no trace. */
  datatype Part = NumberPart(num: nat, v: nat) | ChunkPart(num: nat, chunk: seq<Byte>) | PackedPart(num: nat, ns: seq<nat>)

  function PartBytes(p: Part): seq<Byte>
    requires Short(p.num)
  {
    match p
    case NumberPart(num, v) => if v == 0 then [] else NumberField(num, v)
    case ChunkPart(num, chunk) => ChunkField(num, chunk)
    case PackedPart(num, ns) => if ns == [] then [] else ChunkField(num, PackedBytes(ns))
  }

  predicate AllShort(parts: seq<Part>) {
    forall k :: 0 <= k < |parts| ==> Short(parts[k].num)
  }

  function Bytes(parts: seq<Part>): seq<Byte>
    requires AllShort(parts)
  {
    if parts == [] then [] else PartBytes(parts[0]) + Bytes(parts[1..])
  }

  /** Reading part p turns the message m into m'. */
  ghost predicate Reads<M(!new)>(c: Codec<M>, m: M, p: Part, m': M) {
    && Short(p.num) && p.num in c.schema
    && match p
       case NumberPart(num, v) =>
         !c.schema[num].BytesKind? && v < TWO64 && if v == 0 then m' == m else c.apply(m, num, Number(v)) == Ok(m')
       case ChunkPart(num, chunk) => c.schema[num].BytesKind? && |chunk| < TWO63 && c.apply(m, num, Chunk(chunk)) == Ok(m')
       case PackedPart(num, ns) =>
         && c.schema[num].PackedKind? && Fit64(ns) && |PackedBytes(ns)| < TWO63
         && if ns == [] then m' == m else c.apply(m, num, Numbers(ns)) == Ok(m')
  }

  /** Reading on from index i with m comes to the same as reading on from index j with m'. */
  ghost predicate Leads<M(!new)>(c: Codec<M>, b: seq<Byte>, m: M, i: nat, m': M, j: nat) {
    Parse(c, m, b, i) == Parse(c, m', b, j)
  }

  lemma LeadsOn<M(!new)>(c: Codec<M>, b: seq<Byte>, m: M, i: nat, m': M, j: nat, m'': M, k: nat)
    requires Leads(c, b, m, i, m', j) && Leads(c, b, m', j, m'', k)
    ensures Leads(c, b, m, i, m'', k)
  {}

  /** What follows a field that is taken in. */
  lemma ThenLeads<M(!new)>(c: Codec<M>, m: M, b: seq<Byte>, i: nat, r: Result<M>, m': M, j: nat)
    requires Parse(c, m, b, i) == Then(c, r, b, j) && r == Ok(m')
    ensures Leads(c, b, m, i, m', j)
  {}

  lemma PartReads<M(!new)>(c: Codec<M>, m: M, b: seq<Byte>, i: nat, p: Part, m': M, j: nat)
    requires Reads(c, m, p, m') && At(b, i, PartBytes(p)) && j == i + |PartBytes(p)|
    ensures Leads(c, b, m, i, m', j)
  {
    match p
    case NumberPart(num, v) =>
      if v != 0 {
        ParseNumber(c, m, b, i, num, v);
        ThenLeads(c, m, b, i, c.apply(m, num, Number(v)), m', j);
      }
    case ChunkPart(num, chunk) =>
      ParseChunk(c, m, b, i, num, chunk);
      ThenLeads(c, m, b, i, c.apply(m, num, Chunk(chunk)), m', j);
    case PackedPart(num, ns) =>
      if ns != [] {
        ParsePacked(c, m, b, i, num, ns);
        ThenLeads(c, m, b, i, c.apply(m, num, Numbers(ns)), m', j);
      }
  }

  /** ms[k] is the message once the first k parts are in. */
  ghost predicate AllRead<M(!new)>(c: Codec<M>, ms: seq<M>, parts: seq<Part>) {
    |ms| == |parts| + 1 && forall k :: 0 <= k < |parts| ==> Reads(c, ms[k], parts[k], ms[k + 1])
  }

  lemma RestStands(b: seq<Byte>, i: nat, parts: seq<Part>) returns (next: nat)
    requires AllShort(parts) && parts != [] && At(b, i, Bytes(parts))
    ensures next == i + |PartBytes(parts[0])| && At(b, i, PartBytes(parts[0]))
    ensures At(b, next, Bytes(parts[1..])) && next + |Bytes(parts[1..])| == i + |Bytes(parts)|
  {
    next := i + |PartBytes(parts[0])|;
    HeadStands(b, i, PartBytes(parts[0]), Bytes(parts[1..]), Bytes(parts), next);
  }

  lemma LeadsToEnd<M(!new)>(c: Codec<M>, b: seq<Byte>, m: M, m': M)
    requires Leads(c, b, m, 0, m', |b|)
    ensures Parse(c, m, b, 0) == Ok(m')
  {}

  /** Reading the parts turns the message m into m'. */
  ghost predicate Brings<M(!new)>(c: Codec<M>, m: M, parts: seq<Part>, m': M) {
    exists ms :: AllRead(c, ms, parts) && ms[0] == m && ms[|parts|] == m'
  }

  lemma BringsNone<M(!new)>(c: Codec<M>, m: M)
    ensures Brings(c, m, [], m)
  {
    assert AllRead(c, [m], []);
  }

  lemma BringsOne<M(!new)>(c: Codec<M>, m: M, p: Part, m': M)
    requires Reads(c, m, p, m')
    ensures Brings(c, m, [p], m')
  {
    assert AllRead(c, [m, m'], [p]);
  }

  lemma BringsJoin<M(!new)>(c: Codec<M>, m: M, parts: seq<Part>, m': M, more: seq<Part>, m'': M)
    requires Brings(c, m, parts, m') && Brings(c, m', more, m'')
    ensures Brings(c, m, parts + more, m'')
  {
    var ms :| AllRead(c, ms, parts) && ms[0] == m && ms[|parts|] == m';
    var ns :| AllRead(c, ns, more) && ns[0] == m' && ns[|more|] == m'';
    var all := ms + ns[1..];
    forall k | 0 <= k < |parts + more| ensures Reads(c, all[k], (parts + more)[k], all[k + 1]) {
      if k < |parts| {
        assert Reads(c, ms[k], parts[k], ms[k + 1]);
      } else {
        assert Reads(c, ns[k - |parts|], more[k - |parts|], ns[k - |parts| + 1]);
      }
    }
    assert AllRead(c, all, parts + more);
  }

  lemma BringsFirst<M(!new)>(c: Codec<M>, m: M, p: Part, rest: seq<Part>, m': M) returns (next: M)
    requires Brings(c, m, [p] + rest, m')
    ensures Reads(c, m, p, next) && Brings(c, next, rest, m')
  {
    var parts := [p] + rest;
    var ms :| AllRead(c, ms, parts) && ms[0] == m && ms[|parts|] == m';
    next := ms[1];
    assert Reads(c, ms[0], parts[0], ms[1]);
    var ns := ms[1..];
    forall k | 0 <= k < |rest| ensures Reads(c, ns[k], rest[k], ns[k + 1]) {
      assert Reads(c, ms[k + 1], parts[k + 1], ms[k + 2]);
    }
    assert AllRead(c, ns, rest);
  }

  lemma BringsNothing<M(!new)>(c: Codec<M>, m: M, m': M)
    requires Brings(c, m, [], m')
    ensures m == m'
  {
    var ms :| AllRead(c, ms, []) && ms[0] == m && ms[0] == m';
  }

  /** The bytes of a run of parts are read back as those parts, one after the other. */
  lemma {:induction false} PartsRead<M(!new)>(c: Codec<M>, b: seq<Byte>, m: M, i: nat, parts: seq<Part>, m': M)
    requires AllShort(parts) && Brings(c, m, parts, m') && At(b, i, Bytes(parts)) && i + |Bytes(parts)| == |b|
    ensures Leads(c, b, m, i, m', |b|)
    decreases |parts|
  {
    if parts == [] {
      BringsNothing(c, m, m');
    } else {
      assert parts == [parts[0]] + parts[1..];
      var next := BringsFirst(c, m, parts[0], parts[1..], m');
      var j := RestStands(b, i, parts);
      PartReads(c, m, b, i, parts[0], next, j);
      PartsRead(c, b, next, j, parts[1..], m');
      LeadsOn(c, b, m, i, next, j, m', |b|);
    }
  }

  lemma BytesBring<M(!new)>(c: Codec<M>, m: M, parts: seq<Part>, m': M)
    requires AllShort(parts) && Brings(c, m, parts, m')
    ensures Parse(c, m, Bytes(parts), 0) == Ok(m')
  {
    var b := Bytes(parts);
    assert b[0..|b|] == b;
    PartsRead(c, b, m, 0, parts, m');
    LeadsToEnd(c, b, m, m');
  }

  /** The same, with the messages on the way given. */
  lemma BytesRead<M(!new)>(c: Codec<M>, ms: seq<M>, parts: seq<Part>)
    requires AllShort(parts) && AllRead(c, ms, parts)
    ensures Parse(c, ms[0], Bytes(parts), 0) == Ok(ms[|parts|])
  {
    assert Brings(c, ms[0], parts, ms[|parts|]);
    BytesBring(c, ms[0], parts, ms[|parts|]);
  }

  /** The bytes a part takes, computed without writing them. */
  function PartSize(p: Part): nat {
    match p
    case NumberPart(_, v) => if v == 0 then 0 else 1 + Sov(v)
    case ChunkPart(_, chunk) => 1 + |chunk| + Sov(|chunk|)
    case PackedPart(_, ns) => if ns == [] then 0 else 1 + Sov(PackedSize(ns)) + PackedSize(ns)
  }

  function PackedSize(ns: seq<nat>): nat {
    if ns == [] then 0 else Sov(ns[0]) + PackedSize(ns[1..])
  }

  function SizeOf(parts: seq<Part>): nat {
    if parts == [] then 0 else PartSize(parts[0]) + SizeOf(parts[1..])
  }

  lemma {:induction false} PackedSizeIs(ns: seq<nat>)
    ensures PackedSize(ns) == |PackedBytes(ns)|
    decreases |ns|
  {
    if ns != [] {
      SovIsLength(ns[0]);
      PackedSizeIs(ns[1..]);
    }
  }

  lemma PartSizeIs(p: Part)
    requires Short(p.num)
    ensures PartSize(p) == |PartBytes(p)|
  {
    match p
    case NumberPart(_, v) => SovIsLength(v);
    case ChunkPart(_, chunk) => SovIsLength(|chunk|);
    case PackedPart(_, ns) =>
      PackedSizeIs(ns);
      SovIsLength(PackedSize(ns));
  }

  lemma {:induction false} SizeIs(parts: seq<Part>)
    requires AllShort(parts)
    ensures SizeOf(parts) == |Bytes(parts)|
    decreases |parts|
  {
    if parts != [] {
      PartSizeIs(parts[0]);
      SizeIs(parts[1..]);
    }
  }

  // ---- The parts of each message ----

  /** uint64 of an int32 given by its bit pattern. */
  function Extended(kind: nat): nat
    requires kind < TWO32
  {
    if kind < TWO32 / 2 then kind else kind + (TWO64 - TWO32)
  }

  function AddrParts(a: Addr): seq<Part> {
    [NumberPart(1, a.hi), NumberPart(2, a.lo)]
  }

  function AddrBytes(a: Addr): seq<Byte> {
    Bytes(AddrParts(a))
  }

  function V4Parts(a: V4AddrPort): seq<Part> {
    [NumberPart(1, a.addr), NumberPart(2, a.port)]
  }

  function V4Bytes(a: V4AddrPort): seq<Byte> {
    Bytes(V4Parts(a))
  }

  function V6Parts(a: V6AddrPort): seq<Part> {
    [NumberPart(1, a.hi), NumberPart(2, a.lo), NumberPart(3, a.port)]
  }

  function V6Bytes(a: V6AddrPort): seq<Byte> {
    Bytes(V6Parts(a))
  }

  function MaybeAddr(num: nat, a: Option<Addr>): seq<Part> {
    if a.None? then [] else [ChunkPart(num, AddrBytes(a.value))]
  }

  function ControlNumbers(m: Control): seq<Part>
    requires m.kind < TWO32
  {
    [NumberPart(1, Extended(m.kind)), NumberPart(2, m.initiatorIndex), NumberPart(3, m.responderIndex),
     NumberPart(4, m.oldTo), NumberPart(5, m.oldFrom)]
  }

  function ControlParts(m: Control): seq<Part>
    requires m.kind < TWO32
  {
    ControlNumbers(m) + MaybeAddr(6, m.to) + MaybeAddr(7, m.from)
  }

  function ControlBytes(m: Control): seq<Byte>
    requires m.kind < TWO32
  {
    Bytes(ControlParts(m))
  }

  function V4Run(v4: seq<V4AddrPort>): (r: seq<Part>)
    ensures AllShort(r)
  {
    seq(|v4|, k requires 0 <= k < |v4| => ChunkPart(2, V4Bytes(v4[k])))
  }

  function V6Run(v6: seq<V6AddrPort>): (r: seq<Part>)
    ensures AllShort(r)
  {
    seq(|v6|, k requires 0 <= k < |v6| => ChunkPart(4, V6Bytes(v6[k])))
  }

  function AddrRun(list: seq<Addr>): (r: seq<Part>)
    ensures AllShort(r)
  {
    seq(|list|, k requires 0 <= k < |list| => ChunkPart(7, AddrBytes(list[k])))
  }

  /** The parts up to and including the version 6 addresses. */
  function DetailsFront(m: Details): (r: seq<Part>)
    ensures AllShort(r)
  {
    [NumberPart(1, m.oldVpnAddr)] + V4Run(m.v4) + [NumberPart(3, m.counter)] + V6Run(m.v6)
  }

  function DetailsParts(m: Details): (r: seq<Part>)
    ensures AllShort(r)
  {
    DetailsFront(m) + [PackedPart(5, m.oldRelays)] + MaybeAddr(6, m.vpnAddr) + AddrRun(m.relays)
  }

  function DetailsBytes(m: Details): seq<Byte> {
    Bytes(DetailsParts(m))
  }

  /** The parts of a lighthouse message whose details are these bytes. */
  function MetaPartsOf(m: Meta, details: seq<Byte>): seq<Part>
    requires m.kind < TWO32
  {
    [NumberPart(1, Extended(m.kind))] + (if m.details.None? then [] else [ChunkPart(2, details)])
  }

  function MetaParts(m: Meta): seq<Part>
    requires m.kind < TWO32
  {
    MetaPartsOf(m, if m.details.None? then [] else DetailsBytes(m.details.value))
  }

  function MetaBytes(m: Meta): seq<Byte>
    requires m.kind < TWO32
  {
    Bytes(MetaParts(m))
  }

  // ---- Reading ----

  /** A number cut to 32 binary digits. */
  function Cut32(v: nat): (w: nat)
    ensures w < TWO32 && (v < TWO32 ==> w == v)
  {
    if v < TWO32 then v else v % TWO32
  }

  lemma CutExtended(kind: nat)
    requires kind < TWO32
    ensures Cut32(Extended(kind)) == kind && Extended(kind) < TWO64
  {}

  function AddrField(m: Addr, num: nat, value: Value): Result<Addr> {
    if !value.Number? then Err(WrongWireType)
    else if num == 1 then Ok(m.(hi := Cut64(value.n))) else Ok(m.(lo := Cut64(value.n)))
  }

  const ADDR: Codec<Addr> := Codec(map[1 := VarintKind, 2 := VarintKind], AddrField)
  const NO_ADDR: Addr := Addr(0, 0)

  function V4Field(m: V4AddrPort, num: nat, value: Value): Result<V4AddrPort> {
    if !value.Number? then Err(WrongWireType)
    else if num == 1 then Ok(m.(addr := Cut32(value.n))) else Ok(m.(port := Cut32(value.n)))
  }

  const V4: Codec<V4AddrPort> := Codec(map[1 := VarintKind, 2 := VarintKind], V4Field)

  function V6Field(m: V6AddrPort, num: nat, value: Value): Result<V6AddrPort> {
    if !value.Number? then Err(WrongWireType)
    else if num == 1 then Ok(m.(hi := Cut64(value.n)))
    else if num == 2 then Ok(m.(lo := Cut64(value.n)))
    else Ok(m.(port := Cut32(value.n)))
  }

  const V6: Codec<V6AddrPort> := Codec(map[1 := VarintKind, 2 := VarintKind, 3 := VarintKind], V6Field)

  /** A submessage is read into the one already there, if any. */
  function IntoAddr(a: Option<Addr>, chunk: seq<Byte>): Result<Addr> {
    Parse(ADDR, if a.Some? then a.value else NO_ADDR, chunk, 0)
  }

  function ControlField(m: Control, num: nat, value: Value): Result<Control> {
    if num == 6 || num == 7 then
      if !value.Chunk? then Err(WrongWireType)
      else match IntoAddr(if num == 6 then m.to else m.from, value.bytes)
        case Err(e) => Err(e)
        case Ok(a) => if num == 6 then Ok(m.(to := Some(a))) else Ok(m.(from := Some(a)))
    else if !value.Number? then Err(WrongWireType)
    else if num == 1 then Ok(m.(kind := Cut32(value.n)))
    else if num == 2 then Ok(m.(initiatorIndex := Cut32(value.n)))
    else if num == 3 then Ok(m.(responderIndex := Cut32(value.n)))
    else if num == 4 then Ok(m.(oldTo := Cut32(value.n)))
    else Ok(m.(oldFrom := Cut32(value.n)))
  }

  const CONTROL: Codec<Control> := Codec(
    map[1 := VarintKind, 2 := VarintKind, 3 := VarintKind, 4 := VarintKind, 5 := VarintKind, 6 := BytesKind, 7 := BytesKind],
    ControlField)
  const NO_CONTROL: Control := Control(0, 0, 0, 0, 0, None, None)

  function Cut32s(ns: seq<nat>): seq<nat> {
    seq(|ns|, k requires 0 <= k < |ns| => Cut32(ns[k]))
  }

  function DetailsField(m: Details, num: nat, value: Value): Result<Details> {
    match value
    case Number(n) =>
      if num == 1 then Ok(m.(oldVpnAddr := Cut32(n)))
      else if num == 3 then Ok(m.(counter := Cut32(n)))
      else Ok(m.(oldRelays := m.oldRelays + [Cut32(n)]))
    case Numbers(ns) => Ok(m.(oldRelays := m.oldRelays + Cut32s(ns)))
    case Chunk(chunk) =>
      if num == 2 then
        match Parse(V4, V4AddrPort(0, 0), chunk, 0)
        case Err(e) => Err(e)
        case Ok(a) => Ok(m.(v4 := m.v4 + [a]))
      else if num == 4 then
        match Parse(V6, V6AddrPort(0, 0, 0), chunk, 0)
        case Err(e) => Err(e)
        case Ok(a) => Ok(m.(v6 := m.v6 + [a]))
      else if num == 6 then
        match IntoAddr(m.vpnAddr, chunk)
        case Err(e) => Err(e)
        case Ok(a) => Ok(m.(vpnAddr := Some(a)))
      else
        match Parse(ADDR, NO_ADDR, chunk, 0)
        case Err(e) => Err(e)
        case Ok(a) => Ok(m.(relays := m.relays + [a]))
  }

  const DETAILS: Codec<Details> := Codec(
    map[1 := VarintKind, 2 := BytesKind, 3 := VarintKind, 4 := BytesKind, 5 := PackedKind, 6 := BytesKind, 7 := BytesKind],
    DetailsField)
  const NO_DETAILS: Details := Details(0, [], 0, [], [], None, [])

  function MetaField(m: Meta, num: nat, value: Value): Result<Meta> {
    match value
    case Number(n) => Ok(m.(kind := Cut32(n)))
    case Chunk(chunk) =>
      (match Parse(DETAILS, if m.details.Some? then m.details.value else NO_DETAILS, chunk, 0)
       case Err(e) => Err(e)
       case Ok(d) => Ok(m.(details := Some(d))))
    case Numbers(_) => Err(WrongWireType)
  }

  const META: Codec<Meta> := Codec(map[1 := VarintKind, 2 := BytesKind], MetaField)
  const NO_META: Meta := Meta(0, None)

  // ---- Round trips ----

  lemma AddrRoundTrip(a: Addr)
    requires AddrFits(a)
    ensures Parse(ADDR, NO_ADDR, AddrBytes(a), 0) == Ok(a)
  {
    BytesRead(ADDR, [NO_ADDR, Addr(a.hi, 0), a], AddrParts(a));
  }

  lemma V4RoundTrip(a: V4AddrPort)
    requires V4Fits(a)
    ensures Parse(V4, V4AddrPort(0, 0), V4Bytes(a), 0) == Ok(a)
  {
    BytesRead(V4, [V4AddrPort(0, 0), V4AddrPort(a.addr, 0), a], V4Parts(a));
  }

  lemma V6RoundTrip(a: V6AddrPort)
    requires V6Fits(a)
    ensures Parse(V6, V6AddrPort(0, 0, 0), V6Bytes(a), 0) == Ok(a)
  {
    BytesRead(V6, [V6AddrPort(0, 0, 0), V6AddrPort(a.hi, 0, 0), V6AddrPort(a.hi, a.lo, 0), a], V6Parts(a));
  }

  lemma AddrIsShort(a: Addr)
    requires AddrFits(a)
    ensures |AddrBytes(a)| < TWO63
  {
    VarintIsShort(a.hi);
    VarintIsShort(a.lo);
    var p, q := NumberPart(1, a.hi), NumberPart(2, a.lo);
    assert AddrParts(a)[1..] == [q] && [q][1..] == [];
    assert Bytes([q]) == PartBytes(q) + Bytes([]);
    assert |PartBytes(p)| <= 11 && |PartBytes(q)| <= 11;
  }

  lemma VarintIsShort(v: nat)
    requires v < TWO64
    ensures |Varint(v)| <= 10
  {
    Pow128Of10();
    VarintWithin(v, 10);
  }

  lemma {:induction false} VarintWithin(v: nat, n: nat)
    requires v < Pow128(n) && n > 0
    ensures |Varint(v)| <= n
    decreases n
  {
    if v >= 128 {
      assert Pow128(1) == 128 && n != 1;
      assert v / 128 < Pow128(n - 1);
      VarintWithin(v / 128, n - 1);
    }
  }

  lemma MaybeAddrBrings<M(!new)>(c: Codec<M>, m: M, num: nat, a: Option<Addr>, m': M)
    requires Short(num) && num in c.schema && c.schema[num].BytesKind? && MaybeFits(a)
    requires if a.None? then m' == m else c.apply(m, num, Chunk(AddrBytes(a.value))) == Ok(m')
    ensures Brings(c, m, MaybeAddr(num, a), m')
  {
    if a.None? {
      BringsNone(c, m);
    } else {
      AddrIsShort(a.value);
      BringsOne(c, m, ChunkPart(num, AddrBytes(a.value)), m');
    }
  }

  lemma ControlNumbersBring(m: Control)
    requires ControlFits(m)
    ensures Brings(CONTROL, NO_CONTROL, ControlNumbers(m), m.(to := None, from := None))
  {
    var m1 := NO_CONTROL.(kind := m.kind);
    var m2 := m1.(initiatorIndex := m.initiatorIndex);
    var m3 := m2.(responderIndex := m.responderIndex);
    var m4 := m3.(oldTo := m.oldTo);
    CutExtended(m.kind);
    assert AllRead(CONTROL, [NO_CONTROL, m1, m2, m3, m4, m.(to := None, from := None)], ControlNumbers(m));
  }

  lemma ControlAddrBrings(m: Control, num: nat, a: Option<Addr>, m': Control)
    requires (num == 6 && m.to == None && m' == m.(to := a)) || (num == 7 && m.from == None && m' == m.(from := a))
    requires MaybeFits(a)
    ensures Brings(CONTROL, m, MaybeAddr(num, a), m')
  {
    if a.Some? {
      AddrRoundTrip(a.value);
    }
    MaybeAddrBrings(CONTROL, m, num, a, m');
  }

  lemma ControlBrings(m: Control)
    requires ControlFits(m)
    ensures Brings(CONTROL, NO_CONTROL, ControlParts(m), m)
  {
    var m5, m6 := m.(to := None, from := None), m.(from := None);
    ControlNumbersBring(m);
    ControlAddrBrings(m5, 6, m.to, m6);
    ControlAddrBrings(m6, 7, m.from, m);
    BringsJoin(CONTROL, NO_CONTROL, ControlNumbers(m), m5, MaybeAddr(6, m.to), m6);
    BringsJoin(CONTROL, NO_CONTROL, ControlNumbers(m) + MaybeAddr(6, m.to), m6, MaybeAddr(7, m.from), m);
  }

  /** Every control message is read back from its bytes. */
  lemma ControlRoundTrip(m: Control)
    requires ControlFits(m)
    ensures Parse(CONTROL, NO_CONTROL, ControlBytes(m), 0) == Ok(m)
  {
    ControlBrings(m);
    BytesBring(CONTROL, NO_CONTROL, ControlParts(m), m);
  }

  lemma V4IsShort(a: V4AddrPort)
    requires V4Fits(a)
    ensures |V4Bytes(a)| < TWO63
  {
    VarintIsShort(a.addr);
    VarintIsShort(a.port);
    var p, q := NumberPart(1, a.addr), NumberPart(2, a.port);
    assert V4Parts(a)[1..] == [q] && [q][1..] == [];
    assert Bytes([q]) == PartBytes(q) + Bytes([]);
    assert |PartBytes(p)| <= 11 && |PartBytes(q)| <= 11;
  }

  lemma V6IsShort(a: V6AddrPort)
    requires V6Fits(a)
    ensures |V6Bytes(a)| < TWO63
  {
    VarintIsShort(a.hi);
    VarintIsShort(a.lo);
    VarintIsShort(a.port);
    var p, q, r := NumberPart(1, a.hi), NumberPart(2, a.lo), NumberPart(3, a.port);
    assert V6Parts(a)[1..] == [q, r] && [q, r][1..] == [r] && [r][1..] == [];
    assert Bytes([r]) == PartBytes(r) + Bytes([]);
    assert Bytes([q, r]) == PartBytes(q) + Bytes([r]);
    assert |PartBytes(p)| <= 11 && |PartBytes(q)| <= 11 && |PartBytes(r)| <= 11;
  }

  lemma V4Reads(m: Details, before: seq<V4AddrPort>, a: V4AddrPort)
    requires V4Fits(a)
    ensures Reads(DETAILS, m.(v4 := before), ChunkPart(2, V4Bytes(a)), m.(v4 := before + [a]))
  {
    V4RoundTrip(a);
    V4IsShort(a);
  }

  lemma V4RunBrings(m: Details, v4: seq<V4AddrPort>)
    requires m.v4 == [] && forall k :: 0 <= k < |v4| ==> V4Fits(v4[k])
    ensures Brings(DETAILS, m, V4Run(v4), m.(v4 := v4))
  {
    var ms := seq(|v4| + 1, k requires 0 <= k <= |v4| => m.(v4 := v4[..k]));
    forall k | 0 <= k < |v4| ensures Reads(DETAILS, ms[k], V4Run(v4)[k], ms[k + 1]) {
      assert v4[..k] + [v4[k]] == v4[..k + 1];
      V4Reads(m, v4[..k], v4[k]);
    }
    assert v4[..|v4|] == v4;
    assert AllRead(DETAILS, ms, V4Run(v4));
  }

  lemma V6Reads(m: Details, before: seq<V6AddrPort>, a: V6AddrPort)
    requires V6Fits(a)
    ensures Reads(DETAILS, m.(v6 := before), ChunkPart(4, V6Bytes(a)), m.(v6 := before + [a]))
  {
    V6RoundTrip(a);
    V6IsShort(a);
  }

  lemma V6RunBrings(m: Details, v6: seq<V6AddrPort>)
    requires m.v6 == [] && forall k :: 0 <= k < |v6| ==> V6Fits(v6[k])
    ensures Brings(DETAILS, m, V6Run(v6), m.(v6 := v6))
  {
    var ms := seq(|v6| + 1, k requires 0 <= k <= |v6| => m.(v6 := v6[..k]));
    forall k | 0 <= k < |v6| ensures Reads(DETAILS, ms[k], V6Run(v6)[k], ms[k + 1]) {
      assert v6[..k] + [v6[k]] == v6[..k + 1];
      V6Reads(m, v6[..k], v6[k]);
    }
    assert v6[..|v6|] == v6;
    assert AllRead(DETAILS, ms, V6Run(v6));
  }

  lemma AddrReads(m: Details, before: seq<Addr>, a: Addr)
    requires AddrFits(a)
    ensures Reads(DETAILS, m.(relays := before), ChunkPart(7, AddrBytes(a)), m.(relays := before + [a]))
  {
    AddrRoundTrip(a);
    AddrIsShort(a);
  }

  lemma AddrRunBrings(m: Details, list: seq<Addr>)
    requires m.relays == [] && forall k :: 0 <= k < |list| ==> AddrFits(list[k])
    ensures Brings(DETAILS, m, AddrRun(list), m.(relays := list))
  {
    var ms := seq(|list| + 1, k requires 0 <= k <= |list| => m.(relays := list[..k]));
    forall k | 0 <= k < |list| ensures Reads(DETAILS, ms[k], AddrRun(list)[k], ms[k + 1]) {
      assert list[..k] + [list[k]] == list[..k + 1];
      AddrReads(m, list[..k], list[k]);
    }
    assert list[..|list|] == list;
    assert AllRead(DETAILS, ms, AddrRun(list));
  }

  lemma PackedApplies(m: Details, ns: seq<nat>)
    requires m.oldRelays == [] && forall k :: 0 <= k < |ns| ==> ns[k] < TWO32
    ensures DetailsField(m, 5, Numbers(ns)) == Ok(m.(oldRelays := ns)) && Fit64(ns)
  {
    assert Cut32s(ns) == ns;
    assert m.oldRelays + ns == ns;
  }

  lemma PackedBrings(m: Details, ns: seq<nat>)
    requires m.oldRelays == [] && (forall k :: 0 <= k < |ns| ==> ns[k] < TWO32) && |PackedBytes(ns)| < TWO63
    ensures Brings(DETAILS, m, [PackedPart(5, ns)], m.(oldRelays := ns))
  {
    PackedApplies(m, ns);
    BringsOne(DETAILS, m, PackedPart(5, ns), m.(oldRelays := ns));
  }

  lemma VpnAddrBrings(m: Details, a: Option<Addr>)
    requires m.vpnAddr == None && MaybeFits(a)
    ensures Brings(DETAILS, m, MaybeAddr(6, a), m.(vpnAddr := a))
  {
    if a.Some? {
      AddrRoundTrip(a.value);
    }
    MaybeAddrBrings(DETAILS, m, 6, a, m.(vpnAddr := a));
  }

  lemma DetailsFrontBrings(m: Details)
    requires DetailsFits(m)
    ensures Brings(DETAILS, NO_DETAILS, DetailsFront(m), m.(oldRelays := [], vpnAddr := None, relays := []))
  {
    var d1 := NO_DETAILS.(oldVpnAddr := m.oldVpnAddr);
    var d2 := d1.(v4 := m.v4);
    var d3 := d2.(counter := m.counter);
    var d4 := d3.(v6 := m.v6);
    BringsOne(DETAILS, NO_DETAILS, NumberPart(1, m.oldVpnAddr), d1);
    V4RunBrings(d1, m.v4);
    BringsOne(DETAILS, d2, NumberPart(3, m.counter), d3);
    V6RunBrings(d3, m.v6);
    BringsJoin(DETAILS, NO_DETAILS, [NumberPart(1, m.oldVpnAddr)], d1, V4Run(m.v4), d2);
    BringsJoin(DETAILS, NO_DETAILS, [NumberPart(1, m.oldVpnAddr)] + V4Run(m.v4), d2, [NumberPart(3, m.counter)], d3);
    BringsJoin(DETAILS, NO_DETAILS, [NumberPart(1, m.oldVpnAddr)] + V4Run(m.v4) + [NumberPart(3, m.counter)], d3, V6Run(m.v6), d4);
  }

  /** All of the details but the relays. */
  lemma DetailsMiddleBrings(m: Details)
    requires DetailsFits(m)
    ensures Brings(DETAILS, NO_DETAILS, DetailsFront(m) + [PackedPart(5, m.oldRelays)] + MaybeAddr(6, m.vpnAddr), m.(relays := []))
  {
    var d4 := m.(oldRelays := [], vpnAddr := None, relays := []);
    var d5 := d4.(oldRelays := m.oldRelays);
    var d6 := d5.(vpnAddr := m.vpnAddr);
    DetailsFrontBrings(m);
    PackedBrings(d4, m.oldRelays);
    VpnAddrBrings(d5, m.vpnAddr);
    BringsJoin(DETAILS, NO_DETAILS, DetailsFront(m), d4, [PackedPart(5, m.oldRelays)], d5);
    BringsJoin(DETAILS, NO_DETAILS, DetailsFront(m) + [PackedPart(5, m.oldRelays)], d5, MaybeAddr(6, m.vpnAddr), d6);
  }

  lemma DetailsBring(m: Details)
    requires DetailsFits(m)
    ensures Brings(DETAILS, NO_DETAILS, DetailsParts(m), m)
  {
    var d6 := m.(relays := []);
    DetailsMiddleBrings(m);
    AddrRunBrings(d6, m.relays);
    BringsJoin(DETAILS, NO_DETAILS, DetailsFront(m) + [PackedPart(5, m.oldRelays)] + MaybeAddr(6, m.vpnAddr), d6, AddrRun(m.relays), m);
  }

  lemma DetailsRoundTrip(m: Details)
    requires DetailsFits(m)
    ensures Parse(DETAILS, NO_DETAILS, DetailsBytes(m), 0) == Ok(m)
  {
    var parts := DetailsParts(m);
    DetailsBring(m);
    BytesBring(DETAILS, NO_DETAILS, parts, m);
  }

  lemma MetaBrings(m: Meta, details: seq<Byte>)
    requires m.kind < TWO32
    requires m.details.Some? ==> |details| < TWO63 && Parse(DETAILS, NO_DETAILS, details, 0) == Ok(m.details.value)
    ensures Brings(META, NO_META, MetaPartsOf(m, details), m)
  {
    var m1 := NO_META.(kind := m.kind);
    var first := NumberPart(1, Extended(m.kind));
    KindBrings(m.kind, first, m1);
    if m.details.None? {
      assert [first] + [] == [first];
    } else {
      MetaDetailsBring(m1, details, m.details.value, m);
      BringsJoin(META, NO_META, [first], m1, [ChunkPart(2, details)], m);
    }
  }

  lemma KindBrings(kind: nat, first: Part, m1: Meta)
    requires kind < TWO32 && first == NumberPart(1, Extended(kind)) && m1 == NO_META.(kind := kind)
    ensures Brings(META, NO_META, [first], m1)
  {
    CutExtended(kind);
    BringsOne(META, NO_META, first, m1);
  }

  lemma MetaDetailsBring(m1: Meta, bytes: seq<Byte>, details: Details, m: Meta)
    requires m1.details.None? && m == m1.(details := Some(details)) && |bytes| < TWO63
    requires Parse(DETAILS, NO_DETAILS, bytes, 0) == Ok(details)
    ensures Brings(META, m1, [ChunkPart(2, bytes)], m)
  {
    BringsOne(META, m1, ChunkPart(2, bytes), m);
  }

  /** Every lighthouse message is read back from its bytes. */
  lemma MetaRoundTrip(m: Meta)
    requires MetaFits(m)
    ensures Parse(META, NO_META, MetaBytes(m), 0) == Ok(m)
  {
    var details := if m.details.None? then [] else DetailsBytes(m.details.value);
    if m.details.Some? {
      DetailsRoundTrip(m.details.value);
    }
    MetaBrings(m, details);
    BytesBring(META, NO_META, MetaParts(m), m);
  }
}
