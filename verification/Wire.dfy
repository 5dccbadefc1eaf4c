/** The protobuf wire format: variable-length integers, fields, and a message as a run of fields. */
module Wire {

  /** A byte, below 256 in everything written and read. */
  type Byte = nat

  datatype Error =
    | IntOverflow | UnexpectedEof | InvalidLength | WrongWireType | EndGroup | IllegalTag | UnexpectedEndOfGroup | IllegalWireType

  datatype Result<+T> = Ok(value: T) | Err(error: Error)

  const TWO32: nat := 0x1_0000_0000
  const TWO63: nat := 0x8000_0000_0000_0000
  const TWO64: nat := 0x1_0000_0000_0000_0000

  // ---- Varints ----

  /** Seven binary digits to a byte, the least significant first, all but the last flagged. */
  function Varint(v: nat): (s: seq<Byte>)
    ensures |s| >= 1
  {
    if v < 128 then [v] else [v % 128 + 128] + Varint(v / 128)
  }

  /** Bytes are modelled as numbers; those of an encoding are below 256. */
  lemma {:induction false} VarintIsBytes(v: nat)
    ensures forall k :: 0 <= k < |Varint(v)| ==> Varint(v)[k] < 256
  {
    if v >= 128 { VarintIsBytes(v / 128); }
  }

  /** How many binary digits v has (math/bits.Len64). */
  function Len(v: nat): nat {
    if v == 0 then 0 else 1 + Len(v / 2)
  }

  /** sovNebula */
  function Sov(v: nat): nat {
    (Len(if v % 2 == 0 then v + 1 else v) + 6) / 7
  }

  lemma LenOdd(v: nat)
    requires v > 0
    ensures Len(if v % 2 == 0 then v + 1 else v) == Len(v)
  {
    assert (v + 1) / 2 == v / 2 || v % 2 == 1;
  }

  lemma LenTwo(v: nat)
    requires v >= 2
    ensures Len(v) == 2 + Len(v / 4)
  {
    assert v / 2 / 2 == v / 4;
  }

  lemma LenFour(v: nat)
    requires v >= 8
    ensures Len(v) == 4 + Len(v / 16)
  {
    LenTwo(v);
    LenTwo(v / 4);
    assert v / 4 / 4 == v / 16;
  }

  lemma LenSeven(v: nat)
    requires v >= 128
    ensures Len(v) == 7 + Len(v / 128)
  {
    LenFour(v);
    var w := v / 16;
    LenTwo(w);
    var u := w / 4;
    assert u == v / 64;
    LenOne(u);
    assert u / 2 == v / 128;
  }

  lemma LenOne(v: nat)
    requires v >= 1
    ensures Len(v) == 1 + Len(v / 2)
  {}

  lemma LenSmall(v: nat)
    requires 0 < v < 128
    ensures 1 <= Len(v) <= 7
  {}

  /** The size computed without writing is the number of bytes written. */
  lemma {:induction false} SovIsLength(v: nat)
    ensures Sov(v) == |Varint(v)|
  {
    if v == 0 {
      assert Len(1) == 1;
    } else {
      LenOdd(v);
      if v < 128 {
        LenSmall(v);
      } else {
        SovIsLength(v / 128);
        LenOdd(v / 128);
        LenSeven(v);
      }
    }
  }

  /** The bytes s stand in b from index i on. */
  ghost predicate At(b: seq<Byte>, i: nat, s: seq<Byte>) {
    i + |s| <= |b| && b[i..i + |s|] == s
  }

  lemma AtParts(b: seq<Byte>, i: nat, s: seq<Byte>, t: seq<Byte>)
    ensures At(b, i, s + t) <==> At(b, i, s) && At(b, i + |s|, t)
  {
    if At(b, i, s + t) {
      assert b[i..i + |s|] == (s + t)[..|s|] == s;
      assert b[i + |s|..i + |s| + |t|] == (s + t)[|s|..] == t;
    }
    if At(b, i, s) && At(b, i + |s|, t) {
      assert b[i..i + |s + t|] == b[i..i + |s|] + b[i + |s|..i + |s| + |t|];
    }
  }

  lemma HeadStands(b: seq<Byte>, i: nat, s: seq<Byte>, t: seq<Byte>, all: seq<Byte>, next: nat)
    requires all == s + t && At(b, i, all) && next == i + |s|
    ensures At(b, i, s) && At(b, next, t) && next + |t| == i + |all|
  {
    AtParts(b, i, s, t);
  }

  /** What was read, and the index after it. */
  datatype Int = Int(v: nat, next: nat) | NoInt(error: Error)

  /** The loop that reads a varint, at its n-th byte: the value before it is cut to the width of the
      field. */
  function ReadVarint(b: seq<Byte>, i: nat, n: nat): (r: Int)
    ensures r.Int? ==> i < r.next <= |b|
    decreases |b| - i
  {
    if n >= 10 then NoInt(IntOverflow)
    else if i >= |b| then NoInt(UnexpectedEof)
    else if b[i] < 128 then Int(b[i], i + 1)
    else match ReadVarint(b, i + 1, n + 1)
      case NoInt(e) => NoInt(e)
      case Int(v, next) => Int(b[i] - 128 + 128 * v, next)
  }

  function Pow128(n: nat): (p: nat)
    ensures p > 0
  {
    if n == 0 then 1 else 128 * Pow128(n - 1)
  }

  lemma {:induction false} VarintReadsFrom(b: seq<Byte>, i: nat, v: nat, n: nat)
    requires n < 10 && v < Pow128(10 - n) && At(b, i, Varint(v))
    ensures ReadVarint(b, i, n) == Int(v, i + |Varint(v)|)
    decreases v
  {
    if v < 128 {
      assert b[i..i + 1][0] == v;
    } else {
      assert Pow128(10 - n) == 128 * Pow128(9 - n);
      assert v / 128 < Pow128(9 - n);
      assert n != 9;
      AtParts(b, i, [v % 128 + 128], Varint(v / 128));
      assert b[i..i + 1][0] == v % 128 + 128;
      VarintReadsFrom(b, i + 1, v / 128, n + 1);
    }
  }

  lemma Pow128Of10()
    ensures Pow128(10) >= TWO64
  {
    assert Pow128(2) == 0x4000;
    assert Pow128(4) == 0x1000_0000 by { assert Pow128(3) == 0x20_0000; }
    assert Pow128(6) == 0x400_0000_0000 by { assert Pow128(5) == 0x8_0000_0000; }
    assert Pow128(8) == 0x100_0000_0000_0000 by { assert Pow128(7) == 0x2_0000_0000_0000; }
    assert Pow128(10) == 0x40_0000_0000_0000_0000 by { assert Pow128(9) == 0x8000_0000_0000_0000; }
  }

  /** A number cut to 64 binary digits. */
  function Cut64(v: nat): (w: nat)
    ensures w < TWO64 && (v < TWO64 ==> w == v)
  {
    if v < TWO64 then v else v % TWO64
  }

  /** A varint read into a 64-bit word: what does not fit is shifted out. */
  function ReadWord(b: seq<Byte>, i: nat): (r: Int)
    ensures r.Int? ==> i < r.next <= |b|
  {
    match ReadVarint(b, i, 0)
    case NoInt(e) => NoInt(e)
    case Int(v, j) => Int(Cut64(v), j)
  }

  /** Every 64-bit integer is read back from its encoding, wherever that stands. */
  lemma VarintReads(b: seq<Byte>, i: nat, v: nat)
    requires v < TWO64 && At(b, i, Varint(v))
    ensures ReadVarint(b, i, 0) == Int(v, i + |Varint(v)|) && ReadWord(b, i) == Int(v, i + |Varint(v)|)
  {
    Pow128Of10();
    VarintReadsFrom(b, i, v, 0);
  }

  // ---- Fields ----

  datatype Kind = VarintKind | BytesKind | PackedKind
  datatype Value = Number(n: nat) | Chunk(bytes: seq<Byte>) | Numbers(ns: seq<nat>)

  /** The known fields of a message by number. */
  type Schema = map<nat, Kind>

  /** A length is a signed 64-bit number. */
  function ReadLength(b: seq<Byte>, i: nat): (r: Int)
    ensures r.Int? ==> i < r.next <= |b|
  {
    match ReadWord(b, i)
    case NoInt(e) => NoInt(e)
    case Int(v, j) => if v >= TWO63 then NoInt(InvalidLength) else Int(v, j)
  }

  datatype Got = Got(value: Value, next: nat) | NotGot(error: Error)

  /** A number is cut to the width of its field when it is stored there. */
  function ReadNumber(b: seq<Byte>, i: nat): (r: Got)
    ensures r.Got? ==> i < r.next <= |b|
  {
    match ReadWord(b, i)
    case NoInt(e) => NotGot(e)
    case Int(v, j) => Got(Number(v), j)
  }

  function ReadChunk(b: seq<Byte>, i: nat): (r: Got)
    ensures r.Got? ==> i < r.next <= |b|
  {
    match ReadLength(b, i)
    case NoInt(e) => NotGot(e)
    case Int(length, j) => if j + length > |b| then NotGot(UnexpectedEof) else Got(Chunk(b[j..j + length]), j + length)
  }

  datatype Ints = Ints(ns: seq<nat>, next: nat) | NoInts(error: Error)

  /** The elements of a packed field, added to those before: read until index `end` is reached or
      passed. */
  function ReadPacked(b: seq<Byte>, i: nat, end: nat, ns: seq<nat>): (r: Ints)
    ensures r.Ints? && i <= |b| ==> i <= r.next <= |b|
    decreases end - i
  {
    if i >= end then Ints(ns, i)
    else match ReadWord(b, i)
      case NoInt(e) => NoInts(e)
      case Int(v, j) => ReadPacked(b, j, end, ns + [v])
  }

  function ReadPackedField(b: seq<Byte>, i: nat): (r: Got)
    ensures r.Got? ==> i < r.next <= |b|
  {
    match ReadLength(b, i)
    case NoInt(e) => NotGot(e)
    case Int(length, j) =>
      if j + length > |b| then NotGot(UnexpectedEof)
      else match ReadPacked(b, j, j + length, [])
        case NoInts(e) => NotGot(e)
        case Ints(ns, next) => Got(Numbers(ns), next)
  }

  datatype End = End(next: nat) | NoEnd(error: Error)

  /** skipNebula from index i on, `depth` groups deep: where the field ends, which may be past the end. */
  function Skip(b: seq<Byte>, i: nat, depth: nat): (r: End)
    ensures r.End? ==> r.next > i
    decreases |b| - i, 1
  {
    match ReadWord(b, i)
    case NoInt(e) => NoEnd(e)
    case Int(wire, j) =>
      match wire % 8
      case 0 =>
        (match ReadWord(b, j)
         case NoInt(e) => NoEnd(e)
         case Int(_, k) => SkipOn(b, i, k, depth))
      case 1 => SkipOn(b, i, j + 8, depth)
      case 2 =>
        (match ReadLength(b, j)
         case NoInt(e) => NoEnd(e)
         case Int(length, k) => if k + length >= TWO63 then NoEnd(InvalidLength) else SkipOn(b, i, k + length, depth))
      case 3 => SkipOn(b, i, j, depth + 1)
      case 4 => if depth == 0 then NoEnd(UnexpectedEndOfGroup) else SkipOn(b, i, j, depth - 1)
      case 5 => SkipOn(b, i, j + 4, depth)
      case _ => NoEnd(IllegalWireType)
  }

  /** The end of a turn of skipNebula: done at depth zero. */
  function SkipOn(b: seq<Byte>, before: nat, i: nat, depth: nat): (r: End)
    requires before < i && before < |b|
    ensures r.End? ==> r.next >= i
    decreases |b| - before, 0
  {
    if depth == 0 then End(i) else if i >= |b| then NoEnd(UnexpectedEof) else Skip(b, i, depth)
  }

  datatype Tag = Tag(num: nat, wireType: nat, next: nat) | NoTag(error: Error)

  /** The head of every turn of an Unmarshal loop. */
  function ReadTag(b: seq<Byte>, i: nat): (r: Tag)
    ensures r.Tag? ==> i < r.next <= |b|
  {
    match ReadWord(b, i)
    case NoInt(e) => NoTag(e)
    case Int(wire, j) =>
      var num := wire / 8 % TWO32;
      if wire % 8 == 4 then NoTag(EndGroup)
      else if num == 0 || num >= TWO32 / 2 then NoTag(IllegalTag)
      else Tag(num, wire % 8, j)
  }

  /** The value of a known field. */
  function ReadValue(kind: Kind, wireType: nat, b: seq<Byte>, i: nat): (r: Got)
    ensures r.Got? ==> i < r.next <= |b|
  {
    match kind
    case VarintKind => if wireType != 0 then NotGot(WrongWireType) else ReadNumber(b, i)
    case BytesKind => if wireType != 2 then NotGot(WrongWireType) else ReadChunk(b, i)
    case PackedKind =>
      if wireType == 0 then ReadNumber(b, i) else if wireType == 2 then ReadPackedField(b, i) else NotGot(WrongWireType)
  }

  datatype Field = Known(num: nat, value: Value, next: nat) | Unknown(next: nat) | NoField(error: Error)

  /** One turn of an Unmarshal loop: a known field with its value, or past an unknown one. */
  function ReadField(schema: Schema, b: seq<Byte>, i: nat): (r: Field)
    ensures !r.NoField? ==> i < r.next <= |b|
  {
    match ReadTag(b, i)
    case NoTag(e) => NoField(e)
    case Tag(num, wireType, j) =>
      if num !in schema then
        match Skip(b, i, 0)
        case NoEnd(e) => NoField(e)
        case End(k) => if k > |b| then NoField(UnexpectedEof) else Unknown(k)
      else
        match ReadValue(schema[num], wireType, b, j)
        case NotGot(e) => NoField(e)
        case Got(value, k) => Known(num, value, k)
  }

  // ---- Messages ----

  /** How a message type takes in one field. */
  datatype Codec<!M> = Codec(schema: Schema, apply: (M, nat, Value) -> Result<M>)

  /** Unmarshal from index i on: field after field into the message m. */
  function Parse<M>(c: Codec<M>, m: M, b: seq<Byte>, i: nat): Result<M>
    decreases |b| - i, 0
  {
    if i >= |b| then Ok(m)
    else match ReadField(c.schema, b, i)
      case NoField(e) => Err(e)
      case Unknown(j) => Parse(c, m, b, j)
      case Known(num, value, j) => Then(c, c.apply(m, num, value), b, j)
  }

  function Then<M>(c: Codec<M>, r: Result<M>, b: seq<Byte>, i: nat): Result<M>
    decreases |b| - i, 1
  {
    match r
    case Err(e) => Err(e)
    case Ok(m) => Parse(c, m, b, i)
  }

  /** Field numbers below 16 make a tag of one byte. */
  predicate Short(num: nat) {
    0 < num < 16
  }

  function NumberField(num: nat, v: nat): seq<Byte>
    requires Short(num)
  {
    [num * 8] + Varint(v)
  }

  function ChunkField(num: nat, b: seq<Byte>): seq<Byte>
    requires Short(num)
  {
    [num * 8 + 2] + (Varint(|b|) + b)
  }

  lemma TagReads(b: seq<Byte>, i: nat, num: nat, wireType: nat)
    requires Short(num) && wireType < 8 && wireType != 4 && At(b, i, [num * 8 + wireType])
    ensures ReadTag(b, i) == Tag(num, wireType, i + 1)
  {
    assert b[i..i + 1][0] == num * 8 + wireType;
    assert ReadVarint(b, i, 0) == Int(num * 8 + wireType, i + 1);
  }

  /** A known field whose value is read back as `value`, at the head of a message. */
  lemma ParseField<M>(c: Codec<M>, m: M, b: seq<Byte>, i: nat, num: nat, wireType: nat, value: Value, j: nat)
    requires Short(num) && wireType < 8 && wireType != 4 && num in c.schema && At(b, i, [num * 8 + wireType])
    requires ReadValue(c.schema[num], wireType, b, i + 1) == Got(value, j)
    ensures Parse(c, m, b, i) == Then(c, c.apply(m, num, value), b, j)
  {
    TagReads(b, i, num, wireType);
    assert ReadField(c.schema, b, i) == Known(num, value, j);
  }

  lemma ParseNumber<M>(c: Codec<M>, m: M, b: seq<Byte>, i: nat, num: nat, v: nat)
    requires Short(num) && num in c.schema && !c.schema[num].BytesKind? && v < TWO64 && At(b, i, NumberField(num, v))
    ensures Parse(c, m, b, i) == Then(c, c.apply(m, num, Number(v)), b, i + |NumberField(num, v)|)
  {
    AtParts(b, i, [num * 8], Varint(v));
    VarintReads(b, i + 1, v);
    ParseField(c, m, b, i, num, 0, Number(v), i + 1 + |Varint(v)|);
  }

  lemma LengthReads(b: seq<Byte>, i: nat, n: nat)
    requires n < TWO63 && At(b, i, Varint(n))
    ensures ReadLength(b, i) == Int(n, i + |Varint(n)|)
  {
    VarintReads(b, i, n);
  }

  /** Where the parts of a length-delimited field stand. */
  lemma ChunkParts(b: seq<Byte>, i: nat, num: nat, chunk: seq<Byte>)
    requires Short(num) && At(b, i, ChunkField(num, chunk))
    ensures At(b, i, [num * 8 + 2]) && At(b, i + 1, Varint(|chunk|)) && At(b, i + 1 + |Varint(|chunk|)|, chunk)
    ensures i + 1 + |Varint(|chunk|)| + |chunk| == i + |ChunkField(num, chunk)|
  {
    AtParts(b, i, [num * 8 + 2], Varint(|chunk|) + chunk);
    AtParts(b, i + 1, Varint(|chunk|), chunk);
  }

  lemma ChunkIs(b: seq<Byte>, i: nat, chunk: seq<Byte>, j: nat)
    requires ReadLength(b, i) == Int(|chunk|, j) && At(b, j, chunk)
    ensures ReadChunk(b, i) == Got(Chunk(chunk), j + |chunk|)
  {}

  lemma ChunkReads(b: seq<Byte>, i: nat, num: nat, chunk: seq<Byte>)
    requires Short(num) && |chunk| < TWO63 && At(b, i, ChunkField(num, chunk))
    ensures At(b, i, [num * 8 + 2]) && ReadChunk(b, i + 1) == Got(Chunk(chunk), i + |ChunkField(num, chunk)|)
  {
    ChunkParts(b, i, num, chunk);
    LengthReads(b, i + 1, |chunk|);
    ChunkIs(b, i + 1, chunk, i + 1 + |Varint(|chunk|)|);
  }

  lemma ParseChunkValue<M>(c: Codec<M>, m: M, b: seq<Byte>, i: nat, num: nat, chunk: seq<Byte>, j: nat)
    requires Short(num) && num in c.schema && c.schema[num].BytesKind? && At(b, i, [num * 8 + 2])
    requires ReadChunk(b, i + 1) == Got(Chunk(chunk), j)
    ensures Parse(c, m, b, i) == Then(c, c.apply(m, num, Chunk(chunk)), b, j)
  {
    ParseField(c, m, b, i, num, 2, Chunk(chunk), j);
  }

  lemma ParseChunk<M>(c: Codec<M>, m: M, b: seq<Byte>, i: nat, num: nat, chunk: seq<Byte>)
    requires Short(num) && num in c.schema && c.schema[num].BytesKind? && |chunk| < TWO63 && At(b, i, ChunkField(num, chunk))
    ensures Parse(c, m, b, i) == Then(c, c.apply(m, num, Chunk(chunk)), b, i + |ChunkField(num, chunk)|)
  {
    var j := i + |ChunkField(num, chunk)|;
    assert At(b, i, [num * 8 + 2]) && ReadChunk(b, i + 1) == Got(Chunk(chunk), j) by { ChunkReads(b, i, num, chunk); }
    ParseChunkValue(c, m, b, i, num, chunk, j);
  }

  /** The elements of a packed field, one after the other. */
  function PackedBytes(ns: seq<nat>): seq<Byte> {
    if ns == [] then [] else Varint(ns[0]) + PackedBytes(ns[1..])
  }

  predicate Fit64(ns: seq<nat>) {
    forall k :: 0 <= k < |ns| ==> ns[k] < TWO64
  }

  lemma PackedStep(b: seq<Byte>, i: nat, end: nat, v: nat, j: nat, before: seq<nat>)
    requires i < end && ReadWord(b, i) == Int(v, j)
    ensures ReadPacked(b, i, end, before) == ReadPacked(b, j, end, before + [v])
  {}

  lemma {:induction false} PackedReads(b: seq<Byte>, i: nat, ns: seq<nat>, before: seq<nat>, end: nat)
    requires Fit64(ns) && At(b, i, PackedBytes(ns)) && end == i + |PackedBytes(ns)|
    ensures ReadPacked(b, i, end, before) == Ints(before + ns, end)
    decreases |ns|
  {
    if ns == [] {
      assert before + ns == before;
    } else {
      var v, rest := ns[0], ns[1..];
      var j := i + |Varint(v)|;
      HeadStands(b, i, Varint(v), PackedBytes(rest), PackedBytes(ns), j);
      VarintReads(b, i, v);
      PackedStep(b, i, end, v, j, before);
      PackedReads(b, j, rest, before + [v], end);
      assert before + [v] + rest == before + ns;
    }
  }

  lemma PackedFieldIs(b: seq<Byte>, i: nat, length: nat, j: nat, end: nat, r: Ints, ns: seq<nat>)
    requires ReadLength(b, i) == Int(length, j) && end == j + length <= |b| && r == ReadPacked(b, j, end, []) && r == Ints(ns, end)
    ensures ReadPackedField(b, i) == Got(Numbers(ns), end)
  {}

  lemma PackedFieldReads(b: seq<Byte>, i: nat, num: nat, ns: seq<nat>, chunk: seq<Byte>)
    requires Short(num) && |chunk| < TWO63 && At(b, i, ChunkField(num, chunk))
    requires var end := i + |ChunkField(num, chunk)|; ReadPacked(b, end - |chunk|, end, []) == Ints(ns, end)
    ensures At(b, i, [num * 8 + 2]) && ReadPackedField(b, i + 1) == Got(Numbers(ns), i + |ChunkField(num, chunk)|)
  {
    ChunkParts(b, i, num, chunk);
    LengthReads(b, i + 1, |chunk|);
    PackedFieldIs(b, i + 1, |chunk|, i + 1 + |Varint(|chunk|)|, i + |ChunkField(num, chunk)|, Ints(ns, i + |ChunkField(num, chunk)|), ns);
  }

  lemma PackedAt(b: seq<Byte>, i: nat, num: nat, ns: seq<nat>)
    requires Short(num) && Fit64(ns) && At(b, i, ChunkField(num, PackedBytes(ns)))
    ensures var end := i + |ChunkField(num, PackedBytes(ns))|; ReadPacked(b, end - |PackedBytes(ns)|, end, []) == Ints(ns, end)
  {
    ChunkParts(b, i, num, PackedBytes(ns));
    var end := i + |ChunkField(num, PackedBytes(ns))|;
    PackedReads(b, end - |PackedBytes(ns)|, ns, [], end);
    assert [] + ns == ns;
  }

  lemma ParsePackedValue<M>(c: Codec<M>, m: M, b: seq<Byte>, i: nat, num: nat, ns: seq<nat>, j: nat)
    requires Short(num) && num in c.schema && c.schema[num].PackedKind? && At(b, i, [num * 8 + 2])
    requires ReadPackedField(b, i + 1) == Got(Numbers(ns), j)
    ensures Parse(c, m, b, i) == Then(c, c.apply(m, num, Numbers(ns)), b, j)
  {
    ParseField(c, m, b, i, num, 2, Numbers(ns), j);
  }

  lemma ParsePacked<M>(c: Codec<M>, m: M, b: seq<Byte>, i: nat, num: nat, ns: seq<nat>)
    requires Short(num) && num in c.schema && c.schema[num].PackedKind? && Fit64(ns)
    requires |PackedBytes(ns)| < TWO63 && At(b, i, ChunkField(num, PackedBytes(ns)))
    ensures Parse(c, m, b, i) == Then(c, c.apply(m, num, Numbers(ns)), b, i + |ChunkField(num, PackedBytes(ns))|)
  {
    var j := i + |ChunkField(num, PackedBytes(ns))|;
    assert At(b, i, [num * 8 + 2]) && ReadPackedField(b, i + 1) == Got(Numbers(ns), j) by { PackedFieldAt(b, i, num, ns); }
    ParsePackedValue(c, m, b, i, num, ns, j);
  }

  lemma PackedFieldAt(b: seq<Byte>, i: nat, num: nat, ns: seq<nat>)
    requires Short(num) && Fit64(ns) && |PackedBytes(ns)| < TWO63 && At(b, i, ChunkField(num, PackedBytes(ns)))
    ensures At(b, i, [num * 8 + 2]) && ReadPackedField(b, i + 1) == Got(Numbers(ns), i + |ChunkField(num, PackedBytes(ns))|)
  {
    PackedAt(b, i, num, ns);
    PackedFieldReads(b, i, num, ns, PackedBytes(ns));
  }
}
