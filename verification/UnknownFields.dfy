/**
  * Fields a message does not know: their bytes as the protobuf encoding has them, groups within groups
  * included, and how skipNebula of nebula.pb.go gets past them. A message with any number of them between
  * its own fields is read as if they were not there.
  */
module UnknownFields {
  import opened Options
  import opened Wire
  import opened Messages

  // ---- Their bytes ----

  /** The content of a field of each wire type; a group holds a run of fields. */
  datatype Content =
    | VarintContent(v: nat)
    | Fixed64Content(bytes: seq<Byte>)
    | BytesContent(bytes: seq<Byte>)
    | GroupContent(inner: Fields)
    | Fixed32Content(bytes: seq<Byte>)

  datatype Fields = NoFields | OneMore(num: nat, content: Content, rest: Fields)

  function TypeOf(c: Content): (r: nat)
    ensures r < 8 && r != 4
  {
    match c
    case VarintContent(_) => 0
    case Fixed64Content(_) => 1
    case BytesContent(_) => 2
    case GroupContent(_) => 3
    case Fixed32Content(_) => 5
  }

  function TagBytes(num: nat, wireType: nat): seq<Byte> {
    Varint(num * 8 + wireType)
  }

  /** What follows the tag: for a group its fields and the tag that ends it. */
  function ContentBytes(num: nat, c: Content): seq<Byte>
    decreases c, 0
  {
    match c
    case VarintContent(v) => Varint(v)
    case Fixed64Content(bytes) => bytes
    case BytesContent(bytes) => Varint(|bytes|) + bytes
    case GroupContent(inner) => FieldsBytes(inner) + TagBytes(num, 4)
    case Fixed32Content(bytes) => bytes
  }

  function FieldBytes(num: nat, c: Content): seq<Byte>
    decreases c, 1
  {
    TagBytes(num, TypeOf(c)) + ContentBytes(num, c)
  }

  function FieldsBytes(fs: Fields): seq<Byte>
    decreases fs
  {
    match fs
    case NoFields => []
    case OneMore(num, c, rest) => FieldBytes(num, c) + FieldsBytes(rest)
  }

  /** A field number is a positive int32. */
  predicate NumberFits(num: nat) {
    0 < num < TWO32 / 2
  }

  predicate ContentFits(c: Content) {
    match c
    case VarintContent(v) => v < TWO64
    case Fixed64Content(bytes) => |bytes| == 8
    case BytesContent(bytes) => |bytes| < TWO63
    case GroupContent(inner) => FieldsFit(inner)
    case Fixed32Content(bytes) => |bytes| == 4
  }

  predicate FieldsFit(fs: Fields) {
    match fs
    case NoFields => true
    case OneMore(num, c, rest) => NumberFits(num) && ContentFits(c) && FieldsFit(rest)
  }

  // ---- skipNebula ----

  lemma TagStands(b: seq<Byte>, i: nat, num: nat, wireType: nat)
    requires NumberFits(num) && wireType < 8 && At(b, i, TagBytes(num, wireType))
    ensures ReadVarint(b, i, 0) == ReadWord(b, i) == Int(num * 8 + wireType, i + |TagBytes(num, wireType)|)
    ensures (num * 8 + wireType) % 8 == wireType && (num * 8 + wireType) / 8 == num && num * 8 + wireType < TWO64
  {
    TagDigits(num, wireType);
    VarintReads(b, i, num * 8 + wireType);
  }

  lemma TagDigits(num: nat, wireType: nat)
    requires NumberFits(num) && wireType < 8
    ensures (num * 8 + wireType) % 8 == wireType && (num * 8 + wireType) / 8 == num && num * 8 + wireType < TWO64 && num % TWO32 == num
  {}

  lemma WordIsTag(b: seq<Byte>, i: nat, wire: nat, num: nat, wireType: nat, j: nat)
    requires ReadWord(b, i) == Int(wire, j) && wire / 8 % TWO32 == num && wire % 8 == wireType != 4 && NumberFits(num)
    ensures ReadTag(b, i) == Tag(num, wireType, j)
  {}

  /** skipNebula at index i and depth d goes on at index j and depth e. */
  ghost predicate SkipsTo(b: seq<Byte>, i: nat, d: nat, j: nat, e: nat) {
    Skip(b, i, d) == if e == 0 then End(j) else if j >= |b| then NoEnd(UnexpectedEof) else Skip(b, j, e)
  }

  lemma SkipsOn(b: seq<Byte>, i: nat, d: nat, j: nat, e: nat, k: nat, f: nat)
    requires SkipsTo(b, i, d, j, e) && e > 0 && j < |b| && SkipsTo(b, j, e, k, f)
    ensures SkipsTo(b, i, d, k, f)
  {}

  lemma SkipsVarint(b: seq<Byte>, i: nat, wire: nat, j: nat, v: nat, d: nat)
    requires ReadWord(b, i) == Int(wire, j) && wire % 8 == 0 && v < TWO64 && At(b, j, Varint(v))
    ensures SkipsTo(b, i, d, j + |Varint(v)|, d)
  {
    VarintReads(b, j, v);
  }

  lemma SkipsFixed(b: seq<Byte>, i: nat, wire: nat, j: nat, d: nat)
    requires ReadWord(b, i) == Int(wire, j)
    ensures wire % 8 == 1 ==> SkipsTo(b, i, d, j + 8, d)
    ensures wire % 8 == 5 ==> SkipsTo(b, i, d, j + 4, d)
  {}

  lemma SkipsBytes(b: seq<Byte>, i: nat, wire: nat, j: nat, bytes: seq<Byte>, d: nat)
    requires ReadWord(b, i) == Int(wire, j) && wire % 8 == 2 && |b| < TWO63 && |bytes| < TWO63
    requires At(b, j, Varint(|bytes|) + bytes)
    ensures SkipsTo(b, i, d, j + |Varint(|bytes|) + bytes|, d)
  {
    AtParts(b, j, Varint(|bytes|), bytes);
    LengthReads(b, j, |bytes|);
  }

  /** A turn of skipNebula over a field that is not a group. */
  lemma SkipsFlat(b: seq<Byte>, i: nat, num: nat, c: Content, d: nat, j: nat)
    requires NumberFits(num) && ContentFits(c) && !c.GroupContent? && |b| < TWO63
    requires At(b, i, TagBytes(num, TypeOf(c))) && j == i + |TagBytes(num, TypeOf(c))| && At(b, j, ContentBytes(num, c))
    ensures SkipsTo(b, i, d, j + |ContentBytes(num, c)|, d)
  {
    TagStands(b, i, num, TypeOf(c));
    var wire := num * 8 + TypeOf(c);
    match c
    case VarintContent(v) => SkipsVarint(b, i, wire, j, v, d);
    case Fixed64Content(_) => SkipsFixed(b, i, wire, j, d);
    case BytesContent(bytes) => SkipsBytes(b, i, wire, j, bytes, d);
    case Fixed32Content(_) => SkipsFixed(b, i, wire, j, d);
  }

  lemma SkipsOpening(b: seq<Byte>, i: nat, num: nat, d: nat, j: nat)
    requires NumberFits(num) && At(b, i, TagBytes(num, 3)) && j == i + |TagBytes(num, 3)|
    ensures SkipsTo(b, i, d, j, d + 1)
  {
    TagStands(b, i, num, 3);
  }

  lemma SkipsClosing(b: seq<Byte>, i: nat, num: nat, d: nat, j: nat)
    requires NumberFits(num) && At(b, i, TagBytes(num, 4)) && j == i + |TagBytes(num, 4)|
    ensures SkipsTo(b, i, d + 1, j, d)
  {
    TagStands(b, i, num, 4);
  }

  lemma GroupStands(b: seq<Byte>, i: nat, num: nat, inner: Fields, j: nat, k: nat)
    requires At(b, i, FieldBytes(num, GroupContent(inner)))
    requires j == i + |TagBytes(num, 3)| && k == j + |FieldsBytes(inner)|
    ensures At(b, i, TagBytes(num, 3)) && At(b, j, FieldsBytes(inner)) && At(b, k, TagBytes(num, 4))
    ensures k + |TagBytes(num, 4)| == i + |FieldBytes(num, GroupContent(inner))|
  {
    assert FieldBytes(num, GroupContent(inner)) == TagBytes(num, 3) + (FieldsBytes(inner) + TagBytes(num, 4));
    ThreeStand(b, i, TagBytes(num, 3), FieldsBytes(inner), TagBytes(num, 4), j, k);
  }

  lemma ThreeStand(b: seq<Byte>, i: nat, s: seq<Byte>, t: seq<Byte>, u: seq<Byte>, j: nat, k: nat)
    requires At(b, i, s + (t + u)) && j == i + |s| && k == j + |t|
    ensures At(b, i, s) && At(b, j, t) && At(b, k, u) && k + |u| == i + |s + (t + u)|
  {
    AtParts(b, i, s, t + u);
    AtParts(b, j, t, u);
  }

  lemma VarintNotEmpty(v: nat)
    ensures |Varint(v)| > 0
  {}

  /** skipNebula gets past a field, at whatever depth it stands. */
  lemma {:induction false} SkipsField(b: seq<Byte>, i: nat, num: nat, c: Content, d: nat, end: nat)
    requires NumberFits(num) && ContentFits(c) && |b| < TWO63
    requires At(b, i, FieldBytes(num, c)) && end == i + |FieldBytes(num, c)|
    ensures SkipsTo(b, i, d, end, d)
    decreases c
  {
    if c.GroupContent? {
      var j := i + |TagBytes(num, 3)|;
      var k := j + |FieldsBytes(c.inner)|;
      GroupStands(b, i, num, c.inner, j, k);
      VarintNotEmpty(num * 8 + 4);
      SkipsFields(b, j, c.inner, d + 1, k);
      SkipsGroup(b, i, num, d, j, k, end);
    } else {
      AtParts(b, i, TagBytes(num, TypeOf(c)), ContentBytes(num, c));
      SkipsFlat(b, i, num, c, d, i + |TagBytes(num, TypeOf(c))|);
    }
  }

  lemma SkipsGroup(b: seq<Byte>, i: nat, num: nat, d: nat, j: nat, k: nat, end: nat)
    requires NumberFits(num) && At(b, i, TagBytes(num, 3)) && j == i + |TagBytes(num, 3)| <= k < |b|
    requires SkipsTo(b, j, d + 1, k, d + 1) && At(b, k, TagBytes(num, 4)) && end == k + |TagBytes(num, 4)|
    ensures SkipsTo(b, i, d, end, d)
  {
    SkipsOpening(b, i, num, d, j);
    SkipsClosing(b, k, num, d, end);
    SkipsOn(b, i, d, j, d + 1, k, d + 1);
    SkipsOn(b, i, d, k, d + 1, end, d);
  }

  lemma {:induction false} SkipsFields(b: seq<Byte>, i: nat, fs: Fields, d: nat, end: nat)
    requires FieldsFit(fs) && |b| < TWO63 && d > 0
    requires At(b, i, FieldsBytes(fs)) && end == i + |FieldsBytes(fs)| < |b|
    ensures SkipsTo(b, i, d, end, d)
    decreases fs
  {
    if fs.OneMore? {
      AtParts(b, i, FieldBytes(fs.num, fs.content), FieldsBytes(fs.rest));
      var j := i + |FieldBytes(fs.num, fs.content)|;
      SkipsField(b, i, fs.num, fs.content, d, j);
      SkipsFields(b, j, fs.rest, d, end);
      SkipsOn(b, i, d, j, d, end, d);
    }
  }

  // ---- Messages with unknown fields ----

  lemma TagIsRead(b: seq<Byte>, i: nat, num: nat, wireType: nat)
    requires NumberFits(num) && wireType < 8 && wireType != 4 && At(b, i, TagBytes(num, wireType))
    ensures ReadTag(b, i) == Tag(num, wireType, i + |TagBytes(num, wireType)|)
  {
    TagStands(b, i, num, wireType);
    TagDigits(num, wireType);
    WordIsTag(b, i, num * 8 + wireType, num, wireType, i + |TagBytes(num, wireType)|);
  }

  /** One turn of an Unmarshal loop at an unknown field. */
  lemma UnknownIsPassed<M(!new)>(c: Codec<M>, m: M, b: seq<Byte>, i: nat, num: nat, content: Content, end: nat)
    requires NumberFits(num) && ContentFits(content) && num !in c.schema && |b| < TWO63
    requires At(b, i, FieldBytes(num, content)) && end == i + |FieldBytes(num, content)|
    ensures Leads(c, b, m, i, m, end)
  {
    AtParts(b, i, TagBytes(num, TypeOf(content)), ContentBytes(num, content));
    TagIsRead(b, i, num, TypeOf(content));
    SkipsField(b, i, num, content, 0, end);
    assert Skip(b, i, 0) == End(end);
    assert ReadField(c.schema, b, i) == Unknown(end);
  }

  /** A message on the wire: its own parts, with unknown fields among them. */
  datatype Piece = Own(part: Part) | Extra(num: nat, content: Content)

  predicate PieceFits(p: Piece) {
    match p
    case Own(part) => Short(part.num)
    case Extra(num, content) => NumberFits(num) && ContentFits(content)
  }

  predicate PiecesFit(ps: seq<Piece>) {
    forall k :: 0 <= k < |ps| ==> PieceFits(ps[k])
  }

  function PieceBytes(p: Piece): seq<Byte>
    requires PieceFits(p)
  {
    match p
    case Own(part) => PartBytes(part)
    case Extra(num, content) => FieldBytes(num, content)
  }

  function PiecesBytes(ps: seq<Piece>): seq<Byte>
    requires PiecesFit(ps)
  {
    if ps == [] then [] else PieceBytes(ps[0]) + PiecesBytes(ps[1..])
  }

  /** The parts that are left when the unknown fields are taken away. */
  function OwnParts(ps: seq<Piece>): seq<Part> {
    if ps == [] then [] else if ps[0].Own? then [ps[0].part] + OwnParts(ps[1..]) else OwnParts(ps[1..])
  }

  predicate ExtrasUnknown(schema: Schema, ps: seq<Piece>) {
    forall k :: 0 <= k < |ps| && ps[k].Extra? ==> ps[k].num !in schema
  }

  lemma FirstStands(b: seq<Byte>, i: nat, ps: seq<Piece>) returns (next: nat)
    requires PiecesFit(ps) && ps != [] && At(b, i, PiecesBytes(ps))
    ensures PieceFits(ps[0]) && next == i + |PieceBytes(ps[0])| && At(b, i, PieceBytes(ps[0]))
    ensures At(b, next, PiecesBytes(ps[1..])) && next + |PiecesBytes(ps[1..])| == i + |PiecesBytes(ps)|
  {
    next := i + |PieceBytes(ps[0])|;
    HeadStands(b, i, PieceBytes(ps[0]), PiecesBytes(ps[1..]), PiecesBytes(ps), next);
  }

  /** One piece: an own part turns the message into the next, an unknown field leaves it. */
  lemma PieceLeads<M(!new)>(c: Codec<M>, b: seq<Byte>, m: M, i: nat, p: Piece, next: M, j: nat)
    requires PieceFits(p) && |b| < TWO63 && At(b, i, PieceBytes(p)) && j == i + |PieceBytes(p)|
    requires if p.Own? then Reads(c, m, p.part, next) else next == m && p.num !in c.schema
    ensures Leads(c, b, m, i, next, j)
  {
    match p
    case Own(part) => PartReads(c, m, b, i, part, next, j);
    case Extra(num, content) => UnknownIsPassed(c, m, b, i, num, content, j);
  }

  lemma {:induction false} PiecesRead<M(!new)>(c: Codec<M>, b: seq<Byte>, m: M, i: nat, ps: seq<Piece>, m': M)
    requires PiecesFit(ps) && ExtrasUnknown(c.schema, ps) && Brings(c, m, OwnParts(ps), m')
    requires |b| < TWO63 && At(b, i, PiecesBytes(ps)) && i + |PiecesBytes(ps)| == |b|
    ensures Leads(c, b, m, i, m', |b|)
    decreases |ps|
  {
    if ps == [] {
      BringsNothing(c, m, m');
    } else {
      var next := m;
      if ps[0].Own? {
        next := BringsFirst(c, m, ps[0].part, OwnParts(ps[1..]), m');
      }
      var j := FirstStands(b, i, ps);
      PieceLeads(c, b, m, i, ps[0], next, j);
      PiecesRead(c, b, next, j, ps[1..], m');
      LeadsOn(c, b, m, i, next, j, m', |b|);
    }
  }

  /** Whatever the parts of a message bring, they bring with unknown fields anywhere among them. */
  lemma ReadsThrough<M(!new)>(c: Codec<M>, m: M, ps: seq<Piece>, m': M)
    requires PiecesFit(ps) && ExtrasUnknown(c.schema, ps) && Brings(c, m, OwnParts(ps), m') && |PiecesBytes(ps)| < TWO63
    ensures Parse(c, m, PiecesBytes(ps), 0) == Ok(m')
  {
    var b := PiecesBytes(ps);
    assert b[0..|b|] == b;
    PiecesRead(c, b, m, 0, ps, m');
    LeadsToEnd(c, b, m, m');
  }

  /** Every NebulaControl is read from its fields with unknown ones anywhere among them. */
  lemma ControlReadsThrough(m: Control, ps: seq<Piece>)
    requires ControlFits(m) && PiecesFit(ps) && OwnParts(ps) == ControlParts(m) && ExtrasUnknown(CONTROL.schema, ps)
    requires |PiecesBytes(ps)| < TWO63
    ensures Parse(CONTROL, NO_CONTROL, PiecesBytes(ps), 0) == Ok(m)
  {
    ControlBrings(m);
    ReadsThrough(CONTROL, NO_CONTROL, ps, m);
  }

  lemma DetailsReadThrough(m: Details, ps: seq<Piece>)
    requires DetailsFits(m) && PiecesFit(ps) && OwnParts(ps) == DetailsParts(m) && ExtrasUnknown(DETAILS.schema, ps)
    requires |PiecesBytes(ps)| < TWO63
    ensures Parse(DETAILS, NO_DETAILS, PiecesBytes(ps), 0) == Ok(m)
  {
    DetailsBring(m);
    ReadsThrough(DETAILS, NO_DETAILS, ps, m);
  }

  /** Every NebulaMeta is, with unknown fields in its details as well. */
  lemma MetaReadsThrough(m: Meta, inner: seq<Piece>, ps: seq<Piece>)
    requires MetaFits(m) && PiecesFit(inner) && PiecesFit(ps) && ExtrasUnknown(DETAILS.schema, inner) && ExtrasUnknown(META.schema, ps)
    requires m.details.Some? ==> OwnParts(inner) == DetailsParts(m.details.value)
    requires |PiecesBytes(inner)| < TWO63 && |PiecesBytes(ps)| < TWO63 && OwnParts(ps) == MetaPartsOf(m, PiecesBytes(inner))
    ensures Parse(META, NO_META, PiecesBytes(ps), 0) == Ok(m)
  {
    if m.details.Some? {
      DetailsReadThrough(m.details.value, inner);
    }
    MetaBrings(m, PiecesBytes(inner));
    ReadsThrough(META, NO_META, ps, m);
  }
}
