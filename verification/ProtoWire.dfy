/**
  * The reading functions of protowire that handshake/payload.go works with, the one that gets past the value
  * of an unknown field among them.
  */
module ProtoWire {
  import opened Options
  import opened Wire
  import opened UnknownFields

  /** protowire.ConsumeVarint: ten bytes at most, and no more than 64 binary digits. */
  function ConsumeVarint(b: seq<Byte>, i: nat): (r: Int)
    ensures r.Int? ==> i < r.next <= |b|
  {
    var r := ReadVarint(b, i, 0);
    if r.Int? && r.v >= TWO64 then NoInt(IntOverflow) else r
  }

  /** protowire.ConsumeTag */
  function ConsumeTag(b: seq<Byte>, i: nat): (r: Tag)
    ensures r.Tag? ==> i < r.next <= |b|
  {
    match ConsumeVarint(b, i)
    case NoInt(e) => NoTag(e)
    case Int(v, j) => if v / 8 == 0 || v / 8 >= TWO32 / 2 then NoTag(IllegalTag) else Tag(v / 8, v % 8, j)
  }

  /** protowire.ConsumeBytes */
  function ConsumeBytes(b: seq<Byte>, i: nat): (r: Got)
    ensures r.Got? ==> i < r.next <= |b|
  {
    match ConsumeVarint(b, i)
    case NoInt(e) => NotGot(e)
    case Int(length, j) => if j + length > |b| then NotGot(UnexpectedEof) else Got(Chunk(b[j..j + length]), j + length)
  }

  /** protowire.DefaultRecursionLimit */
  const RECURSION_LIMIT: int := 10000

  /** protowire.ConsumeFieldValue, with `depth` more levels of groups allowed: where the value ends. */
  function ConsumeValue(num: nat, wireType: nat, b: seq<Byte>, i: nat, depth: int): (r: Option<nat>)
    ensures r.Some? && i <= |b| ==> i <= r.value <= |b|
    decreases |b| - i, 1
  {
    match wireType
    case 0 => (match ConsumeVarint(b, i) case NoInt(_) => None case Int(_, j) => Some(j))
    case 1 => if i + 8 <= |b| then Some(i + 8) else None
    case 2 => (match ConsumeBytes(b, i) case NotGot(_) => None case Got(_, j) => Some(j))
    case 3 => if depth < 0 then None else ConsumeGroup(num, b, i, depth)
    case 5 => if i + 4 <= |b| then Some(i + 4) else None
    case _ => None
  }

  /** The loop over the fields of a group, up to the end tag with its number. */
  function ConsumeGroup(num: nat, b: seq<Byte>, i: nat, depth: int): (r: Option<nat>)
    ensures r.Some? && i <= |b| ==> i <= r.value <= |b|
    decreases |b| - i, 0
  {
    match ConsumeTag(b, i)
    case NoTag(_) => None
    case Tag(num', wireType, j) =>
      if wireType == 4 then if num' == num then Some(j) else None
      else match ConsumeValue(num', wireType, b, j, depth - 1)
        case None => None
        case Some(k) => ConsumeGroup(num, b, k, depth)
  }

  // ---- It gets past every field that is not nested too deep ----

  /** How many groups deep a value is. */
  function Nest(c: Content): nat {
    if c.GroupContent? then 1 + NestAll(c.inner) else 0
  }

  function NestAll(fs: Fields): nat {
    match fs
    case NoFields => 0
    case OneMore(_, c, rest) => if Nest(c) > NestAll(rest) then Nest(c) else NestAll(rest)
  }

  lemma TagConsumed(b: seq<Byte>, i: nat, num: nat, wireType: nat)
    requires NumberFits(num) && wireType < 8 && At(b, i, TagBytes(num, wireType))
    ensures ConsumeTag(b, i) == Tag(num, wireType, i + |TagBytes(num, wireType)|)
  {
    TagStands(b, i, num, wireType);
  }

  lemma BytesConsumed(b: seq<Byte>, i: nat, bytes: seq<Byte>)
    requires |bytes| < TWO64 && At(b, i, Varint(|bytes|) + bytes)
    ensures ConsumeBytes(b, i) == Got(Chunk(bytes), i + |Varint(|bytes|) + bytes|)
  {
    AtParts(b, i, Varint(|bytes|), bytes);
    VarintReads(b, i, |bytes|);
  }

  lemma FlatConsumed(b: seq<Byte>, i: nat, num: nat, c: Content, depth: int)
    requires ContentFits(c) && !c.GroupContent? && At(b, i, ContentBytes(num, c))
    ensures ConsumeValue(num, TypeOf(c), b, i, depth) == Some(i + |ContentBytes(num, c)|)
  {
    match c
    case VarintContent(v) => VarintReads(b, i, v);
    case Fixed64Content(_) =>
    case BytesContent(bytes) => BytesConsumed(b, i, bytes);
    case Fixed32Content(_) =>
  }

  /** From index i on a group with this number goes on at index j. */
  ghost predicate GoesOn(num: nat, b: seq<Byte>, i: nat, depth: int, j: nat) {
    ConsumeGroup(num, b, i, depth) == ConsumeGroup(num, b, j, depth)
  }

  lemma GroupGoesOn(num: nat, b: seq<Byte>, i: nat, depth: int, num': nat, wireType: nat, j: nat, end: Option<nat>)
    requires ConsumeTag(b, i) == Tag(num', wireType, j) && wireType != 4 && ConsumeValue(num', wireType, b, j, depth - 1) == end
    ensures end.Some? ==> GoesOn(num, b, i, depth, end.value)
    ensures end.None? ==> ConsumeGroup(num, b, i, depth) == None
  {}

  lemma GroupEnds(num: nat, b: seq<Byte>, i: nat, depth: int)
    requires NumberFits(num) && At(b, i, TagBytes(num, 4))
    ensures ConsumeGroup(num, b, i, depth) == Some(i + |TagBytes(num, 4)|)
  {
    TagConsumed(b, i, num, 4);
  }

  /** ConsumeFieldValue gets past a value exactly when it is not nested deeper than the limit. */
  lemma {:induction false} ValueConsumed(b: seq<Byte>, i: nat, num: nat, c: Content, depth: int, end: nat)
    requires NumberFits(num) && ContentFits(c) && depth >= -1
    requires At(b, i, ContentBytes(num, c)) && end == i + |ContentBytes(num, c)|
    ensures ConsumeValue(num, TypeOf(c), b, i, depth) == if Nest(c) <= depth + 1 then Some(end) else None
    decreases c
  {
    if c.GroupContent? {
      if depth >= 0 {
        AtParts(b, i, FieldsBytes(c.inner), TagBytes(num, 4));
        var j := i + |FieldsBytes(c.inner)|;
        FieldsConsumed(b, i, num, c.inner, depth, j);
        GroupEnds(num, b, j, depth);
      }
    } else {
      FlatConsumed(b, i, num, c, depth);
    }
  }

  lemma {:induction false} FieldsConsumed(b: seq<Byte>, i: nat, num: nat, fs: Fields, depth: int, end: nat)
    requires FieldsFit(fs) && depth >= 0 && At(b, i, FieldsBytes(fs)) && end == i + |FieldsBytes(fs)|
    ensures NestAll(fs) <= depth ==> GoesOn(num, b, i, depth, end)
    ensures NestAll(fs) > depth ==> ConsumeGroup(num, b, i, depth) == None
    decreases fs
  {
    if fs.OneMore? {
      var j, k := FirstField(b, i, fs);
      TagConsumed(b, i, fs.num, TypeOf(fs.content));
      ValueConsumed(b, j, fs.num, fs.content, depth - 1, k);
      GroupGoesOn(num, b, i, depth, fs.num, TypeOf(fs.content), j, if Nest(fs.content) <= depth then Some(k) else None);
      FieldsConsumed(b, k, num, fs.rest, depth, end);
    }
  }

  lemma FirstField(b: seq<Byte>, i: nat, fs: Fields) returns (j: nat, k: nat)
    requires fs.OneMore? && At(b, i, FieldsBytes(fs))
    ensures j == i + |TagBytes(fs.num, TypeOf(fs.content))| && k == j + |ContentBytes(fs.num, fs.content)|
    ensures At(b, i, TagBytes(fs.num, TypeOf(fs.content))) && At(b, j, ContentBytes(fs.num, fs.content)) && At(b, k, FieldsBytes(fs.rest))
    ensures k + |FieldsBytes(fs.rest)| == i + |FieldsBytes(fs)|
  {
    j := i + |TagBytes(fs.num, TypeOf(fs.content))|;
    k := j + |ContentBytes(fs.num, fs.content)|;
    HeadStands(b, i, FieldBytes(fs.num, fs.content), FieldsBytes(fs.rest), FieldsBytes(fs), k);
    HeadStands(b, i, TagBytes(fs.num, TypeOf(fs.content)), ContentBytes(fs.num, fs.content), FieldBytes(fs.num, fs.content), j);
  }

  /** The same for a field with its tag, from the top. */
  lemma FieldConsumed(b: seq<Byte>, i: nat, num: nat, c: Content, j: nat, end: nat)
    requires NumberFits(num) && ContentFits(c) && At(b, i, FieldBytes(num, c))
    requires j == i + |TagBytes(num, TypeOf(c))| && end == i + |FieldBytes(num, c)|
    ensures ConsumeTag(b, i) == Tag(num, TypeOf(c), j)
    ensures ConsumeValue(num, TypeOf(c), b, j, RECURSION_LIMIT) == if Nest(c) <= RECURSION_LIMIT + 1 then Some(end) else None
  {
    HeadStands(b, i, TagBytes(num, TypeOf(c)), ContentBytes(num, c), FieldBytes(num, c), j);
    TagConsumed(b, i, num, TypeOf(c));
    ValueConsumed(b, j, num, c, RECURSION_LIMIT, end);
  }
}
