/** handshake/payload.go: the payload of a handshake message as bytes. */
module PayloadWire {
  import opened Options
  import opened Wire
  import opened Messages
  import opened UnknownFields
  import opened ProtoWire
  import H = HandshakeSpec

  type Payload = H.Payload

  const NO_PAYLOAD: Payload := H.Payload([], 0, 0, 0, 0)

  predicate PayloadFits(p: Payload) {
    |p.cert| < TWO63 && p.initiatorIndex < TWO32 && p.responderIndex < TWO32 && p.time < TWO64 && p.certVersion < TWO32
    && |DetailBytes(p)| < TWO63
  }

  // ---- Writing ----

  function Numbers4(p: Payload): seq<Part> {
    [NumberPart(2, p.initiatorIndex), NumberPart(3, p.responderIndex), NumberPart(5, p.time), NumberPart(8, p.certVersion)]
  }

  function DetailParts(p: Payload): seq<Part> {
    if p.cert == [] then Numbers4(p) else [ChunkPart(1, p.cert)] + Numbers4(p)
  }

  function DetailBytes(p: Payload): seq<Byte> {
    Bytes(DetailParts(p))
  }

  method AppendNumber(out: seq<Byte>, num: nat, v: nat) returns (b: seq<Byte>)
    requires Short(num)
    ensures b == out + PartBytes(NumberPart(num, v))
  {
    b := out;
    if v != 0 {
      b := b + [num * 8];
      b := b + Varint(v);
    }
  }

  method AppendChunk(out: seq<Byte>, chunk: seq<Byte>) returns (b: seq<Byte>)
    ensures b == out + ChunkField(1, chunk)
  {
    b := out + [1 * 8 + 2];
    b := b + (Varint(|chunk|) + chunk);
  }

  /** MarshalPayload */
  method MarshalPayload(out: seq<Byte>, p: Payload) returns (b: seq<Byte>)
    ensures b == out + ChunkField(1, DetailBytes(p))
  {
    var details := MarshalDetails(p);
    b := AppendChunk(out, details);
  }

  /** The details, which MarshalPayload builds first because their length goes before them. */
  method MarshalDetails(p: Payload) returns (details: seq<Byte>)
    ensures details == DetailBytes(p)
  {
    details := [];
    if p.cert != [] {
      details := AppendChunk(details, p.cert);
    }
    ghost var first := details;
    var d2 := AppendNumber(details, 2, p.initiatorIndex);
    var d3 := AppendNumber(d2, 3, p.responderIndex);
    var d5 := AppendNumber(d3, 5, p.time);
    details := AppendNumber(d5, 8, p.certVersion);
    DetailsAre(p, first);
    Regroup(first, PartBytes(NumberPart(2, p.initiatorIndex)), PartBytes(NumberPart(3, p.responderIndex)),
            PartBytes(NumberPart(5, p.time)), PartBytes(NumberPart(8, p.certVersion)));
  }

  lemma Regroup(f: seq<Byte>, a: seq<Byte>, b: seq<Byte>, c: seq<Byte>, d: seq<Byte>)
    ensures f + a + b + c + d == f + (a + (b + (c + d)))
  {}

  lemma DetailsAre(p: Payload, first: seq<Byte>)
    requires first == if p.cert == [] then [] else ChunkField(1, p.cert)
    ensures DetailBytes(p) == first + (PartBytes(NumberPart(2, p.initiatorIndex)) + (PartBytes(NumberPart(3, p.responderIndex))
                              + (PartBytes(NumberPart(5, p.time)) + PartBytes(NumberPart(8, p.certVersion)))))
  {
    FourParts(NumberPart(2, p.initiatorIndex), NumberPart(3, p.responderIndex), NumberPart(5, p.time), NumberPart(8, p.certVersion));
    if p.cert != [] {
      assert DetailParts(p)[1..] == Numbers4(p);
    }
  }

  lemma FourParts(p: Part, q: Part, r: Part, s: Part)
    requires Short(p.num) && Short(q.num) && Short(r.num) && Short(s.num)
    ensures Bytes([p, q, r, s]) == PartBytes(p) + (PartBytes(q) + (PartBytes(r) + PartBytes(s)))
  {
    assert [s][1..] == [] && [r, s][1..] == [s] && [q, r, s][1..] == [r, s] && [p, q, r, s][1..] == [q, r, s];
    assert Bytes([s]) == PartBytes(s) + Bytes([]);
    assert Bytes([r, s]) == PartBytes(r) + Bytes([s]);
    assert Bytes([q, r, s]) == PartBytes(q) + Bytes([r, s]);
  }

  // ---- Reading ----

  datatype Step = Step(p: Payload, next: nat) | Bad

  /** The default branch of both loops: past the value of a field, whatever it is. */
  function Skipped(p: Payload, num: nat, wireType: nat, b: seq<Byte>, i: nat): (r: Step)
    ensures r.Step? && i <= |b| ==> r.p == p && i <= r.next <= |b|
  {
    match ConsumeValue(num, wireType, b, i, RECURSION_LIMIT)
    case None => Bad
    case Some(j) => Step(p, j)
  }

  function Stored(p: Payload, num: nat, v: nat): Payload {
    if num == 2 then p.(initiatorIndex := v)
    else if num == 3 then p.(responderIndex := v)
    else if num == 5 then p.(time := v)
    else p.(certVersion := v)
  }

  /** One turn of unmarshalPayloadDetails. */
  function DetailStep(p: Payload, b: seq<Byte>, i: nat): (r: Step)
    ensures r.Step? ==> i < r.next <= |b|
  {
    match ConsumeTag(b, i)
    case NoTag(_) => Bad
    case Tag(num, wireType, j) =>
      if num == 1 then
        if wireType != 2 then Bad
        else match ConsumeBytes(b, j)
          case NotGot(_) => Bad
          case Got(value, k) => Step(p.(cert := value.bytes), k)
      else if num == 2 || num == 3 || num == 5 || num == 8 then
        if wireType != 0 then Bad
        else match ConsumeVarint(b, j)
          case NoInt(_) => Bad
          case Int(v, k) => if num != 5 && v >= TWO32 then Bad else Step(Stored(p, num, v), k)
      else Skipped(p, num, wireType, b, j)
  }

  /** unmarshalPayloadDetails */
  function ReadDetails(p: Payload, b: seq<Byte>, i: nat): Option<Payload>
    decreases |b| - i
  {
    if i >= |b| then Some(p)
    else match DetailStep(p, b, i)
      case Bad => None
      case Step(p', j) => ReadDetails(p', b, j)
  }

  /** One turn of UnmarshalPayload. */
  function OuterStep(p: Payload, b: seq<Byte>, i: nat): (r: Step)
    ensures r.Step? ==> i < r.next <= |b|
  {
    match ConsumeTag(b, i)
    case NoTag(_) => Bad
    case Tag(num, wireType, j) =>
      if num == 1 && wireType == 2 then
        match ConsumeBytes(b, j)
        case NotGot(_) => Bad
        case Got(value, k) =>
          (match ReadDetails(p, value.bytes, 0)
           case None => Bad
           case Some(p') => Step(p', k))
      else Skipped(p, num, wireType, b, j)
  }

  /** UnmarshalPayload */
  function ReadPayload(p: Payload, b: seq<Byte>, i: nat): Option<Payload>
    decreases |b| - i
  {
    if i >= |b| then Some(p)
    else match OuterStep(p, b, i)
      case Bad => None
      case Step(p', j) => ReadPayload(p', b, j)
  }

  /** One turn of unmarshalPayloadDetails at a number field. */
  method ReadNumberField(p: Payload, num: nat, wireType: nat, b: seq<Byte>, j: nat) returns (step: Step)
    requires num == 2 || num == 3 || num == 5 || num == 8
    ensures forall i :: ConsumeTag(b, i) == Tag(num, wireType, j) ==> step == DetailStep(p, b, i)
  {
    if wireType != 0 {
      return Bad;
    }
    var n := ConsumeVarint(b, j);
    if n.NoInt? || (num != 5 && n.v >= TWO32) {
      return Bad;
    }
    match num {
      case 2 => step := Step(p.(initiatorIndex := n.v), n.next);
      case 3 => step := Step(p.(responderIndex := n.v), n.next);
      case 5 => step := Step(p.(time := n.v), n.next);
      case 8 => step := Step(p.(certVersion := n.v), n.next);
    }
  }

  /** unmarshalPayloadDetails */
  method UnmarshalPayloadDetails(p0: Payload, b: seq<Byte>) returns (r: Option<Payload>)
    ensures r == ReadDetails(p0, b, 0)
  {
    var i, p := 0, p0;
    while i < |b|
      invariant i <= |b| && ReadDetails(p0, b, 0) == ReadDetails(p, b, i)
    {
      var tag := ConsumeTag(b, i);
      if tag.NoTag? {
        return None;
      }
      var step := Bad;
      if tag.num == 1 {
        var cert := ConsumeBytes(b, tag.next);
        if tag.wireType != 2 || cert.NotGot? {
          return None;
        }
        step := Step(p.(cert := cert.value.bytes), cert.next);
      } else if tag.num == 2 || tag.num == 3 || tag.num == 5 || tag.num == 8 {
        step := ReadNumberField(p, tag.num, tag.wireType, b, tag.next);
      } else {
        step := Skipped(p, tag.num, tag.wireType, b, tag.next);
      }
      if step.Bad? {
        return None;
      }
      p, i := step.p, step.next;
    }
    return Some(p);
  }

  method UnmarshalPayload(b: seq<Byte>) returns (r: Option<Payload>)
    ensures r == ReadPayload(NO_PAYLOAD, b, 0)
  {
    var i, p := 0, NO_PAYLOAD;
    while i < |b|
      invariant i <= |b| && ReadPayload(NO_PAYLOAD, b, 0) == ReadPayload(p, b, i)
    {
      var tag := ConsumeTag(b, i);
      if tag.NoTag? {
        return None;
      }
      if tag.num == 1 && tag.wireType == 2 {
        var details := ConsumeBytes(b, tag.next);
        if details.NotGot? {
          return None;
        }
        var p' := UnmarshalPayloadDetails(p, details.value.bytes);
        if p'.None? {
          return None;
        }
        p, i := p'.value, details.next;
      } else {
        var step := Skipped(p, tag.num, tag.wireType, b, tag.next);
        if step.Bad? {
          return None;
        }
        i := step.next;
      }
    }
    return Some(p);
  }

  // ---- What is read is what was written, unknown fields or not ----

  /** A part of the details, as MarshalPayload writes them. */
  predicate IsDetail(part: Part) {
    match part
    case NumberPart(num, v) => (num == 2 || num == 3 || num == 5 || num == 8) && v < TWO64 && (num != 5 ==> v < TWO32)
    case ChunkPart(num, chunk) => num == 1 && |chunk| < TWO63
    case PackedPart(_, _) => false
  }

  function Taken(p: Payload, part: Part): Payload {
    match part
    case NumberPart(num, v) => if v == 0 then p else Stored(p, num, v)
    case ChunkPart(_, chunk) => p.(cert := chunk)
    case PackedPart(_, _) => p
  }

  function TakenAll(p: Payload, parts: seq<Part>): Payload
    decreases |parts|
  {
    if parts == [] then p else TakenAll(Taken(p, parts[0]), parts[1..])
  }

  /** A piece of the details: one of its parts, or a field with another number. */
  predicate DetailPiece(piece: Piece) {
    PieceFits(piece) && if piece.Own? then IsDetail(piece.part) else piece.num !in {1, 2, 3, 5, 8}
  }

  /** A piece beside the details: the details themselves, or a field that is not a byte string with number 1. */
  predicate OuterPiece(piece: Piece) {
    && PieceFits(piece)
    && if piece.Own? then piece.part.ChunkPart? && piece.part.num == 1 && |piece.part.chunk| < TWO63
       else piece.num != 1 || !piece.content.BytesContent?
  }

  /** An unknown field nested no deeper than protowire follows. */
  predicate Shallow(piece: Piece) {
    piece.Extra? ==> Nest(piece.content) <= RECURSION_LIMIT + 1
  }

  predicate AllDetail(ps: seq<Piece>) {
    forall k :: 0 <= k < |ps| ==> DetailPiece(ps[k])
  }

  predicate AllOuter(ps: seq<Piece>) {
    forall k :: 0 <= k < |ps| ==> OuterPiece(ps[k])
  }

  predicate AllShallow(ps: seq<Piece>) {
    forall k :: 0 <= k < |ps| ==> Shallow(ps[k])
  }

  lemma ShortTag(b: seq<Byte>, i: nat, num: nat, wireType: nat)
    requires Short(num) && wireType < 8 && At(b, i, [num * 8 + wireType])
    ensures ConsumeTag(b, i) == Tag(num, wireType, i + 1)
  {
    assert b[i..i + 1][0] == num * 8 + wireType;
    assert ReadVarint(b, i, 0) == Int(num * 8 + wireType, i + 1);
  }

  lemma NumberStep(p: Payload, b: seq<Byte>, i: nat, num: nat, v: nat)
    requires num == 2 || num == 3 || num == 5 || num == 8
    requires v < TWO64 && (num != 5 ==> v < TWO32) && At(b, i, NumberField(num, v))
    ensures DetailStep(p, b, i) == Step(Stored(p, num, v), i + |NumberField(num, v)|)
  {
    AtParts(b, i, [num * 8 + 0], Varint(v));
    ShortTag(b, i, num, 0);
    VarintReads(b, i + 1, v);
  }

  lemma ChunkConsumed(b: seq<Byte>, i: nat, chunk: seq<Byte>)
    requires |chunk| < TWO63 && At(b, i, ChunkField(1, chunk))
    ensures ConsumeTag(b, i) == Tag(1, 2, i + 1)
    ensures ConsumeBytes(b, i + 1) == Got(Chunk(chunk), i + |ChunkField(1, chunk)|)
  {
    AtParts(b, i, [1 * 8 + 2], Varint(|chunk|) + chunk);
    ShortTag(b, i, 1, 2);
    BytesConsumed(b, i + 1, chunk);
  }

  lemma CertStep(p: Payload, b: seq<Byte>, i: nat, cert: seq<Byte>)
    requires |cert| < TWO63 && At(b, i, ChunkField(1, cert))
    ensures DetailStep(p, b, i) == Step(p.(cert := cert), i + |ChunkField(1, cert)|)
  {
    ChunkConsumed(b, i, cert);
  }

  lemma DetailsStep(p: Payload, b: seq<Byte>, i: nat, details: seq<Byte>, j: nat, r: Option<Payload>)
    requires |details| < TWO63 && At(b, i, ChunkField(1, details)) && j == i + |ChunkField(1, details)| && r == ReadDetails(p, details, 0)
    ensures i < |b| && OuterStep(p, b, i) == if r.None? then Bad else Step(r.value, j)
  {
    ChunkConsumed(b, i, details);
  }

  /** Reading on from index i with p comes to the same as reading on from index j with p'. */
  ghost predicate SameAs(b: seq<Byte>, p: Payload, i: nat, p': Payload, j: nat) {
    ReadDetails(p, b, i) == ReadDetails(p', b, j)
  }

  lemma DetailSame(b: seq<Byte>, p: Payload, i: nat, part: Part, j: nat)
    requires IsDetail(part) && At(b, i, PartBytes(part)) && j == i + |PartBytes(part)|
    ensures SameAs(b, p, i, Taken(p, part), j)
  {
    match part
    case NumberPart(num, v) =>
      if v != 0 {
        NumberStep(p, b, i, num, v);
        DetailTurn(p, b, i, Stored(p, num, v), j);
      }
    case ChunkPart(_, chunk) =>
      CertStep(p, b, i, chunk);
      DetailTurn(p, b, i, p.(cert := chunk), j);
  }

  lemma DetailTurn(p: Payload, b: seq<Byte>, i: nat, p': Payload, j: nat)
    requires DetailStep(p, b, i) == Step(p', j)
    ensures SameAs(b, p, i, p', j)
  {}

  lemma ExtraInDetails(b: seq<Byte>, p: Payload, i: nat, num: nat, c: Content, j: nat)
    requires NumberFits(num) && ContentFits(c) && num !in {1, 2, 3, 5, 8} && At(b, i, FieldBytes(num, c)) && j == i + |FieldBytes(num, c)|
    ensures if Nest(c) <= RECURSION_LIMIT + 1 then SameAs(b, p, i, p, j) else ReadDetails(p, b, i) == None
  {
    FieldConsumed(b, i, num, c, i + |TagBytes(num, TypeOf(c))|, j);
    VarintNotEmpty(num * 8 + TypeOf(c));
    assert DetailStep(p, b, i) == if Nest(c) <= RECURSION_LIMIT + 1 then Step(p, j) else Bad;
  }

  /** The details are read, with unknown fields anywhere among them, exactly when none is nested too deep. */
  lemma {:induction false} PiecesRead(b: seq<Byte>, p: Payload, i: nat, ps: seq<Piece>)
    requires AllDetail(ps) && PiecesFit(ps) && At(b, i, PiecesBytes(ps)) && i + |PiecesBytes(ps)| == |b|
    ensures ReadDetails(p, b, i) == if AllShallow(ps) then Some(TakenAll(p, OwnParts(ps))) else None
    decreases |ps|
  {
    if ps != [] {
      var rest := ps[1..];
      var j := FirstStands(b, i, ps);
      ShallowSplits(ps);
      match ps[0]
      case Own(part) =>
        DetailSame(b, p, i, part, j);
        PiecesRead(b, Taken(p, part), j, rest);
        TakenFirst(p, part, OwnParts(rest));
      case Extra(num, c) =>
        ExtraInDetails(b, p, i, num, c, j);
        PiecesRead(b, p, j, rest);
    }
  }

  lemma ShallowSplits(ps: seq<Piece>)
    requires ps != []
    ensures AllShallow(ps) <==> Shallow(ps[0]) && AllShallow(ps[1..])
  {
    if AllShallow(ps[1..]) && Shallow(ps[0]) {
      forall k | 0 <= k < |ps| ensures Shallow(ps[k]) {
        if k > 0 { assert Shallow(ps[1..][k - 1]); }
      }
    }
  }

  lemma TakenFirst(p: Payload, part: Part, rest: seq<Part>)
    ensures TakenAll(p, [part] + rest) == TakenAll(Taken(p, part), rest)
  {
    assert ([part] + rest)[1..] == rest;
  }

  lemma DetailsTaken(q: Payload)
    ensures TakenAll(NO_PAYLOAD, DetailParts(q)) == q
  {
    var p := NO_PAYLOAD.(cert := q.cert);
    var n2, n3, n5, n8 := NumberPart(2, q.initiatorIndex), NumberPart(3, q.responderIndex), NumberPart(5, q.time), NumberPart(8, q.certVersion);
    assert Numbers4(q) == [n2] + ([n3] + ([n5] + ([n8] + [])));
    TakenFirst(p, n2, [n3] + ([n5] + ([n8] + [])));
    TakenFirst(Taken(p, n2), n3, [n5] + ([n8] + []));
    TakenFirst(Taken(Taken(p, n2), n3), n5, [n8] + []);
    TakenFirst(Taken(Taken(Taken(p, n2), n3), n5), n8, []);
    if q.cert != [] {
      TakenFirst(NO_PAYLOAD, ChunkPart(1, q.cert), Numbers4(q));
    }
  }

  // ---- Beside the details ----

  function OuterTaken(p: Payload, parts: seq<Part>): Option<Payload>
    requires forall k :: 0 <= k < |parts| ==> parts[k].ChunkPart?
    decreases |parts|
  {
    if parts == [] then Some(p)
    else match ReadDetails(p, parts[0].chunk, 0)
      case None => None
      case Some(p') => OuterTaken(p', parts[1..])
  }

  lemma {:induction false} OuterOwn(ps: seq<Piece>)
    requires AllOuter(ps)
    ensures forall k :: 0 <= k < |OwnParts(ps)| ==> OwnParts(ps)[k].ChunkPart?
    decreases |ps|
  {
    if ps != [] {
      OuterOwn(ps[1..]);
    }
  }

  lemma ExtraBeside(b: seq<Byte>, p: Payload, i: nat, num: nat, c: Content, j: nat)
    requires NumberFits(num) && ContentFits(c) && (num != 1 || !c.BytesContent?) && At(b, i, FieldBytes(num, c)) && j == i + |FieldBytes(num, c)|
    ensures ReadPayload(p, b, i) == if Nest(c) <= RECURSION_LIMIT + 1 then ReadPayload(p, b, j) else None
  {
    FieldConsumed(b, i, num, c, i + |TagBytes(num, TypeOf(c))|, j);
    VarintNotEmpty(num * 8 + TypeOf(c));
    assert OuterStep(p, b, i) == if Nest(c) <= RECURSION_LIMIT + 1 then Step(p, j) else Bad;
  }

  lemma OuterTurn(p: Payload, b: seq<Byte>, i: nat, step: Step)
    requires i < |b| && OuterStep(p, b, i) == step
    ensures ReadPayload(p, b, i) == if step.Bad? then None else ReadPayload(step.p, b, step.next)
  {}

  lemma DetailsBeside(b: seq<Byte>, p: Payload, i: nat, chunk: seq<Byte>, j: nat, r: Option<Payload>)
    requires |chunk| < TWO63 && At(b, i, ChunkField(1, chunk)) && j == i + |ChunkField(1, chunk)| && r == ReadDetails(p, chunk, 0)
    ensures ReadPayload(p, b, i) == if r.None? then None else ReadPayload(r.value, b, j)
  {
    DetailsStep(p, b, i, chunk, j, r);
    OuterTurn(p, b, i, if r.None? then Bad else Step(r.value, j));
  }

  /** The payload is read, with unknown fields anywhere beside the details. */
  lemma {:induction false} OuterRead(b: seq<Byte>, p: Payload, i: nat, ps: seq<Piece>)
    requires AllOuter(ps) && PiecesFit(ps) && AllShallow(ps) && At(b, i, PiecesBytes(ps)) && i + |PiecesBytes(ps)| == |b|
    requires forall k :: 0 <= k < |OwnParts(ps)| ==> OwnParts(ps)[k].ChunkPart?
    ensures ReadPayload(p, b, i) == OuterTaken(p, OwnParts(ps))
    decreases |ps|
  {
    if ps != [] {
      var rest := ps[1..];
      var j := FirstStands(b, i, ps);
      ShallowSplits(ps);
      OuterOwn(rest);
      match ps[0]
      case Own(part) =>
        DetailsBeside(b, p, i, part.chunk, j, ReadDetails(p, part.chunk, 0));
        assert OwnParts(ps)[1..] == OwnParts(rest);
        var p' := ReadDetails(p, part.chunk, 0);
        if p'.Some? {
          OuterRead(b, p'.value, j, rest);
        }
      case Extra(num, c) =>
        ExtraBeside(b, p, i, num, c, j);
        OuterRead(b, p, j, rest);
    }
  }

  /** Some field beside the details is nested too deep: the payload is refused. */
  lemma {:induction false} OuterRefused(b: seq<Byte>, p: Payload, i: nat, ps: seq<Piece>)
    requires AllOuter(ps) && PiecesFit(ps) && !AllShallow(ps) && At(b, i, PiecesBytes(ps)) && i + |PiecesBytes(ps)| == |b|
    ensures ReadPayload(p, b, i) == None
    decreases |ps|
  {
    var rest := ps[1..];
    var j := FirstStands(b, i, ps);
    ShallowSplits(ps);
    match ps[0]
    case Own(part) =>
      DetailsBeside(b, p, i, part.chunk, j, ReadDetails(p, part.chunk, 0));
      var p' := ReadDetails(p, part.chunk, 0);
      if p'.Some? {
        OuterRefused(b, p'.value, j, rest);
      }
    case Extra(num, c) =>
      ExtraBeside(b, p, i, num, c, j);
      if Shallow(ps[0]) {
        OuterRefused(b, p, j, rest);
      }
  }

  /** inner is the details of q and outer the payload around it, both with unknown fields anywhere. */
  predicate Carries(q: Payload, inner: seq<Piece>, outer: seq<Piece>) {
    && AllDetail(inner) && PiecesFit(inner) && OwnParts(inner) == DetailParts(q) && |PiecesBytes(inner)| < TWO63
    && AllOuter(outer) && PiecesFit(outer) && OwnParts(outer) == [ChunkPart(1, PiecesBytes(inner))]
  }

  /** Every payload is read from its fields with unknown ones anywhere among them and beside them, exactly when none
      of those is nested deeper than protowire follows. */
  lemma PayloadReadsThrough(q: Payload, inner: seq<Piece>, outer: seq<Piece>)
    requires Carries(q, inner, outer)
    ensures ReadPayload(NO_PAYLOAD, PiecesBytes(outer), 0) == if AllShallow(inner) && AllShallow(outer) then Some(q) else None
  {
    var d, b := PiecesBytes(inner), PiecesBytes(outer);
    assert d[0..|d|] == d && b[0..|b|] == b;
    PiecesRead(d, NO_PAYLOAD, 0, inner);
    DetailsTaken(q);
    if AllShallow(outer) {
      OuterRead(b, NO_PAYLOAD, 0, outer);
    } else {
      OuterRefused(b, NO_PAYLOAD, 0, outer);
    }
  }

  // ---- Round trip ----

  function Plain(parts: seq<Part>): seq<Piece> {
    seq(|parts|, k requires 0 <= k < |parts| => Own(parts[k]))
  }

  lemma {:induction false} PlainIs(parts: seq<Part>)
    requires AllShort(parts)
    ensures PiecesFit(Plain(parts)) && PiecesBytes(Plain(parts)) == Bytes(parts) && OwnParts(Plain(parts)) == parts
    decreases |parts|
  {
    if parts != [] {
      PlainIs(parts[1..]);
      assert Plain(parts)[1..] == Plain(parts[1..]);
    }
  }

  /** Every payload is read back from its bytes. */
  lemma PayloadRoundTrip(q: Payload)
    requires PayloadFits(q)
    ensures ReadPayload(NO_PAYLOAD, ChunkField(1, DetailBytes(q)), 0) == Some(q)
  {
    var outer := [Own(ChunkPart(1, DetailBytes(q)))];
    PlainCarries(q, outer);
    PayloadReadsThrough(q, Plain(DetailParts(q)), outer);
  }

  lemma PlainCarries(q: Payload, outer: seq<Piece>)
    requires PayloadFits(q) && outer == [Own(ChunkPart(1, DetailBytes(q)))]
    ensures Carries(q, Plain(DetailParts(q)), outer) && PiecesBytes(outer) == ChunkField(1, DetailBytes(q))
    ensures AllShallow(Plain(DetailParts(q))) && AllShallow(outer)
  {
    PlainIs(DetailParts(q));
    PlainDetails(q, DetailParts(q));
    PlainOuter(DetailBytes(q), outer);
  }

  lemma PlainOuter(details: seq<Byte>, outer: seq<Piece>)
    requires |details| < TWO63 && outer == [Own(ChunkPart(1, details))]
    ensures AllOuter(outer) && AllShallow(outer) && PiecesFit(outer)
    ensures PiecesBytes(outer) == ChunkField(1, details) && OwnParts(outer) == [ChunkPart(1, details)]
  {
    OnePiece(ChunkPart(1, details));
  }

  lemma PlainDetails(q: Payload, parts: seq<Part>)
    requires PayloadFits(q) && parts == DetailParts(q)
    ensures AllDetail(Plain(parts)) && AllShallow(Plain(parts))
  {
    forall k | 0 <= k < |parts| ensures IsDetail(parts[k]) && Short(parts[k].num) {}
  }

  lemma OnePiece(part: Part)
    requires Short(part.num)
    ensures PiecesFit([Own(part)]) && PiecesBytes([Own(part)]) == PartBytes(part) && OwnParts([Own(part)]) == [part]
  {
    assert [Own(part)][1..] == [];
  }

  method ThereAndBack(p: Payload) returns (r: Option<Payload>)
    requires PayloadFits(p)
    ensures r == Some(p)
  {
    var b := MarshalPayload([], p);
    assert b == ChunkField(1, DetailBytes(p));
    PayloadRoundTrip(p);
    r := UnmarshalPayload(b);
  }
}
