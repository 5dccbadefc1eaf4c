/** What the readers of nebula.proto messages and of the handshake payload refuse: unfinished integers, wrong wire
    types, illegal tags, messages cut off within a field, and numbers that do not fit. */
module WireErrors {
  import opened Wire
  import P = PayloadWire
  import Q = ProtoWire

  /** The last byte of an integer that begins at index i is k bytes further on. */
  ghost predicate Ends(b: seq<Byte>, i: nat, k: nat) {
    i + k < |b| && b[i + k] < 128 && Flagged(b, i, k)
  }

  ghost predicate Flagged(b: seq<Byte>, i: nat, n: nat) {
    i + n <= |b| && forall j :: i <= j < i + n ==> b[j] >= 128
  }

  lemma EndsNext(b: seq<Byte>, i: nat, k: nat)
    requires i < |b| && b[i] >= 128
    ensures Ends(b, i, k + 1) <==> Ends(b, i + 1, k)
    ensures Flagged(b, i, k + 1) <==> Flagged(b, i + 1, k)
  {}

  /** An integer is read exactly when it ends within its ten bytes and within the message, and just past its end.  It is too
      long exactly when all ten bytes are flagged, and unfinished otherwise. */
  lemma {:induction false} IntegerReadIff(b: seq<Byte>, i: nat, n: nat, k: nat)
    requires n <= 10
    ensures var r := ReadVarint(b, i, n);
      && (Ends(b, i, k) && k < 10 - n ==> r.Int? && r.next == i + k + 1)
      && (r.Int? ==> r.next > i && Ends(b, i, r.next - i - 1) && r.next - i <= 10 - n)
      && (r == NoInt(IntOverflow) <==> Flagged(b, i, 10 - n) || n == 10)
      && (r.NoInt? && r.error != IntOverflow ==> r.error == UnexpectedEof)
    decreases |b| - i
  {
    if n < 10 && i < |b| && b[i] >= 128 {
      IntegerReadIff(b, i + 1, n + 1, if k == 0 then 0 else k - 1);
      EndsNext(b, i, if k == 0 then 0 else k - 1);
      EndsNext(b, i, 9 - n);
      var r := ReadVarint(b, i, n);
      if r.Int? { EndsNext(b, i, r.next - i - 2); }
    }
  }

  /** A known field with a wire type that is not its own is refused. */
  lemma WrongTypeIsRefused<M>(c: Codec<M>, m: M, b: seq<Byte>, i: nat, num: nat, wireType: nat)
    requires Short(num) && num in c.schema && wireType < 8 && wireType != 4 && At(b, i, [num * 8 + wireType])
    requires match c.schema[num]
             case VarintKind => wireType != 0
             case BytesKind => wireType != 2
             case PackedKind => wireType != 0 && wireType != 2
    ensures Parse(c, m, b, i) == Err(WrongWireType)
  {
    TagReads(b, i, num, wireType);
  }

  /** So are the end of a group that was not begun, and the field number zero. */
  lemma IllegalTagIsRefused<M>(c: Codec<M>, m: M, b: seq<Byte>, i: nat)
    requires i < |b| && b[i] < 128
    ensures b[i] % 8 == 4 ==> Parse(c, m, b, i) == Err(EndGroup)
    ensures b[i] < 8 && b[i] != 4 ==> Parse(c, m, b, i) == Err(IllegalTag)
  {
    assert ReadVarint(b, i, 0) == Int(b[i], i + 1);
  }

  lemma {:induction false} CutInteger(b: seq<Byte>, i: nat, v: nat, cut: nat, n: nat)
    requires n < 10 && v < Pow128(10 - n) && cut < |Varint(v)| && i + cut == |b| && At(b, i, Varint(v)[..cut])
    ensures ReadVarint(b, i, n) == NoInt(UnexpectedEof)
    decreases v
  {
    if cut > 0 {
      assert b[i..i + cut][0] == Varint(v)[0] == v % 128 + 128;
      assert Pow128(10 - n) == 128 * Pow128(9 - n);
      assert v / 128 < Pow128(9 - n);
      assert n != 9;
      assert Varint(v)[..cut][1..] == Varint(v / 128)[..cut - 1];
      assert b[i + 1..i + cut] == b[i..i + cut][1..];
      CutInteger(b, i + 1, v / 128, cut - 1, n + 1);
    }
  }

  lemma CutWord(b: seq<Byte>, i: nat, v: nat, cut: nat)
    requires v < TWO64 && cut < |Varint(v)| && i + cut == |b| && At(b, i, Varint(v)[..cut])
    ensures ReadWord(b, i) == NoInt(UnexpectedEof)
  {
    Pow128Of10();
    CutInteger(b, i, v, cut, 0);
  }

  /** A message cut off within a number is refused. */
  lemma CutNumberIsRefused<M>(c: Codec<M>, m: M, b: seq<Byte>, i: nat, num: nat, v: nat, cut: nat)
    requires Short(num) && num in c.schema && !c.schema[num].BytesKind? && v < TWO64
    requires 0 < cut < |NumberField(num, v)| && i + cut == |b| && At(b, i, NumberField(num, v)[..cut])
    ensures Parse(c, m, b, i) == Err(UnexpectedEof)
  {
    var f := NumberField(num, v);
    assert f[..cut] == [num * 8] + Varint(v)[..cut - 1];
    AtParts(b, i, [num * 8], Varint(v)[..cut - 1]);
    TagReads(b, i, num, 0);
    CutWord(b, i + 1, v, cut - 1);
  }

  /** ... and so is one cut off within a chunk or its length. */
  lemma CutChunkIsRefused<M>(c: Codec<M>, m: M, b: seq<Byte>, i: nat, num: nat, chunk: seq<Byte>, cut: nat)
    requires Short(num) && num in c.schema && c.schema[num].BytesKind? && |chunk| < TWO63
    requires 0 < cut < |ChunkField(num, chunk)| && i + cut == |b| && At(b, i, ChunkField(num, chunk)[..cut])
    ensures Parse(c, m, b, i) == Err(UnexpectedEof)
  {
    var length := Varint(|chunk|);
    assert ChunkField(num, chunk)[..cut] == [num * 8 + 2] + (length + chunk)[..cut - 1];
    AtParts(b, i, [num * 8 + 2], (length + chunk)[..cut - 1]);
    TagReads(b, i, num, 2);
    if cut - 1 < |length| {
      assert (length + chunk)[..cut - 1] == length[..cut - 1];
      CutWord(b, i + 1, |chunk|, cut - 1);
    } else {
      var rest := chunk[..cut - 1 - |length|];
      assert (length + chunk)[..cut - 1] == length + rest;
      AtParts(b, i + 1, length, rest);
      LengthReads(b, i + 1, |chunk|);
    }
  }

  // ---- The handshake payload ----

  /** In the details of a handshake payload a certificate that is no byte string and a number that is no varint are refused. */
  lemma DetailTypeIsRefused(p: P.Payload, b: seq<Byte>, i: nat, num: nat, wireType: nat)
    requires num in {1, 2, 3, 5, 8} && wireType < 8 && wireType != (if num == 1 then 2 else 0) && At(b, i, [num * 8 + wireType])
    ensures P.ReadDetails(p, b, i).None?
  {
    P.ShortTag(b, i, num, wireType);
  }

  /** An index or a version of more than 32 binary digits is refused; a time is not. */
  lemma WideNumberIsRefused(p: P.Payload, b: seq<Byte>, i: nat, num: nat, v: nat)
    requires num in {2, 3, 5, 8} && v < TWO64 && At(b, i, NumberField(num, v))
    ensures P.DetailStep(p, b, i).Bad? <==> num != 5 && v >= TWO32
  {
    AtParts(b, i, [num * 8], Varint(v));
    P.ShortTag(b, i, num, 0);
    VarintReads(b, i + 1, v);
  }

  /** Details that cannot be read make the payload unreadable. */
  lemma BadDetailsAreRefused(p: P.Payload, b: seq<Byte>, i: nat, details: seq<Byte>)
    requires |details| < TWO63 && At(b, i, ChunkField(1, details)) && P.ReadDetails(p, details, 0).None?
    ensures P.ReadPayload(p, b, i).None?
  {
    AtParts(b, i, [1 * 8 + 2], Varint(|details|) + details);
    P.ShortTag(b, i, 1, 2);
    Q.BytesConsumed(b, i + 1, details);
    assert P.OuterStep(p, b, i) == P.Bad;
  }
}
