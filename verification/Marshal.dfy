/** nebula.pb.go: the writers, which fill a buffer from its end, and the reading loops. */
module Marshal {
  import opened Options
  import opened Wire
  import opened Messages

  // ---- Writing ----

  /** The buffer now is b, before it was was; x has been written just below index i, nothing else. */
  ghost predicate Wrote(was: seq<Byte>, b: seq<Byte>, i: nat, x: seq<Byte>) {
    |b| == |was| && |x| <= i <= |b| && At(b, i - |x|, x) && b[..i - |x|] == was[..i - |x|] && b[i..] == was[i..]
  }

  lemma WroteNothing(b: seq<Byte>, i: nat)
    requires i <= |b|
    ensures Wrote(b, b, i, [])
  {
    assert b[i..i] == [];
  }

  /** First y below index i, then x below that: together x + y. */
  lemma WroteBoth(was: seq<Byte>, mid: seq<Byte>, b: seq<Byte>, i: nat, j: nat, x: seq<Byte>, y: seq<Byte>)
    requires Wrote(was, mid, i, y) && j == i - |y| && Wrote(mid, b, j, x)
    ensures Wrote(was, b, i, x + y)
  {
    var k := j - |x|;
    assert b[j..i] == b[j..][..|y|] == mid[j..][..|y|] == mid[j..i];
    AtParts(b, k, x, y);
    assert b[..k] == mid[..k] == mid[..j][..k] == was[..j][..k] == was[..k];
    assert b[i..] == b[j..][|y|..] == mid[j..][|y|..] == mid[i..];
  }

  /** One byte below index i. */
  lemma WroteByte(was: seq<Byte>, b: seq<Byte>, i: nat, x: Byte)
    requires 1 <= i <= |was| && b == was[i - 1 := x]
    ensures Wrote(was, b, i, [x])
  {
    assert b[i - 1..i] == [x];
    assert b[..i - 1] == was[..i - 1] && b[i..] == was[i..];
  }

  lemma PutByte(b: seq<Byte>, lo: nat, k: nat, hi: nat, x: Byte)
    requires lo <= k < hi <= |b|
    ensures var b' := b[k := x]; b'[lo..k + 1] == b[lo..k] + [x] && b'[..lo] == b[..lo] && b'[hi..] == b[hi..]
  {}

  /** encodeVarintNebula */
  method EncodeVarint(a: array<Byte>, offset0: nat, v0: nat) returns (base: nat)
    requires Sov(v0) <= offset0 <= a.Length
    modifies a
    ensures base == offset0 - |Varint(v0)| && Wrote(old(a[..]), a[..], offset0, Varint(v0))
  {
    SovIsLength(v0);
    var offset, v := offset0 - Sov(v0), v0;
    base := offset;
    ghost var was, done: seq<Byte>, rest := a[..], [], Varint(v0);
    while v >= 128
      invariant rest == Varint(v) && base <= offset && offset + |rest| == offset0 && done + rest == Varint(v0)
      invariant a[..][base..offset] == done && a[..][..base] == was[..base] && a[..][offset0..] == was[offset0..]
      decreases v
    {
      VarintMore(v);
      Regroup(done, [v % 128 + 128], Varint(v / 128));
      PutByte(a[..], base, offset, offset0, v % 128 + 128);
      a[offset] := v % 128 + 128;
      done, rest := done + [v % 128 + 128], Varint(v / 128);
      v := v / 128;
      offset := offset + 1;
    }
    PutByte(a[..], base, offset, offset0, v);
    a[offset] := v;
    assert rest == [v];
  }

  lemma VarintMore(v: nat)
    requires v >= 128
    ensures Varint(v) == [v % 128 + 128] + Varint(v / 128)
  {}

  /** A number field, left out if zero, put before what is already written. */
  method WriteNumber(a: array<Byte>, i: nat, num: nat, v: nat) returns (j: nat)
    requires Short(num) && |PartBytes(NumberPart(num, v))| <= i <= a.Length
    modifies a
    ensures j == i - |PartBytes(NumberPart(num, v))| && Wrote(old(a[..]), a[..], i, PartBytes(NumberPart(num, v)))
  {
    j := i;
    if v == 0 {
      WroteNothing(a[..], i);
      return;
    }
    SovIsLength(v);
    j := EncodeVarint(a, i, v);
    ghost var mid := a[..];
    j := j - 1;
    a[j] := num * 8;
    WroteByte(mid, a[..], j + 1, num * 8);
    WroteBoth(old(a[..]), mid, a[..], i, j + 1, [num * 8], Varint(v));
  }

  /** Length and tag before the chunk just written below index i. */
  method WriteHead(a: array<Byte>, i: nat, num: nat, size: nat, ghost was: seq<Byte>, ghost chunk: seq<Byte>) returns (j: nat)
    requires Short(num) && size == |chunk| && |ChunkField(num, chunk)| <= i <= a.Length && Wrote(was, a[..], i, chunk)
    modifies a
    ensures j == i - |ChunkField(num, chunk)| && Wrote(was, a[..], i, ChunkField(num, chunk))
  {
    SovIsLength(size);
    j := EncodeVarint(a, i - size, size);
    WroteBoth(was, old(a[..]), a[..], i, i - size, Varint(size), chunk);
    ghost var mid := a[..];
    j := j - 1;
    a[j] := num * 8 + 2;
    WroteByte(mid, a[..], j + 1, num * 8 + 2);
    WroteBoth(was, mid, a[..], i, j + 1, [num * 8 + 2], Varint(size) + chunk);
  }

  lemma BytesHead(p: Part, rest: seq<Part>, parts: seq<Part>)
    requires Short(p.num) && AllShort(rest) && parts == [p] + rest
    ensures AllShort(parts) && Bytes(parts) == PartBytes(p) + Bytes(rest)
  {
    assert parts[1..] == rest;
  }

  lemma Regroup(x: seq<Byte>, y: seq<Byte>, z: seq<Byte>)
    ensures x + y + z == x + (y + z)
  {}

  lemma {:induction false} BytesJoin(parts: seq<Part>, more: seq<Part>)
    requires AllShort(parts) && AllShort(more)
    ensures AllShort(parts + more) && Bytes(parts + more) == Bytes(parts) + Bytes(more)
    decreases |parts|
  {
    if parts == [] {
      assert parts + more == more;
    } else {
      var p, rest := parts[0], parts[1..];
      assert parts + more == [p] + (rest + more);
      BytesJoin(rest, more);
      BytesHead(p, rest + more, parts + more);
      Regroup(PartBytes(p), Bytes(rest), Bytes(more));
    }
  }

  lemma OnePart(p: Part)
    requires Short(p.num)
    ensures Bytes([p]) == PartBytes(p)
  {
    assert [p][1..] == [];
  }

  /** Part k comes before the parts after it, and there is room for all of them. */
  lemma PartAt(parts: seq<Part>, k: nat, after: seq<Byte>)
    requires AllShort(parts) && k < |parts| && after == Bytes(parts[k + 1..])
    ensures Bytes(parts[k..]) == PartBytes(parts[k]) + after && |PartBytes(parts[k])| + |after| <= |Bytes(parts)|
  {
    assert parts[k..] == [parts[k]] + parts[k + 1..];
    BytesHead(parts[k], parts[k + 1..], parts[k..]);
    RestIsShorter(parts, k);
  }

  lemma RestIsShorter(parts: seq<Part>, k: nat)
    requires AllShort(parts) && k <= |parts|
    ensures |Bytes(parts[k..])| <= |Bytes(parts)|
  {
    assert parts == parts[..k] + parts[k..];
    BytesJoin(parts[..k], parts[k..]);
  }

  method WriteNumberPart(a: array<Byte>, i: nat, p: Part) returns (j: nat)
    requires p.NumberPart? && Short(p.num) && |PartBytes(p)| <= i <= a.Length
    modifies a
    ensures j == i - |PartBytes(p)| && Wrote(old(a[..]), a[..], i, PartBytes(p))
  {
    j := WriteNumber(a, i, p.num, p.v);
  }

  /** A run of number fields, from the last to the first. */
  method WriteNumbers(a: array<Byte>, i: nat, parts: seq<Part>) returns (j: nat)
    requires AllShort(parts) && (forall k :: 0 <= k < |parts| ==> parts[k].NumberPart?) && |Bytes(parts)| <= i <= a.Length
    modifies a
    ensures j == i - |Bytes(parts)| && Wrote(old(a[..]), a[..], i, Bytes(parts))
  {
    j := i;
    var k := |parts|;
    ghost var x: seq<Byte> := [];
    WroteNothing(a[..], i);
    assert parts[k..] == [];
    while k > 0
      invariant 0 <= k <= |parts| && x == Bytes(parts[k..]) && j == i - |x| && Wrote(old(a[..]), a[..], i, x)
    {
      k := k - 1;
      PartAt(parts, k, x);
      ghost var mid, low := a[..], j;
      j := WriteNumberPart(a, j, parts[k]);
      WroteBoth(old(a[..]), mid, a[..], i, low, PartBytes(parts[k]), x);
      x := PartBytes(parts[k]) + x;
    }
    assert parts[0..] == parts;
  }

  /** Addr.MarshalToSizedBuffer into a[..hi]. */
  method MarshalAddr(a: array<Byte>, hi: nat, m: Addr) returns (n: nat)
    requires |AddrBytes(m)| <= hi <= a.Length
    modifies a
    ensures n == |AddrBytes(m)| && Wrote(old(a[..]), a[..], hi, AddrBytes(m))
  {
    var i := WriteNumbers(a, hi, AddrParts(m));
    return hi - i;
  }

  /** V4AddrPort.MarshalToSizedBuffer */
  method MarshalV4(a: array<Byte>, hi: nat, m: V4AddrPort) returns (n: nat)
    requires |V4Bytes(m)| <= hi <= a.Length
    modifies a
    ensures n == |V4Bytes(m)| && Wrote(old(a[..]), a[..], hi, V4Bytes(m))
  {
    var i := WriteNumbers(a, hi, V4Parts(m));
    return hi - i;
  }

  /** V6AddrPort.MarshalToSizedBuffer */
  method MarshalV6(a: array<Byte>, hi: nat, m: V6AddrPort) returns (n: nat)
    requires |V6Bytes(m)| <= hi <= a.Length
    modifies a
    ensures n == |V6Bytes(m)| && Wrote(old(a[..]), a[..], hi, V6Bytes(m))
  {
    var i := WriteNumbers(a, hi, V6Parts(m));
    return hi - i;
  }

  /** An address field, left out if nil. */
  method WriteAddr(a: array<Byte>, i: nat, num: nat, addr: Option<Addr>) returns (j: nat)
    requires Short(num) && |Bytes(MaybeAddr(num, addr))| <= i <= a.Length
    modifies a
    ensures j == i - |Bytes(MaybeAddr(num, addr))| && Wrote(old(a[..]), a[..], i, Bytes(MaybeAddr(num, addr)))
  {
    j := i;
    if addr.None? {
      WroteNothing(a[..], i);
      return;
    }
    OnePart(ChunkPart(num, AddrBytes(addr.value)));
    var size := MarshalAddr(a, i, addr.value);
    j := WriteHead(a, i, num, size, old(a[..]), AddrBytes(addr.value));
  }

  lemma ThreeRuns(x: seq<Part>, y: seq<Part>, z: seq<Part>)
    requires AllShort(x) && AllShort(y) && AllShort(z)
    ensures AllShort(x + y + z) && Bytes(x + y + z) == Bytes(x) + (Bytes(y) + Bytes(z))
  {
    BytesJoin(x, y);
    BytesJoin(x + y, z);
    Regroup(Bytes(x), Bytes(y), Bytes(z));
  }

  /** NebulaControl.MarshalToSizedBuffer */
  method MarshalControl(a: array<Byte>, hi: nat, m: Control) returns (n: nat)
    requires m.kind < TWO32 && |ControlBytes(m)| <= hi <= a.Length
    modifies a
    ensures n == |ControlBytes(m)| && Wrote(old(a[..]), a[..], hi, ControlBytes(m))
  {
    ghost var x, y, z := Bytes(ControlNumbers(m)), Bytes(MaybeAddr(6, m.to)), Bytes(MaybeAddr(7, m.from));
    ThreeRuns(ControlNumbers(m), MaybeAddr(6, m.to), MaybeAddr(7, m.from));
    var i := WriteAddr(a, hi, 7, m.from);
    ghost var mid, low := a[..], i;
    i := WriteAddr(a, i, 6, m.to);
    WroteBoth(old(a[..]), mid, a[..], hi, low, y, z);
    mid, low := a[..], i;
    i := WriteNumbers(a, i, ControlNumbers(m));
    WroteBoth(old(a[..]), mid, a[..], hi, low, x, y + z);
    return hi - i;
  }

  // The three loops over repeated fields, from the last element to the first.

  method WriteV4Element(a: array<Byte>, i: nat, m: V4AddrPort, ghost p: Part) returns (j: nat)
    requires p == ChunkPart(2, V4Bytes(m)) && |PartBytes(p)| <= i <= a.Length
    modifies a
    ensures j == i - |PartBytes(p)| && Wrote(old(a[..]), a[..], i, PartBytes(p))
  {
    var size := MarshalV4(a, i, m);
    j := WriteHead(a, i, 2, size, old(a[..]), V4Bytes(m));
  }

  method WriteV4Run(a: array<Byte>, i: nat, list: seq<V4AddrPort>) returns (j: nat)
    requires |Bytes(V4Run(list))| <= i <= a.Length
    modifies a
    ensures j == i - |Bytes(V4Run(list))| && Wrote(old(a[..]), a[..], i, Bytes(V4Run(list)))
  {
    ghost var parts := V4Run(list);
    j := i;
    var k := |list|;
    ghost var x: seq<Byte> := [];
    WroteNothing(a[..], i);
    assert parts[k..] == [];
    while k > 0
      invariant 0 <= k <= |parts| && x == Bytes(parts[k..]) && j == i - |x| && Wrote(old(a[..]), a[..], i, x)
    {
      k := k - 1;
      PartAt(parts, k, x);
      ghost var mid, low := a[..], j;
      j := WriteV4Element(a, j, list[k], parts[k]);
      WroteBoth(old(a[..]), mid, a[..], i, low, PartBytes(parts[k]), x);
      x := PartBytes(parts[k]) + x;
    }
    assert parts[0..] == parts;
  }

  method WriteV6Element(a: array<Byte>, i: nat, m: V6AddrPort, ghost p: Part) returns (j: nat)
    requires p == ChunkPart(4, V6Bytes(m)) && |PartBytes(p)| <= i <= a.Length
    modifies a
    ensures j == i - |PartBytes(p)| && Wrote(old(a[..]), a[..], i, PartBytes(p))
  {
    var size := MarshalV6(a, i, m);
    j := WriteHead(a, i, 4, size, old(a[..]), V6Bytes(m));
  }

  method WriteV6Run(a: array<Byte>, i: nat, list: seq<V6AddrPort>) returns (j: nat)
    requires |Bytes(V6Run(list))| <= i <= a.Length
    modifies a
    ensures j == i - |Bytes(V6Run(list))| && Wrote(old(a[..]), a[..], i, Bytes(V6Run(list)))
  {
    ghost var parts := V6Run(list);
    j := i;
    var k := |list|;
    ghost var x: seq<Byte> := [];
    WroteNothing(a[..], i);
    assert parts[k..] == [];
    while k > 0
      invariant 0 <= k <= |parts| && x == Bytes(parts[k..]) && j == i - |x| && Wrote(old(a[..]), a[..], i, x)
    {
      k := k - 1;
      PartAt(parts, k, x);
      ghost var mid, low := a[..], j;
      j := WriteV6Element(a, j, list[k], parts[k]);
      WroteBoth(old(a[..]), mid, a[..], i, low, PartBytes(parts[k]), x);
      x := PartBytes(parts[k]) + x;
    }
    assert parts[0..] == parts;
  }

  method WriteAddrElement(a: array<Byte>, i: nat, m: Addr, ghost p: Part) returns (j: nat)
    requires p == ChunkPart(7, AddrBytes(m)) && |PartBytes(p)| <= i <= a.Length
    modifies a
    ensures j == i - |PartBytes(p)| && Wrote(old(a[..]), a[..], i, PartBytes(p))
  {
    var size := MarshalAddr(a, i, m);
    j := WriteHead(a, i, 7, size, old(a[..]), AddrBytes(m));
  }

  method WriteAddrRun(a: array<Byte>, i: nat, list: seq<Addr>) returns (j: nat)
    requires |Bytes(AddrRun(list))| <= i <= a.Length
    modifies a
    ensures j == i - |Bytes(AddrRun(list))| && Wrote(old(a[..]), a[..], i, Bytes(AddrRun(list)))
  {
    ghost var parts := AddrRun(list);
    j := i;
    var k := |list|;
    ghost var x: seq<Byte> := [];
    WroteNothing(a[..], i);
    assert parts[k..] == [];
    while k > 0
      invariant 0 <= k <= |parts| && x == Bytes(parts[k..]) && j == i - |x| && Wrote(old(a[..]), a[..], i, x)
    {
      k := k - 1;
      PartAt(parts, k, x);
      ghost var mid, low := a[..], j;
      j := WriteAddrElement(a, j, list[k], parts[k]);
      WroteBoth(old(a[..]), mid, a[..], i, low, PartBytes(parts[k]), x);
      x := PartBytes(parts[k]) + x;
    }
    assert parts[0..] == parts;
  }

  /** The packed elements, gathered front to back before they are copied in. */
  method Pack(ns: seq<nat>) returns (packed: seq<Byte>)
    ensures packed == PackedBytes(ns)
  {
    packed := [];
    for k := 0 to |ns|
      invariant packed + PackedBytes(ns[k..]) == PackedBytes(ns)
    {
      var num := ns[k];
      ghost var before := packed;
      while num >= 128
        invariant packed + Varint(num) == before + Varint(ns[k])
        decreases num
      {
        assert packed + Varint(num) == packed + [num % 128 + 128] + Varint(num / 128);
        packed := packed + [num % 128 + 128];
        num := num / 128;
      }
      packed := packed + [num];
      assert ns[k..][1..] == ns[k + 1..];
      assert before + PackedBytes(ns[k..]) == packed + PackedBytes(ns[k + 1..]);
    }
    assert ns[|ns|..] == [];
  }

  method WritePacked(a: array<Byte>, i: nat, num: nat, ns: seq<nat>) returns (j: nat)
    requires Short(num) && |PartBytes(PackedPart(num, ns))| <= i <= a.Length
    modifies a
    ensures j == i - |PartBytes(PackedPart(num, ns))| && Wrote(old(a[..]), a[..], i, PartBytes(PackedPart(num, ns)))
  {
    j := i;
    if ns == [] {
      WroteNothing(a[..], i);
      return;
    }
    var packed := Pack(ns);
    CopyBelow(a, i, packed);
    j := WriteHead(a, i, num, |packed|, old(a[..]), packed);
  }

  /** copy(dAtA[i - len(s):], s) */
  method CopyBelow(a: array<Byte>, i: nat, s: seq<Byte>)
    requires |s| <= i <= a.Length
    modifies a
    ensures Wrote(old(a[..]), a[..], i, s)
  {
    forall k | i - |s| <= k < i {
      a[k] := s[k - (i - |s|)];
    }
    assert a[..][i - |s|..i] == s;
    assert a[..][..i - |s|] == old(a[..])[..i - |s|] && a[..][i..] == old(a[..])[i..];
  }

  /** The last three fields of NebulaMetaDetails. */
  method WriteDetailsBack(a: array<Byte>, hi: nat, m: Details, ghost back: seq<Byte>) returns (i: nat)
    requires back == DetailsBack(m) && |back| <= hi <= a.Length
    modifies a
    ensures i == hi - |back| && Wrote(old(a[..]), a[..], hi, back)
  {
    ghost var y, z := Bytes(MaybeAddr(6, m.vpnAddr)), Bytes(AddrRun(m.relays));
    i := WriteAddrRun(a, hi, m.relays);
    ghost var mid, low := a[..], i;
    i := WriteAddr(a, i, 6, m.vpnAddr);
    WroteBoth(old(a[..]), mid, a[..], hi, low, y, z);
    mid, low := a[..], i;
    i := WritePacked(a, i, 5, m.oldRelays);
    WroteBoth(old(a[..]), mid, a[..], hi, low, PartBytes(PackedPart(5, m.oldRelays)), y + z);
  }

  ghost function DetailsBack(m: Details): seq<Byte> {
    PartBytes(PackedPart(5, m.oldRelays)) + (Bytes(MaybeAddr(6, m.vpnAddr)) + Bytes(AddrRun(m.relays)))
  }

  /** The first four. */
  method WriteDetailsFront(a: array<Byte>, hi: nat, m: Details, ghost front: seq<Byte>) returns (i: nat)
    requires front == Bytes(DetailsFront(m)) && |front| <= hi <= a.Length
    modifies a
    ensures i == hi - |front| && Wrote(old(a[..]), a[..], hi, front)
  {
    ghost var w, x, y, z := PartBytes(NumberPart(1, m.oldVpnAddr)), Bytes(V4Run(m.v4)), PartBytes(NumberPart(3, m.counter)), Bytes(V6Run(m.v6));
    FrontSplit(m);
    i := WriteV6Run(a, hi, m.v6);
    ghost var mid, low := a[..], i;
    i := WriteNumber(a, i, 3, m.counter);
    WroteBoth(old(a[..]), mid, a[..], hi, low, y, z);
    mid, low := a[..], i;
    i := WriteV4Run(a, i, m.v4);
    WroteBoth(old(a[..]), mid, a[..], hi, low, x, y + z);
    mid, low := a[..], i;
    i := WriteNumber(a, i, 1, m.oldVpnAddr);
    WroteBoth(old(a[..]), mid, a[..], hi, low, w, x + (y + z));
  }

  lemma FrontSplit(m: Details)
    ensures Bytes(DetailsFront(m)) ==
      PartBytes(NumberPart(1, m.oldVpnAddr)) + (Bytes(V4Run(m.v4)) + (PartBytes(NumberPart(3, m.counter)) + Bytes(V6Run(m.v6))))
  {
    var w, y := [NumberPart(1, m.oldVpnAddr)], [NumberPart(3, m.counter)];
    OnePart(w[0]);
    OnePart(y[0]);
    ThreeRuns(w + V4Run(m.v4), y, V6Run(m.v6));
    BytesJoin(w, V4Run(m.v4));
    Regroup(Bytes(w), Bytes(V4Run(m.v4)), Bytes(y) + Bytes(V6Run(m.v6)));
  }

  lemma DetailsSplit(m: Details)
    ensures DetailsBytes(m) == Bytes(DetailsFront(m)) + DetailsBack(m)
  {
    var front, p := DetailsFront(m), [PackedPart(5, m.oldRelays)];
    OnePart(p[0]);
    ThreeRuns(front + p, MaybeAddr(6, m.vpnAddr), AddrRun(m.relays));
    BytesJoin(front, p);
    Regroup(Bytes(front), Bytes(p), Bytes(MaybeAddr(6, m.vpnAddr)) + Bytes(AddrRun(m.relays)));
  }

  /** NebulaMetaDetails.MarshalToSizedBuffer */
  method MarshalDetails(a: array<Byte>, hi: nat, m: Details) returns (n: nat)
    requires |DetailsBytes(m)| <= hi <= a.Length
    modifies a
    ensures n == |DetailsBytes(m)| && Wrote(old(a[..]), a[..], hi, DetailsBytes(m))
  {
    DetailsSplit(m);
    ghost var front, back := Bytes(DetailsFront(m)), DetailsBack(m);
    var i := WriteDetailsBack(a, hi, m, back);
    ghost var mid, low := a[..], i;
    i := WriteDetailsFront(a, i, m, front);
    WroteBoth(old(a[..]), mid, a[..], hi, low, front, back);
    return hi - i;
  }

  /** NebulaMeta.MarshalToSizedBuffer */
  method MarshalMeta(a: array<Byte>, hi: nat, m: Meta) returns (n: nat)
    requires m.kind < TWO32 && |MetaBytes(m)| <= hi <= a.Length
    modifies a
    ensures n == |MetaBytes(m)| && Wrote(old(a[..]), a[..], hi, MetaBytes(m))
  {
    var first := NumberPart(1, Extended(m.kind));
    OnePart(first);
    if m.details.None? {
      assert MetaParts(m) == [first];
      var i := WriteNumber(a, hi, 1, Extended(m.kind));
      return hi - i;
    }
    ghost var chunk := DetailsBytes(m.details.value);
    BytesJoin([first], [ChunkPart(2, chunk)]);
    OnePart(ChunkPart(2, chunk));
    var size := MarshalDetails(a, hi, m.details.value);
    var i := WriteHead(a, hi, 2, size, old(a[..]), chunk);
    ghost var mid, low := a[..], i;
    i := WriteNumber(a, i, 1, Extended(m.kind));
    WroteBoth(old(a[..]), mid, a[..], hi, low, PartBytes(first), ChunkField(2, chunk));
    return hi - i;
  }

  // ---- Sizes ----

  lemma {:induction false} SizeJoin(parts: seq<Part>, more: seq<Part>)
    ensures SizeOf(parts + more) == SizeOf(parts) + SizeOf(more)
    decreases |parts|
  {
    if parts == [] {
      assert parts + more == more;
    } else {
      assert (parts + more)[1..] == parts[1..] + more;
      SizeJoin(parts[1..], more);
    }
  }

  lemma SizeOne(p: Part)
    ensures SizeOf([p]) == PartSize(p)
  {
    assert [p][1..] == [];
  }

  lemma SizeTwo(p: Part, q: Part)
    ensures SizeOf([p, q]) == PartSize(p) + PartSize(q)
  {
    assert [p, q] == [p] + [q];
    SizeOne(p);
    SizeOne(q);
    SizeJoin([p], [q]);
  }

  lemma SizeFive(p: Part, q: Part, r: Part, s: Part, t: Part)
    ensures SizeOf([p, q, r, s, t]) == PartSize(p) + PartSize(q) + PartSize(r) + PartSize(s) + PartSize(t)
  {
    assert [p, q, r, s, t] == [p, q] + ([r, s] + [t]);
    SizeTwo(p, q);
    SizeTwo(r, s);
    SizeOne(t);
    SizeJoin([r, s], [t]);
    SizeJoin([p, q], [r, s] + [t]);
  }

  /** Addr.Size */
  method AddrSize(m: Addr) returns (n: nat)
    ensures n == |AddrBytes(m)|
  {
    SizeTwo(NumberPart(1, m.hi), NumberPart(2, m.lo));
    SizeIs(AddrParts(m));
    n := 0;
    if m.hi != 0 { n := n + 1 + Sov(m.hi); }
    if m.lo != 0 { n := n + 1 + Sov(m.lo); }
  }

  method MaybeAddrSize(num: nat, a: Option<Addr>) returns (n: nat)
    requires Short(num)
    ensures n == SizeOf(MaybeAddr(num, a))
  {
    n := 0;
    if a.Some? {
      SizeOne(ChunkPart(num, AddrBytes(a.value)));
      var l := AddrSize(a.value);
      n := n + 1 + l + Sov(l);
    }
  }

  lemma ControlSizes(m: Control)
    requires m.kind < TWO32
    ensures |ControlBytes(m)| ==
      PartSize(NumberPart(1, Extended(m.kind))) + PartSize(NumberPart(2, m.initiatorIndex)) + PartSize(NumberPart(3, m.responderIndex))
      + PartSize(NumberPart(4, m.oldTo)) + PartSize(NumberPart(5, m.oldFrom)) + SizeOf(MaybeAddr(6, m.to)) + SizeOf(MaybeAddr(7, m.from))
  {
    SizeIs(ControlParts(m));
    SizeJoin(ControlNumbers(m) + MaybeAddr(6, m.to), MaybeAddr(7, m.from));
    SizeJoin(ControlNumbers(m), MaybeAddr(6, m.to));
    SizeFive(NumberPart(1, Extended(m.kind)), NumberPart(2, m.initiatorIndex), NumberPart(3, m.responderIndex),
             NumberPart(4, m.oldTo), NumberPart(5, m.oldFrom));
  }

  /** NebulaControl.Size */
  method ControlSize(m: Control) returns (n: nat)
    requires m.kind < TWO32
    ensures n == |ControlBytes(m)|
  {
    ControlSizes(m);
    n := 0;
    if m.kind != 0 { n := n + 1 + Sov(Extended(m.kind)); }
    if m.initiatorIndex != 0 { n := n + 1 + Sov(m.initiatorIndex); }
    if m.responderIndex != 0 { n := n + 1 + Sov(m.responderIndex); }
    if m.oldTo != 0 { n := n + 1 + Sov(m.oldTo); }
    if m.oldFrom != 0 { n := n + 1 + Sov(m.oldFrom); }
    var to := MaybeAddrSize(6, m.to);
    n := n + to;
    var from := MaybeAddrSize(7, m.from);
    n := n + from;
  }

  /** NebulaControl.Marshal: a buffer of exactly Size() bytes, filled from end to start. */
  method ControlToBytes(m: Control) returns (b: seq<Byte>)
    requires m.kind < TWO32
    ensures b == ControlBytes(m)
  {
    var size := ControlSize(m);
    var a := new Byte[size];
    var n := MarshalControl(a, size, m);
    assert a[..][0..size] == a[..];
    return a[..];
  }

  /** V4AddrPort.Size */
  method V4Size(m: V4AddrPort) returns (n: nat)
    ensures n == |V4Bytes(m)|
  {
    SizeTwo(NumberPart(1, m.addr), NumberPart(2, m.port));
    SizeIs(V4Parts(m));
    n := 0;
    if m.addr != 0 { n := n + 1 + Sov(m.addr); }
    if m.port != 0 { n := n + 1 + Sov(m.port); }
  }

  /** V6AddrPort.Size */
  method V6Size(m: V6AddrPort) returns (n: nat)
    ensures n == |V6Bytes(m)|
  {
    SizeTwo(NumberPart(1, m.hi), NumberPart(2, m.lo));
    SizeOne(NumberPart(3, m.port));
    assert V6Parts(m) == [NumberPart(1, m.hi), NumberPart(2, m.lo)] + [NumberPart(3, m.port)];
    SizeJoin([NumberPart(1, m.hi), NumberPart(2, m.lo)], [NumberPart(3, m.port)]);
    SizeIs(V6Parts(m));
    n := 0;
    if m.hi != 0 { n := n + 1 + Sov(m.hi); }
    if m.lo != 0 { n := n + 1 + Sov(m.lo); }
    if m.port != 0 { n := n + 1 + Sov(m.port); }
  }

  lemma V4RunGrows(list: seq<V4AddrPort>, k: nat)
    requires k < |list|
    ensures SizeOf(V4Run(list[..k + 1])) == SizeOf(V4Run(list[..k])) + PartSize(ChunkPart(2, V4Bytes(list[k])))
  {
    var part := ChunkPart(2, V4Bytes(list[k]));
    assert V4Run(list[..k + 1]) == V4Run(list[..k]) + [part];
    SizeJoin(V4Run(list[..k]), [part]);
    SizeOne(part);
  }

  method V4RunSize(list: seq<V4AddrPort>) returns (n: nat)
    ensures n == SizeOf(V4Run(list))
  {
    n := 0;
    for k := 0 to |list|
      invariant n == SizeOf(V4Run(list[..k]))
    {
      var l := V4Size(list[k]);
      n := n + 1 + l + Sov(l);
      V4RunGrows(list, k);
    }
    assert list[..|list|] == list;
  }

  lemma V6RunGrows(list: seq<V6AddrPort>, k: nat)
    requires k < |list|
    ensures SizeOf(V6Run(list[..k + 1])) == SizeOf(V6Run(list[..k])) + PartSize(ChunkPart(4, V6Bytes(list[k])))
  {
    var part := ChunkPart(4, V6Bytes(list[k]));
    assert V6Run(list[..k + 1]) == V6Run(list[..k]) + [part];
    SizeJoin(V6Run(list[..k]), [part]);
    SizeOne(part);
  }

  method V6RunSize(list: seq<V6AddrPort>) returns (n: nat)
    ensures n == SizeOf(V6Run(list))
  {
    n := 0;
    for k := 0 to |list|
      invariant n == SizeOf(V6Run(list[..k]))
    {
      var l := V6Size(list[k]);
      n := n + 1 + l + Sov(l);
      V6RunGrows(list, k);
    }
    assert list[..|list|] == list;
  }

  lemma AddrRunGrows(list: seq<Addr>, k: nat)
    requires k < |list|
    ensures SizeOf(AddrRun(list[..k + 1])) == SizeOf(AddrRun(list[..k])) + PartSize(ChunkPart(7, AddrBytes(list[k])))
  {
    var part := ChunkPart(7, AddrBytes(list[k]));
    assert AddrRun(list[..k + 1]) == AddrRun(list[..k]) + [part];
    SizeJoin(AddrRun(list[..k]), [part]);
    SizeOne(part);
  }

  method AddrRunSize(list: seq<Addr>) returns (n: nat)
    ensures n == SizeOf(AddrRun(list))
  {
    n := 0;
    for k := 0 to |list|
      invariant n == SizeOf(AddrRun(list[..k]))
    {
      var l := AddrSize(list[k]);
      n := n + 1 + l + Sov(l);
      AddrRunGrows(list, k);
    }
    assert list[..|list|] == list;
  }

  method PackedRunSize(ns: seq<nat>) returns (n: nat)
    ensures n == PartSize(PackedPart(5, ns))
  {
    n := 0;
    if ns != [] {
      var l := 0;
      for k := 0 to |ns|
        invariant l + PackedSize(ns[k..]) == PackedSize(ns)
      {
        assert ns[k..][1..] == ns[k + 1..];
        l := l + Sov(ns[k]);
      }
      assert ns[|ns|..] == [];
      n := n + 1 + Sov(l) + l;
    }
  }

  lemma DetailsSizes(m: Details)
    ensures |DetailsBytes(m)| ==
      PartSize(NumberPart(1, m.oldVpnAddr)) + SizeOf(V4Run(m.v4)) + PartSize(NumberPart(3, m.counter)) + SizeOf(V6Run(m.v6))
      + PartSize(PackedPart(5, m.oldRelays)) + SizeOf(MaybeAddr(6, m.vpnAddr)) + SizeOf(AddrRun(m.relays))
  {
    var p1, p3, p5 := [NumberPart(1, m.oldVpnAddr)], [NumberPart(3, m.counter)], [PackedPart(5, m.oldRelays)];
    SizeIs(DetailsParts(m));
    SizeOne(p1[0]);
    SizeOne(p3[0]);
    SizeOne(p5[0]);
    SizeJoin(p1, V4Run(m.v4));
    SizeJoin(p1 + V4Run(m.v4), p3);
    SizeJoin(p1 + V4Run(m.v4) + p3, V6Run(m.v6));
    SizeJoin(DetailsFront(m), p5);
    SizeJoin(DetailsFront(m) + p5, MaybeAddr(6, m.vpnAddr));
    SizeJoin(DetailsFront(m) + p5 + MaybeAddr(6, m.vpnAddr), AddrRun(m.relays));
  }

  /** NebulaMetaDetails.Size */
  method DetailsSize(m: Details) returns (n: nat)
    ensures n == |DetailsBytes(m)|
  {
    DetailsSizes(m);
    n := 0;
    if m.oldVpnAddr != 0 { n := n + 1 + Sov(m.oldVpnAddr); }
    var v4 := V4RunSize(m.v4);
    n := n + v4;
    if m.counter != 0 { n := n + 1 + Sov(m.counter); }
    var v6 := V6RunSize(m.v6);
    n := n + v6;
    var old5 := PackedRunSize(m.oldRelays);
    n := n + old5;
    var vpn := MaybeAddrSize(6, m.vpnAddr);
    n := n + vpn;
    var relays := AddrRunSize(m.relays);
    n := n + relays;
  }

  /** NebulaMeta.Size */
  method MetaSize(m: Meta) returns (n: nat)
    requires m.kind < TWO32
    ensures n == |MetaBytes(m)|
  {
    var first := NumberPart(1, Extended(m.kind));
    SizeIs(MetaParts(m));
    SizeOne(first);
    n := 0;
    if m.kind != 0 { n := n + 1 + Sov(Extended(m.kind)); }
    if m.details.None? {
      assert MetaParts(m) == [first];
      return;
    }
    var l := DetailsSize(m.details.value);
    SizeOne(ChunkPart(2, DetailsBytes(m.details.value)));
    SizeJoin([first], [ChunkPart(2, DetailsBytes(m.details.value))]);
    n := n + 1 + l + Sov(l);
  }

  /** NebulaMeta.Marshal */
  method MetaToBytes(m: Meta) returns (b: seq<Byte>)
    requires m.kind < TWO32
    ensures b == MetaBytes(m)
  {
    var size := MetaSize(m);
    var a := new Byte[size];
    var n := MarshalMeta(a, size, m);
    assert a[..][0..size] == a[..];
    return a[..];
  }

  // ---- Reading ----

  /** Cutting to 64 digits as one goes along comes to the same as cutting at the end. */
  lemma CutSum(x: nat, y: nat)
    ensures Cut64(Cut64(x) + y) == Cut64(x + y)
  {
    CutIsMod(x);
    CutIsMod(x + y);
    CutIsMod(Cut64(x) + y);
    assert x + y == x / TWO64 * TWO64 + (x % TWO64 + y);
    ModShift(x % TWO64 + y, x / TWO64);
  }

  lemma CutIsMod(x: nat)
    ensures Cut64(x) == x % TWO64
  {}

  lemma ModShift(x: nat, q: nat)
    ensures (q * TWO64 + x) % TWO64 == x % TWO64
  {}

  /** The result when n bytes have given `raw` and the rest gives r. */
  ghost function Combined(raw: nat, n: nat, r: Int): Int {
    if r.NoInt? then r else Int(raw + Pow128(n) * r.v, r.next)
  }

  lemma FlaggedByte(b: seq<Byte>, i: nat, n: nat, raw: nat)
    requires n < 10 && i < |b| && b[i] >= 128
    ensures Combined(raw, n, ReadVarint(b, i, n)) == Combined(raw + Pow128(n) * (b[i] - 128), n + 1, ReadVarint(b, i + 1, n + 1))
  {
    var r := ReadVarint(b, i + 1, n + 1);
    if r.Int? {
      Regather(raw, Pow128(n), b[i] - 128, r.v);
    }
  }

  lemma Regather(raw: nat, p: nat, low: nat, v: nat)
    ensures raw + p * (low + 128 * v) == raw + p * low + 128 * p * v
  {}

  /** The bytes from index i on, after n bytes that gave `raw`, make up `whole`. */
  ghost predicate MakesUp(b: seq<Byte>, i: nat, n: nat, raw: nat, whole: Int) {
    Combined(raw, n, ReadVarint(b, i, n)) == whole
  }

  lemma StartsWhole(b: seq<Byte>, i: nat)
    ensures MakesUp(b, i, 0, 0, ReadVarint(b, i, 0))
  {}

  lemma LastByte(b: seq<Byte>, i: nat, n: nat, raw: nat, whole: Int)
    requires MakesUp(b, i, n, raw, whole)
    ensures n >= 10 ==> whole == NoInt(IntOverflow)
    ensures n < 10 && i >= |b| ==> whole == NoInt(UnexpectedEof)
    ensures n < 10 && i < |b| && b[i] < 128 ==> whole == Int(raw + Pow128(n) * b[i], i + 1)
  {}

  /** wire |= uint64(low) << (7 * n), where raw is what wire would be with more digits */
  method ShiftIn(wire: nat, n: nat, low: nat, ghost raw: nat) returns (r: nat)
    requires wire == Cut64(raw)
    ensures r == Cut64(raw + Pow128(n) * low)
  {
    CutSum(raw, Pow128(n) * low);
    r := Cut64(wire + Pow128(n) * low);
  }

  /** The loop that reads a varint into a 64-bit word. */
  method ReadVarintLoop(b: seq<Byte>, start: nat) returns (r: Int)
    ensures r == ReadWord(b, start)
  {
    var i: nat, n: nat, wire := start, 0, 0;
    ghost var raw: nat, whole := 0, ReadVarint(b, start, 0);
    StartsWhole(b, start);
    while n < 10
      invariant n <= 10 && wire == Cut64(raw) && MakesUp(b, i, n, raw, whole)
      decreases 10 - n
    {
      LastByte(b, i, n, raw, whole);
      if i >= |b| {
        return NoInt(UnexpectedEof);
      }
      if b[i] < 128 {
        wire := ShiftIn(wire, n, b[i], raw);
        return Int(wire, i + 1);
      }
      FlaggedByte(b, i, n, raw);
      wire := ShiftIn(wire, n, b[i] - 128, raw);
      raw := raw + Pow128(n) * (b[i] - 128);
      i, n := i + 1, n + 1;
    }
    LastByte(b, i, n, raw, whole);
    return NoInt(IntOverflow);
  }

  /** The length before a byte string or a nested message. */
  method ReadLengthLoop(b: seq<Byte>, i: nat) returns (r: Int)
    ensures r == ReadLength(b, i)
  {
    r := ReadVarintLoop(b, i);
    if r.Int? && r.v >= TWO63 {
      r := NoInt(InvalidLength);
    }
  }

  /** The head of a turn of Unmarshal. */
  method ReadTagLoop(b: seq<Byte>, i: nat) returns (r: Tag)
    ensures r == ReadTag(b, i)
  {
    var wire := ReadVarintLoop(b, i);
    if wire.NoInt? {
      return NoTag(wire.error);
    }
    var fieldNum := wire.v / 8 % TWO32;
    var wireType := wire.v % 8;
    if wireType == 4 {
      return NoTag(EndGroup);
    }
    if fieldNum == 0 || fieldNum >= TWO32 / 2 {
      return NoTag(IllegalTag);
    }
    r := Tag(fieldNum, wireType, wire.next);
  }

  method ReadNumberLoop(b: seq<Byte>, i: nat) returns (r: Got)
    ensures r == ReadNumber(b, i)
  {
    var n := ReadVarintLoop(b, i);
    r := if n.NoInt? then NotGot(n.error) else Got(Number(n.v), n.next);
  }

  method ReadChunkLoop(b: seq<Byte>, i: nat) returns (r: Got)
    ensures r == ReadChunk(b, i)
  {
    var length := ReadLengthLoop(b, i);
    if length.NoInt? {
      return NotGot(length.error);
    }
    var postIndex := length.next + length.v;
    if postIndex > |b| {
      return NotGot(UnexpectedEof);
    }
    r := Got(Chunk(b[length.next..postIndex]), postIndex);
  }

  /** A packed field: element after element up to the end of the field. */
  method ReadPackedLoop(b: seq<Byte>, start: nat) returns (r: Got)
    ensures r == ReadPackedField(b, start)
  {
    var length := ReadLengthLoop(b, start);
    if length.NoInt? {
      return NotGot(length.error);
    }
    var postIndex := length.next + length.v;
    if postIndex > |b| {
      return NotGot(UnexpectedEof);
    }
    var i, ns := length.next, [];
    while i < postIndex
      invariant ReadPacked(b, length.next, postIndex, []) == ReadPacked(b, i, postIndex, ns)
      decreases postIndex - i
    {
      var n := ReadVarintLoop(b, i);
      if n.NoInt? {
        return NotGot(n.error);
      }
      ns, i := ns + [n.v], n.next;
    }
    r := Got(Numbers(ns), i);
  }

  /** skipNebula, whose loop counts how many groups deep it is */
  method SkipNebula(b: seq<Byte>, start: nat) returns (r: End)
    ensures r == Skip(b, start, 0)
  {
    var i, depth := start, 0;
    while i < |b|
      invariant Skip(b, start, 0) == if i >= |b| then NoEnd(UnexpectedEof) else Skip(b, i, depth)
      decreases |b| - i
    {
      var wire := ReadVarintLoop(b, i);
      if wire.NoInt? {
        return NoEnd(wire.error);
      }
      ghost var before := i;
      i := wire.next;
      match wire.v % 8 {
        case 0 =>
          var n := ReadVarintLoop(b, i);
          if n.NoInt? {
            return NoEnd(n.error);
          }
          i := n.next;
        case 1 => i := i + 8;
        case 2 =>
          var length := ReadLengthLoop(b, i);
          if length.NoInt? {
            return NoEnd(length.error);
          }
          i := length.next + length.v;
          if i >= TWO63 {
            return NoEnd(InvalidLength);
          }
        case 3 => depth := depth + 1;
        case 4 =>
          if depth == 0 {
            return NoEnd(UnexpectedEndOfGroup);
          }
          depth := depth - 1;
        case 5 => i := i + 4;
        case _ => return NoEnd(IllegalWireType);
      }
      if depth == 0 {
        return End(i);
      }
    }
    r := NoEnd(UnexpectedEof);
  }

  /** The value of a known field. */
  method ReadValueLoop(kind: Kind, wireType: nat, b: seq<Byte>, i: nat) returns (r: Got)
    ensures r == ReadValue(kind, wireType, b, i)
  {
    match kind {
      case VarintKind =>
        if wireType != 0 {
          return NotGot(WrongWireType);
        }
        r := ReadNumberLoop(b, i);
      case BytesKind =>
        if wireType != 2 {
          return NotGot(WrongWireType);
        }
        r := ReadChunkLoop(b, i);
      case PackedKind =>
        if wireType == 0 {
          r := ReadNumberLoop(b, i);
        } else if wireType == 2 {
          r := ReadPackedLoop(b, i);
        } else {
          r := NotGot(WrongWireType);
        }
    }
  }

  /** One turn of Unmarshal up to the value. */
  method ReadFieldLoop(schema: Schema, b: seq<Byte>, i: nat) returns (r: Field)
    ensures r == ReadField(schema, b, i)
  {
    var tag := ReadTagLoop(b, i);
    if tag.NoTag? {
      return NoField(tag.error);
    }
    if tag.num !in schema {
      var end := SkipNebula(b, i);
      if end.NoEnd? {
        return NoField(end.error);
      }
      return if end.next > |b| then NoField(UnexpectedEof) else Unknown(end.next);
    }
    var got := ReadValueLoop(schema[tag.num], tag.wireType, b, tag.next);
    r := if got.NotGot? then NoField(got.error) else Known(tag.num, got.value, got.next);
  }

  /** Unmarshal: the loop over the fields of a message of any type. */
  method Unmarshal<M>(c: Codec<M>, m0: M, b: seq<Byte>) returns (r: Result<M>)
    ensures r == Parse(c, m0, b, 0)
  {
    var i, m := 0, m0;
    while i < |b|
      invariant i <= |b| && Parse(c, m0, b, 0) == Parse(c, m, b, i)
    {
      var field := ReadFieldLoop(c.schema, b, i);
      match field {
        case NoField(e) => return Err(e);
        case Unknown(j) => i := j;
        case Known(num, value, j) =>
          var applied := c.apply(m, num, value);
          if applied.Err? {
            return Err(applied.error);
          }
          m, i := applied.value, j;
      }
    }
    return Ok(m);
  }

  /** What is marshalled is unmarshalled. */
  method ControlThereAndBack(m: Control) returns (r: Result<Control>)
    requires ControlFits(m)
    ensures r == Ok(m)
  {
    var b := ControlToBytes(m);
    ControlRoundTrip(m);
    r := Unmarshal(CONTROL, NO_CONTROL, b);
  }

  method MetaThereAndBack(m: Meta) returns (r: Result<Meta>)
    requires MetaFits(m)
    ensures r == Ok(m)
  {
    var b := MetaToBytes(m);
    MetaRoundTrip(m);
    r := Unmarshal(META, NO_META, b);
  }
}
