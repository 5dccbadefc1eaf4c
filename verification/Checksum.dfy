/**
  * The Internet checksum of iputil/packet.go.
  *
  * The reference is what a receiver does, section 1 of RFC 1071: it adds the 16-bit words with
  * end-around carry, the checksum field among them, and wants all ones. The source adds into a
  * uint32, folds once at the end and complements. That the two meet is proved through the remainder
  * by 65535.
  */
module Checksum {
  type Byte = n: int | 0 <= n < 256

  const TWO32 := 0x1_0000_0000
  const ALL_ONES := 0xffff
  /** More than any pseudo-header sums to. */
  const MOST_START := 0x10000 * 64

  // ---- The receiver's sum ----

  function Word(high: Byte, low: Byte): (r: nat)
    ensures r <= ALL_ONES
  {
    (high as int) * 256 + (low as int)
  }

  /** One's complement addition of two 16-bit words. */
  function OnesAdd(a: nat, b: nat): nat {
    if a + b <= ALL_ONES then a + b else a + b - ALL_ONES
  }

  /** The one's complement sum of the words of data, an odd byte at the end filled up with a zero byte. */
  function OnesSum(data: seq<Byte>): nat {
    if |data| == 0 then 0
    else if |data| == 1 then Word(data[0], 0)
    else OnesAdd(Word(data[0], data[1]), OnesSum(data[2..]))
  }

  /** What the receiver of data wants: the complement of the sum is zero. */
  predicate Verifies(data: seq<Byte>) {
    ALL_ONES - OnesSum(data) == 0
  }

  // ---- The plain sum ----

  function Sum(data: seq<Byte>): nat {
    if |data| == 0 then 0
    else if |data| == 1 then Word(data[0], 0)
    else Word(data[0], data[1]) + Sum(data[2..])
  }

  /** The 16-bit word a number folds to: 65535 taken away until sixteen binary digits hold the rest. */
  function Folded(n: nat): (r: nat)
    ensures r <= ALL_ONES && (r == 0 <==> n == 0)
  {
    if n <= ALL_ONES then n else Folded(n - ALL_ONES)
  }

  lemma {:induction false} FoldedTurns(n: nat, q: nat)
    requires n > 0
    ensures Folded(n + q * ALL_ONES) == Folded(n)
  {
    if q > 0 {
      FoldedTurns(n, q - 1);
      assert n + q * ALL_ONES == n + (q - 1) * ALL_ONES + ALL_ONES;
    }
  }

  lemma {:induction false} FoldedAdds(a: nat, b: nat)
    ensures Folded(a + b) == OnesAdd(Folded(a), Folded(b))
  {
    if a > ALL_ONES {
      FoldedAdds(a - ALL_ONES, b);
    } else if b > ALL_ONES {
      FoldedAdds(a, b - ALL_ONES);
    }
  }

  /** One turn of the folding loop leaves the folded word as it is. */
  lemma FoldStep(n: nat)
    requires n > ALL_ONES
    ensures 0 < n / 0x10000 + n % 0x10000 < n
    ensures Folded(n / 0x10000 + n % 0x10000) == Folded(n)
  {
    FoldedTurns(n / 0x10000 + n % 0x10000, n / 0x10000);
  }

  /** End-around carry word by word comes to the plain sum folded at the end. */
  lemma {:induction false} OnesSumIsFolded(data: seq<Byte>)
    ensures OnesSum(data) == Folded(Sum(data))
  {
    if |data| >= 2 {
      OnesSumIsFolded(data[2..]);
      FoldedAdds(Word(data[0], data[1]), Sum(data[2..]));
    }
  }

  lemma {:induction false} SumAppend(x: seq<Byte>, y: seq<Byte>)
    requires |x| % 2 == 0
    ensures Sum(x + y) == Sum(x) + Sum(y)
  {
    if |x| == 0 {
      assert x + y == y;
    } else {
      assert (x + y)[2..] == x[2..] + y;
      SumAppend(x[2..], y);
    }
  }

  lemma {:induction false} SumBound(data: seq<Byte>)
    ensures Sum(data) <= ((|data| + 1) / 2) * ALL_ONES
  {
    if |data| >= 2 {
      SumBound(data[2..]);
    }
  }

  // ---- A checksum in its place ----

  function U16(n: nat): seq<Byte>
    requires n < 0x10000
  {
    [n / 256, n % 256]
  }

  /** The words of the checksum: what makes the whole come to all ones. */
  function SumOver(pseudo: seq<Byte>, data: seq<Byte>): (r: nat)
    ensures r < 0x10000
  {
    ALL_ONES - Folded(Sum(pseudo) + Sum(data))
  }

  /** head and tail with the checksum between them, taken over pseudo and over both with a zero checksum. */
  function Seal(pseudo: seq<Byte>, head: seq<Byte>, tail: seq<Byte>): seq<Byte> {
    head + U16(SumOver(pseudo, head + [0, 0] + tail)) + tail
  }

  lemma SumOfThree(head: seq<Byte>, word: nat, tail: seq<Byte>)
    requires |head| % 2 == 0 && word < 0x10000
    ensures Sum(head + U16(word) + tail) == Sum(head) + word + Sum(tail)
  {
    SumAppend(head + U16(word), tail);
    SumAppend(head, U16(word));
    assert Sum(U16(word)) == word by {
      assert U16(word)[2..] == [];
    }
  }

  lemma SumOfFour(pseudo: seq<Byte>, head: seq<Byte>, word: nat, tail: seq<Byte>, total: nat)
    requires |pseudo| % 2 == 0 && |head| % 2 == 0 && word < 0x10000 && total == Sum(pseudo) + (Sum(head) + Sum(tail))
    ensures Sum(pseudo + (head + U16(word) + tail)) == total + word
  {
    SumOfThree(head, word, tail);
    SumAppend(pseudo, head + U16(word) + tail);
  }

  lemma ZeroWord(head: seq<Byte>, tail: seq<Byte>)
    requires |head| % 2 == 0
    ensures Sum(head + [0, 0] + tail) == Sum(head) + Sum(tail)
  {
    SumAppend(head + [0, 0], tail);
    SumAppend(head, [0, 0]);
    Sum2(0, 0);
  }

  lemma FoldsToAllOnes(total: nat, word: nat, c: nat)
    requires word < 0x10000 && c == ALL_ONES - Folded(total)
    ensures Folded(total + word) == ALL_ONES <==> word == c || (word == ALL_ONES && c == 0)
  {
    FoldedAdds(total, word);
  }

  /** A word in the place of the checksum verifies exactly when it is the checksum, or the other zero. */
  lemma OnlyTheSealVerifies(pseudo: seq<Byte>, head: seq<Byte>, tail: seq<Byte>, word: nat, c: nat)
    requires |pseudo| % 2 == 0 && |head| % 2 == 0 && word < 0x10000 && c == SumOver(pseudo, head + [0, 0] + tail)
    ensures Verifies(pseudo + (head + U16(word) + tail)) <==> word == c || (word == ALL_ONES && c == 0)
  {
    var total := Sum(pseudo) + (Sum(head) + Sum(tail));
    ZeroWord(head, tail);
    SumOfFour(pseudo, head, word, tail, total);
    OnesSumIsFolded(pseudo + (head + U16(word) + tail));
    FoldsToAllOnes(total, word, c);
  }

  /** Whatever was sealed verifies at the receiver, together with the pseudo-header it was sealed over. */
  lemma SealVerifies(pseudo: seq<Byte>, head: seq<Byte>, tail: seq<Byte>)
    requires |pseudo| % 2 == 0 && |head| % 2 == 0
    ensures Verifies(pseudo + Seal(pseudo, head, tail))
  {
    var c := SumOver(pseudo, head + [0, 0] + tail);
    OnlyTheSealVerifies(pseudo, head, tail, c, c);
  }

  // ---- tcpipChecksum ----

  /** What a uint32 keeps of a number. */
  function Wrap(n: nat): (r: nat)
    ensures r < TWO32
  {
    if n < TWO32 then n else Wrap(n - TWO32)
  }

  lemma {:induction false} WrapAdds(a: nat, b: nat)
    ensures Wrap(Wrap(a) + b) == Wrap(a + b)
  {
    if a >= TWO32 {
      WrapAdds(a - TWO32, b);
    }
  }

  lemma SumOneMore(data: seq<Byte>, i: nat)
    requires i % 2 == 0 && i + 1 < |data|
    ensures Sum(data[..i + 2]) == Sum(data[..i]) + Word(data[i], data[i + 1])
  {
    assert data[..i + 2] == data[..i] + [data[i], data[i + 1]];
    SumAppend(data[..i], [data[i], data[i + 1]]);
    assert [data[i], data[i + 1]][2..] == [];
  }

  lemma SumLast(data: seq<Byte>)
    requires |data| % 2 == 1
    ensures Sum(data) == Sum(data[..|data| - 1]) + Word(data[|data| - 1], 0)
  {
    assert data == data[..|data| - 1] + [data[|data| - 1]];
    SumAppend(data[..|data| - 1], [data[|data| - 1]]);
  }

  /** csum += x on a uint32, where total is what csum would be without wrap-around */
  method Add32(csum: nat, x: nat, ghost total: nat) returns (r: nat)
    requires csum == Wrap(total)
    ensures r == Wrap(total + x)
  {
    WrapAdds(total, x);
    r := Wrap(csum + x);
  }

  /** The first loop of tcpipChecksum, and the odd byte. */
  method AddWords(data: seq<Byte>, start: nat) returns (csum: nat)
    requires start < TWO32
    ensures csum == Wrap(start + Sum(data))
  {
    csum := start;
    ghost var total := start;
    var length := |data| - 1;
    var i := 0;
    while i < length
      invariant 0 <= i <= |data| && i % 2 == 0
      invariant total == start + Sum(data[..i]) && csum == Wrap(total)
    {
      SumOneMore(data, i);
      csum := Add32(csum, Word(data[i], 0), total);
      csum := Add32(csum, Word(0, data[i + 1]), total + Word(data[i], 0));
      total := total + Word(data[i], 0) + Word(0, data[i + 1]);
      i := i + 2;
    }
    if |data| % 2 == 1 {
      SumLast(data);
      csum := Add32(csum, Word(data[length], 0), total);
    } else {
      assert data[..i] == data;
    }
  }

  method Fold(n: nat) returns (csum: nat)
    ensures csum == Folded(n)
  {
    csum := n;
    while csum > ALL_ONES
      invariant Folded(csum) == Folded(n)
      decreases csum
    {
      FoldStep(csum);
      csum := csum / 0x10000 + csum % 0x10000;
    }
  }

  /** tcpipChecksum */
  method TcpipChecksum(data: seq<Byte>, start: nat) returns (sum: nat)
    requires start < TWO32
    ensures sum < 0x10000 && sum == ALL_ONES - Folded(Wrap(start + Sum(data)))
  {
    var csum := AddWords(data, start);
    csum := Fold(csum);
    sum := ALL_ONES - csum;
  }

  /** With no more than 65536 bytes to add and a pseudo-header's sum to start from, no addition wraps. */
  lemma NothingWraps(data: seq<Byte>, start: nat)
    requires |data| <= 0x10000 && start <= MOST_START
    ensures Wrap(start + Sum(data)) == start + Sum(data)
  {
    SumBound(data);
  }

  /** The checksum of data with the sum of a pseudo-header to start from. */
  method ChecksumOver(data: seq<Byte>, start: nat, ghost pseudo: seq<Byte>) returns (sum: nat)
    requires |data| <= 0x10000 && start == Sum(pseudo) <= MOST_START
    ensures sum == SumOver(pseudo, data)
  {
    NothingWraps(data, start);
    sum := TcpipChecksum(data, start);
  }

  // ---- Pseudo-headers ----

  /** Section 3.1 of RFC 793: addresses, a zero byte, the protocol and the length. */
  function Pseudo4(src: seq<Byte>, dst: seq<Byte>, proto: Byte, length: nat): seq<Byte>
    requires length < 0x10000
  {
    src + dst + [0, proto] + U16(length)
  }

  /** Section 8.1 of RFC 8200: addresses, the length in four bytes, three zero bytes and the next header. */
  function Pseudo6(src: seq<Byte>, dst: seq<Byte>, proto: Byte, length: nat): seq<Byte>
    requires length < TWO32
  {
    src + dst + (U16(length / 0x10000) + U16(length % 0x10000)) + [0, 0, 0, proto]
  }

  lemma Sum4(a: seq<Byte>)
    requires |a| == 4
    ensures Sum(a) == Word(a[0], a[1]) + Word(a[2], a[3])
  {
    assert Sum(a) == Word(a[0], a[1]) + Sum(a[2..]);
    assert a[2..][2..] == [];
    assert Sum(a[2..]) == Word(a[2], a[3]);
  }

  lemma Sum2(a: Byte, b: Byte)
    ensures Sum([a, b]) == Word(a, b)
  {
    assert [a, b][2..] == [];
  }

  lemma PseudoSum4(src: seq<Byte>, dst: seq<Byte>, proto: Byte, length: nat)
    requires |src| == 4 && |dst| == 4 && length < 0x10000
    ensures Sum(Pseudo4(src, dst, proto, length)) == Sum(src) + Sum(dst) + Word(0, proto) + length
  {
    SumAppend(src + dst + [0, proto], U16(length));
    SumAppend(src + dst, [0, proto]);
    SumAppend(src, dst);
    Sum2(0, proto);
    Sum2(length / 256, length % 256);
  }

  lemma PseudoSum6(src: seq<Byte>, dst: seq<Byte>, proto: Byte, length: nat)
    requires |src| == 16 && |dst| == 16 && length < TWO32
    ensures Sum(Pseudo6(src, dst, proto, length)) == Sum(src) + Sum(dst) + Word(0, proto) + length % 0x10000 + length / 0x10000
  {
    var high, low := U16(length / 0x10000), U16(length % 0x10000);
    SumAppend(src + dst + (high + low), [0, 0, 0, proto]);
    SumAppend(src + dst, high + low);
    SumAppend(src, dst);
    SumAppend(high, low);
    Sum2(high[0], high[1]);
    Sum2(low[0], low[1]);
    Sum4([0, 0, 0, proto]);
  }

  /** ipv4PseudoheaderChecksum; a length of more than sixteen binary digits counts as two words */
  method Ipv4PseudoheaderChecksum(src: seq<Byte>, dst: seq<Byte>, proto: Byte, length: nat) returns (csum: nat)
    requires |src| == 4 && |dst| == 4 && length < TWO32
    ensures csum == Sum(src) + Sum(dst) + Word(0, proto) + length % 0x10000 + length / 0x10000 <= MOST_START
    ensures length < 0x10000 ==> csum == Sum(Pseudo4(src, dst, proto, length))
  {
    if length < 0x10000 {
      PseudoSum4(src, dst, proto, length);
    }
    Sum4(src);
    Sum4(dst);
    csum := Word(src[0], 0) + Word(src[2], 0);
    ghost var total := csum;
    csum := Add32(csum, Word(0, src[1]) + Word(0, src[3]), total);
    total := Sum(src);
    csum := Add32(csum, Word(dst[0], 0) + Word(dst[2], 0), total);
    total := total + Word(dst[0], 0) + Word(dst[2], 0);
    csum := Add32(csum, Word(0, dst[1]) + Word(0, dst[3]), total);
    total := Sum(src) + Sum(dst);
    csum := Add32(csum, Word(0, proto), total);
    csum := Add32(csum, length % 0x10000, total + Word(0, proto));
    csum := Add32(csum, length / 0x10000, total + Word(0, proto) + length % 0x10000);
  }

  /** The loop of ipv6PseudoheaderChecksum: both addresses at once. */
  method AddAddresses(src: seq<Byte>, dst: seq<Byte>) returns (csum: nat)
    requires |src| == 16 && |dst| == 16
    ensures csum == Wrap(Sum(src) + Sum(dst))
  {
    csum := 0;
    ghost var total: nat := 0;
    var i := 0;
    while i < 16
      invariant 0 <= i <= 16 && i % 2 == 0
      invariant csum == Wrap(total) && total == Sum(src[..i]) + Sum(dst[..i])
    {
      SumOneMore(src, i);
      SumOneMore(dst, i);
      csum := Add32(csum, Word(src[i], 0), total);
      total := total + Word(src[i], 0);
      csum := Add32(csum, Word(0, src[i + 1]), total);
      total := total + Word(0, src[i + 1]);
      csum := Add32(csum, Word(dst[i], 0), total);
      total := total + Word(dst[i], 0);
      csum := Add32(csum, Word(0, dst[i + 1]), total);
      total := total + Word(0, dst[i + 1]);
      i := i + 2;
    }
    assert src[..i] == src && dst[..i] == dst;
  }

  /** ipv6PseudoheaderChecksum */
  method Ipv6PseudoheaderChecksum(src: seq<Byte>, dst: seq<Byte>, proto: Byte, length: nat) returns (csum: nat)
    requires |src| == 16 && |dst| == 16 && length < TWO32
    ensures csum == Sum(Pseudo6(src, dst, proto, length)) <= MOST_START
  {
    PseudoSum6(src, dst, proto, length);
    SumBound(src);
    SumBound(dst);
    csum := AddAddresses(src, dst);
    ghost var total := Sum(src) + Sum(dst);
    csum := Add32(csum, Word(0, proto), total);
    csum := Add32(csum, length % 0x10000, total + Word(0, proto));
    csum := Add32(csum, length / 0x10000, total + Word(0, proto) + length % 0x10000);
  }
}
