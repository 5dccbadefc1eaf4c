/** Machine words as natural numbers.  The source's bit operators are defined here by recursion
    on the binary digits, so that every use in the other modules is the operator of the source
    and not an arithmetic paraphrase of it. */
module Words {

  const WORD_LIMIT: nat := 0x1_0000_0000_0000_0000

  /** An unsigned 64-bit word. */
  type Word = w: nat | w < WORD_LIMIT

  function Pow2(n: nat): (p: nat)
    ensures p > 0
  {
    if n == 0 then 1 else 2 * Pow2(n - 1)
  }

  /** Binary digit k of w, digit 0 being the least significant one. */
  predicate Bit(w: nat, k: nat) {
    if k == 0 then w % 2 == 1 else Bit(w / 2, k - 1)
  }

  /** a & b */
  function And(a: nat, b: nat): nat {
    if a == 0 || b == 0 then 0 else 2 * And(a / 2, b / 2) + (a % 2) * (b % 2)
  }

  /** a | b */
  function Or(a: nat, b: nat): nat
    decreases a + b
  {
    if a == 0 && b == 0 then 0
    else 2 * Or(a / 2, b / 2) + (if a % 2 == 1 || b % 2 == 1 then 1 else 0)
  }

  /** a &^ b */
  function AndNot(a: nat, b: nat): nat {
    if a == 0 then 0
    else 2 * AndNot(a / 2, b / 2) + (if a % 2 == 1 && b % 2 == 0 then 1 else 0)
  }

  /** How many binary digits of w are set (math/bits.OnesCount64). */
  function OnesCount(w: nat): nat {
    if w == 0 then 0 else w % 2 + OnesCount(w / 2)
  }

  /** The mask ((1 << n) - 1) << lo. */
  function Mask(lo: nat, n: nat): nat {
    var ones: nat := Pow2(n) - 1;
    var shift: nat := Pow2(lo);
    ones * shift
  }

  /** How many of the n digits of w from digit lo upwards are set. */
  function CountBits(w: nat, lo: nat, n: nat): nat {
    if n == 0 then 0 else CountBits(w, lo, n - 1) + (if Bit(w, lo + n - 1) then 1 else 0)
  }

  lemma {:induction false} ZeroHasNoBits(k: nat)
    ensures !Bit(0, k)
  {
    if k > 0 { ZeroHasNoBits(k - 1); }
  }

  lemma HalfAndDigit(r: nat, d: nat)
    requires d <= 1
    ensures (2 * r + d) / 2 == r && (2 * r + d) % 2 == d
  {}

  lemma {:induction false} BitOfAnd(a: nat, b: nat, k: nat)
    ensures Bit(And(a, b), k) <==> Bit(a, k) && Bit(b, k)
    decreases k
  {
    if a == 0 || b == 0 {
      ZeroHasNoBits(k);
    } else {
      var r, d := And(a / 2, b / 2), if a % 2 == 1 && b % 2 == 1 then 1 else 0;
      assert (a % 2) * (b % 2) == d;
      assert And(a, b) == 2 * r + d;
      HalfAndDigit(r, d);
      if k > 0 { BitOfAnd(a / 2, b / 2, k - 1); }
    }
  }

  lemma {:induction false} BitOfOr(a: nat, b: nat, k: nat)
    ensures Bit(Or(a, b), k) <==> Bit(a, k) || Bit(b, k)
    decreases k
  {
    if a == 0 && b == 0 {
      ZeroHasNoBits(k);
    } else {
      var r, d := Or(a / 2, b / 2), if a % 2 == 1 || b % 2 == 1 then 1 else 0;
      assert Or(a, b) == 2 * r + d;
      HalfAndDigit(r, d);
      if k > 0 { BitOfOr(a / 2, b / 2, k - 1); }
    }
  }

  lemma {:induction false} BitOfAndNot(a: nat, b: nat, k: nat)
    ensures Bit(AndNot(a, b), k) <==> Bit(a, k) && !Bit(b, k)
    decreases k
  {
    if a == 0 {
      ZeroHasNoBits(k);
    } else {
      var r, d := AndNot(a / 2, b / 2), if a % 2 == 1 && b % 2 == 0 then 1 else 0;
      assert AndNot(a, b) == 2 * r + d;
      HalfAndDigit(r, d);
      if k > 0 { BitOfAndNot(a / 2, b / 2, k - 1); }
    }
  }

  /** The operators never leave the width of their operands. */
  lemma {:induction false} Width(a: nat, b: nat, n: nat)
    requires a < Pow2(n) && b < Pow2(n)
    ensures And(a, b) < Pow2(n) && Or(a, b) < Pow2(n) && AndNot(a, b) < Pow2(n)
    decreases n
  {
    if n > 0 {
      assert Pow2(n) == 2 * Pow2(n - 1);
      Width(a / 2, b / 2, n - 1);
      if a != 0 && b != 0 {
        var d := (a % 2) * (b % 2);
        assert d <= 1;
      }
    }
  }

  lemma Pow2Of64()
    ensures Pow2(64) == WORD_LIMIT
  {
    assert Pow2(8) == 256;
    assert Pow2(16) == 256 * 256 by { Pow2Sum(8, 8); }
    assert Pow2(32) == 0x1_0000 * 0x1_0000 by { Pow2Sum(16, 16); }
    assert Pow2(64) == 0x1_0000_0000 * 0x1_0000_0000 by { Pow2Sum(32, 32); }
  }

  lemma {:induction false} Pow2Sum(a: nat, b: nat)
    ensures Pow2(a + b) == Pow2(a) * Pow2(b)
  {
    if a > 0 { Pow2Sum(a - 1, b); }
  }

  lemma {:induction false} Pow2Strict(a: nat, b: nat)
    requires a < b
    ensures Pow2(a) < Pow2(b)
  {
    if a < b - 1 { Pow2Strict(a, b - 1); }
  }

  /** Exactly the digits lo .. lo+n-1 of the mask are set. */
  lemma {:induction false} BitOfMask(lo: nat, n: nat, k: nat)
    ensures Bit(Mask(lo, n), k) <==> lo <= k < lo + n
    decreases lo, n, k
  {
    if lo > 0 {
      MaskShift(lo, n);
      HalfAndDigit(Mask(lo - 1, n), 0);
      if k > 0 { BitOfMask(lo - 1, n, k - 1); }
    } else if n == 0 {
      ZeroHasNoBits(k);
    } else {
      assert Mask(0, n) == 2 * Mask(0, n - 1) + 1;
      HalfAndDigit(Mask(0, n - 1), 1);
      if k > 0 { BitOfMask(0, n - 1, k - 1); }
    }
  }

  lemma MaskShift(lo: nat, n: nat)
    requires lo > 0
    ensures Mask(lo, n) == 2 * Mask(lo - 1, n)
  {
    var ones: nat := Pow2(n) - 1;
    var half: nat := Pow2(lo - 1);
    assert ones * (2 * half) == 2 * (ones * half);
  }

  /** The one-digit mask 1 << k. */
  lemma BitOfPow2(k: nat, j: nat)
    ensures Bit(Pow2(k), j) <==> j == k
  {
    assert Mask(k, 1) == Pow2(k);
    BitOfMask(k, 1, j);
  }

  lemma {:induction false} SomeBit(w: nat) returns (k: nat)
    requires w != 0
    ensures Bit(w, k)
    decreases w
  {
    if w % 2 == 1 {
      k := 0;
    } else {
      var k' := SomeBit(w / 2);
      k := k' + 1;
    }
  }

  /** w & (1 << k) != 0 tests digit k. */
  lemma TestBit(w: nat, k: nat)
    ensures And(w, Pow2(k)) != 0 <==> Bit(w, k)
  {
    var v := And(w, Pow2(k));
    if v != 0 {
      var j := SomeBit(v);
      BitOfAnd(w, Pow2(k), j);
      BitOfPow2(k, j);
    } else {
      BitOfAnd(w, Pow2(k), k);
      BitOfPow2(k, k);
      ZeroHasNoBits(k);
    }
  }

  /** Masking with a power of two less one keeps the remainder. */
  lemma {:induction false} AndLowMask(i: nat, n: nat)
    ensures And(i, Pow2(n) - 1) == i % Pow2(n)
    decreases n
  {
    if n > 0 {
      var p := Pow2(n - 1);
      AndLowMask(i / 2, n - 1);
      HalfMod(i, p);
      AndOddMask(i, p - 1);
    }
  }

  lemma AndOddMask(i: nat, m: nat)
    ensures And(i, 2 * m + 1) == 2 * And(i / 2, m) + i % 2
  {
    HalfAndDigit(m, 1);
  }

  lemma HalfMod(i: nat, p: nat)
    requires p > 0
    ensures i % (2 * p) == 2 * ((i / 2) % p) + i % 2
  {
    var q, r := (i / 2) / p, (i / 2) % p;
    assert i / 2 == q * p + r;
    assert i == (2 * p) * q + (2 * r + i % 2);
    assert 0 <= 2 * r + i % 2 < 2 * p;
    ModUnique(i, 2 * p, q, 2 * r + i % 2);
  }

  /** Quotient and remainder are determined by their defining equation. */
  lemma ModUnique(x: nat, d: nat, q: nat, r: nat)
    requires x == d * q + r && r < d
    ensures x % d == r && x / d == q
  {
    var q', r' := x / d, x % d;
    assert d * (q - q') == r' - r;
    OnlyZeroMultiple(d, q - q');
  }

  lemma OnlyZeroMultiple(d: int, k: int)
    requires -d < d * k < d
    ensures k == 0
  {
    if k >= 1 { MulAtLeast(d, k); }
    if k <= -1 { MulAtLeast(d, -k); }
  }

  lemma MulAtLeast(d: int, k: int)
    requires 0 < d && 1 <= k
    ensures d * k >= d
  {}

  lemma {:induction false} CountBitsSplit(w: nat, lo: nat, a: nat, b: nat)
    ensures CountBits(w, lo, a + b) == CountBits(w, lo, a) + CountBits(w, lo + a, b)
    decreases b
  {
    if b > 0 { CountBitsSplit(w, lo, a, b - 1); }
  }

  lemma {:induction false} CountBitsShift(w: nat, lo: nat, n: nat)
    ensures CountBits(w, lo + 1, n) == CountBits(w / 2, lo, n)
    decreases n
  {
    if n > 0 { CountBitsShift(w, lo, n - 1); }
  }

  lemma {:induction false} OnesCountIsCountBits(w: nat, n: nat)
    requires w < Pow2(n)
    ensures OnesCount(w) == CountBits(w, 0, n)
    decreases n
  {
    if n > 0 {
      assert Pow2(n) == 2 * Pow2(n - 1);
      OnesCountIsCountBits(w / 2, n - 1);
      CountBitsSplit(w, 0, 1, n - 1);
      CountBitsShift(w, 0, n - 1);
      assert CountBits(w, 0, 1) == w % 2 by { assert CountBits(w, 0, 0) == 0; }
    }
  }

  /** Counts agree wherever the digits agree. */
  lemma {:induction false} CountBitsEq(v: nat, w: nat, lo: nat, n: nat)
    requires forall k :: lo <= k < lo + n ==> (Bit(v, k) <==> Bit(w, k))
    ensures CountBits(v, lo, n) == CountBits(w, lo, n)
    decreases n
  {
    if n > 0 { CountBitsEq(v, w, lo, n - 1); }
  }

  lemma {:induction false} CountBitsNone(w: nat, lo: nat, n: nat)
    requires forall k :: lo <= k < lo + n ==> !Bit(w, k)
    ensures CountBits(w, lo, n) == 0
    decreases n
  {
    if n > 0 { CountBitsNone(w, lo, n - 1); }
  }

  /** OnesCount64(w & mask) counts exactly the digits under the mask. */
  lemma OnesCountMasked(w: Word, lo: nat, n: nat)
    requires lo + n <= 64
    ensures And(w, Mask(lo, n)) < WORD_LIMIT
    ensures OnesCount(And(w, Mask(lo, n))) == CountBits(w, lo, n)
  {
    Pow2Of64();
    MaskWidth(lo, n);
    var v := And(w, Mask(lo, n));
    Width(w, Mask(lo, n), 64);
    forall k: nat ensures Bit(v, k) <==> Bit(w, k) && lo <= k < lo + n {
      BitOfAnd(w, Mask(lo, n), k);
      BitOfMask(lo, n, k);
    }
    OnesCountIsCountBits(v, 64);
    OnlyUnderMask(v, w, lo, n);
  }

  lemma OnlyUnderMask(v: nat, w: nat, lo: nat, n: nat)
    requires lo + n <= 64
    requires forall k: nat :: Bit(v, k) <==> Bit(w, k) && lo <= k < lo + n
    ensures CountBits(v, 0, 64) == CountBits(w, lo, n)
  {
    var rest := 64 - lo - n;
    CountBitsSplit(v, 0, lo, n + rest);
    CountBitsSplit(v, lo, n, rest);
    CountBitsNone(v, 0, lo);
    CountBitsEq(v, w, lo, n);
    CountBitsNone(v, lo + n, rest);
    assert lo + (n + rest) == 64;
  }

  lemma MaskWidth(lo: nat, n: nat)
    requires lo + n <= 64
    ensures Mask(lo, n) < WORD_LIMIT
  {
    Pow2Of64();
    Pow2Sum(n, lo);
    if lo + n < 64 { Pow2Strict(lo + n, 64); }
    OneLess(Pow2(n), Pow2(lo));
  }

  lemma OneLess(a: nat, b: nat)
    requires a > 0
    ensures (a - 1) * b == a * b - b
  {}
}
