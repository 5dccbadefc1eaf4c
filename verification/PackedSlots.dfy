/** A row of one-bit slots packed into 64-bit words, and what masking a single word does to it. */
module PackedSlots {
  import opened Words

  /** The words hold length slots; a row shorter than a word leaves the rest of the word clear. */
  ghost predicate Packs(words: seq<Word>, length: nat) {
    && length > 0
    && (length < 64 ==> |words| == 1 && words[0] < Pow2(length))
    && (length >= 64 ==> length == 64 * |words|)
  }

  predicate Slot(words: seq<Word>, p: nat) {
    p / 64 < |words| && Bit(words[p / 64], p % 64)
  }

  /** The packed words stand for the given slots. */
  ghost predicate Mirrors(words: seq<Word>, slots: seq<bool>) {
    && Packs(words, |slots|)
    && forall p {:trigger Slot(words, p)} :: 0 <= p < |slots| ==> (slots[p] <==> Slot(words, p))
  }

  /** How many of the n slots from position a on are set. */
  function CountTrue(slots: seq<bool>, a: nat, n: nat): nat
    requires a + n <= |slots|
  {
    if n == 0 then 0 else CountTrue(slots, a, n - 1) + (if slots[a + n - 1] then 1 else 0)
  }

  /** The n slots from position a on emptied. */
  function Blanked(slots: seq<bool>, a: nat, n: nat): (s: seq<bool>)
    requires a + n <= |slots|
    ensures |s| == |slots|
    ensures forall p :: 0 <= p < |s| ==> (s[p] <==> slots[p] && !(a <= p < a + n))
  {
    seq(|slots|, p requires 0 <= p < |slots| => slots[p] && !(a <= p < a + n))
  }

  lemma {:induction false} CountTrueSplit(slots: seq<bool>, a: nat, m: nat, n: nat)
    requires a + m + n <= |slots|
    ensures CountTrue(slots, a, m + n) == CountTrue(slots, a, m) + CountTrue(slots, a + m, n)
    decreases n
  {
    if n > 0 { CountTrueSplit(slots, a, m, n - 1); }
  }

  /** Counting slots inside one word is counting digits of that word. */
  lemma {:induction false} CountInWord(words: seq<Word>, slots: seq<bool>, word: nat, lo: nat, n: nat)
    requires Mirrors(words, slots) && word < |words| && lo + n <= 64 && word * 64 + lo + n <= |slots|
    ensures CountTrue(slots, word * 64 + lo, n) == CountBits(words[word], lo, n)
    decreases n
  {
    if n > 0 {
      CountInWord(words, slots, word, lo, n - 1);
      var p := word * 64 + lo + n - 1;
      assert p / 64 == word && p % 64 == lo + n - 1;
      assert Slot(words, p) <==> slots[p];
    }
  }

  lemma {:induction false} ClearAllLow(w: nat, n: nat)
    requires w < Pow2(n)
    ensures AndNot(w, Pow2(n) - 1) == 0 && And(w, Pow2(n) - 1) == w
    decreases n
  {
    if n > 0 && w > 0 {
      ClearAllLow(w / 2, n - 1);
      assert (Pow2(n) - 1) / 2 == Pow2(n - 1) - 1;
    }
  }

  /** The mask of all 64 digits is MaxUint64, and clears or selects the whole word. */
  lemma WholeWord(w: Word)
    ensures Mask(0, 64) == WORD_LIMIT - 1 && AndNot(w, Mask(0, 64)) == 0 && And(w, Mask(0, 64)) == w
  {
    Pow2Of64();
    assert Mask(0, 64) == Pow2(64) - 1;
    ClearAllLow(w, 64);
  }

  lemma {:induction false} AndNotShrinks(a: nat, b: nat)
    ensures AndNot(a, b) <= a
    decreases a
  {
    if a > 0 { AndNotShrinks(a / 2, b / 2); }
  }

  lemma MaskedSlot(words: seq<Word>, word: nat, lo: nat, n: nat, p: nat)
    requires word < |words| && lo + n <= 64 && AndNot(words[word], Mask(lo, n)) < WORD_LIMIT
    ensures Slot(words[word := AndNot(words[word], Mask(lo, n))], p)
       <==> Slot(words, p) && !(word * 64 + lo <= p < word * 64 + lo + n)
  {
    if p / 64 == word {
      BitOfAndNot(words[word], Mask(lo, n), p % 64);
      BitOfMask(lo, n, p % 64);
    }
  }

  /** Clearing digits lo .. lo+n-1 of one word blanks exactly those slots, and the population
      count under the mask is the number of them that were set. */
  lemma MaskedWord(words: seq<Word>, slots: seq<bool>, word: nat, lo: nat, n: nat)
    requires Mirrors(words, slots) && word < |words| && lo + n <= 64 && word * 64 + lo + n <= |slots|
    ensures AndNot(words[word], Mask(lo, n)) < WORD_LIMIT
    ensures Mirrors(words[word := AndNot(words[word], Mask(lo, n))], Blanked(slots, word * 64 + lo, n))
    ensures OnesCount(And(words[word], Mask(lo, n))) == CountTrue(slots, word * 64 + lo, n)
  {
    var w, m := words[word], Mask(lo, n);
    Pow2Of64();
    MaskWidth(lo, n);
    Width(w, m, 64);
    AndNotShrinks(w, m);
    var words' := words[word := AndNot(w, m)];
    var slots' := Blanked(slots, word * 64 + lo, n);
    forall p {:trigger Slot(words', p)} | 0 <= p < |slots'| ensures slots'[p] <==> Slot(words', p) {
      assert slots[p] <==> Slot(words, p);
      MaskedSlot(words, word, lo, n, p);
    }
    OnesCountMasked(w, lo, n);
    CountInWord(words, slots, word, lo, n);
  }

  /** Or-ing in 1 << (p % 64) sets slot p and no other. */
  lemma SetSlot(words: seq<Word>, slots: seq<bool>, p: nat)
    requires Mirrors(words, slots) && p < |slots|
    ensures p / 64 < |words| && Or(words[p / 64], Pow2(p % 64)) < WORD_LIMIT
    ensures Mirrors(words[p / 64 := Or(words[p / 64], Pow2(p % 64))], slots[p := true])
  {
    var w, m := words[p / 64], Pow2(p % 64);
    Pow2Of64();
    Pow2Strict(p % 64, 64);
    Width(w, m, 64);
    if |slots| < 64 {
      Pow2Strict(p, |slots|);
      Width(w, m, |slots|);
    }
    var words' := words[p / 64 := Or(w, m)];
    var slots' := slots[p := true];
    forall q {:trigger Slot(words', q)} | 0 <= q < |slots'| ensures slots'[q] <==> Slot(words', q) {
      assert slots[q] <==> Slot(words, q);
      OredSlot(words, p, q);
    }
  }

  lemma OredSlot(words: seq<Word>, p: nat, q: nat)
    requires p / 64 < |words| && Or(words[p / 64], Pow2(p % 64)) < WORD_LIMIT
    ensures Slot(words[p / 64 := Or(words[p / 64], Pow2(p % 64))], q) <==> q == p || Slot(words, q)
  {
    if q / 64 == p / 64 {
      BitOfOr(words[p / 64], Pow2(p % 64), q % 64);
      BitOfPow2(p % 64, q % 64);
    }
  }

  lemma TestSlot(words: seq<Word>, slots: seq<bool>, p: nat)
    requires Mirrors(words, slots) && p < |slots|
    ensures p / 64 < |words|
    ensures And(words[p / 64], Pow2(p % 64)) != 0 <==> slots[p]
  {
    TestBit(words[p / 64], p % 64);
    assert slots[p] <==> Slot(words, p);
  }

  /** Adding the population count of word k extends the count from 64*k slots by that word. */
  lemma CountNextWord(words: seq<Word>, slots: seq<bool>, k: nat)
    requires Mirrors(words, slots) && |slots| >= 64 && k < |words|
    ensures 64 * k + 64 <= |slots|
    ensures CountTrue(slots, 0, 64 * k) + OnesCount(words[k]) == CountTrue(slots, 0, 64 * k + 64)
  {
    CountTrueSplit(slots, 0, 64 * k, 64);
    WholeWord(words[k]);
    OnesCountMasked(words[k], 0, 64);
    CountInWord(words, slots, k, 0, 64);
  }

  lemma CountShort(words: seq<Word>, slots: seq<bool>)
    requires Mirrors(words, slots) && |slots| < 64
    ensures OnesCount(words[0]) == CountTrue(slots, 0, |slots|)
  {
    OnesCountIsCountBits(words[0], |slots|);
    CountInWord(words, slots, 0, 0, |slots|);
  }

  lemma ZeroedWords(words: seq<Word>, length: nat)
    requires length > 0 && (if length < 64 then |words| == 1 else length == 64 * |words|)
    requires forall k :: 0 <= k < |words| ==> words[k] == 0
    ensures Mirrors(words, seq(length, _ => false))
  {
    forall p {:trigger Slot(words, p)} | 0 <= p < length ensures !Slot(words, p) {
      ZeroHasNoBits(p % 64);
    }
  }
}
