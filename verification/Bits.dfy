/** bits.go: the circular bitmap, packed into 64-bit words, that implements the replay window. */
module Bits {
  import opened Words
  import opened PackedSlots
  import opened ReplayWindow

  const BITS_PER_WORD: nat := 64

  function Least(a: nat, b: nat): nat {
    if a < b then a else b
  }

  /** Position x of the circle, for x less than twice round. */
  function Wrap(x: nat, length: nat): nat {
    if x < length then x else x - length
  }

  /** The position of counter c on the circle. */
  function Position(c: nat, length: nat): (p: nat)
    requires length > 0
    ensures p < length
  {
    c % length
  }

  /** How far position p lies behind start, going round the circle. */
  function Offset(p: nat, start: nat, length: nat): nat
    requires p < length && start < length
  {
    if p >= start then p - start else p + length - start
  }

  /** How many of the n slots from start on, going round the circle, are set. */
  function CountRound(slots: seq<bool>, start: nat, n: nat): nat
    requires start < |slots| && n <= |slots|
  {
    if start + n <= |slots| then CountTrue(slots, start, n)
    else CountTrue(slots, start, |slots| - start) + CountTrue(slots, 0, start + n - |slots|)
  }

  /** The n slots from start on, going round the circle, emptied. */
  ghost predicate ClearedRound(slots': seq<bool>, slots: seq<bool>, start: nat, n: nat)
    requires start < |slots|
  {
    && |slots'| == |slots|
    && forall p :: 0 <= p < |slots| ==> (slots'[p] <==> slots[p] && Offset(p, start, |slots|) >= n)
  }

  /** Clearing n more slots inside the row extends a cleared stretch of the circle from `done`
      to done + n, and the count with it. */
  lemma ClearFurther(slots': seq<bool>, slots: seq<bool>, start: nat, done: nat, pos: nat, n: nat)
    requires start < |slots| && done + n <= |slots| && ClearedRound(slots', slots, start, done)
    requires pos == Wrap(start + done, |slots|) && pos < |slots| && pos + n <= |slots|
    ensures ClearedRound(Blanked(slots', pos, n), slots, start, done + n)
    ensures CountRound(slots, start, done) + CountTrue(slots', pos, n) == CountRound(slots, start, done + n)
  {
    var L := |slots|;
    ClearedFurther(slots', slots, start, done, pos, n);
    CountTrueEq(slots', slots, pos, n);
    if start + done + n <= L {
      CountTrueSplit(slots, start, done, n);
    } else if start + done >= L {
      CountTrueSplit(slots, 0, pos, n);
    }
  }

  lemma ClearedFurther(slots': seq<bool>, slots: seq<bool>, start: nat, done: nat, pos: nat, n: nat)
    requires start < |slots| && done + n <= |slots| && ClearedRound(slots', slots, start, done)
    requires pos == Wrap(start + done, |slots|) && pos < |slots| && pos + n <= |slots|
    ensures ClearedRound(Blanked(slots', pos, n), slots, start, done + n)
  {
    forall p | 0 <= p < |slots|
      ensures Offset(p, start, |slots|) >= done + n <==> Offset(p, start, |slots|) >= done && !(pos <= p < pos + n)
    {}
  }

  lemma {:induction false} CountTrueEq(s: seq<bool>, t: seq<bool>, a: nat, n: nat)
    requires |s| == |t| && a + n <= |s|
    requires forall p :: a <= p < a + n ==> s[p] == t[p]
    ensures CountTrue(s, a, n) == CountTrue(t, a, n)
    decreases n
  {
    if n > 0 { CountTrueEq(s, t, a, n - 1); }
  }

  /** A full circle counts every slot. */
  lemma FullCircle(slots: seq<bool>, start: nat)
    requires start < |slots|
    ensures CountRound(slots, start, |slots|) == CountTrue(slots, 0, |slots|)
  {
    CountTrueSplit(slots, 0, start, |slots| - start);
  }

  /** One slot more at the far end of a circular stretch. */
  lemma CountRoundStep(slots: seq<bool>, start: nat, n: nat)
    requires start < |slots| && 0 < n <= |slots|
    ensures CountRound(slots, start, n)
         == CountRound(slots, start, n - 1) + (if slots[Wrap(start + n - 1, |slots|)] then 1 else 0)
  {
    if start + n == |slots| + 1 { assert CountTrue(slots, 0, 1) == (if slots[0] then 1 else 0) + CountTrue(slots, 0, 0); }
  }

  /** i & lengthMask is the position i mod length. */
  lemma MaskedPosition(i: nat, length: nat, log: nat)
    requires length == Pow2(log)
    ensures And(i, length - 1) == Position(i, length)
  {
    AndLowMask(i, log);
  }

  lemma WrapIsMod(x: nat, length: nat)
    requires 0 < length && x < 2 * length
    ensures Position(x, length) == Wrap(x, length)
  {
    if x < length { ModUnique(x, length, 0, x); } else { ModUnique(x, length, 1, x - length); }
  }

  /** Counters that lie less than a full circle apart have different positions; the position
      of counter d seen from that of counter c is their distance. */
  lemma PositionOffset(c: nat, d: nat, length: nat)
    requires length > 0 && c <= d < c + length
    ensures Offset(Position(d, length), Position(c, length), length) == d - c
    ensures Wrap(Position(c, length) + (d - c), length) == Position(d, length)
  {
    var q, r := c / length, c % length;
    assert c == length * q + r;
    if r + (d - c) < length {
      ModUnique(d, length, q, r + (d - c));
    } else {
      assert d == length * (q + 1) + (r + (d - c) - length);
      ModUnique(d, length, q + 1, r + (d - c) - length);
    }
  }

  lemma SamePosition(c: nat, length: nat)
    requires length > 0
    ensures Position(c + length, length) == Position(c, length)
  {
    assert c + length == length * (c / length + 1) + c % length;
    ModUnique(c + length, length, c / length + 1, c % length);
  }

  lemma PowerOfTwoPacks(length: nat, log: nat)
    requires length == Pow2(log) && length >= 64
    ensures length % 64 == 0
  {
    assert Pow2(6) == 64;
    if log < 6 { Pow2Strict(log, 6); }
    Pow2Sum(6, log - 6);
    ModUnique(length, 64, Pow2(log - 6), 0);
  }

  /** Past the first, possibly partial, word the position is on a word boundary and the rest
      of the current word, or all that remains, fits before the end of the circle. */
  ghost predicate Aligned(pos: nat, remaining: nat, length: nat) {
    pos % 64 == 0 && pos + Least(remaining, 64) <= length
  }

  /** The first stretch of clearRange lies in one word; if it does not finish the job it ends on
      a word boundary or at the end of the circle. */
  lemma FirstWord(length: nat, nWords: nat, pos: nat, count: nat, take: nat)
    requires pos < length && 1 <= count < length
    requires take == Least(Least(64 - pos % 64, count), length - pos)
    requires if length < 64 then nWords == 1 else length == 64 * nWords
    ensures pos / 64 < nWords && (pos / 64) * 64 + pos % 64 == pos
    ensures take == 64 ==> Mask(pos % 64, take) == WORD_LIMIT - 1
    ensures take < count ==> Aligned(Wrap(pos + take, length), count - take, length)
  {
    WholeWord(0);
    if take < count {
      if length < 64 {
        assert pos + take == length;
      } else {
        var q := pos / 64;
        assert pos + take == 64 * q + 64;
        if pos + take < length { WordBoundary(length, nWords, q + 1); }
      }
    }
  }

  lemma WordBoundary(length: nat, nWords: nat, q: nat)
    requires length == 64 * nWords && 64 * q < length
    ensures 64 * q + 64 <= length
  {}

  lemma NextWord(length: nat, nWords: nat, pos: nat, remaining: nat)
    requires if length < 64 then nWords == 1 else length == 64 * nWords
    requires pos < length && 0 < remaining < length && Aligned(pos, remaining, length)
    ensures pos / 64 < nWords && (pos / 64) * 64 == pos
    ensures remaining > 64 ==> Aligned(Wrap(pos + 64, length), remaining - 64, length)
  {
    var q := pos / 64;
    assert pos == 64 * q;
    if pos + 64 < length { WordBoundary(length, nWords, q + 1); }
  }

  /** In a row that tracks the accepted counters, the slot of every counter still in the window
      says whether it was accepted; the never used counter 0 is marked as if it had been. */
  ghost predicate Tracks(slots: seq<bool>, accepted: set<nat>, current: nat) {
    && |slots| > 0
    && forall c: nat {:trigger Position(c, |slots|)} :: c <= current < c + |slots| ==>
         (slots[Position(c, |slots|)] <==> c == 0 || c in accepted)
  }

  ghost function FreshSlots(length: nat): (s: seq<bool>)
    requires length > 0
    ensures |s| == length
  {
    seq(length, _ => false)[0 := true]
  }

  /** A new window, with the one word bits[0] set to 1, has only counter 0 marked. */
  lemma FreshWindow(zeroed: seq<Word>, length: nat)
    requires length > 0 && (if length < 64 then |zeroed| == 1 else length == 64 * |zeroed|)
    requires forall k :: 0 <= k < |zeroed| ==> zeroed[k] == 0
    ensures Mirrors(zeroed[0 := 1], FreshSlots(length)) && Tracks(FreshSlots(length), {}, 0)
  {
    ZeroedWords(zeroed, length);
    SetSlot(zeroed, seq(length, _ => false), 0);
    assert Or(0, 1) == 1 by { assert Or(0, 0) == 0; }
    ModUnique(0, length, 0, 0);
  }

  /** When the window moves on to i = current + 1, i takes over the slot of the counter that
      just left. */
  lemma EvictedSlot(slots: seq<bool>, accepted: set<nat>, current: nat)
    requires Tracks(slots, accepted, current)
    ensures current + 1 > |slots| ==> (slots[Position(current + 1, |slots|)] <==> current + 1 - |slots| in accepted)
  {
    if current + 1 > |slots| { SamePosition(current + 1 - |slots|, |slots|); }
  }

  lemma NextTracks(slots: seq<bool>, accepted: set<nat>, current: nat)
    requires Tracks(slots, accepted, current) && forall c :: c in accepted ==> c <= current
    ensures Tracks(slots[Position(current + 1, |slots|) := true], accepted + {current + 1}, current + 1)
  {
    var L, i := |slots|, current + 1;
    forall c: nat {:trigger Position(c, L)} | c <= i < c + L
      ensures (slots[Position(i, L) := true][Position(c, L)] <==> c == 0 || c in accepted + {i})
    {
      PositionOffset(c, i, L);
    }
  }

  lemma BackfillTracks(slots: seq<bool>, accepted: set<nat>, current: nat, i: nat)
    requires Tracks(slots, accepted, current) && i <= current < i + |slots|
    ensures Tracks(slots[Position(i, |slots|) := true], accepted + {i}, current)
  {
    var L := |slots|;
    forall c: nat {:trigger Position(c, L)} | c <= current < c + L
      ensures (slots[Position(i, L) := true][Position(c, L)] <==> c == 0 || c in accepted + {i})
    {
      if c <= i { PositionOffset(c, i, L); } else { PositionOffset(i, c, L); }
    }
  }

  /** After a jump to i a counter keeps its slot if it was already in the window, and finds it
      cleared if the jump brought it in. */
  lemma JumpedSlot(slots: seq<bool>, slid: seq<bool>, accepted: set<nat>, current: nat, i: nat, c: nat)
    requires i > current && Tracks(slots, accepted, current)
    requires ClearedRound(slid, slots, Position(current + 1, |slots|), Least(i - current, |slots|))
    requires c <= i < c + |slots|
    ensures slid[Position(c, |slots|)] <==> c <= current && (c == 0 || c in accepted)
  {
    var L := |slots|;
    if c > current {
      if c <= current + L { PositionOffset(current + 1, c, L); }
      var _ := Offset(Position(c, L), Position(current + 1, L), L);
    } else {
      SamePosition(c, L);
      PositionOffset(current + 1, c + L, L);
    }
  }

  lemma JumpTracks(slots: seq<bool>, slid: seq<bool>, accepted: set<nat>, current: nat, i: nat)
    requires i > current && Tracks(slots, accepted, current) && forall c :: c in accepted ==> c <= current
    requires ClearedRound(slid, slots, Position(current + 1, |slots|), Least(i - current, |slots|))
    ensures Tracks(slid[Position(i, |slots|) := true], accepted + {i}, i)
  {
    var L := |slots|;
    forall c: nat {:trigger Position(c, L)} | c <= i < c + L
      ensures (slid[Position(i, L) := true][Position(c, L)] <==> c == 0 || c in accepted + {i})
    {
      PositionOffset(c, i, L);
      JumpedSlot(slots, slid, accepted, current, i, c);
    }
  }

  /** Steady state: the slots being cleared belong to the counters leaving the window, so the
      cleared slots that were unset are exactly the counters newly lost. */
  lemma {:induction false} SteadyLoss(slots: seq<bool>, accepted: set<nat>, current: nat, n: nat)
    requires Tracks(slots, accepted, current) && current >= |slots| && n <= |slots|
    ensures CountRound(slots, Position(current + 1, |slots|), n) <= n
    ensures Missing(accepted, current - |slots|) + (n - CountRound(slots, Position(current + 1, |slots|), n))
         == Missing(accepted, current - |slots| + n)
    decreases n
  {
    if n > 0 {
      SteadyLoss(slots, accepted, current, n - 1);
      EvictedAt(slots, accepted, current, n);
      CountRoundStep(slots, Position(current + 1, |slots|), n);
    }
  }

  /** Of the counters beyond a full circle from current none was ever seen. */
  lemma BeyondLoss(accepted: set<nat>, length: nat, current: nat, i: nat)
    requires i > current && forall c :: c in accepted ==> c <= current
    ensures Missing(accepted, Base(length, i))
         == Missing(accepted, Base(length, Least(i, current + length)))
            + (if i > current + length then i - current - length else 0)
  {
    if i > current + length { MissingAbove(accepted, current, i - length - current); }
  }

  /** The n-th slot after the current one belongs to the n-th counter to leave the window. */
  lemma EvictedAt(slots: seq<bool>, accepted: set<nat>, current: nat, n: nat)
    requires Tracks(slots, accepted, current) && current >= |slots| && 1 <= n <= |slots|
    ensures slots[Wrap(Position(current + 1, |slots|) + n - 1, |slots|)] <==> current - |slots| + n in accepted
  {
    PositionOffset(current + 1, current + n, |slots|);
    SamePosition(current + n - |slots|, |slots|);
  }

  class Bits {
    const length: nat
    const lengthMask: nat
    const bits: array<Word>
    var current: nat
    var lostCounter: nat
    var dupeCounter: nat
    var outOfWindowCounter: nat
    ghost const log: nat
    ghost var slots: seq<bool>
    ghost var accepted: set<nat>

    ghost predicate Shape()
      reads this, bits
    {
      && length == Pow2(log) && length < WORD_LIMIT && lengthMask == length - 1
      && |slots| == length && Mirrors(bits[..], slots)
    }

    ghost predicate Valid()
      reads this, bits
    {
      && Shape()
      && current + length < WORD_LIMIT
      && Tracks(slots, accepted, current)
      && Consistent(View())
    }

    ghost function View(): Window
      reads this
    {
      Window(length, current, accepted, lostCounter, dupeCounter, outOfWindowCounter)
    }

    /** NewBits panics unless the length is a power of two. */
    constructor (length: nat, ghost log: nat)
      requires length == Pow2(log) && length < WORD_LIMIT
      ensures Valid() && fresh(bits)
      ensures View() == Fresh(length)
    {
      this.length, this.lengthMask, this.log := length, length - 1, log;
      this.current, this.lostCounter, this.dupeCounter, this.outOfWindowCounter := 0, 0, 0, 0;
      this.accepted := {};
      var nWords := length / BITS_PER_WORD;
      if nWords == 0 { nWords := 1; }
      this.bits := new Word[nWords](_ => 0);
      this.slots := FreshSlots(length);
      new;
      if length >= 64 { PowerOfTwoPacks(length, log); }
      ghost var zeroed := bits[..];
      FreshWindow(zeroed, length);
      bits[0] := 1;
      assert bits[..] == zeroed[0 := 1];
    }

    /** The slot of counter i, read through the mask and the packed words. */
    predicate Get(i: nat): (r: bool)
      requires Shape()
      reads this, bits
      ensures r <==> slots[Position(i, length)]
    {
      MaskedPosition(i, length, log);
      var pos := And(i, lengthMask);
      TestSlot(bits[..], slots, pos);
      And(bits[pos / 64], Pow2(pos % 64)) != 0
    }

    method Set(i: nat)
      requires Shape()
      modifies this`slots, bits
      ensures Shape() && slots == old(slots)[Position(i, length) := true]
    {
      MaskedPosition(i, length, log);
      var pos := And(i, lengthMask);
      ghost var was := bits[..];
      SetSlot(was, slots, pos);
      bits[pos / 64] := Or(bits[pos / 64], Pow2(pos % 64));
      slots := slots[pos := true];
      assert bits[..] == was[pos / 64 := bits[pos / 64]];
    }

    /** clearRange: clears exactly `count` slots going round the circle from startPos, and returns
        how many of them were set. */
    method ClearRange(startPos: nat, count: nat) returns (wasSet: nat)
      requires Shape() && startPos < length && 1 <= count <= length
      modifies this`slots, bits
      ensures Shape() && ClearedRound(slots, old(slots), startPos, count)
      ensures wasSet == CountRound(old(slots), startPos, count)
    {
      if count >= length {
        wasSet := ClearAll(startPos);
        return;
      }

      var pos, remaining := startPos, count;
      // handle the potential partial word before pos becomes aligned
      var take := Least(Least(64 - pos % 64, remaining), length - pos);
      FirstWord(length, bits.Length, pos, count, take);
      var mask := if take == 64 then WORD_LIMIT - 1 else Mask(pos % 64, take);
      wasSet, pos := ClearStretch(pos, take, mask, 0, slots, startPos, 0);
      wasSet := ClearRest(pos, remaining - take, wasSet, old(slots), startPos, take);
    }

    /** clearRange after its first word: whole words, then the remaining partial word. */
    method ClearRest(
      pos0: nat, remaining0: nat, total: nat, ghost was: seq<bool>, ghost start: nat, ghost done0: nat)
      returns (wasSet: nat)
      requires Shape() && |was| == length && start < length && done0 + remaining0 < length
      requires ClearedRound(slots, was, start, done0) && total == CountRound(was, start, done0)
      requires pos0 == Wrap(start + done0, length) < length && (remaining0 > 0 ==> Aligned(pos0, remaining0, length))
      modifies this`slots, bits
      ensures Shape() && ClearedRound(slots, was, start, done0 + remaining0)
      ensures wasSet == CountRound(was, start, done0 + remaining0)
    {
      var pos, remaining := pos0, remaining0;
      ghost var done := done0;
      wasSet := total;
      while remaining >= 64
        invariant done + remaining == done0 + remaining0 && pos == Wrap(start + done, length) && pos < length
        invariant Shape() && ClearedRound(slots, was, start, done)
        invariant wasSet == CountRound(was, start, done)
        invariant remaining > 0 ==> Aligned(pos, remaining, length)
      {
        WholeWord(0);
        NextWord(length, bits.Length, pos, remaining);
        wasSet, pos := ClearStretch(pos, 64, WORD_LIMIT - 1, wasSet, was, start, done);
        remaining, done := remaining - 64, done + 64;
      }

      // Clear the remaining partial word
      if remaining > 0 {
        NextWord(length, bits.Length, pos, remaining);
        wasSet, pos := ClearStretch(pos, remaining, Mask(0, remaining), wasSet, was, start, done);
      }
    }

    /** One stretch of clearRange: the word holding pos is masked, its population count added to
        the total, and the position moved on. */
    method ClearStretch(
      pos: nat, n: nat, mask: nat, total: nat, ghost was: seq<bool>, ghost start: nat, ghost done: nat)
      returns (wasSet: nat, next: nat)
      requires Shape() && |was| == length && start < length && done + n <= length
      requires ClearedRound(slots, was, start, done) && total == CountRound(was, start, done)
      requires pos == Wrap(start + done, length) < length && pos + n <= length
      requires pos / 64 < bits.Length && pos % 64 + n <= 64 && mask == Mask(pos % 64, n)
      modifies this`slots, bits
      ensures Shape() && ClearedRound(slots, was, start, done + n)
      ensures wasSet == CountRound(was, start, done + n)
      ensures next == Wrap(pos + n, length) < length
    {
      ClearFurther(slots, was, start, done, pos, n);
      var cleared := ClearMasked(pos / 64, mask, pos, n);
      wasSet := total + cleared;
      next := NextPosition(pos, n);
    }

    /** One masked word of clearRange: counts the slots under the mask and clears them. */
    method ClearMasked(word: nat, mask: nat, ghost pos: nat, ghost n: nat) returns (wasSet: nat)
      requires Shape() && word == pos / 64 < bits.Length && pos % 64 + n <= 64 && pos + n <= length
      requires mask == Mask(pos % 64, n)
      modifies this`slots, bits
      ensures Shape() && slots == Blanked(old(slots), pos, n)
      ensures wasSet == CountTrue(old(slots), pos, n)
    {
      ghost var was := bits[..];
      MaskedWord(was, slots, word, pos % 64, n);
      wasSet := OnesCount(And(bits[word], mask));
      bits[word] := AndNot(bits[word], mask);
      slots := Blanked(slots, pos, n);
      assert bits[..] == was[word := bits[word]];
    }

    /** (pos + take) & lengthMask */
    method NextPosition(pos: nat, take: nat) returns (next: nat)
      requires Shape() && pos < length && take <= length
      ensures next == Wrap(pos + take, length) < length
    {
      MaskedPosition(pos + take, length, log);
      WrapIsMod(pos + take, length);
      next := And(pos + take, lengthMask);
    }

    /** The branch of clearRange for a full circle. */
    method ClearAll(ghost startPos: nat) returns (wasSet: nat)
      requires Shape() && startPos < length
      modifies this`slots, bits
      ensures Shape() && ClearedRound(slots, old(slots), startPos, length)
      ensures wasSet == CountRound(old(slots), startPos, length)
    {
      wasSet := CountAll();
      FullCircle(slots, startPos);
      for k := 0 to bits.Length
        invariant forall j :: 0 <= j < k ==> bits[j] == 0
      {
        bits[k] := 0;
      }
      ZeroedWords(bits[..], length);
      slots := seq(length, _ => false);
    }

    /** The population count of all words together. */
    method CountAll() returns (wasSet: nat)
      requires Shape()
      ensures wasSet == CountTrue(slots, 0, length)
    {
      wasSet := 0;
      for k := 0 to bits.Length
        invariant length >= 64 ==> 64 * k <= length && wasSet == CountTrue(slots, 0, 64 * k)
        invariant length < 64 ==> wasSet == if k == 0 then 0 else OnesCount(bits[0])
      {
        if length >= 64 { CountNextWord(bits[..], slots, k); }
        wasSet := wasSet + OnesCount(bits[k]);
      }
      if length < 64 { CountShort(bits[..], slots); }
    }

    /** strictlyWithinWindow, with the subtraction of the steady branch taken modulo 2^64 as the
        source's unsigned arithmetic does. */
    predicate StrictlyWithinWindow(i: nat): (r: bool)
      requires Valid() && i < WORD_LIMIT
      reads this, bits
      ensures i <= current ==> (r <==> InWindow(View(), i))
    {
      var inWarmup := current < length;
      if i < length && inWarmup then true
      else i > (if current >= length then current - length else current + WORD_LIMIT - length)
    }

    /** Check always predicts what Update would answer. */
    method Check(i: nat) returns (r: bool)
      requires Valid() && i < WORD_LIMIT
      ensures r <==> Accepts(View(), i)
    {
      if i > current {
        return true;
      }
      if StrictlyWithinWindow(i) {
        return !Get(i);
      }
      return false;
    }

    method Update(i: nat) returns (r: bool)
      requires Valid() && i + length < WORD_LIMIT
      modifies this, bits
      ensures Valid()
      ensures r == Accepts(old(View()), i) && View() == Offered(old(View()), i)
    {
      if i == current + 1 {
        EvictedSlot(slots, accepted, current);
        NextTracks(slots, accepted, current);
        MissingIgnoresLater(accepted, i, Base(length, i));
        if i > length && !Get(i) {
          lostCounter := lostCounter + 1;
        }
        Set(i);
        current := i;
        accepted := accepted + {i};
        return true;
      }
      r := UpdateSlow(i);
    }

    /** updateSlow: jumps, back-fill inside the window, duplicates and counters out of the window. */
    method UpdateSlow(i: nat) returns (r: bool)
      requires Valid() && i + length < WORD_LIMIT && i != current + 1
      modifies this, bits
      ensures Valid()
      ensures r == Accepts(old(View()), i) && View() == Offered(old(View()), i)
    {
      if i > current {
        var lost := Slide(i);
        JumpTracks(old(slots), slots, accepted, current, i);
        MissingIgnoresLater(accepted, i, Base(length, i));
        lostCounter := lostCounter + lost;
        Set(i);
        current := i;
        accepted := accepted + {i};
        return true;
      }

      if StrictlyWithinWindow(i) {
        if current == i || Get(i) {
          dupeCounter := dupeCounter + 1;
          return false;
        }
        BackfillTracks(slots, accepted, current, i);
        MissingIgnoresLater(accepted, i, Base(length, current));
        Set(i);
        accepted := accepted + {i};
        return true;
      }

      outOfWindowCounter := outOfWindowCounter + 1;
      return false;
    }

    /** The jump arm of updateSlow up to marking i: clears the slots of the counters jumped over,
        at most one full circle, and returns how many counters this puts out of reach unseen. */
    method Slide(i: nat) returns (lost: nat)
      requires Valid() && i + length < WORD_LIMIT && i > current
      modifies this`slots, bits
      ensures Shape() && ClearedRound(slots, old(slots), Position(current + 1, length), Least(i - current, length))
      ensures lostCounter + lost == Missing(accepted, Base(length, i))
    {
      var end := Least(i, current + length);
      var count := end - current;
      if current >= length {
        lost := SlideSteady(count);
      } else {
        lost := SlideWarmup(end, count);
      }
      BeyondLoss(accepted, length, current, i);
      if i > current + length {
        lost := lost + (i - current - length);
      }
    }

    /** Steady state: any unset slot that is evicted is a lost packet of the previous circle. */
    method SlideSteady(count: nat) returns (lost: nat)
      requires Valid() && current >= length && 1 <= count <= length
      modifies this`slots, bits
      ensures Shape() && ClearedRound(slots, old(slots), Position(current + 1, length), count)
      ensures lostCounter + lost == Missing(accepted, current - length + count)
    {
      SteadyLoss(slots, accepted, current, count);
      var wasSet := ClearAhead(count);
      lost := count - wasSet;
    }

    method SlideWarmup(end: nat, count: nat) returns (lost: nat)
      requires Valid() && current < length && 1 <= count <= length && end == current + count
      modifies this`slots, bits
      ensures Shape() && ClearedRound(slots, old(slots), Position(current + 1, length), count)
      ensures lostCounter + lost == Missing(accepted, Base(length, end))
    {
      lost := WarmupLoss(end);
      var _ := ClearAhead(count);
    }

    /** clearRange called for the `count` slots after the current one. */
    method ClearAhead(count: nat) returns (wasSet: nat)
      requires Shape() && 1 <= count <= length
      modifies this`slots, bits
      ensures Shape() && ClearedRound(slots, old(slots), Position(current + 1, length), count)
      ensures wasSet == CountRound(old(slots), Position(current + 1, length), count)
    {
      MaskedPosition(current + 1, length, log);
      var startPos := And(current + 1, lengthMask);
      wasSet := ClearRange(startPos, count);
    }

    /** The warm-up loop of updateSlow: only slots past the first window stand for counters that
        are now lost. */
    method WarmupLoss(end: nat) returns (lost: nat)
      requires Valid() && current < length && current < end <= current + length
      ensures lost == Missing(accepted, Base(length, end))
    {
      lost := 0;
      var n := current + 1;
      while n <= end
        invariant current < n <= end + 1
        invariant lost == Missing(accepted, Base(length, n - 1))
      {
        if n > length { SamePosition(n - length, length); }
        if !Get(n) && n > length {
          lost := lost + 1;
        }
        n := n + 1;
      }
    }
  }
}
