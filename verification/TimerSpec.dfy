/** What a timer wheel promises, stated without a wheel: one bucket of entries per coming tick. */
module TimerSpec {
  import opened Options

  /** An item on its way through the wheel: the tick at which it falls due, and its arrival number. */
  datatype Entry<T> = Entry(item: T, due: int, arrival: nat)

  /** now is the number of ticks gone by; waiting[k] holds the entries due at tick now + 1 + k in
      order of arrival; expired holds what has fallen due and is not purged yet, purged what has
      been handed out, and arrivals how many entries were ever added. lastTick is the clock
      reading that tick `now` stands for, once the clock has been read at all. */
  datatype Timers<T> = Timers(
    tick: int, longest: int, now: int, lastTick: Option<int>,
    waiting: seq<seq<Entry<T>>>, expired: seq<Entry<T>>, purged: seq<Entry<T>>, arrivals: nat)

  /** Integer division as Go does it, towards zero, for a positive divisor. */
  function TruncDiv(a: int, b: int): int
    requires b > 0
  {
    if a >= 0 then a / b else -((-a) / b)
  }

  /** The timeout the wheel can represent. */
  function Clamp(timeout: int, tick: int, longest: int): int {
    if timeout < tick then tick else if timeout > longest then longest else timeout
  }

  /** Ticks for a timeout, rounding up. */
  function TicksFor(timeout: int, tick: int, longest: int): int
    requires tick > 0
  {
    TruncDiv(Clamp(timeout, tick, longest) - 1, tick) + 1
  }

  function Slots(tick: int, longest: int): int
    requires tick > 0
  {
    TruncDiv(longest, tick) + 2
  }

  /** A wheel needs a positive tick and cannot have a negative range. */
  predicate Configured<T>(t: Timers<T>) {
    t.tick > 0 && t.longest >= 0 && |t.waiting| == Slots(t.tick, t.longest)
  }

  function Empty<T>(tick: int, longest: int): Timers<T>
    requires tick > 0 && longest >= 0
  {
    Timers(tick, longest, 0, None, seq(Slots(tick, longest), _ => []), [], [], 0)
  }

  /** TicksFor is the rounded-up quotient of the clamped timeout, and there is a bucket for it. */
  lemma TicksForIsCeiling(timeout: int, tick: int, longest: int)
    requires tick > 0 && longest >= 0
    ensures var t := Clamp(timeout, tick, longest); var n := TicksFor(timeout, tick, longest);
      && 0 <= n < Slots(tick, longest)
      && (t >= 1 ==> (n - 1) * tick < t <= n * tick)
  {
    var t := Clamp(timeout, tick, longest);
    if t >= 1 {
      RoundsUp(t, tick, (t - 1) / tick);
      if t <= longest {
        DivMonotone(t - 1, longest, tick);
      } else {
        DivUnique(t - 1, tick, 0, t - 1);
      }
    } else {
      assert t == 0;
    }
  }

  lemma RoundsUp(t: int, tick: int, q: int)
    requires t >= 1 && tick > 0 && q == (t - 1) / tick
    ensures 0 <= q && q * tick < t <= (q + 1) * tick
  {
    assert t - 1 == tick * q + (t - 1) % tick;
    assert q * tick == tick * q && (q + 1) * tick == tick * q + tick;
  }

  lemma DivMonotone(a: int, b: int, d: int)
    requires 0 <= a <= b && d > 0
    ensures a / d <= b / d
  {
    var p, q := a / d, b / d;
    assert a == d * p + a % d && b == d * q + b % d;
    if p > q { Scaled(d, q + 1, p); }
  }

  lemma Scaled(d: int, a: int, b: int)
    requires d > 0 && a <= b
    ensures d * a <= d * b
  {}

  function NewEntry<T>(t: Timers<T>, v: T, timeout: int): Entry<T>
    requires Configured(t)
  {
    Entry(v, t.now + TicksFor(timeout, t.tick, t.longest) + 1, t.arrivals)
  }

  /** Add: one more tick than the timeout needs, since the current tick may almost be over. */
  function Added<T>(t: Timers<T>, v: T, timeout: int): (t': Timers<T>)
    requires Configured(t)
    ensures Configured(t')
  {
    TicksForIsCeiling(timeout, t.tick, t.longest);
    var n := TicksFor(timeout, t.tick, t.longest);
    t.(waiting := t.waiting[n := t.waiting[n] + [NewEntry(t, v, timeout)]], arrivals := t.arrivals + 1)
  }

  function Purged<T>(t: Timers<T>): Timers<T> {
    if t.expired == [] then t
    else t.(expired := t.expired[1..], purged := t.purged + [t.expired[0]])
  }

  /** One tick: the first bucket falls due and an empty one joins at the far end. */
  function Ticked<T>(t: Timers<T>): (t': Timers<T>)
    requires |t.waiting| > 0
    ensures |t'.waiting| == |t.waiting|
  {
    t.(now := t.now + 1, waiting := t.waiting[1..] + [[]], expired := t.expired + t.waiting[0])
  }

  function TickedBy<T>(t: Timers<T>, n: nat): (t': Timers<T>)
    requires |t.waiting| > 0
    ensures |t'.waiting| == |t.waiting|
  {
    if n == 0 then t else Ticked(TickedBy(t, n - 1))
  }

  /** How many ticks a clock reading is worth. */
  function Elapsed<T>(t: Timers<T>, clock: int): int
    requires t.tick > 0
  {
    if t.lastTick.None? then 0 else (clock - t.lastTick.value) / t.tick
  }

  predicate NotBackwards<T>(t: Timers<T>, clock: int) {
    t.lastTick.Some? ==> t.lastTick.value <= clock
  }

  /** Advance, tick by tick however far the clock has moved. */
  function Advanced<T>(t: Timers<T>, clock: int): (t': Timers<T>)
    requires Configured(t) && NotBackwards(t, clock)
    ensures Configured(t')
  {
    ConfiguredHasSlots(t);
    ElapsedIsNat(t, clock);
    var n := Elapsed(t, clock);
    var last := if t.lastTick.None? then clock else t.lastTick.value;
    TickedByFields(t, n);
    TickedBy(t, n).(lastTick := Some(last + t.tick * n))
  }

  lemma ConfiguredHasSlots<T>(t: Timers<T>)
    requires Configured(t)
    ensures |t.waiting| >= 2
  {
    TicksForIsCeiling(0, t.tick, t.longest);
    assert TruncDiv(t.longest, t.tick) >= 0 by {
      if t.longest < t.tick { assert t.longest / t.tick >= 0; }
    }
  }

  lemma ElapsedIsNat<T>(t: Timers<T>, clock: int)
    requires t.tick > 0 && NotBackwards(t, clock)
    ensures Elapsed(t, clock) >= 0
  {}

  lemma {:induction false} TickedByFields<T>(t: Timers<T>, n: nat)
    requires |t.waiting| > 0
    ensures var t' := TickedBy(t, n);
      && t'.now == t.now + n && t'.tick == t.tick && t'.longest == t.longest && t'.lastTick == t.lastTick
      && t'.purged == t.purged && t'.arrivals == t.arrivals
    decreases n
  {
    if n > 0 { TickedByFields(t, n - 1); }
  }

  // ---- What every operation keeps ----

  ghost predicate Before<T>(a: Entry<T>, b: Entry<T>) {
    a.due < b.due || (a.due == b.due && a.arrival < b.arrival)
  }

  /** Strictly ordered by due tick, and by arrival within a tick. */
  ghost predicate InOrder<T>(s: seq<Entry<T>>) {
    forall i, j :: 0 <= i < j < |s| ==> Before(s[i], s[j])
  }

  ghost predicate BucketOk<T>(t: Timers<T>, k: int)
    requires 0 <= k < |t.waiting|
  {
    && InOrder(t.waiting[k])
    && forall e :: e in t.waiting[k] ==> e.due == t.now + 1 + k && e.arrival < t.arrivals
  }

  /** Buckets hold exactly what is due at their tick, nothing that has fallen due is still in a
      bucket, and what left the wheel left it in order. */
  ghost predicate Sound<T>(t: Timers<T>) {
    && Configured(t)
    && (forall k :: 0 <= k < |t.waiting| ==> BucketOk(t, k))
    && InOrder(t.purged + t.expired)
    && (forall e :: e in t.purged + t.expired ==> e.due <= t.now && e.arrival < t.arrivals)
  }

  lemma EmptyIsSound<T>(tick: int, longest: int)
    requires tick > 0 && longest >= 0
    ensures Sound(Empty<T>(tick, longest))
  {
    assert TruncDiv(longest, tick) >= 0 by { DivMonotone(0, longest, tick); assert 0 / tick == 0; }
  }

  lemma AddedIsSound<T>(t: Timers<T>, v: T, timeout: int)
    requires Sound(t)
    ensures Sound(Added(t, v, timeout))
  {
    TicksForIsCeiling(timeout, t.tick, t.longest);
    var n := TicksFor(timeout, t.tick, t.longest);
    var t' := Added(t, v, timeout);
    var e := NewEntry(t, v, timeout);
    forall k | 0 <= k < |t'.waiting| ensures BucketOk(t', k) {
      assert BucketOk(t, k);
      if k == n {
        assert t'.waiting[k] == t.waiting[k] + [e];
        forall i, j | 0 <= i < j < |t'.waiting[k]| ensures Before(t'.waiting[k][i], t'.waiting[k][j]) {
          assert t.waiting[k][i] in t.waiting[k];
        }
      }
    }
  }

  lemma PurgedIsSound<T>(t: Timers<T>)
    requires Sound(t)
    ensures Sound(Purged(t))
  {
    var t' := Purged(t);
    assert t'.purged + t'.expired == t.purged + t.expired;
    forall k | 0 <= k < |t'.waiting| ensures BucketOk(t', k) {
      assert BucketOk(t, k);
    }
  }

  lemma TickedIsSound<T>(t: Timers<T>)
    requires Sound(t)
    ensures |t.waiting| > 0 && Sound(Ticked(t))
  {
    ConfiguredHasSlots(t);
    var t' := Ticked(t);
    assert BucketOk(t, 0);
    assert t'.purged + t'.expired == (t.purged + t.expired) + t.waiting[0];
    forall k | 0 <= k < |t'.waiting| ensures BucketOk(t', k) {
      if k + 1 < |t.waiting| {
        assert t'.waiting[k] == t.waiting[k + 1];
        assert BucketOk(t, k + 1);
      } else {
        assert t'.waiting[k] == [];
      }
    }
    var all, gone := t'.purged + t'.expired, t.purged + t.expired;
    forall i, j | 0 <= i < j < |all| ensures Before(all[i], all[j]) {
      if i < |gone| {
        assert all[i] == gone[i] && gone[i] in gone;
      } else {
        assert all[i] == t.waiting[0][i - |gone|];
      }
      if j < |gone| {
        assert all[j] == gone[j];
      } else {
        assert all[j] == t.waiting[0][j - |gone|] && all[j] in t.waiting[0];
      }
    }
  }

  lemma {:induction false} TickedByIsSound<T>(t: Timers<T>, n: nat)
    requires Sound(t)
    ensures |t.waiting| > 0 && Sound(TickedBy(t, n))
    decreases n
  {
    ConfiguredHasSlots(t);
    if n > 0 {
      TickedByIsSound(t, n - 1);
      TickedIsSound(TickedBy(t, n - 1));
    }
  }

  // ---- The cap on Advance ----

  /** After as many ticks as there are buckets, every bucket is empty and further ticks only
      count. */
  lemma {:induction false} FullTurnEmpties<T>(t: Timers<T>, n: nat, k: nat)
    requires |t.waiting| > 0 && k < |t.waiting|
    ensures TickedBy(t, n).waiting[k] == if k + n < |t.waiting| then t.waiting[k + n] else []
    decreases n
  {
    if n > 0 {
      var s := TickedBy(t, n - 1);
      if k + 1 < |t.waiting| { FullTurnEmpties(t, n - 1, k + 1); }
    }
  }

  /** Advancing by more ticks than there are slots does what advancing by exactly that many does. */
  lemma {:induction false} CapIsHarmless<T>(t: Timers<T>, n: nat)
    requires |t.waiting| > 0 && n >= |t.waiting|
    ensures TickedBy(t, n) == TickedBy(t, |t.waiting|).(now := t.now + n)
    decreases n
  {
    TickedByFields(t, n);
    TickedByFields(t, |t.waiting|);
    if n > |t.waiting| {
      CapIsHarmless(t, n - 1);
      var s := TickedBy(t, n - 1);
      forall k: nat | k < |t.waiting| ensures s.waiting[k] == [] { FullTurnEmpties(t, n - 1, k); }
      assert s.waiting[1..] + [[]] == s.waiting;
      assert s.expired + s.waiting[0] == s.expired;
    }
  }

  // ---- Conservation ----

  ghost function Buckets<T>(waiting: seq<seq<Entry<T>>>): multiset<Entry<T>> {
    if waiting == [] then multiset{} else multiset(waiting[0]) + Buckets(waiting[1..])
  }

  /** Everything still in the wheel, due or not. */
  ghost function Contents<T>(t: Timers<T>): multiset<Entry<T>> {
    Buckets(t.waiting) + multiset(t.expired)
  }

  lemma {:induction false} BucketsAppend<T>(w: seq<seq<Entry<T>>>)
    ensures Buckets(w + [[]]) == Buckets(w)
    decreases |w|
  {
    if w != [] {
      BucketsAppend(w[1..]);
      assert (w + [[]])[1..] == w[1..] + [[]];
    } else {
      assert (w + [[]])[1..] == [];
    }
  }

  lemma {:induction false} BucketsUpdate<T>(w: seq<seq<Entry<T>>>, n: nat, e: Entry<T>)
    requires n < |w|
    ensures Buckets(w[n := w[n] + [e]]) == Buckets(w) + multiset{e}
    decreases |w|
  {
    var w' := w[n := w[n] + [e]];
    if n > 0 {
      BucketsUpdate(w[1..], n - 1, e);
      assert w'[1..] == w[1..][n - 1 := w[1..][n - 1] + [e]];
    } else {
      assert w'[1..] == w[1..];
    }
  }

  lemma {:induction false} TicksConserve<T>(t: Timers<T>, n: nat)
    requires |t.waiting| > 0
    ensures Contents(TickedBy(t, n)) == Contents(t)
    decreases n
  {
    if n > 0 {
      TicksConserve(t, n - 1);
      var s := TickedBy(t, n - 1);
      BucketsAppend(s.waiting[1..]);
    }
  }

  lemma AdvanceConserves<T>(t: Timers<T>, clock: int)
    requires Configured(t) && NotBackwards(t, clock)
    ensures Contents(Advanced(t, clock)) == Contents(t)
  {
    ConfiguredHasSlots(t);
    ElapsedIsNat(t, clock);
    TicksConserve(t, Elapsed(t, clock));
  }

  lemma AddConserves<T>(t: Timers<T>, v: T, timeout: int)
    requires Configured(t)
    ensures Contents(Added(t, v, timeout)) == Contents(t) + multiset{NewEntry(t, v, timeout)}
  {
    TicksForIsCeiling(timeout, t.tick, t.longest);
    BucketsUpdate(t.waiting, TicksFor(timeout, t.tick, t.longest), NewEntry(t, v, timeout));
  }

  lemma PurgeConserves<T>(t: Timers<T>)
    requires t.expired != []
    ensures Contents(t) == Contents(Purged(t)) + multiset{t.expired[0]}
  {
    assert t.expired == [t.expired[0]] + t.expired[1..];
  }

  /** Advance moves entries but neither loses, duplicates nor invents any; Add puts in exactly one
      and Purge takes out exactly the first one that has fallen due. */
  lemma OperationsConserve<T>(t: Timers<T>, v: T, timeout: int, clock: int)
    requires Configured(t) && NotBackwards(t, clock)
    ensures Contents(Advanced(t, clock)) == Contents(t)
    ensures Contents(Added(t, v, timeout)) == Contents(t) + multiset{NewEntry(t, v, timeout)}
    ensures t.expired != [] ==> Contents(t) == Contents(Purged(t)) + multiset{t.expired[0]}
  {
    AdvanceConserves(t, clock);
    AddConserves(t, v, timeout);
    if t.expired != [] { PurgeConserves(t); }
  }

  // ---- Whole runs ----

  datatype Op<T> = Add(item: T, timeout: int) | Purge | Advance(clock: int)

  predicate Enabled<T>(t: Timers<T>, op: Op<T>) {
    op.Advance? ==> NotBackwards(t, op.clock)
  }

  function Step<T>(t: Timers<T>, op: Op<T>): (t': Timers<T>)
    requires Configured(t) && Enabled(t, op)
    ensures Configured(t')
  {
    match op
    case Add(v, timeout) => Added(t, v, timeout)
    case Purge => Purged(t)
    case Advance(clock) => Advanced(t, clock)
  }

  /** Any run of operations whose clock never goes backwards. */
  ghost predicate Run<T>(states: seq<Timers<T>>, ops: seq<Op<T>>) {
    && |states| == |ops| + 1 && Sound(states[0])
    && forall k :: 0 <= k < |ops| ==>
         Configured(states[k]) && Enabled(states[k], ops[k]) && states[k + 1] == Step(states[k], ops[k])
  }

  lemma StepIsSound<T>(t: Timers<T>, op: Op<T>)
    requires Sound(t) && Enabled(t, op)
    ensures Sound(Step(t, op))
    ensures Step(t, op).tick == t.tick && Step(t, op).longest == t.longest
  {
    match op
    case Add(v, timeout) => AddedIsSound(t, v, timeout);
    case Purge => PurgedIsSound(t);
    case Advance(clock) =>
      ConfiguredHasSlots(t);
      ElapsedIsNat(t, clock);
      TickedByIsSound(t, Elapsed(t, clock));
      TickedByFields(t, Elapsed(t, clock));
      ClockKeepsSound(TickedBy(t, Elapsed(t, clock)), Step(t, op).lastTick);
  }

  lemma ClockKeepsSound<T>(t: Timers<T>, last: Option<int>)
    requires Sound(t)
    ensures Sound(t.(lastTick := last))
  {
    var t' := t.(lastTick := last);
    forall k | 0 <= k < |t'.waiting| ensures BucketOk(t', k) { assert BucketOk(t, k); }
  }

  /** Over every run, items leave the wheel ordered by due tick and then by arrival. */
  lemma {:induction false} RunIsSound<T>(states: seq<Timers<T>>, ops: seq<Op<T>>, k: nat)
    requires Run(states, ops) && k < |states|
    ensures Sound(states[k])
    ensures states[k].tick == states[0].tick && states[k].longest == states[0].longest
    ensures InOrder(states[k].purged)
    decreases k
  {
    if k > 0 {
      RunIsSound(states, ops, k - 1);
      StepIsSound(states[k - 1], ops[k - 1]);
    }
    var t := states[k];
    forall i, j | 0 <= i < j < |t.purged| ensures Before(t.purged[i], t.purged[j]) {
      assert (t.purged + t.expired)[i] == t.purged[i] && (t.purged + t.expired)[j] == t.purged[j];
    }
  }

  /** The entry is in the bucket of its due tick, or has fallen due. */
  ghost predicate Held<T>(t: Timers<T>, e: Entry<T>) {
    || (0 <= e.due - t.now - 1 < |t.waiting| && e in t.waiting[e.due - t.now - 1])
    || e in t.purged + t.expired
  }

  lemma {:induction false} TicksHold<T>(t: Timers<T>, n: nat, e: Entry<T>)
    requires |t.waiting| > 0 && Held(t, e)
    ensures Held(TickedBy(t, n), e)
    decreases n
  {
    if n > 0 {
      TicksHold(t, n - 1, e);
      var s := TickedBy(t, n - 1);
      var d := e.due - s.now - 1;
      if e in s.purged + s.expired {
      } else if d == 0 {
        assert e in Ticked(s).expired;
      } else {
        assert Ticked(s).waiting[d - 1] == s.waiting[d];
      }
    }
  }

  lemma StepHolds<T>(t: Timers<T>, op: Op<T>, e: Entry<T>)
    requires Configured(t) && Enabled(t, op) && Held(t, e)
    ensures Held(Step(t, op), e)
  {
    match op
    case Add(v, timeout) =>
    case Purge =>
      if t.expired != [] { assert t.purged + t.expired == Purged(t).purged + Purged(t).expired; }
    case Advance(clock) =>
      ConfiguredHasSlots(t);
      ElapsedIsNat(t, clock);
      TicksHold(t, Elapsed(t, clock), e);
  }

  /** The clock stands where the ticks since `origin` put it. */
  ghost predicate InStep<T>(t: Timers<T>, origin: int, last: int) {
    t.lastTick == Some(last + t.tick * (t.now - origin))
  }

  /** From a state that holds e and has its clock in step, e is never lost and the clock stays in step. */
  lemma {:induction false} HeldSince<T>(
    states: seq<Timers<T>>, ops: seq<Op<T>>, e: Entry<T>, origin: int, last: int, k0: nat, k: nat)
    requires Run(states, ops) && k0 <= k < |states| && Held(states[k0], e) && InStep(states[k0], origin, last)
    ensures Held(states[k], e) && states[k].now >= states[k0].now
    ensures InStep(states[k], origin, last) && states[k].tick == states[k0].tick
    decreases k
  {
    if k > k0 {
      HeldSince(states, ops, e, origin, last, k0, k - 1);
      RunIsSound(states, ops, k - 1);
      StepHolds(states[k - 1], ops[k - 1], e);
      StepKeepsTime(states[k - 1], ops[k - 1], origin, last);
    }
  }

  lemma AddHolds<T>(t: Timers<T>, v: T, timeout: int)
    requires Configured(t)
    ensures Held(Added(t, v, timeout), NewEntry(t, v, timeout))
  {
    TicksForIsCeiling(timeout, t.tick, t.longest);
    var n := TicksFor(timeout, t.tick, t.longest);
    assert Added(t, v, timeout).waiting[n] == t.waiting[n] + [NewEntry(t, v, timeout)];
  }

  lemma StepKeepsTime<T>(t: Timers<T>, op: Op<T>, origin: int, last: int)
    requires Configured(t) && Enabled(t, op) && InStep(t, origin, last)
    ensures var t' := Step(t, op); t'.tick == t.tick && t'.now >= t.now && InStep(t', origin, last)
  {
    if op.Advance? {
      ConfiguredHasSlots(t);
      ElapsedIsNat(t, op.clock);
      TickedByFields(t, Elapsed(t, op.clock));
      Spread(t.tick, t.now - origin, Elapsed(t, op.clock));
    }
  }

  lemma Spread(d: int, a: int, b: int)
    ensures d * a + d * b == d * (a + b)
  {}

  lemma DivShift(x: int, d: int, q: int)
    requires d > 0
    ensures (x + d * q) / d == x / d + q
  {
    var p, r := x / d, x % d;
    assert x == d * p + r;
    assert x + d * q == d * (p + q) + r by { Spread(d, p, q); }
    DivUnique(x + d * q, d, p + q, r);
  }

  lemma DivUnique(x: int, d: int, q: int, r: int)
    requires x == d * q + r && 0 <= r < d
    ensures x / d == q
  {
    var q', r' := x / d, x % d;
    assert d * (q - q') == r' - r by { Spread(d, q, -q'); }
    if q - q' >= 1 { Scaled(d, 1, q - q'); }
    if q - q' <= -1 { Scaled(d, q - q', -1); }
  }

  lemma OutIffDue<T>(t: Timers<T>, e: Entry<T>)
    requires Sound(t) && Held(t, e)
    ensures e in t.purged + t.expired <==> e.due <= t.now
  {}

  /** An entry held since its clock was in step is out after Advance(clock) exactly when enough whole ticks have passed. */
  lemma OutWhenDue<T>(states: seq<Timers<T>>, ops: seq<Op<T>>, e: Entry<T>, origin: int, last: int, k0: nat, j: nat)
    requires Run(states, ops) && k0 <= j < |ops| && ops[j].Advance? && Held(states[k0], e) && InStep(states[k0], origin, last)
    ensures states[k0].tick > 0 && Held(states[j + 1], e)
    ensures e in states[j + 1].purged + states[j + 1].expired <==> (ops[j].clock - last) / states[k0].tick >= e.due - origin
  {
    var t, t' := states[j], states[j + 1];
    HeldSince(states, ops, e, origin, last, k0, j);
    HeldSince(states, ops, e, origin, last, k0, j + 1);
    RunIsSound(states, ops, j + 1);
    NowAfter(t, ops[j].clock, origin, last, t');
    OutIffDue(t', e);
  }

  lemma NowAfter<T>(t: Timers<T>, clock: int, origin: int, last: int, t': Timers<T>)
    requires Configured(t) && NotBackwards(t, clock) && InStep(t, origin, last) && t' == Advanced(t, clock)
    ensures t'.now - origin == (clock - last) / t.tick
  {
    ConfiguredHasSlots(t);
    ElapsedIsNat(t, clock);
    TickedByFields(t, Elapsed(t, clock));
    DivShift(clock - t.lastTick.value, t.tick, t.now - origin);
  }

  /** The timing law.  An item added when the wheel's clock stood at `last` is out of the wheel
      after Advance(clock) exactly when at least ceil(timeout / tick) + 1 whole ticks have passed
      since `last`, whatever was added, purged and advanced in between. */
  lemma FiresExactlyWhenDue<T>(states: seq<Timers<T>>, ops: seq<Op<T>>, a: nat, j: nat, last: int)
    requires Run(states, ops) && a < j < |ops| && ops[a].Add? && ops[j].Advance? && states[a].lastTick == Some(last)
    ensures states[a].tick > 0
    ensures var e := NewEntry(states[a], ops[a].item, ops[a].timeout); var s := states[a];
      && Held(states[j + 1], e)
      && (e in states[j + 1].purged + states[j + 1].expired
          <==> (ops[j].clock - last) / s.tick >= TicksFor(ops[a].timeout, s.tick, s.longest) + 1)
  {
    var s := states[a];
    AddHolds(s, ops[a].item, ops[a].timeout);
    StepKeepsTime(s, ops[a], s.now, last);
    OutWhenDue(states, ops, NewEntry(s, ops[a].item, ops[a].timeout), s.now, last, a + 1, j);
  }

  /** Before the first Advance nothing moves: the wheel has no clock, and the entry stays where it was put. */
  lemma {:induction false} HeldUntilFirst<T>(states: seq<Timers<T>>, ops: seq<Op<T>>, a: nat, k: nat)
    requires Run(states, ops) && a < k < |states| && ops[a].Add? && states[a].lastTick.None?
    requires forall i :: a < i < k ==> !ops[i].Advance?
    ensures Held(states[k], NewEntry(states[a], ops[a].item, ops[a].timeout))
    ensures states[k].lastTick.None? && states[k].now == states[a].now && states[k].tick == states[a].tick
    decreases k
  {
    if k == a + 1 {
      AddHolds(states[a], ops[a].item, ops[a].timeout);
    } else {
      HeldUntilFirst(states, ops, a, k - 1);
      StepHolds(states[k - 1], ops[k - 1], NewEntry(states[a], ops[a].item, ops[a].timeout));
    }
  }

  /** The first Advance sets the clock and moves nothing. */
  lemma FirstAdvance<T>(t: Timers<T>, clock: int)
    requires Configured(t) && t.lastTick.None?
    ensures NotBackwards(t, clock) && Advanced(t, clock) == t.(lastTick := Some(clock))
  {}

  /** The timing law for an item added before the wheel has a clock: it is as if the item was added at the clock
      of the first Advance, operation f. */
  lemma FiresFromFirstAdvance<T>(states: seq<Timers<T>>, ops: seq<Op<T>>, a: nat, f: nat, j: nat)
    requires Run(states, ops) && a < f <= j < |ops| && ops[a].Add? && ops[f].Advance? && ops[j].Advance?
    requires states[a].lastTick.None? && forall i :: a < i < f ==> !ops[i].Advance?
    ensures states[a].tick > 0
    ensures var e := NewEntry(states[a], ops[a].item, ops[a].timeout); var s := states[a];
      && Held(states[j + 1], e)
      && (e in states[j + 1].purged + states[j + 1].expired
          <==> (ops[j].clock - ops[f].clock) / s.tick >= TicksFor(ops[a].timeout, s.tick, s.longest) + 1)
  {
    var s := states[a];
    var e := NewEntry(s, ops[a].item, ops[a].timeout);
    HeldUntilFirst(states, ops, a, f);
    FirstAdvance(states[f], ops[f].clock);
    if f == j {
      RunIsSound(states, ops, f + 1);
      OutIffDue(states[f + 1], e);
      TicksForIsCeiling(ops[a].timeout, s.tick, s.longest);
    } else {
      OutWhenDue(states, ops, e, s.now, ops[f].clock, f + 1, j);
    }
  }

  /** In clock time: an item added less than a tick after the wheel was last advanced is never
      out before its (clamped) timeout has passed, and is out at the first Advance two ticks after it. */
  lemma NeitherEarlyNorLate<T>(
    states: seq<Timers<T>>, ops: seq<Op<T>>, a: nat, j: nat, last: int, addedAt: int)
    requires Run(states, ops) && a < j < |ops| && ops[a].Add? && ops[j].Advance? && states[a].lastTick == Some(last)
    requires last <= addedAt < last + states[a].tick
    requires Clamp(ops[a].timeout, states[a].tick, states[a].longest) >= 1
    ensures var s := states[a];
      var e := NewEntry(s, ops[a].item, ops[a].timeout); var t := Clamp(ops[a].timeout, s.tick, s.longest);
      var out := e in states[j + 1].purged + states[j + 1].expired;
      && (out ==> ops[j].clock - addedAt > t)
      && (ops[j].clock - addedAt >= t + 2 * s.tick ==> out)
  {
    var s := states[a];
    var n := TicksFor(ops[a].timeout, s.tick, s.longest);
    FiresExactlyWhenDue(states, ops, a, j, last);
    RunIsSound(states, ops, a);
    TicksForIsCeiling(ops[a].timeout, s.tick, s.longest);
    WholeTicks(s.tick, n, Clamp(ops[a].timeout, s.tick, s.longest), last, addedAt, ops[j].clock);
  }

  lemma WholeTicks(tick: int, n: int, t: int, last: int, addedAt: int, clock: int)
    requires tick > 0 && (n - 1) * tick < t <= n * tick && last <= addedAt < last + tick
    ensures (clock - last) / tick >= n + 1 ==> clock - addedAt > t
    ensures clock - addedAt >= t + 2 * tick ==> (clock - last) / tick >= n + 1
  {
    var x := clock - last;
    var q := x / tick;
    assert x == tick * q + x % tick;
    assert n * tick == tick * n && (n - 1) * tick == tick * n - tick;
    if q >= n + 1 {
      Scaled(tick, n + 1, q);
      Spread(tick, n, 1);
    } else {
      Scaled(tick, q, n);
    }
  }

  // ---- What the clients of a wheel rely on ----

  /** Some entry for v is still in the wheel or on its expired list. */
  ghost predicate Waits<T>(t: Timers<T>, v: T) {
    exists e :: e in Contents(t) && e.item == v
  }

  lemma AddedWaits<T>(t: Timers<T>, v: T, timeout: int)
    requires Configured(t)
    ensures Waits(Added(t, v, timeout), v)
    ensures forall w :: Waits(t, w) ==> Waits(Added(t, v, timeout), w)
  {
    AddConserves(t, v, timeout);
    assert NewEntry(t, v, timeout) in Contents(Added(t, v, timeout));
    forall w | Waits(t, w) ensures Waits(Added(t, v, timeout), w) {
      var e :| e in Contents(t) && e.item == w;
      assert e in Contents(Added(t, v, timeout));
    }
  }

  lemma AdvancedWaits<T>(t: Timers<T>, clock: int, v: T)
    requires Configured(t) && NotBackwards(t, clock)
    ensures Waits(Advanced(t, clock), v) <==> Waits(t, v)
  {
    AdvanceConserves(t, clock);
  }

  lemma PurgedWaits<T>(t: Timers<T>, v: T)
    requires Configured(t) && Waits(t, v)
    ensures Waits(Purged(t), v) || (t.expired != [] && t.expired[0].item == v)
  {
    if t.expired != [] {
      PurgeConserves(t);
      var e :| e in Contents(t) && e.item == v;
      assert e == t.expired[0] || e in Contents(Purged(t));
    }
  }

  /** Advancing leaves the clock of the wheel at or before the reading. */
  lemma AdvancedNotBackwards<T>(t: Timers<T>, clock: int, later: int)
    requires Configured(t) && NotBackwards(t, clock) && clock <= later
    ensures NotBackwards(Advanced(t, clock), later)
  {
    ConfiguredHasSlots(t);
    ElapsedIsNat(t, clock);
    TickedByFields(t, Elapsed(t, clock));
    if t.lastTick.Some? {
      assert (clock - t.lastTick.value) / t.tick * t.tick <= clock - t.lastTick.value;
    }
  }

  /** A timer for v falls due after the given time, rounded up to whole ticks and within the wheel's range. */
  ghost predicate DueIn<T>(t: Timers<T>, v: T, timeout: int) {
    t.tick > 0 && t.longest >= 0
    && exists k, e {:trigger e in t.waiting[k]} :: 0 <= k < |t.waiting| && e in t.waiting[k] && e.item == v
         && var c := Clamp(timeout, t.tick, t.longest); c >= 1 ==> (k - 1) * t.tick < c <= k * t.tick
  }

  lemma AddedIsDue<T>(t: Timers<T>, v: T, timeout: int)
    requires Configured(t)
    ensures DueIn(Added(t, v, timeout), v, timeout)
  {
    TicksForIsCeiling(timeout, t.tick, t.longest);
    var n := TicksFor(timeout, t.tick, t.longest);
    assert NewEntry(t, v, timeout) in Added(t, v, timeout).waiting[n];
  }
}
