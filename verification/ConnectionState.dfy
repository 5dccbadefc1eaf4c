/** connection_state.go: the replay window behind concurrent readers, and the message counter
    behind concurrent senders. */
module ConnectionState {
  import opened Words
  import opened ReplayWindow
  import Bits

  const REPLAY_WINDOW: nat := 8192

  lemma ReplayWindowIsPowerOfTwo()
    ensures Pow2(13) == REPLAY_WINDOW
  {
    assert Pow2(8) == 256;
  }

  /** The counters 1 .. n. */
  function UpTo(n: nat): set<nat> {
    if n == 0 then {} else UpTo(n - 1) + {n}
  }

  lemma {:induction false} InUpTo(n: nat, c: nat)
    ensures c in UpTo(n) <==> 1 <= c <= n
    decreases n
  {
    if n > 0 { InUpTo(n - 1, c); }
  }

  lemma {:induction false} NothingMissing(n: nat, m: nat)
    requires m <= n
    ensures Missing(UpTo(n), m) == 0
    decreases m
  {
    if m > 0 {
      NothingMissing(n, m - 1);
      InUpTo(n, m);
    }
  }

  /** newConnectionStateFromResult: refuses a message index that does not fit the window, and
      otherwise seeds the window so that the handshake's own counters are taken and none of them
      is ever reported lost. */
  method SeedWindow(messageIndex: nat) returns (ok: bool, window: Bits.Bits?)
    ensures ok <==> messageIndex < REPLAY_WINDOW
    ensures ok <==> window != null
    ensures ok ==> fresh(window) && fresh(window.bits) && window.Valid()
    ensures ok ==> window.View() == Window(REPLAY_WINDOW, messageIndex, UpTo(messageIndex), 0, 0, 0)
  {
    if messageIndex >= REPLAY_WINDOW {
      return false, null;
    }
    ReplayWindowIsPowerOfTwo();
    var w := new Bits.Bits(REPLAY_WINDOW, 13);
    for i := 1 to messageIndex + 1
      invariant fresh(w) && fresh(w.bits) && w.Valid()
      invariant w.View() == Window(REPLAY_WINDOW, i - 1, UpTo(i - 1), 0, 0, 0)
    {
      var _ := w.Update(i);
      NothingMissing(i, Base(REPLAY_WINDOW, i));
    }
    return true, w;
  }

  // ---- Decrypt and VerifyRelay, interleaved ----

  /** One session being read by many goroutines.  Decrypt and VerifyRelay both check the counter
      under the lock, authenticate outside it, and offer the counter to the window under the lock
      again; a call between its two locked sections is in flight. */
  datatype Session = Session(window: Window, inFlight: multiset<nat>, delivered: seq<nat>)

  datatype ReadStep =
    | CheckCounter(counter: nat)                     // first locked section
    | Authenticated(counter: nat)                    // AEAD opened; second locked section
    | Forged(counter: nat)                           // AEAD failed; the call returns an error

  predicate ReadEnabled(s: Session, step: ReadStep) {
    match step
    case CheckCounter(_) => true
    case Authenticated(c) => c in s.inFlight
    case Forged(c) => c in s.inFlight
  }

  function ReadNext(s: Session, step: ReadStep): Session
    requires ReadEnabled(s, step)
  {
    match step
    case CheckCounter(c) =>
      if Accepts(s.window, c) then s.(inFlight := s.inFlight + multiset{c}) else s
    case Authenticated(c) =>
      var gone := s.(inFlight := s.inFlight - multiset{c}, window := Offered(s.window, c));
      if Accepts(s.window, c) then gone.(delivered := s.delivered + [c]) else gone
    case Forged(c) =>
      s.(inFlight := s.inFlight - multiset{c})
  }

  ghost predicate ReadRun(states: seq<Session>, steps: seq<ReadStep>) {
    && |states| == |steps| + 1
    && states[0].window.length > 0 && Consistent(states[0].window)
    && states[0].delivered == [] && states[0].inFlight == multiset{}
    && forall k :: 0 <= k < |steps| ==>
         ReadEnabled(states[k], steps[k]) && states[k + 1] == ReadNext(states[k], steps[k])
  }

  ghost predicate Distinct<T>(s: seq<T>) {
    forall i, j :: 0 <= i < j < |s| ==> s[i] != s[j]
  }

  /** What holds between the locked sections of all the calls. */
  ghost predicate ReadInvariant(s: Session, seeded: set<nat>) {
    && Consistent(s.window)
    && seeded <= s.window.accepted
    && Distinct(s.delivered)
    && (forall i :: 0 <= i < |s.delivered| ==> s.delivered[i] in s.window.accepted && s.delivered[i] !in seeded)
    && (forall c :: c in s.window.accepted ==> c in seeded || c in s.delivered)
  }

  lemma ReadStepKeeps(s: Session, step: ReadStep, seeded: set<nat>)
    requires ReadInvariant(s, seeded) && ReadEnabled(s, step)
    ensures ReadInvariant(ReadNext(s, step), seeded)
  {
    if step.Authenticated? && Accepts(s.window, step.counter) {
      var d := s.delivered + [step.counter];
      assert forall x :: x in d <==> x in s.delivered || x == step.counter;
    }
  }

  /** Whatever the interleaving, a payload is delivered at most once per counter, never for
      counter 0, and never for a counter the handshake already used; the window's accepted set is
      exactly the seeded counters and the delivered ones. */
  lemma {:induction false} EachCounterDeliveredOnce(states: seq<Session>, steps: seq<ReadStep>, k: nat)
    requires ReadRun(states, steps) && k < |states|
    ensures ReadInvariant(states[k], states[0].window.accepted)
    ensures Distinct(states[k].delivered) && 0 !in states[k].delivered
    decreases k
  {
    if k > 0 {
      EachCounterDeliveredOnce(states, steps, k - 1);
      ReadStepKeeps(states[k - 1], steps[k - 1], states[0].window.accepted);
    }
  }

  /** The counter is neither the handshake's nor delivered before, not 0, and has not fallen out of the window. */
  predicate IsFresh(s: Session, seeded: set<nat>, c: nat) {
    c > 0 && c !in seeded && c !in s.delivered && s.window.current < c + s.window.length
  }

  /** In every run a call gets past the check exactly when its counter is fresh, and a packet that authenticates is
      delivered exactly when its counter still is; nothing else is delivered. */
  lemma DeliveredIff(states: seq<Session>, steps: seq<ReadStep>, k: nat)
    requires ReadRun(states, steps) && k < |steps|
    ensures var s, s', seeded := states[k], states[k + 1], states[0].window.accepted;
      match steps[k]
      case CheckCounter(c) => s' == s.(inFlight := if IsFresh(s, seeded, c) then s.inFlight + multiset{c} else s.inFlight)
      case Authenticated(c) =>
        && s'.delivered == (if IsFresh(s, seeded, c) then s.delivered + [c] else s.delivered)
        && s'.inFlight == s.inFlight - multiset{c}
      case Forged(c) => s' == s.(inFlight := s.inFlight - multiset{c})
  {
    EachCounterDeliveredOnce(states, steps, k);
    assert states[k + 1] == ReadNext(states[k], steps[k]);
  }

  // ---- NextMessageCounter ----

  const REJECT_HEADROOM: nat := 0x100_0000_0000
  const REJECT_AFTER_MESSAGES: nat := WORD_LIMIT - 1 - REJECT_HEADROOM

  /** The counter shared by all senders: its value, how many callers have drawn a refused counter
      and not yet stored the pin, and the counters handed out for use so far. */
  datatype Senders = Senders(counter: nat, pinning: nat, handed: seq<nat>)

  datatype SendStep =
    | Reserve   // messageCounter.Add(1), and the comparison with the ceiling
    | Pin       // messageCounter.Store(RejectAfterMessages) by a caller that was refused

  function SendNext(s: Senders, step: SendStep): Senders
    requires step == Pin ==> s.pinning > 0
  {
    match step
    case Reserve =>
      var c := (s.counter + 1) % WORD_LIMIT;
      if c >= REJECT_AFTER_MESSAGES then s.(counter := c, pinning := s.pinning + 1)
      else s.(counter := c, handed := s.handed + [c])
    case Pin =>
      s.(counter := REJECT_AFTER_MESSAGES, pinning := s.pinning - 1)
  }

  /** A run in which a caller only ever starts while fewer refused callers than the headroom
      are between their add and their store. */
  ghost predicate SendRun(states: seq<Senders>, steps: seq<SendStep>, start: nat) {
    && |states| == |steps| + 1 && start < REJECT_AFTER_MESSAGES
    && states[0] == Senders(start, 0, [])
    && forall k :: 0 <= k < |steps| ==>
         (if steps[k] == Pin then states[k].pinning > 0 else states[k].pinning < REJECT_HEADROOM)
         && states[k + 1] == SendNext(states[k], steps[k])
  }

  /** Below the ceiling the counters handed out are start+1, start+2, ... in order and the counter
      is the last of them; once at the ceiling it never comes back down and stays within one
      caller's worth of the ceiling for each caller between add and store. */
  ghost predicate SendInvariant(s: Senders, start: nat) {
    && (forall i :: 0 <= i < |s.handed| ==> s.handed[i] == start + 1 + i)
    && start + |s.handed| < REJECT_AFTER_MESSAGES
    && if s.counter < REJECT_AFTER_MESSAGES
       then s.counter == start + |s.handed| && s.pinning == 0
       else s.counter <= REJECT_AFTER_MESSAGES + s.pinning
  }

  lemma SendStepKeeps(s: Senders, step: SendStep, start: nat)
    requires SendInvariant(s, start)
    requires if step == Pin then s.pinning > 0 else s.pinning < REJECT_HEADROOM
    ensures SendInvariant(SendNext(s, step), start)
  {}

  /** No counter is ever handed out twice, and none at or above the ceiling. */
  lemma {:induction false} CountersAreUnique(states: seq<Senders>, steps: seq<SendStep>, start: nat, k: nat)
    requires SendRun(states, steps, start) && k < |states|
    ensures SendInvariant(states[k], start)
    ensures Distinct(states[k].handed)
    ensures forall c :: c in states[k].handed ==> start < c < REJECT_AFTER_MESSAGES
    decreases k
  {
    if k > 0 {
      CountersAreUnique(states, steps, start, k - 1);
      SendStepKeeps(states[k - 1], steps[k - 1], start);
    }
  }

  /** n callers in a row, none of which gets round to storing the pin. */
  function Reserved(s: Senders, n: nat): Senders {
    if n == 0 then s else SendNext(Reserved(s, n - 1), Reserve)
  }

  lemma {:induction false} ReservedPastCeiling(s: Senders, n: nat)
    requires s.counter == REJECT_AFTER_MESSAGES && n <= REJECT_HEADROOM
    ensures Reserved(s, n) == s.(counter := REJECT_AFTER_MESSAGES + n, pinning := s.pinning + n)
    decreases n
  {
    if n > 0 { ReservedPastCeiling(s, n - 1); }
  }

  /** The bound is tight: with one refused caller more than the headroom the counter wraps, and
      the next two senders are handed counters 0 and 1 of the same key. */
  lemma HeadroomIsTight(s: Senders)
    requires s.counter == REJECT_AFTER_MESSAGES
    ensures Reserved(s, REJECT_HEADROOM).counter == WORD_LIMIT - 1
    ensures Reserved(s, REJECT_HEADROOM + 1).handed == s.handed + [0]
    ensures Reserved(s, REJECT_HEADROOM + 2).handed == s.handed + [0] + [1]
  {
    ReservedPastCeiling(s, REJECT_HEADROOM);
    var top := Reserved(s, REJECT_HEADROOM);
    assert Reserved(s, REJECT_HEADROOM + 1) == SendNext(top, Reserve);
    assert Reserved(s, REJECT_HEADROOM + 2) == SendNext(SendNext(top, Reserve), Reserve);
  }
}
