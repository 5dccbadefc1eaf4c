/** What the anti-replay window promises, stated on a plain set of accepted counters. */
module ReplayWindow {

  /** The window as its user sees it: the counters accepted so far, the highest of them, and
      the three totals it reports. */
  datatype Window = Window(
    length: nat, current: nat, accepted: set<nat>, lost: nat, duplicates: nat, outOfWindow: nat)

  /** The highest counter that has left the window for good. */
  function Base(length: nat, current: nat): nat {
    if current < length then 0 else current - length
  }

  predicate InWindow(w: Window, i: nat) {
    i <= w.current < i + w.length
  }

  /** A counter is taken when it is new, or still in the window and never taken before.
      There is no counter 0. */
  predicate Accepts(w: Window, i: nat) {
    i > w.current || (i > 0 && InWindow(w, i) && i !in w.accepted)
  }

  /** How many of the counters 1 .. n were never accepted. */
  function Missing(accepted: set<nat>, n: nat): nat {
    if n == 0 then 0 else Missing(accepted, n - 1) + (if n in accepted then 0 else 1)
  }

  function Max(a: nat, b: nat): nat {
    if a < b then b else a
  }

  function Fresh(length: nat): Window {
    Window(length, 0, {}, 0, 0, 0)
  }

  /** The window after counter i has been offered. */
  function Offered(w: Window, i: nat): Window {
    if Accepts(w, i) then
      var current, accepted := Max(w.current, i), w.accepted + {i};
      w.(current := current, accepted := accepted, lost := Missing(accepted, Base(w.length, current)))
    else if InWindow(w, i) then w.(duplicates := w.duplicates + 1)
    else w.(outOfWindow := w.outOfWindow + 1)
  }

  /** Consistency of a window: what was accepted lies in 1 .. current, and what is counted as
      lost is exactly what can no longer arrive and never did. */
  ghost predicate Consistent(w: Window) {
    && w.length > 0
    && (forall c :: c in w.accepted ==> 1 <= c <= w.current)
    && (w.current > 0 ==> w.current in w.accepted)
    && w.lost == Missing(w.accepted, Base(w.length, w.current))
  }

  lemma {:induction false} MissingAbove(accepted: set<nat>, top: nat, extra: nat)
    requires forall c :: c in accepted ==> c <= top
    ensures Missing(accepted, top + extra) == Missing(accepted, top) + extra
    decreases extra
  {
    if extra > 0 { MissingAbove(accepted, top, extra - 1); }
  }

  lemma {:induction false} MissingIgnoresLater(accepted: set<nat>, i: nat, n: nat)
    requires n < i
    ensures Missing(accepted + {i}, n) == Missing(accepted, n)
    decreases n
  {
    if n > 0 { MissingIgnoresLater(accepted, i, n - 1); }
  }

  lemma OfferedIsConsistent(w: Window, i: nat)
    requires Consistent(w)
    ensures Consistent(Offered(w, i))
    ensures Offered(w, i).length == w.length && w.accepted <= Offered(w, i).accepted
  {}

  /** The states a window goes through while the counters of run are offered one after the other. */
  function After(length: nat, run: seq<nat>): Window {
    if run == [] then Fresh(length) else Offered(After(length, run[..|run| - 1]), run[|run| - 1])
  }

  /** Did the window take the counter offered at step k of the run? */
  predicate TakenAt(length: nat, run: seq<nat>, k: nat)
    requires k < |run|
  {
    Accepts(After(length, run[..k]), run[k])
  }

  lemma {:induction false} RunIsConsistent(length: nat, run: seq<nat>)
    requires length > 0
    ensures Consistent(After(length, run)) && After(length, run).length == length
    decreases |run|
  {
    if run != [] {
      RunIsConsistent(length, run[..|run| - 1]);
      OfferedIsConsistent(After(length, run[..|run| - 1]), run[|run| - 1]);
    }
  }

  lemma {:induction false} AcceptedGrows(length: nat, run: seq<nat>, k: nat)
    requires length > 0 && k <= |run|
    ensures After(length, run[..k]).accepted <= After(length, run).accepted
    decreases |run|
  {
    if k == |run| {
      assert run[..k] == run;
    } else {
      var prefix := run[..|run| - 1];
      AcceptedGrows(length, prefix, k);
      assert prefix[..k] == run[..k];
      RunIsConsistent(length, prefix);
    }
  }

  /** The main safety statement: over a whole run no counter is taken twice. */
  lemma NeverTakenTwice(length: nat, run: seq<nat>, j: nat, k: nat)
    requires length > 0 && j < k < |run|
    requires TakenAt(length, run, j) && run[j] == run[k]
    ensures !TakenAt(length, run, k)
  {
    assert run[..j + 1][..j] == run[..j];
    assert run[j] in After(length, run[..j + 1]).accepted;
    AcceptedGrows(length, run[..k], j + 1);
    assert run[..k][..j + 1] == run[..j + 1];
    RunIsConsistent(length, run[..k]);
  }

  /** Every counter in the accepted set was taken at some step, and a counter that was offered
      is in the set exactly when some offer of it was taken. */
  lemma {:induction false} AcceptedIsTaken(length: nat, run: seq<nat>, c: nat)
    requires length > 0
    ensures c in After(length, run).accepted <==> exists k: nat :: k < |run| && run[k] == c && TakenAt(length, run, k)
    decreases |run|
  {
    if run != [] {
      var prefix := run[..|run| - 1];
      AcceptedIsTaken(length, prefix, c);
      forall k: nat | k < |prefix| ensures prefix[..k] == run[..k] && prefix[k] == run[k] {}
      if k: nat :| k < |prefix| && prefix[k] == c && TakenAt(length, prefix, k) {
        assert TakenAt(length, run, k);
      }
      if k: nat :| k < |run| && run[k] == c && TakenAt(length, run, k) {
        if k < |prefix| { assert TakenAt(length, prefix, k); }
      }
      if Accepts(After(length, prefix), c) && run[|prefix|] == c {
        assert TakenAt(length, run, |prefix|);
      }
    }
  }

  /** Loss accounting over a whole run: the lost total is the number of counters at or below
      current - length for which no offer was ever taken. */
  lemma LostIsWhatNeverArrived(length: nat, run: seq<nat>)
    requires length > 0
    ensures var w := After(length, run);
      && w.lost == Missing(w.accepted, Base(length, w.current))
      && (forall c :: c in w.accepted <==> exists k: nat :: k < |run| && run[k] == c && TakenAt(length, run, k))
  {
    RunIsConsistent(length, run);
    forall c: nat
      ensures c in After(length, run).accepted <==> exists k: nat :: k < |run| && run[k] == c && TakenAt(length, run, k)
    {
      AcceptedIsTaken(length, run, c);
    }
  }
}
