/** hostmap.go: the traffic marks of a tunnel, packed with the rebind epoch into one word. */
module TrafficWord {
  import opened Words

  datatype Traffic = Traffic(inbound: bool, outbound: bool, pendingDeletion: bool, epoch: nat)

  const STATE_IN: nat := 1
  const STATE_OUT: nat := 2
  const STATE_PENDING_DELETION: nat := 4
  const STATE_FLAGS: nat := 7
  const EPOCH_LIMIT: nat := 0x2000_0000

  /** A binary digit put below the digits of r. */
  function Cons(d: bool, r: nat): nat {
    2 * r + (if d then 1 else 0)
  }

  /** The word that stands for a state. */
  function Pack(t: Traffic): nat {
    Cons(t.inbound, Cons(t.outbound, Cons(t.pendingDeletion, t.epoch)))
  }

  lemma {:induction false} OrZero(w: nat)
    ensures Or(w, 0) == w && Or(0, w) == w
  {
    if w > 0 { OrZero(w / 2); }
  }

  lemma {:induction false} AndNotZero(w: nat)
    ensures AndNot(w, 0) == w
  {
    if w > 0 { AndNotZero(w / 2); }
  }

  lemma OrHalves(a: nat, b: nat, x: nat, y: nat)
    requires a / 2 == x && b / 2 == y
    ensures Or(a, b) == Cons(a % 2 == 1 || b % 2 == 1, Or(x, y))
  {}

  lemma AndHalves(a: nat, b: nat, x: nat, y: nat)
    requires a / 2 == x && b / 2 == y
    ensures And(a, b) == Cons(a % 2 == 1 && b % 2 == 1, And(x, y))
  {
    if a != 0 && b != 0 {
      assert (a % 2) * (b % 2) == if a % 2 == 1 && b % 2 == 1 then 1 else 0;
    }
  }

  lemma ConsHalf(d: bool, r: nat)
    ensures Cons(d, r) / 2 == r && (Cons(d, r) % 2 == 1 <==> d)
  {}

  lemma OrStep(d: bool, r: nat, d': bool, r': nat)
    ensures Or(Cons(d, r), Cons(d', r')) == Cons(d || d', Or(r, r'))
  {
    ConsHalf(d, r);
    ConsHalf(d', r');
    OrHalves(Cons(d, r), Cons(d', r'), r, r');
  }

  lemma AndStep(d: bool, r: nat, d': bool, r': nat)
    ensures And(Cons(d, r), Cons(d', r')) == Cons(d && d', And(r, r'))
  {
    ConsHalf(d, r);
    ConsHalf(d', r');
    AndHalves(Cons(d, r), Cons(d', r'), r, r');
  }

  lemma AndNotStep(d: bool, r: nat, d': bool, r': nat)
    ensures AndNot(Cons(d, r), Cons(d', r')) == Cons(d && !d', AndNot(r, r'))
  {
    ConsHalf(d, r);
    ConsHalf(d', r');
    AndNotHalves(Cons(d, r), Cons(d', r'), r, r');
  }

  lemma AndNotHalves(a: nat, b: nat, x: nat, y: nat)
    requires a / 2 == x && b / 2 == y
    ensures AndNot(a, b) == Cons(a % 2 == 1 && b % 2 == 0, AndNot(x, y))
  {
    if a == 0 {
      assert x == 0;
    }
  }

  lemma Or1(d: bool, r: nat, d': bool, r': nat)
    requires r == 0 || r' == 0
    ensures Or(Cons(d, r), Cons(d', r')) == Cons(d || d', r + r')
  {
    OrStep(d, r, d', r');
    OrZero(r);
    OrZero(r');
  }

  lemma Or2(d2: bool, d: bool, r: nat, d2': bool, d': bool, r': nat)
    requires r == 0 || r' == 0
    ensures Or(Cons(d2, Cons(d, r)), Cons(d2', Cons(d', r'))) == Cons(d2 || d2', Cons(d || d', r + r'))
  {
    OrStep(d2, Cons(d, r), d2', Cons(d', r'));
    Or1(d, r, d', r');
  }

  lemma And1(d: bool, r: nat, d': bool, r': nat)
    requires r' == 0
    ensures And(Cons(d, r), Cons(d', r')) == Cons(d && d', 0)
  {
    AndStep(d, r, d', r');
    assert And(r, 0) == 0;
  }

  lemma And2(d2: bool, d: bool, r: nat, d2': bool, d': bool, r': nat)
    requires r' == 0
    ensures And(Cons(d2, Cons(d, r)), Cons(d2', Cons(d', r'))) == Cons(d2 && d2', Cons(d && d', 0))
  {
    AndStep(d2, Cons(d, r), d2', Cons(d', r'));
    And1(d, r, d', r');
  }

  lemma AndNot1(d: bool, r: nat, d': bool, r': nat)
    requires r' == 0
    ensures AndNot(Cons(d, r), Cons(d', r')) == Cons(d && !d', r)
  {
    AndNotStep(d, r, d', r');
    AndNotZero(r);
  }

  lemma AndNot2(d2: bool, d: bool, r: nat, d2': bool, d': bool, r': nat)
    requires r' == 0
    ensures AndNot(Cons(d2, Cons(d, r)), Cons(d2', Cons(d', r'))) == Cons(d2 && !d2', Cons(d && !d', r))
  {
    AndNotStep(d2, Cons(d, r), d2', Cons(d', r'));
    AndNot1(d, r, d', r');
  }

  // Bitwise operations on packed words work flag by flag.

  lemma OrPacked(t: Traffic, u: Traffic)
    requires u.epoch == 0 || t.epoch == 0
    ensures Or(Pack(t), Pack(u)) ==
      Pack(Traffic(t.inbound || u.inbound, t.outbound || u.outbound, t.pendingDeletion || u.pendingDeletion, t.epoch + u.epoch))
  {
    OrStep(t.inbound, Cons(t.outbound, Cons(t.pendingDeletion, t.epoch)), u.inbound, Cons(u.outbound, Cons(u.pendingDeletion, u.epoch)));
    Or2(t.outbound, t.pendingDeletion, t.epoch, u.outbound, u.pendingDeletion, u.epoch);
  }

  lemma AndPacked(t: Traffic, u: Traffic)
    requires u.epoch == 0
    ensures And(Pack(t), Pack(u)) ==
      Pack(Traffic(t.inbound && u.inbound, t.outbound && u.outbound, t.pendingDeletion && u.pendingDeletion, 0))
  {
    AndStep(t.inbound, Cons(t.outbound, Cons(t.pendingDeletion, t.epoch)), u.inbound, Cons(u.outbound, Cons(u.pendingDeletion, u.epoch)));
    And2(t.outbound, t.pendingDeletion, t.epoch, u.outbound, u.pendingDeletion, u.epoch);
  }

  lemma AndNotPacked(t: Traffic, u: Traffic)
    requires u.epoch == 0
    ensures AndNot(Pack(t), Pack(u)) ==
      Pack(Traffic(t.inbound && !u.inbound, t.outbound && !u.outbound, t.pendingDeletion && !u.pendingDeletion, t.epoch))
  {
    AndNotStep(t.inbound, Cons(t.outbound, Cons(t.pendingDeletion, t.epoch)), u.inbound, Cons(u.outbound, Cons(u.pendingDeletion, u.epoch)));
    AndNot2(t.outbound, t.pendingDeletion, t.epoch, u.outbound, u.pendingDeletion, u.epoch);
  }

  lemma Masks()
    ensures STATE_IN == Pack(Traffic(true, false, false, 0)) && STATE_OUT == Pack(Traffic(false, true, false, 0))
    ensures STATE_PENDING_DELETION == Pack(Traffic(false, false, true, 0)) && STATE_FLAGS == Pack(Traffic(true, true, true, 0))
    ensures STATE_IN + STATE_OUT == Pack(Traffic(true, true, false, 0))
    ensures forall e: nat :: Pack(Traffic(false, false, false, e)) == 8 * e
  {}

  /** Different states are different words. */
  lemma PackIsInjective(t: Traffic, u: Traffic)
    requires Pack(t) == Pack(u)
    ensures t == u
  {}

  /** The atomic word of one tunnel.  `view` is the state it stands for. */
  class StateWord {
    var state: nat
    ghost var view: Traffic

    constructor ()
      ensures Valid() && view == Traffic(false, false, false, 0)
    {
      state, view := 0, Traffic(false, false, false, 0);
    }

    ghost predicate Valid()
      reads this
    {
      state == Pack(view) && view.epoch < EPOCH_LIMIT
    }

    method MarkIn()
      requires Valid()
      modifies this
      ensures Valid() && view == old(view).(inbound := true)
    {
      Masks();
      AndPacked(view, Traffic(true, false, false, 0));
      OrPacked(view, Traffic(true, false, false, 0));
      if And(state, STATE_IN) == 0 {
        state := Or(state, STATE_IN);
      }
      view := view.(inbound := true);
    }

    method MarkOutOnly()
      requires Valid()
      modifies this
      ensures Valid() && view == old(view).(outbound := true)
    {
      Masks();
      AndPacked(view, Traffic(false, true, false, 0));
      OrPacked(view, Traffic(false, true, false, 0));
      if And(state, STATE_OUT) == 0 {
        state := Or(state, STATE_OUT);
      }
      view := view.(outbound := true);
    }

    /** markOut, when its compare-and-swap finds the word unchanged. */
    method MarkOut(epoch: nat) returns (moved: bool)
      requires Valid() && epoch < EPOCH_LIMIT
      modifies this
      ensures Valid() && view == old(view).(outbound := true, epoch := epoch)
      ensures moved <==> old(view).epoch != epoch
    {
      var e := 8 * epoch;
      Masks();
      AndNotPacked(view, Traffic(true, true, true, 0));
      AndPacked(view, Traffic(false, true, false, 0));
      AndPacked(view, Traffic(true, true, true, 0));
      OrPacked(view.(epoch := 0), Traffic(false, true, false, 0));
      OrPacked(view.(epoch := 0, outbound := true), Traffic(false, false, false, epoch));
      moved := AndNot(state, STATE_FLAGS) != e;
      if And(state, STATE_OUT) == 0 || moved {
        state := Or(Or(And(state, STATE_FLAGS), STATE_OUT), e);
      }
      view := view.(outbound := true, epoch := epoch);
    }

    method TakeTraffic() returns (inbound: bool, outbound: bool)
      requires Valid()
      modifies this
      ensures Valid() && view == old(view).(inbound := false, outbound := false)
      ensures inbound == old(view).inbound && outbound == old(view).outbound
    {
      Masks();
      AndPacked(view, Traffic(true, false, false, 0));
      AndPacked(view, Traffic(false, true, false, 0));
      AndNotPacked(view, Traffic(true, true, false, 0));
      var was := state;
      state := AndNot(state, STATE_IN + STATE_OUT);
      view := view.(inbound := false, outbound := false);
      return And(was, STATE_IN) != 0, And(was, STATE_OUT) != 0;
    }

    method SetPendingDeletion(v: bool)
      requires Valid()
      modifies this
      ensures Valid() && view == old(view).(pendingDeletion := v)
    {
      Masks();
      OrPacked(view, Traffic(false, false, true, 0));
      AndNotPacked(view, Traffic(false, false, true, 0));
      if v {
        state := Or(state, STATE_PENDING_DELETION);
      } else {
        state := AndNot(state, STATE_PENDING_DELETION);
      }
      view := view.(pendingDeletion := v);
    }

    method IsPendingDeletion() returns (v: bool)
      requires Valid()
      ensures v == view.pendingDeletion
    {
      Masks();
      AndPacked(view, Traffic(false, false, true, 0));
      v := And(state, STATE_PENDING_DELETION) != 0;
    }
  }
}
