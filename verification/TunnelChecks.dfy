/** What successive traffic checks of one tunnel find, told by the events between them. */
module TunnelChecks {
  import opened Options
  import opened TrafficWord
  import opened LiveTunnels
  import W = TimerSpec

  /** Event m is a check of the tunnel at index i. */
  predicate IsCheck(states: seq<Tunnels>, events: seq<Event>, m: nat, i: nat)
    requires m < |events| && |states| == |events| + 1
  {
    events[m].Decided? && states[m].hand == Check(i)
  }

  /** There is a tunnel at index i from state j to state k, and no check of it in between. */
  ghost predicate Unchecked(states: seq<Tunnels>, events: seq<Event>, i: nat, j: nat, k: nat) {
    && |states| == |events| + 1 && j <= k < |states|
    && (forall m :: j <= m <= k ==> i in states[m].indexes)
    && (forall m :: j <= m < k ==> !IsCheck(states, events, m, i))
  }

  /** Traffic came in by index i between states j and k. */
  ghost predicate Heard(events: seq<Event>, i: nat, j: nat, k: nat) {
    exists m :: j <= m < k && m < |events| && events[m] == In(i)
  }

  /** Traffic went out by index i between states j and k. */
  ghost predicate Spoke(events: seq<Event>, i: nat, j: nat, k: nat) {
    exists m :: j <= m < k && m < |events| && events[m].Out? && events[m].index == i
  }

  /** But for the traffic marks it is the same tunnel in the same condition, and each mark is up if it was or traffic
      went that way. */
  ghost predicate Passed(t: Tunnel, t': Tunnel, heard: bool, spoke: bool) {
    && t'.id == t.id && t'.checks == t.checks && t'.spared == t.spared && t'.lastUsed == t.lastUsed
    && t'.traffic.pendingDeletion == t.traffic.pendingDeletion
    && (t'.traffic.inbound <==> t.traffic.inbound || heard) && (t'.traffic.outbound <==> t.traffic.outbound || spoke)
  }

  lemma StepPasses(c: Config, s: Tunnels, e: Event, i: nat)
    requires Inv(s) && Enabled(s, e) && i in s.indexes && i in Step(c, s, e).indexes && !(e.Decided? && s.hand == Check(i))
    ensures Passed(s.indexes[i], Step(c, s, e).indexes[i], e == In(i), e.Out? && e.index == i)
  {}

  /** Between two checks nothing but traffic happens to a tunnel. */
  lemma {:induction false} BetweenChecks(c: Config, states: seq<Tunnels>, events: seq<Event>, i: nat, j: nat, k: nat)
    requires IsRun(c, states, events) && Unchecked(states, events, i, j, k)
    ensures Passed(states[j].indexes[i], states[k].indexes[i], Heard(events, i, j, k), Spoke(events, i, j, k))
    decreases k
  {
    if j < k {
      var p := k - 1;
      BetweenChecks(c, states, events, i, j, p);
      RunOk(c, states, events, p);
      assert !IsCheck(states, events, p, i) && i in states[k].indexes && i in states[p].indexes;
      assert Enabled(states[p], events[p]) && states[p + 1] == Step(c, states[p], events[p]);
      StepPasses(c, states[p], events[p], i);
      HeardNext(events, i, j, p);
    }
  }

  lemma HeardNext(events: seq<Event>, i: nat, j: nat, k: nat)
    requires j <= k < |events|
    ensures Heard(events, i, j, k + 1) <==> Heard(events, i, j, k) || events[k] == In(i)
    ensures Spoke(events, i, j, k + 1) <==> Spoke(events, i, j, k) || (events[k].Out? && events[k].index == i)
  {}

  /** What a check in a run decides and leaves. */
  lemma CheckInRun(c: Config, states: seq<Tunnels>, events: seq<Event>, i: nat, k: nat)
    requires IsRun(c, states, events) && k < |events| && IsCheck(states, events, k, i) && i in states[k].indexes
    ensures Inv(states[k]) && TunnelOk(states[k].indexes[i]) && states[k + 1] == Judged(states[k], i, Decide(c, states[k].indexes[i], events[k].findings))
  {
    RunOk(c, states, events, k);
  }

  /** Neither a bad certificate nor a spent counter cuts the check short. */
  predicate Ordinary(e: Event) {
    e.Decided? && !e.findings.invalidCert && !e.findings.exhausted
  }

  /** In every run, of two successive checks of a tunnel that the first did not remove, the second finds it dead exactly
      when the first found no inbound traffic while the tunnel was in use or not the primary, and none came since. */
  lemma DeadIff(c: Config, states: seq<Tunnels>, events: seq<Event>, i: nat, j: nat, k: nat)
    requires IsRun(c, states, events) && j < k < |events| && IsCheck(states, events, j, i) && IsCheck(states, events, k, i)
    requires Ordinary(events[j]) && Ordinary(events[k])
    requires i in states[j].indexes && states[j + 1].hand.Nothing? && Unchecked(states, events, i, j + 1, k)
    ensures Decide(c, states[k].indexes[i], events[k].findings).decision == DeleteTunnel(true)
       <==> && !states[j].indexes[i].traffic.inbound && !Idle(states[j].indexes[i], events[j].findings)
            && !Heard(events, i, j + 1, k)
  {
    CheckInRun(c, states, events, i, j);
    DecideOk(c, states[j].indexes[i], events[j].findings);
    BetweenChecks(c, states, events, i, j + 1, k);
    CheckInRun(c, states, events, i, k);
    DecideOk(c, states[k].indexes[i], events[k].findings);
  }

  /** ... and a tunnel found dead is in hand to be deleted, on record as dead, and gone with the next deletion. */
  lemma DeadIsDeleted(c: Config, states: seq<Tunnels>, events: seq<Event>, i: nat, k: nat)
    requires IsRun(c, states, events) && k + 1 < |events| && IsCheck(states, events, k, i) && i in states[k].indexes
    requires Decide(c, states[k].indexes[i], events[k].findings).decision == DeleteTunnel(true) && events[k + 1].Deletion?
    ensures Decide(c, states[k].indexes[i], events[k].findings).tunnel in states[k + 1].dead
    ensures states[k + 2].indexes == states[k].indexes - {i} && states[k + 2].hand.Nothing?
  {
    CheckInRun(c, states, events, i, k);
    RunOk(c, states, events, k + 1);
    DecideOk(c, states[k].indexes[i], events[k].findings);
  }

  /** A deletion takes the doomed tunnel and no other, not even one that has come to the same index since. */
  lemma DeletionIsExact(c: Config, s: Tunnels, i: nat)
    requires Inv(s) && s.hand.Doomed?
    ensures var s' := Step(c, s, Deletion);
      && (i in s'.indexes <==> i in s.indexes && !(s.hand.index == i && s.hand.id == s.indexes[i].id))
      && (i in s'.indexes ==> s'.indexes[i] == s.indexes[i]) && s'.hand.Nothing?
  {}

  /** Two silent intervals: a tunnel by which nothing comes in before one check and up to the next is dead then, if it
      was in use or not the primary at the first. */
  lemma SilentDiesAtSecondCheck(c: Config, states: seq<Tunnels>, events: seq<Event>, i: nat, h: nat, j: nat, k: nat)
    requires IsRun(c, states, events) && h <= j < k < |events| && IsCheck(states, events, j, i) && IsCheck(states, events, k, i)
    requires Ordinary(events[j]) && Ordinary(events[k]) && states[j + 1].hand.Nothing?
    requires Unchecked(states, events, i, h, j) && Unchecked(states, events, i, j + 1, k)
    requires !states[h].indexes[i].traffic.inbound && !Heard(events, i, h, j) && !Heard(events, i, j + 1, k)
    requires !Idle(states[j].indexes[i], events[j].findings)
    ensures Decide(c, states[k].indexes[i], events[k].findings).decision == DeleteTunnel(true)
  {
    BetweenChecks(c, states, events, i, h, j);
    DeadIff(c, states, events, i, j, k);
  }

  /** A tunnel comes in unmarked, counted as in use, with its first check set. */
  lemma AddDoes(c: Config, s: Tunnels, index: nat, id: nat, epoch: nat)
    requires Inv(s) && Enabled(s, Add(index, id, epoch))
    ensures var s' := Step(c, s, Add(index, id, epoch));
      && index in s'.indexes && s'.indexes[index].id == id && s'.indexes[index].traffic.outbound && !s'.indexes[index].traffic.inbound
      && !s'.indexes[index].traffic.pendingDeletion && W.DueIn(s'.timers, index, c.checkInterval)
      && forall i :: i != index ==> (i in s'.indexes <==> i in s.indexes) && (i in s.indexes ==> s'.indexes[i] == s.indexes[i])
  {
    W.AddedIsDue(s.timers, index, c.checkInterval);
  }

  /** A check that keeps the tunnel sets the next one: after the shorter interval if it is marked. */
  lemma NextCheckIsSet(c: Config, states: seq<Tunnels>, events: seq<Event>, i: nat, k: nat)
    requires IsRun(c, states, events) && k < |events| && IsCheck(states, events, k, i) && i in states[k].indexes
    requires states[k + 1].hand.Nothing?
    ensures i in states[k + 1].indexes
    ensures W.DueIn(states[k + 1].timers, i, if states[k + 1].indexes[i].traffic.pendingDeletion then c.pendingDeletionInterval else c.checkInterval)
  {
    RunOk(c, states, events, k);
    var v := Decide(c, states[k].indexes[i], events[k].findings);
    DecideOk(c, states[k].indexes[i], events[k].findings);
    DecisionIs(c, states[k].indexes[i], events[k].findings);
    W.AddedIsDue(states[k].timers, i, v.next.value);
  }
}
