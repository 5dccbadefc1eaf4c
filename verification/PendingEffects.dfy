/** What the events of the handshake manager bring about: which attempts are made, when a handshake is on its way,
    and when a tunnel comes up. */
module PendingEffects {
  import opened Options
  import opened RelayEntries
  import opened PendingSpec
  import opened PendingRuns
  import W = TimerSpec

  /** After StartHandshake the address is pending.  If it was not before, under a new entry without an index, with
      all its attempts to come and the first of them set; otherwise just as it was. */
  lemma StartDoes(c: Config, s: Manager, a: Addr, id: Id)
    requires Inv(c, s) && id !in s.tables.infos
    ensures var s' := StartHandshake(c, s, a, id);
      && a in s'.tables.vpnIps && s'.tables.main == s.tables.main && s'.tables.indexes == s.tables.indexes
      && (if a in s.tables.vpnIps then s' == s
          else && s'.tables.vpnIps[a] == id && id in s'.tables.infos && !s'.tables.infos[id].ready
               && id in s'.attempts && s'.attempts[id] == 0 && W.DueIn(s'.timers, a, c.tryInterval))
      && forall b :: b != a ==> (b in s'.tables.vpnIps <==> b in s.tables.vpnIps) && (b in s.tables.vpnIps ==> s'.tables.vpnIps[b] == s.tables.vpnIps[b])
  {
    W.AddedIsDue(s.timers, a, c.tryInterval);
  }

  /** An attempt on a pending address is counted.  The one after the last retry ends it; every other keeps it pending,
      gets it an index if it has none and one can be had, and sets the next attempt, later each time, unless the
      lighthouse asked for this one and the packet went out. */
  lemma AttemptDoes(c: Config, s: Manager, a: Addr, triggered: bool, draw: Option<nat>)
    requires Inv(c, s) && a in s.tables.vpnIps
    ensures PendingAt(s.tables, a)
    ensures var s' := HandleOutbound(c, s, a, triggered, draw);
      var id := s.tables.vpnIps[a];
      && id in s.attempts && id in s'.attempts && s'.attempts[id] == s.attempts[id] + 1 && s'.tables.main == s.tables.main
      && (if s.attempts[id] == c.retries
          then a !in s'.tables.vpnIps && id !in s'.tables.indexes.Values && s'.timers == s.timers
          else Continues(c, s, s', a, triggered, draw))
  {
    assert PendingAt(s.tables, a) && CountedAt(c, s, a);
    var id := s.tables.vpnIps[a];
    if s.tables.infos[id].counter >= c.retries {
      DeleteOk(s.tables, id);
    } else {
      AttemptContinues(c, s, a, triggered, draw);
    }
  }

  lemma AttemptContinues(c: Config, s: Manager, a: Addr, triggered: bool, draw: Option<nat>)
    requires W.Configured(s.timers) && a in s.tables.vpnIps && s.tables.vpnIps[a] in s.tables.infos
    requires var id := s.tables.vpnIps[a]; id in s.attempts && s.attempts[id] == s.tables.infos[id].counter < c.retries
    ensures var s' := Attempt(c, Tried(s, s.tables.vpnIps[a]), a, triggered, draw);
      Continues(c, s, s', a, triggered, draw) && s'.tables.main == s.tables.main && s'.attempts == Tried(s, s.tables.vpnIps[a]).attempts
  {
    W.AddedIsDue(s.timers, a, c.tryInterval * (s.attempts[s.tables.vpnIps[a]] + 1));
  }

  ghost predicate Continues(c: Config, s: Manager, s': Manager, a: Addr, triggered: bool, draw: Option<nat>) {
    && a in s.tables.vpnIps && s'.tables.vpnIps == s.tables.vpnIps && s.tables.vpnIps[a] in s.tables.infos && s.tables.vpnIps[a] in s'.tables.infos
    && s.tables.vpnIps[a] in s.attempts
    && var id := s.tables.vpnIps[a];
    && var info, info' := s.tables.infos[id], s'.tables.infos[id];
    && info'.counter == info.counter + 1
    && (info'.ready <==> info.ready || Free(s.tables, draw))
    && (info.ready ==> info'.localIndex == info.localIndex && s'.tables.indexes == s.tables.indexes)
    && (!info.ready && info'.ready ==> Some(info'.localIndex) == draw && s'.tables.indexes == s.tables.indexes[info'.localIndex := id])
    && (!info'.ready ==> s'.tables.indexes == s.tables.indexes)
    && (if triggered && info'.ready then s'.timers == s.timers
        else W.DueIn(s'.timers, a, c.tryInterval * (s.attempts[id] + 1)))
  }

  /** The second message completes the handshake it answers when the peer's certificate has the address that was
      asked for: the index moves to the main table.  With another peer's certificate the handshake starts anew; a
      fatal error ends it; anything else leaves it. */
  lemma AnswerDoes(c: Config, s: Manager, i: nat, outcome: Outcome, id': Id, evicted: set<nat>)
    requires Inv(c, s) && id' !in s.tables.infos
    ensures IndexAt(s.tables, i)
    ensures var s' := ContinueHandshake(c, s, i, outcome, id', evicted);
      if i !in s.tables.indexes || outcome.Ignored? then s' == s
      else
        var id := s.tables.indexes[i];
        var a := s.tables.infos[id].vpnAddrs[0];
        && i !in s'.tables.indexes && i !in s.tables.main
        && (if outcome.Answered? && a in outcome.vpnAddrs then i in s'.tables.main && s'.tables.main[i] == id && a !in s'.tables.vpnIps
            else s'.tables.main == s.tables.main)
        && (outcome.Abandoned? ==> a !in s'.tables.vpnIps)
        && (outcome.Answered? && a !in outcome.vpnAddrs ==>
              a in s'.tables.vpnIps && s'.tables.vpnIps[a] == id' && id' in s'.attempts && s'.attempts[id'] == 0)
  {
    assert IndexAt(s.tables, i) && MainAt(s.tables, i);
    if i in s.tables.indexes && !outcome.Ignored? {
      var id := s.tables.indexes[i];
      DeleteOk(s.tables, id);
      if outcome.Answered? {
        if s.tables.infos[id].vpnAddrs[0] in outcome.vpnAddrs {
          CompleteOk(s.tables, id, outcome.vpnAddrs, evicted);
        }
      }
    }
  }

  /** The wheel spans every delay up to the last retry exactly when there is more than one retry. */
  lemma DelaysFit(c: Config, counter: nat)
    requires c.tryInterval > 0 && 1 <= counter <= c.retries
    ensures W.Clamp(Delay(c, counter), c.tryInterval, Longest(c)) == c.tryInterval * counter <==> c.retries >= 2
  {
    W.Scaled(c.tryInterval, 1, counter);
    if c.retries >= 2 {
      LongestSpans(c);
      W.Scaled(c.tryInterval, counter, c.retries);
    }
  }

  lemma LongestSpans(c: Config)
    requires c.tryInterval > 0 && c.retries >= 2
    ensures Longest(c) >= c.tryInterval * c.retries
  {
    var all := 2 * c.tryInterval + (c.retries - 1) * c.tryInterval;
    assert all >= c.tryInterval * c.retries && all > 0;
    W.Scaled(all, 1, c.retries / 2);
  }

  /** In every run a responder's tunnel comes up exactly when it is not refused and its index is free. */
  lemma RespondComesUp(c: Config, states: seq<Manager>, events: seq<Event>, k: nat)
    requires IsRun(c, states, events) && k < |events| && events[k].Respond?
    ensures var e, t, t' := events[k], states[k].tables, states[k + 1].tables;
      && (e.index in t'.main && t'.main[e.index] == e.id <==> !e.refused && e.index !in t.main && e.index !in t.indexes)
      && (e.index in t'.main && t'.main[e.index] == e.id ==> Joined(t.(infos := t'.infos), t', e.index, e.id, e.evicted))
      && t'.vpnIps == t.vpnIps && t'.indexes == t.indexes
  {
    RunKeeps(c, states, events, k);
    var e, t := events[k], states[k].tables;
    MadeOk(t, e.id, e.vpnAddrs, e.index);
    CheckAndCompleteOk(Made(t, e.id, e.vpnAddrs, e.index), e.id, e.refused, e.evicted);
    assert MainAt(t, e.index);
  }

  // ---- Attempts over a run ----

  /** The pending entry that an event makes an attempt on. */
  function Attempted(s: Manager, e: Event): Option<Id> {
    match e
    case Attend(_) => if s.inHand.Some? && s.inHand.value in s.tables.vpnIps then Some(s.tables.vpnIps[s.inHand.value]) else None
    case Trigger(a, _) => if a in s.tables.vpnIps then Some(s.tables.vpnIps[a]) else None
    case _ => None
  }

  /** How many of the first k events made an attempt on this entry. */
  ghost function AttemptsMade(states: seq<Manager>, events: seq<Event>, id: Id, k: nat): nat
    requires k <= |events| && |states| == |events| + 1
  {
    if k == 0 then 0 else AttemptsMade(states, events, id, k - 1) + if Attempted(states[k - 1], events[k - 1]) == Some(id) then 1 else 0
  }

  predicate Recorded(s: Manager, id: Id, n: nat) {
    if id in s.attempts then s.attempts[id] == n else n == 0
  }

  lemma StepRecords(c: Config, s: Manager, e: Event, id: Id, n: nat)
    requires Inv(c, s) && Enabled(s, e) && Recorded(s, id, n)
    ensures Recorded(Step(c, s, e), id, n + if Attempted(s, e) == Some(id) then 1 else 0)
  {
    match e
    case Start(a, id') => assert BoundedAt(c, s, id');
    case Incoming(i, outcome, id', evicted) => assert BoundedAt(c, s, id') && IndexAt(s.tables, i);
    case Attend(draw) => AttemptRecords(c, s, s.inHand.value, false, draw, id, n);
    case Trigger(a, draw) => AttemptRecords(c, s, a, true, draw, id, n);
    case _ =>
  }

  lemma AttemptRecords(c: Config, s: Manager, a: Addr, triggered: bool, draw: Option<nat>, id: Id, n: nat)
    requires Inv(c, s) && Recorded(s, id, n)
    ensures PendingAt(s.tables, a)
    ensures Recorded(HandleOutbound(c, s, a, triggered, draw), id, n + if a in s.tables.vpnIps && s.tables.vpnIps[a] == id then 1 else 0)
  {
    assert PendingAt(s.tables, a) && CountedAt(c, s, a);
  }

  lemma {:induction false} AttemptsAreRecorded(c: Config, states: seq<Manager>, events: seq<Event>, id: Id, k: nat)
    requires IsRun(c, states, events) && k < |states|
    ensures Recorded(states[k], id, AttemptsMade(states, events, id, k))
    decreases k
  {
    if k > 0 {
      AttemptsAreRecorded(c, states, events, id, k - 1);
      RunKeeps(c, states, events, k - 1);
      StepRecords(c, states[k - 1], events[k - 1], id, AttemptsMade(states, events, id, k - 1));
    }
  }

  /** In every run: no entry is attempted more than retries + 1 times, and once it has been that often it is pending no more. */
  lemma HandshakesEnd(c: Config, states: seq<Manager>, events: seq<Event>, id: Id, k: nat)
    requires IsRun(c, states, events) && k < |states|
    ensures AttemptsMade(states, events, id, k) <= c.retries + 1
    ensures AttemptsMade(states, events, id, k) == c.retries + 1 ==> id !in states[k].tables.vpnIps.Values
  {
    AttemptsAreRecorded(c, states, events, id, k);
    if id in states[k].attempts {
      AttemptsEnd(c, states, events, k, id);
    }
  }
}
