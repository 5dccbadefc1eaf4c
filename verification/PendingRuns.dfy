/** Runs of the handshake manager: one index space, a timer for every pending handshake, and an end
    to each of them. */
module PendingRuns {
  import opened Options
  import opened RelayEntries
  import opened TimerSpec
  import opened PendingSpec

  /** inHand is the address taken off the timer wheel whose attempt is about to be made; attempts
      counts, for every entry that ever was pending, the calls of handleOutbound that found it. */
  datatype Manager = Manager(tables: Tables, timers: Timers<Addr>, inHand: Option<Addr>, attempts: map<Id, nat>)

  datatype Config = Config(retries: nat, tryInterval: int)

  /** StartHandshake */
  function StartHandshake(c: Config, s: Manager, a: Addr, id: Id): Manager
    requires Configured(s.timers)
  {
    if a in s.tables.vpnIps then s
    else s.(tables := Started(s.tables, a, id), timers := Added(s.timers, a, c.tryInterval), attempts := s.attempts[id := 0])
  }

  /** The delay grows with the attempts. */
  function Delay(c: Config, counter: nat): int {
    c.tryInterval * counter
  }

  /** An attempt with retries to spare: the packet is built unless it is there already, it is sent,
      and unless the lighthouse asked for the attempt the next one is set. */
  function Attempt(c: Config, s: Manager, a: Addr, triggered: bool, draw: Option<nat>): Manager
    requires Configured(s.timers) && a in s.tables.vpnIps && s.tables.vpnIps[a] in s.tables.infos
  {
    var id := s.tables.vpnIps[a];
    var t := Counted(s.tables, id);
    var again := Added(s.timers, a, Delay(c, t.infos[id].counter));
    if t.infos[id].ready then s.(tables := t, timers := if triggered then s.timers else again)
    else if Free(t, draw) then s.(tables := Allocated(t, id, draw.value), timers := if triggered then s.timers else again)
    else s.(tables := t, timers := again)
  }

  function Tried(s: Manager, id: Id): Manager {
    s.(attempts := s.attempts[id := (if id in s.attempts then s.attempts[id] else 0) + 1])
  }

  /** handleOutbound */
  function HandleOutbound(c: Config, s: Manager, a: Addr, triggered: bool, draw: Option<nat>): Manager
    requires Configured(s.timers) && PendingAt(s.tables, a)
  {
    if a !in s.tables.vpnIps then s
    else
      var id := s.tables.vpnIps[a];
      if s.tables.infos[id].counter >= c.retries then Tried(s, id).(tables := Delete(s.tables, id))
      else Attempt(c, Tried(s, id), a, triggered, draw)
  }

  /** How a packet fed to a pending handshake came out. */
  datatype Outcome =
    | Ignored                                    // a recoverable error
    | Abandoned                                  // a fatal error, or the peer is this node itself
    | Answered(vpnAddrs: seq<Addr>)              // done, with the addresses in the peer's certificate

  /** continueHandshake */
  function ContinueHandshake(c: Config, s: Manager, i: nat, outcome: Outcome, id': Id, evicted: set<nat>): Manager
    requires Configured(s.timers) && IndexAt(s.tables, i)
  {
    if i !in s.tables.indexes || outcome.Ignored? then s
    else
      var id := s.tables.indexes[i];
      var a := s.tables.infos[id].vpnAddrs[0];
      if outcome.Abandoned? then s.(tables := Delete(s.tables, id))
      else if a in outcome.vpnAddrs then s.(tables := Complete(s.tables, id, outcome.vpnAddrs, evicted))
      else StartHandshake(c, s.(tables := Delete(s.tables, id)), a, id')
  }

  datatype Event =
    | Start(a: Addr, id: Id)
    | Tick(clock: int)                                                  // the wheel is advanced
    | Take                                                              // the next due item is taken in hand
    | Attend(draw: Option<nat>)                                         // and its attempt is made
    | Trigger(a: Addr, draw: Option<nat>)                               // an attempt the lighthouse asks for
    | Incoming(i: nat, outcome: Outcome, id: Id, evicted: set<nat>)
    | Respond(id: Id, vpnAddrs: seq<Addr>, index: nat, refused: bool, evicted: set<nat>)
    | Close(i: nat)
    | Error(i: nat)

  /** The names of new hostinfos are new, generateIndex never returns zero, the clock does not run
      backwards, and the one goroutine that attends to timers and triggers does one at a time. */
  predicate Enabled(s: Manager, e: Event) {
    match e
    case Start(_, id) => id !in s.tables.infos
    case Tick(clock) => NotBackwards(s.timers, clock) && s.inHand.None?
    case Take => s.inHand.None? && s.timers.expired != []
    case Attend(_) => s.inHand.Some?
    case Trigger(_, _) => s.inHand.None?
    case Incoming(_, _, id, _) => id !in s.tables.infos
    case Respond(id, vpnAddrs, index, _, _) => id !in s.tables.infos && vpnAddrs != [] && index != 0
    case Close(_) => true
    case Error(_) => true
  }

  ghost predicate Timed(s: Manager) {
    && Configured(s.timers)
    && forall a :: a in s.tables.vpnIps ==> Waits(s.timers, a) || s.inHand == Some(a)
  }

  /** The attempts on a pending entry are on its counter, which the retries bound. */
  predicate CountedAt(c: Config, s: Manager, a: Addr) {
    a in s.tables.vpnIps && s.tables.vpnIps[a] in s.tables.infos ==>
      var id := s.tables.vpnIps[a]; id in s.attempts && s.attempts[id] == s.tables.infos[id].counter <= c.retries
  }

  predicate BoundedAt(c: Config, s: Manager, id: Id) {
    id in s.attempts ==> id in s.tables.infos && s.attempts[id] <= c.retries + 1
  }

  ghost predicate Counts(c: Config, s: Manager) {
    && (forall a {:trigger CountedAt(c, s, a)} :: CountedAt(c, s, a))
    && (forall id {:trigger BoundedAt(c, s, id)} :: BoundedAt(c, s, id))
  }

  ghost predicate Inv(c: Config, s: Manager) {
    Indexed(s.tables) && Timed(s) && Counts(c, s)
  }

  function Step(c: Config, s: Manager, e: Event): Manager
    requires Inv(c, s) && Enabled(s, e)
  {
    match e
    case Start(a, id) => StartHandshake(c, s, a, id)
    case Tick(clock) => s.(timers := Advanced(s.timers, clock))
    case Take => s.(timers := Purged(s.timers), inHand := Some(s.timers.expired[0].item))
    case Attend(draw) =>
      assert PendingAt(s.tables, s.inHand.value);
      HandleOutbound(c, s, s.inHand.value, false, draw).(inHand := None)
    case Trigger(a, draw) =>
      assert PendingAt(s.tables, a);
      HandleOutbound(c, s, a, true, draw)
    case Incoming(i, outcome, id, evicted) =>
      assert IndexAt(s.tables, i);
      ContinueHandshake(c, s, i, outcome, id, evicted)
    case Respond(id, vpnAddrs, index, refused, evicted) =>
      s.(tables := CheckAndComplete(Made(s.tables, id, vpnAddrs, index), id, refused, evicted))
    case Close(i) => s.(tables := Closed(s.tables, i))
    case Error(i) =>
      assert MainAt(s.tables, i);
      s.(tables := RecvError(s.tables, i))
  }

  // ---- Every step keeps the invariant ----

  /** Fewer entries are pending, none has changed its count. */
  lemma CountsShrink(c: Config, s: Manager, t: Tables)
    requires Counts(c, s) && forall a :: a in t.vpnIps ==> a in s.tables.vpnIps && t.vpnIps[a] == s.tables.vpnIps[a]
    requires forall id :: id in s.tables.infos ==> id in t.infos && t.infos[id].counter == s.tables.infos[id].counter
    requires forall a :: a in t.vpnIps ==> s.tables.vpnIps[a] in s.tables.infos
    ensures Counts(c, s.(tables := t))
  {
    var s' := s.(tables := t);
    forall a ensures CountedAt(c, s', a) { assert CountedAt(c, s, a); }
    forall id ensures BoundedAt(c, s', id) { assert BoundedAt(c, s, id); }
  }

  lemma DeleteKeeps(c: Config, s: Manager, id: Id)
    requires Inv(c, s) && IsPending(s.tables, id)
    ensures Inv(c, s.(tables := Delete(s.tables, id)))
  {
    DeleteOk(s.tables, id);
    forall a | a in s.tables.vpnIps ensures s.tables.vpnIps[a] in s.tables.infos { assert PendingAt(s.tables, a); }
    CountsShrink(c, s, Delete(s.tables, id));
  }

  lemma StartKeeps(c: Config, s: Manager, a: Addr, id: Id)
    requires Inv(c, s) && id !in s.tables.infos
    ensures Inv(c, StartHandshake(c, s, a, id))
  {
    if a !in s.tables.vpnIps {
      var s' := StartHandshake(c, s, a, id);
      StartedOk(s.tables, a, id);
      AddedWaits(s.timers, a, c.tryInterval);
      forall b ensures CountedAt(c, s', b) { assert CountedAt(c, s, b) && PendingAt(s.tables, b); }
      forall j ensures BoundedAt(c, s', j) { assert BoundedAt(c, s, j); }
    }
  }

  lemma OneAddress(t: Tables, a: Addr, b: Addr)
    requires Indexed(t) && a in t.vpnIps && b in t.vpnIps && t.vpnIps[a] == t.vpnIps[b]
    ensures a == b
  {
    assert PendingAt(t, a) && PendingAt(t, b);
  }

  lemma AttemptIndexed(c: Config, s: Manager, a: Addr, triggered: bool, draw: Option<nat>)
    requires Indexed(s.tables) && Configured(s.timers) && a in s.tables.vpnIps && s.tables.vpnIps[a] in s.tables.infos
    ensures var t' := Attempt(c, s, a, triggered, draw).tables; var id := s.tables.vpnIps[a];
      && Indexed(t') && t'.vpnIps == s.tables.vpnIps && t'.infos.Keys == s.tables.infos.Keys
      && t'.infos[id].counter == s.tables.infos[id].counter + 1
      && forall j :: j in t'.infos && j != id ==> t'.infos[j] == s.tables.infos[j]
  {
    var id := s.tables.vpnIps[a];
    var t := Counted(s.tables, id);
    CountedOk(s.tables, id);
    assert PendingAt(s.tables, a);
    if !t.infos[id].ready && Free(t, draw) {
      AllocatedOk(t, id, draw.value);
    }
  }

  lemma AttemptTimed(c: Config, s: Manager, a: Addr, triggered: bool, draw: Option<nat>)
    requires Timed(s) && a in s.tables.vpnIps && s.tables.vpnIps[a] in s.tables.infos
    ensures var s' := Attempt(c, s, a, triggered, draw);
      && Configured(s'.timers) && (!triggered ==> Waits(s'.timers, a))
      && (forall b :: Waits(s.timers, b) ==> Waits(s'.timers, b))
  {
    AddedWaits(s.timers, a, Delay(c, s.tables.infos[s.tables.vpnIps[a]].counter + 1));
  }

  lemma AttemptKeeps(c: Config, s: Manager, a: Addr, triggered: bool, draw: Option<nat>)
    requires Inv(c, s) && a in s.tables.vpnIps && s.tables.vpnIps[a] in s.tables.infos
    requires s.tables.infos[s.tables.vpnIps[a]].counter < c.retries
    ensures var s' := Attempt(c, Tried(s, s.tables.vpnIps[a]), a, triggered, draw);
      Inv(c, s') && (!triggered ==> Waits(s'.timers, a))
  {
    var id := s.tables.vpnIps[a];
    AttemptIndexed(c, Tried(s, id), a, triggered, draw);
    AttemptTimed(c, Tried(s, id), a, triggered, draw);
    AttemptCounts(c, s, a, Attempt(c, Tried(s, id), a, triggered, draw));
  }

  /** One more attempt on one entry, counted twice over. */
  lemma AttemptCounts(c: Config, s: Manager, a: Addr, s': Manager)
    requires Indexed(s.tables) && Counts(c, s) && a in s.tables.vpnIps && s.tables.vpnIps[a] in s.tables.infos
    requires var id := s.tables.vpnIps[a];
      && s.tables.infos[id].counter < c.retries && s'.attempts == Tried(s, id).attempts
      && s'.tables.vpnIps == s.tables.vpnIps && s'.tables.infos.Keys == s.tables.infos.Keys
      && s'.tables.infos[id].counter == s.tables.infos[id].counter + 1
      && forall j :: j in s'.tables.infos && j != id ==> s'.tables.infos[j] == s.tables.infos[j]
    ensures Counts(c, s')
  {
    forall b ensures CountedAt(c, s', b) {
      assert CountedAt(c, s, b) && PendingAt(s.tables, b);
      if b in s.tables.vpnIps && s.tables.vpnIps[b] == s.tables.vpnIps[a] { OneAddress(s.tables, a, b); }
    }
    forall j ensures BoundedAt(c, s', j) { assert BoundedAt(c, s, j) && CountedAt(c, s, a); }
  }

  /** After an attempt that no trigger asked for, the address has a timer or is pending no more. */
  lemma HandleOutboundKeeps(c: Config, s: Manager, a: Addr, triggered: bool, draw: Option<nat>)
    requires Inv(c, s)
    ensures PendingAt(s.tables, a)
    ensures var s' := HandleOutbound(c, s, a, triggered, draw);
      Inv(c, s') && s'.inHand == s.inHand && (!triggered && a in s'.tables.vpnIps ==> Waits(s'.timers, a))
  {
    assert PendingAt(s.tables, a) && CountedAt(c, s, a);
    if a in s.tables.vpnIps {
      var id := s.tables.vpnIps[a];
      if s.tables.infos[id].counter < c.retries {
        AttemptKeeps(c, s, a, triggered, draw);
      } else {
        GivenUp(c, s, a);
      }
    }
  }

  lemma GivenUp(c: Config, s: Manager, a: Addr)
    requires Inv(c, s) && a in s.tables.vpnIps && PendingAt(s.tables, a)
    ensures var id := s.tables.vpnIps[a]; var s' := Tried(s, id).(tables := Delete(s.tables, id));
      Inv(c, s') && a !in s'.tables.vpnIps
  {
    var id := s.tables.vpnIps[a];
    var s1, s' := s.(tables := Delete(s.tables, id)), Tried(s, id).(tables := Delete(s.tables, id));
    DeleteKeeps(c, s, id);
    DeleteOk(s.tables, id);
    forall b ensures CountedAt(c, s', b) {
      assert CountedAt(c, s1, b);
      if b in s'.tables.vpnIps && s'.tables.vpnIps[b] == id { OneAddress(s.tables, a, b); }
    }
    forall j ensures BoundedAt(c, s', j) { assert BoundedAt(c, s1, j) && CountedAt(c, s, a); }
  }

  lemma ContinueKeeps(c: Config, s: Manager, i: nat, outcome: Outcome, id': Id, evicted: set<nat>)
    requires Inv(c, s) && id' !in s.tables.infos
    ensures IndexAt(s.tables, i) && Inv(c, ContinueHandshake(c, s, i, outcome, id', evicted))
  {
    assert IndexAt(s.tables, i);
    if i in s.tables.indexes && !outcome.Ignored? {
      var id := s.tables.indexes[i];
      DeleteKeeps(c, s, id);
      if outcome.Answered? {
        if s.tables.infos[id].vpnAddrs[0] in outcome.vpnAddrs {
          CompleteKeeps(c, s, id, outcome.vpnAddrs, evicted);
        } else {
          StartKeeps(c, s.(tables := Delete(s.tables, id)), s.tables.infos[id].vpnAddrs[0], id');
        }
      }
    }
  }

  lemma CompleteKeeps(c: Config, s: Manager, id: Id, vpnAddrs: seq<Addr>, evicted: set<nat>)
    requires Inv(c, s) && IsPending(s.tables, id) && s.tables.infos[id].ready && s.tables.infos[id].vpnAddrs[0] in vpnAddrs
    ensures Inv(c, s.(tables := Complete(s.tables, id, vpnAddrs, evicted)))
  {
    CompleteOk(s.tables, id, vpnAddrs, evicted);
    forall a | a in s.tables.vpnIps ensures s.tables.vpnIps[a] in s.tables.infos { assert PendingAt(s.tables, a); }
    CountsShrink(c, s, Complete(s.tables, id, vpnAddrs, evicted));
  }

  lemma MainKeeps(c: Config, s: Manager, t: Tables)
    requires Inv(c, s) && Indexed(t) && t.vpnIps == s.tables.vpnIps
    requires forall id :: id in s.tables.infos ==> id in t.infos && t.infos[id] == s.tables.infos[id]
    ensures Inv(c, s.(tables := t))
  {
    forall a | a in t.vpnIps ensures s.tables.vpnIps[a] in s.tables.infos { assert PendingAt(s.tables, a); }
    CountsShrink(c, s, t);
  }

  lemma TickKeeps(c: Config, s: Manager, clock: int)
    requires Inv(c, s) && NotBackwards(s.timers, clock)
    ensures Inv(c, s.(timers := Advanced(s.timers, clock)))
  {
    var s' := s.(timers := Advanced(s.timers, clock));
    forall a | Waits(s.timers, a) ensures Waits(Advanced(s.timers, clock), a) {
      AdvancedWaits(s.timers, clock, a);
    }
    SameCounts(c, s, s');
  }

  lemma SameCounts(c: Config, s: Manager, s': Manager)
    requires Counts(c, s) && s'.tables == s.tables && s'.attempts == s.attempts
    ensures Counts(c, s')
  {
    forall a ensures CountedAt(c, s', a) { assert CountedAt(c, s, a); }
    forall id ensures BoundedAt(c, s', id) { assert BoundedAt(c, s, id); }
  }

  lemma TakeKeeps(c: Config, s: Manager)
    requires Inv(c, s) && s.inHand.None? && s.timers.expired != []
    ensures Inv(c, s.(timers := Purged(s.timers), inHand := Some(s.timers.expired[0].item)))
  {
    forall a | a in s.tables.vpnIps ensures Waits(Purged(s.timers), a) || s.timers.expired[0].item == a {
      PurgedWaits(s.timers, a);
    }
    SameCounts(c, s, s.(timers := Purged(s.timers), inHand := Some(s.timers.expired[0].item)));
  }

  lemma AttendKeeps(c: Config, s: Manager, draw: Option<nat>)
    requires Inv(c, s) && s.inHand.Some?
    ensures PendingAt(s.tables, s.inHand.value)
    ensures Inv(c, HandleOutbound(c, s, s.inHand.value, false, draw).(inHand := None))
  {
    HandleOutboundKeeps(c, s, s.inHand.value, false, draw);
    var s' := HandleOutbound(c, s, s.inHand.value, false, draw);
    SameCounts(c, s', s'.(inHand := None));
  }

  lemma StepKeeps(c: Config, s: Manager, e: Event)
    requires Inv(c, s) && Enabled(s, e)
    ensures Inv(c, Step(c, s, e))
  {
    match e
    case Start(a, id) => StartKeeps(c, s, a, id);
    case Tick(clock) => TickKeeps(c, s, clock);
    case Take => TakeKeeps(c, s);
    case Attend(draw) => AttendKeeps(c, s, draw);
    case Trigger(a, draw) => HandleOutboundKeeps(c, s, a, true, draw);
    case Incoming(i, outcome, id, evicted) => ContinueKeeps(c, s, i, outcome, id, evicted);
    case Respond(id, vpnAddrs, index, refused, evicted) =>
      MadeOk(s.tables, id, vpnAddrs, index);
      CheckAndCompleteOk(Made(s.tables, id, vpnAddrs, index), id, refused, evicted);
      MainKeeps(c, s, CheckAndComplete(Made(s.tables, id, vpnAddrs, index), id, refused, evicted));
    case Close(i) =>
      ClosedOk(s.tables, i);
      MainKeeps(c, s, Closed(s.tables, i));
    case Error(i) =>
      RecvErrorOk(s.tables, i);
      MainKeeps(c, s, RecvError(s.tables, i));
  }

  // ---- Runs ----

  /** hsTimeout: as long as all the tries with their growing delays can take. */
  function Longest(c: Config): int {
    c.retries / 2 * (2 * c.tryInterval + (c.retries - 1) * c.tryInterval)
  }

  lemma LongestIsNat(c: Config)
    requires c.tryInterval > 0
    ensures Longest(c) >= 0
  {
    if c.retries >= 1 {
      assert (c.retries - 1) * c.tryInterval >= 0;
    }
  }

  /** NewHandshakeManager */
  function Fresh(c: Config): Manager
    requires c.tryInterval > 0
  {
    LongestIsNat(c);
    Manager(EMPTY, Empty(c.tryInterval, Longest(c)), None, map[])
  }

  lemma FreshOk(c: Config)
    requires c.tryInterval > 0
    ensures Inv(c, Fresh(c))
  {
    LongestIsNat(c);
    EmptyIsSound<Addr>(c.tryInterval, Longest(c));
  }

  /** A run: states[k + 1] is what events[k] makes of states[k], as long as that is in order. */
  ghost predicate IsRun(c: Config, states: seq<Manager>, events: seq<Event>) {
    && c.tryInterval > 0 && |states| == |events| + 1 && states[0] == Fresh(c)
    && forall k :: 0 <= k < |events| ==> Enabled(states[k], events[k]) && (Inv(c, states[k]) ==> states[k + 1] == Step(c, states[k], events[k]))
  }

  lemma {:induction false} RunKeeps(c: Config, states: seq<Manager>, events: seq<Event>, k: nat)
    requires IsRun(c, states, events) && k < |states|
    ensures Inv(c, states[k])
    decreases k
  {
    if k == 0 {
      FreshOk(c);
    } else {
      RunKeeps(c, states, events, k - 1);
      StepKeeps(c, states[k - 1], events[k - 1]);
    }
  }

  /** At no time is a local index both pending and in use, or a hostinfo in use named by a pending table. */
  lemma OneIndexSpace(c: Config, states: seq<Manager>, events: seq<Event>, k: nat, i: nat)
    requires IsRun(c, states, events) && k < |states| && i in states[k].tables.main
    ensures var t := states[k].tables;
      i !in t.indexes && t.main[i] !in t.vpnIps.Values && t.main[i] !in t.indexes.Values
  {
    RunKeeps(c, states, events, k);
    var t := states[k].tables;
    assert MainAt(t, i);
    forall a | a in t.vpnIps ensures t.vpnIps[a] != t.main[i] { assert PendingAt(t, a); }
    forall j | j in t.indexes ensures t.indexes[j] != t.main[i] { assert IndexAt(t, j); }
  }

  /** Every pending address has a timer in the wheel or among the expired, or its attempt is next. */
  lemma PendingIsTimed(c: Config, states: seq<Manager>, events: seq<Event>, k: nat, a: Addr)
    requires IsRun(c, states, events) && k < |states| && a in states[k].tables.vpnIps
    ensures Waits(states[k].timers, a) || states[k].inHand == Some(a)
  {
    RunKeeps(c, states, events, k);
  }

  /** No entry is ever found by more than retries + 1 attempts: the last of them removes it. */
  lemma AttemptsEnd(c: Config, states: seq<Manager>, events: seq<Event>, k: nat, id: Id)
    requires IsRun(c, states, events) && k < |states| && id in states[k].attempts
    ensures states[k].attempts[id] <= c.retries + 1
    ensures states[k].attempts[id] == c.retries + 1 ==> id !in states[k].tables.vpnIps.Values
  {
    RunKeeps(c, states, events, k);
    var s := states[k];
    assert BoundedAt(c, s, id);
    forall a | a in s.tables.vpnIps && s.tables.vpnIps[a] == id ensures s.attempts[id] <= c.retries {
      assert CountedAt(c, s, a) && PendingAt(s.tables, a);
    }
  }
}
