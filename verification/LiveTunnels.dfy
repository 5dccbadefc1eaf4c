/** The life of a tunnel in the main host map: traffic checks, and how it comes to be deleted. */
module LiveTunnels {
  import opened Options
  import opened TimerSpec
  import opened TrafficWord

  /** A tunnel: its marks, when it was last used, and for the record every inbound mark ever made
      on it, counted, with the count at the start and at each traffic check since, and whether the
      last check passed it by as a primary that is not in use. */
  datatype Tunnel = Tunnel(id: nat, traffic: Traffic, lastUsed: int, marks: nat, checks: seq<nat>, spared: bool)

  datatype Config = Config(checkInterval: int, pendingDeletionInterval: int)

  /** What a check looks at besides the traffic. */
  datatype Findings = Findings(
    invalidCert: bool, exhausted: bool, connected: bool, primary: bool, swap: bool,
    dropInactive: bool, inactivityTimeout: int, now: int)

  datatype Decision =
    | DoNothing | DeleteTunnel(dead: bool) | CloseTunnel | SwapPrimary | MigrateRelays | TryRehandshake | SendTestPacket

  datatype Verdict = Verdict(tunnel: Tunnel, decision: Decision, next: Option<int>)

  /** getAndResetTrafficCheck */
  function Taken(t: Tunnel, now: int): Tunnel {
    t.(traffic := t.traffic.(inbound := false, outbound := false),
       lastUsed := if t.traffic.inbound || t.traffic.outbound then now else t.lastUsed,
       checks := t.checks + [t.marks])
  }

  function Pending(t: Tunnel, v: bool): Tunnel {
    t.(traffic := t.traffic.(pendingDeletion := v))
  }

  predicate Inactive(t: Tunnel, f: Findings) {
    f.dropInactive && f.now - t.lastUsed >= f.inactivityTimeout
  }

  /** makeTrafficDecision for a tunnel in the host map: what becomes of it, what is to be done, and
      the timer set for the next check, if any. */
  function Decide(c: Config, t: Tunnel, f: Findings): Verdict {
    if f.invalidCert then Verdict(t, CloseTunnel, None)
    else if f.exhausted then Verdict(t, DeleteTunnel(false), None)
    else
      var t' := Taken(t, f.now);
      if t.traffic.inbound then
        Verdict(Pending(t', false).(spared := false),
                if f.primary then TryRehandshake else if f.swap then SwapPrimary else MigrateRelays,
                Some(c.checkInterval))
      else if t.traffic.pendingDeletion then Verdict(t', DeleteTunnel(true), None)
      else if f.connected && f.primary && !t.traffic.outbound then
        Verdict(t'.(spared := true),
                if Inactive(t', f) then CloseTunnel else DoNothing, if Inactive(t', f) then None else Some(c.checkInterval))
      else
        Verdict(Pending(t', true).(spared := false), if f.connected && f.primary then SendTestPacket else DoNothing, Some(c.pendingDeletionInterval))
  }

  // ---- The host map's tunnels and the traffic timer ----

  /** What the one goroutine that runs the checks has in hand: nothing, an index off the timer
      wheel, or a tunnel it has decided to delete. */
  datatype Hand = Nothing | Check(index: nat) | Doomed(index: nat, id: nat)

  /** indexes is the index map of the host map; dead holds every tunnel ever found dead, as it was then. */
  datatype Tunnels = Tunnels(indexes: map<nat, Tunnel>, timers: Timers<nat>, hand: Hand, dead: set<Tunnel>)

  datatype Event =
    | Add(index: nat, id: nat, epoch: nat)          // a handshake completes
    | In(index: nat)                                // traffic arrives
    | Out(index: nat, epoch: nat)                   // traffic is sent
    | Tick(clock: int)
    | Take                                          // the next due index is taken in hand
    | Decided(findings: Findings)                   // and checked
    | Deletion                                      // the doomed tunnel is deleted
    | Removal(index: nat)                           // a tunnel is deleted for any other reason

  predicate Enabled(s: Tunnels, e: Event) {
    match e
    case Add(index, id, _) => index !in s.indexes && forall i :: i in s.indexes ==> s.indexes[i].id != id
    case Tick(clock) => NotBackwards(s.timers, clock)
    case Take => s.hand.Nothing? && s.timers.expired != []
    case Decided(_) => s.hand.Check?
    case Deletion => s.hand.Doomed?
    case _ => true
  }

  /** unlockedAddHostInfo, for the one entry it makes. */
  function Added(c: Config, s: Tunnels, index: nat, id: nat, epoch: nat): Tunnels
    requires Configured(s.timers)
  {
    s.(indexes := s.indexes[index := Tunnel(id, Traffic(false, true, false, epoch), 0, 0, [0], false)],
       timers := TimerSpec.Added(s.timers, index, c.checkInterval))
  }

  function Checked(c: Config, s: Tunnels, f: Findings): Tunnels
    requires Configured(s.timers) && s.hand.Check?
  {
    var i := s.hand.index;
    if i !in s.indexes then s.(hand := Nothing)
    else
      Judged(s, i, Decide(c, s.indexes[i], f))
  }

  function Judged(s: Tunnels, i: nat, v: Verdict): Tunnels
    requires Configured(s.timers)
  {
    s.(indexes := s.indexes[i := v.tunnel],
       timers := if v.next.Some? then TimerSpec.Added(s.timers, i, v.next.value) else s.timers,
       hand := if v.decision.DeleteTunnel? || v.decision.CloseTunnel? then Doomed(i, v.tunnel.id) else Nothing,
       dead := if v.decision == DeleteTunnel(true) then s.dead + {v.tunnel} else s.dead)
  }

  /** closeTunnel on what was decided, if it is still there. */
  function Deleted(s: Tunnels): Tunnels
    requires s.hand.Doomed?
  {
    var i := s.hand.index;
    s.(indexes := if i in s.indexes && s.indexes[i].id == s.hand.id then s.indexes - {i} else s.indexes, hand := Nothing)
  }

  function Marked(s: Tunnels, i: nat, t: Tunnel): Tunnels {
    s.(indexes := s.indexes[i := t])
  }

  function Step(c: Config, s: Tunnels, e: Event): Tunnels
    requires Configured(s.timers) && Enabled(s, e)
  {
    match e
    case Add(index, id, epoch) => Added(c, s, index, id, epoch)
    case In(i) =>
      if i in s.indexes
      then Marked(s, i, s.indexes[i].(traffic := s.indexes[i].traffic.(inbound := true), marks := s.indexes[i].marks + 1)) else s
    case Out(i, epoch) =>
      if i in s.indexes then Marked(s, i, s.indexes[i].(traffic := s.indexes[i].traffic.(outbound := true, epoch := epoch))) else s
    case Tick(clock) => s.(timers := Advanced(s.timers, clock))
    case Take => s.(timers := Purged(s.timers), hand := Check(s.timers.expired[0].item))
    case Decided(f) => Checked(c, s, f)
    case Deletion => Deleted(s)
    case Removal(i) => s.(indexes := s.indexes - {i})
  }

  // ---- The invariant ----

  /** The last check found no inbound traffic since the one before it, and did not pass the tunnel by. */
  predicate FoundSilent(t: Tunnel) {
    var n := |t.checks|; n >= 2 && t.checks[n - 1] == t.checks[n - 2] && !t.spared
  }

  /** The inbound mark is up exactly if there was inbound traffic since the last check, and a tunnel is marked
      for deletion exactly if that check found it silent. */
  predicate TunnelOk(t: Tunnel) {
    var n := |t.checks|;
    && n >= 1 && t.checks[n - 1] <= t.marks && (t.traffic.inbound <==> t.marks > t.checks[n - 1])
    && (t.traffic.pendingDeletion <==> FoundSilent(t))
  }

  /** No inbound traffic in the last two intervals between checks. */
  predicate Silent(t: Tunnel) {
    var n := |t.checks|;
    n >= 3 && t.checks[n - 1] == t.checks[n - 2] == t.checks[n - 3] && t.marks == t.checks[n - 1]
  }

  predicate InHand(s: Tunnels, i: nat) {
    || s.hand == Check(i)
    || (s.hand.Doomed? && s.hand.index == i && i in s.indexes && s.indexes[i].id == s.hand.id)
  }

  ghost predicate Watched(s: Tunnels) {
    && Configured(s.timers)
    && forall i :: i in s.indexes ==> Waits(s.timers, i) || InHand(s, i)
  }

  ghost predicate Inv(s: Tunnels) {
    && Watched(s)
    && (forall i :: i in s.indexes ==> TunnelOk(s.indexes[i]))
    && (forall t :: t in s.dead ==> Silent(t))
  }

  /** A connected primary tunnel by which nothing was sent since the last check. */
  predicate Idle(t: Tunnel, f: Findings) {
    f.connected && f.primary && !t.traffic.outbound
  }

  /** A check keeps the marks in order.  It finds a tunnel dead exactly when there was no inbound traffic since the last
      check and that one found it silent already; it marks a tunnel exactly when it finds it silent for the first
      time and in use; and inbound traffic clears the mark. */
  lemma DecideOk(c: Config, t: Tunnel, f: Findings)
    requires TunnelOk(t)
    ensures var v := Decide(c, t, f);
      && TunnelOk(v.tunnel) && v.tunnel.id == t.id && v.tunnel.marks == t.marks
      && (v.decision == DeleteTunnel(true) ==> Silent(v.tunnel))
      && (v.next.None? <==> v.decision.DeleteTunnel? || v.decision.CloseTunnel?)
    ensures var v := Decide(c, t, f);
      !f.invalidCert && !f.exhausted ==>
        && (v.decision == DeleteTunnel(true) <==> !t.traffic.inbound && FoundSilent(t))
        && (v.tunnel.traffic.pendingDeletion <==> !t.traffic.inbound && (FoundSilent(t) || !Idle(t, f)))
        && (v.next == Some(c.pendingDeletionInterval) || v.next == Some(c.checkInterval) || v.next == None)
        && !v.tunnel.traffic.inbound && !v.tunnel.traffic.outbound && |v.tunnel.checks| == |t.checks| + 1
  {}

  /** What a check decides besides: a tunnel with a bad certificate is closed and one out of counters dropped at once;
      a live one is tried again or sorted out with the primary; an idle one is closed once it has been inactive
      for too long; a silent one in use is tested, and looked at again after the shorter interval. */
  lemma DecisionIs(c: Config, t: Tunnel, f: Findings)
    requires TunnelOk(t)
    ensures var v := Decide(c, t, f);
      && (v.decision == CloseTunnel <==>
            || f.invalidCert
            || (!f.exhausted && !t.traffic.inbound && !FoundSilent(t) && Idle(t, f) && f.dropInactive && f.now - t.lastUsed >= f.inactivityTimeout))
      && (v.decision == DeleteTunnel(false) <==> !f.invalidCert && f.exhausted)
      && (v.decision == SendTestPacket <==>
            !f.invalidCert && !f.exhausted && !t.traffic.inbound && !FoundSilent(t) && f.connected && f.primary && t.traffic.outbound)
      && (v.decision in {TryRehandshake, SwapPrimary, MigrateRelays} <==> !f.invalidCert && !f.exhausted && t.traffic.inbound)
      && (v.decision == TryRehandshake ==> f.primary) && (v.decision == SwapPrimary ==> !f.primary && f.swap)
      && (v.decision == MigrateRelays ==> !f.primary && !f.swap)
      && (v.next.Some? ==> v.next.value == if v.tunnel.traffic.pendingDeletion then c.pendingDeletionInterval else c.checkInterval)
      && v.tunnel.lastUsed == (if !f.invalidCert && !f.exhausted && (t.traffic.inbound || t.traffic.outbound) then f.now else t.lastUsed)
  {}

  lemma AddedWatched(c: Config, s: Tunnels, index: nat, id: nat, epoch: nat)
    requires Inv(s) && index !in s.indexes
    ensures Inv(Added(c, s, index, id, epoch))
  {
    AddedWaits(s.timers, index, c.checkInterval);
  }

  lemma CheckedWatched(c: Config, s: Tunnels, f: Findings)
    requires Inv(s) && s.hand.Check?
    ensures Inv(Checked(c, s, f))
  {
    var i := s.hand.index;
    if i in s.indexes {
      var v := Decide(c, s.indexes[i], f);
      DecideOk(c, s.indexes[i], f);
      if v.next.Some? {
        AddedWaits(s.timers, i, v.next.value);
      }
      VerdictWatched(c, s, i, v);
    }
  }

  /** A verdict with a next check sets its timer, and one without leaves the tunnel in hand. */
  lemma VerdictWatched(c: Config, s: Tunnels, i: nat, v: Verdict)
    requires Inv(s) && s.hand == Check(i) && i in s.indexes && TunnelOk(v.tunnel) && v.tunnel.id == s.indexes[i].id
    requires v.decision == DeleteTunnel(true) ==> Silent(v.tunnel)
    requires v.next.None? <==> v.decision.DeleteTunnel? || v.decision.CloseTunnel?
    requires v.next.Some? ==>
      && Waits(TimerSpec.Added(s.timers, i, v.next.value), i)
      && forall j :: Waits(s.timers, j) ==> Waits(TimerSpec.Added(s.timers, i, v.next.value), j)
    ensures Inv(Judged(s, i, v))
  {}

  lemma StepOk(c: Config, s: Tunnels, e: Event)
    requires Inv(s) && Enabled(s, e)
    ensures Inv(Step(c, s, e))
  {
    match e
    case Add(index, id, epoch) => AddedWatched(c, s, index, id, epoch);
    case In(i) => MarkedOk(c, s, e);
    case Out(i, epoch) => MarkedOk(c, s, e);
    case Tick(clock) => TickOk(s, clock);
    case Take => TakeOk(s);
    case Decided(f) => CheckedWatched(c, s, f);
    case Deletion => DeletedOk(s);
    case Removal(i) =>
  }

  lemma MarkedOk(c: Config, s: Tunnels, e: Event)
    requires Inv(s) && (e.In? || e.Out?)
    ensures Inv(Step(c, s, e))
  {}

  lemma TickOk(s: Tunnels, clock: int)
    requires Inv(s) && NotBackwards(s.timers, clock)
    ensures Inv(s.(timers := Advanced(s.timers, clock)))
  {
    forall i | Waits(s.timers, i) ensures Waits(Advanced(s.timers, clock), i) { AdvancedWaits(s.timers, clock, i); }
  }

  lemma TakeOk(s: Tunnels)
    requires Inv(s) && s.hand.Nothing? && s.timers.expired != []
    ensures Inv(s.(timers := Purged(s.timers), hand := Check(s.timers.expired[0].item)))
  {
    forall i | i in s.indexes ensures Waits(Purged(s.timers), i) || s.timers.expired[0].item == i { PurgedWaits(s.timers, i); }
  }

  lemma DeletedOk(s: Tunnels)
    requires Inv(s) && s.hand.Doomed?
    ensures Inv(Deleted(s))
  {}

  // ---- Runs ----

  ghost predicate IsRun(c: Config, states: seq<Tunnels>, events: seq<Event>) {
    && |states| == |events| + 1 && Configured(states[0].timers)
    && states[0].indexes == map[] && states[0].hand.Nothing? && states[0].dead == {}
    && forall k :: 0 <= k < |events| ==>
         Enabled(states[k], events[k]) && (Configured(states[k].timers) ==> states[k + 1] == Step(c, states[k], events[k]))
  }

  lemma {:induction false} RunOk(c: Config, states: seq<Tunnels>, events: seq<Event>, k: nat)
    requires IsRun(c, states, events) && k < |states|
    ensures Inv(states[k])
    decreases k
  {
    if k > 0 {
      RunOk(c, states, events, k - 1);
      StepOk(c, states[k - 1], events[k - 1]);
    }
  }

  /** Every tunnel in the host map has its next check on the timer wheel, or is being seen to. */
  lemma LiveIsWatched(c: Config, states: seq<Tunnels>, events: seq<Event>, k: nat, i: nat)
    requires IsRun(c, states, events) && k < |states| && i in states[k].indexes
    ensures Waits(states[k].timers, i) || InHand(states[k], i)
  {
    RunOk(c, states, events, k);
  }

  /** A tunnel deleted as dead had no inbound traffic over the whole of its last two check intervals. */
  lemma DeadWasSilent(c: Config, states: seq<Tunnels>, events: seq<Event>, k: nat, t: Tunnel)
    requires IsRun(c, states, events) && k < |states| && t in states[k].dead
    ensures Silent(t)
  {
    RunOk(c, states, events, k);
  }
}
