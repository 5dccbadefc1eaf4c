/** How long a tracked connection lasts: what a look-up answers, what a purge drops, and what is let through again. */
module ConntrackLife {
  import opened Options
  import W = TimerSpec
  import opened FirewallRules
  import opened Conntrack

  // ---- One locked section ----

  /** How long a connection is kept after its last packet. */
  ghost predicate IsTimeout(rules: Ruleset, p: Packet, timeout: int) {
    && (p.protocol == TCP ==> timeout == rules.tcpTimeout)
    && (p.protocol == UDP ==> timeout == rules.udpTimeout)
    && (p.protocol != TCP && p.protocol != UDP ==> timeout == rules.defaultTimeout)
  }

  /** The connection whose timer is the next to be purged, once it has lapsed. */
  ghost predicate Lapsed(t: Track, q: Packet, now: Readings) {
    t.timers.expired != [] && t.timers.expired[0].item == q && q in t.conns && t.conns[q].expires <= now.first
  }

  /** The purge drops a connection exactly when its timer is next and it has lapsed. */
  lemma PurgeDropsLapsed(t: Track, now: Readings, q: Packet)
    requires Usable(t, now)
    ensures var t' := PurgeOne(t, now);
      && (q in t'.conns <==> q in t.conns && !Lapsed(t, q, now))
      && (q in t'.conns ==> t'.conns[q] == t.conns[q])
  {}

  /** A look-up lets the packet through exactly when it is tracked and not lapsed, and was let through by these rules or
      passes them now in the direction it was first let through in.  It is then renewed; otherwise it is not
      tracked any more.  No other connection changes beyond the purge. */
  lemma LookUpIff(t: Track, rules: Ruleset, version: nat, p: Packet, peer: Peer, now: Readings, q: Packet)
    requires Usable(t, now)
    ensures var (t', ok) := InConns(t, rules, version, p, peer, now);
      && (ok <==> && p in t.conns && !Lapsed(t, p, now)
                  && (t.conns[p].version == version || Passes(rules, p, t.conns[p].incoming, peer)))
      && (ok ==> && p in t'.conns && t'.conns[p].incoming == t.conns[p].incoming && t'.conns[p].version == version
                 && IsTimeout(rules, p, t'.conns[p].expires - now.third))
      && (!ok ==> p !in t'.conns)
      && (q != p ==> (q in t'.conns <==> q in t.conns && !Lapsed(t, q, now)) && (q in t'.conns ==> t'.conns[q] == t.conns[q]))
  {
    PurgeDropsLapsed(t, now, p);
    PurgeDropsLapsed(t, now, q);
  }

  /** addConn tracks the packet in its direction and renews it, and leaves the others. */
  lemma AddConnTracks(t: Track, rules: Ruleset, version: nat, p: Packet, incoming: bool, now: Readings, q: Packet)
    requires Usable(t, now)
    ensures var t' := AddConn(t, rules, version, p, incoming, now);
      && p in t'.conns && t'.conns[p].incoming == incoming && t'.conns[p].version == version
      && IsTimeout(rules, p, t'.conns[p].expires - now.second)
      && (q != p ==> (q in t'.conns <==> q in t.conns) && (q in t'.conns ==> t'.conns[q] == t.conns[q]))
  {}

  /** A connection whose timer came too early is timed for the rest of its life, a new one for all of it. */
  lemma TimedForLife(t: Track, rules: Ruleset, version: nat, p: Packet, incoming: bool, now: Readings)
    requires Usable(t, now)
    ensures t.timers.expired != [] && t.timers.expired[0].item == p && p in PurgeOne(t, now).conns ==>
      W.DueIn(PurgeOne(t, now).timers, p, t.conns[p].expires - now.first)
    ensures p !in t.conns ==> exists timeout :: IsTimeout(rules, p, timeout) && W.DueIn(AddConn(t, rules, version, p, incoming, now).timers, p, timeout)
  {
    if t.timers.expired != [] && t.timers.expired[0].item == p && p in PurgeOne(t, now).conns {
      W.AddedIsDue(W.Advanced(W.Purged(t.timers), now.second), p, t.conns[p].expires - now.first);
    }
    if p !in t.conns {
      W.AddedIsDue(W.Advanced(t.timers, now.first), p, TimeoutFor(rules, p));
      assert IsTimeout(rules, p, TimeoutFor(rules, p));
    }
  }

  /** A new table's wheel turns at the shortest of the three timeouts and spans the longest, so none of them is cut
      short or drawn out. */
  lemma TimeoutsFit(r: Ruleset, p: Packet)
    requires Loadable(r)
    ensures var w := NewTrack(r).timers;
      && w.tick in {r.tcpTimeout, r.udpTimeout, r.defaultTimeout} && w.longest in {r.tcpTimeout, r.udpTimeout, r.defaultTimeout}
      && W.Clamp(TimeoutFor(r, p), w.tick, w.longest) == TimeoutFor(r, p)
      && NewTrack(r).conns == map[]
  {}

  // ---- Runs ----

  /** The event lets packet p through firewall fw. */
  predicate Admits(w: World, e: Event, fw: nat, p: Packet) {
    && Enabled(w, e)
    && match e
       case Reload(_) => false
       case Look(g, q, peer, now) =>
         g == fw && q == p && Ready(w, fw, now)
         && var f := w.firewalls[fw]; InConns(w.tracks[f.track], f.rules, f.version, p, peer, now).1
       case Test(g, q, incoming, peer, now) => g == fw && q == p && Ready(w, fw, now) && Passes(w.firewalls[fw].rules, p, incoming, peer)
  }

  /** What is on record as let through is what events have let through. */
  lemma AdmissionsAreRecorded(w: World, e: Event, a: Admission)
    requires Inv(w)
    ensures a in Step(w, e).admitted <==> a in w.admitted || Admits(w, e, a.fw, a.packet)
  {
    if Enabled(w, e) {
      match e
      case Reload(_) =>
      case Look(fw, _, _, now) => TrackUsable(w, fw, now);
      case Test(fw, _, _, _, now) => TrackUsable(w, fw, now);
    }
  }

  /** The clock reading its renewal counts from. */
  function TimeOf(e: Event): int {
    match e
    case Reload(_) => 0
    case Look(_, _, _, now) => now.third
    case Test(_, _, _, _, now) => now.second
  }

  /** The event is not about p by another firewall that works on the same connection table. */
  predicate LeavesAlone(e: Event, fw: nat, p: Packet) {
    match e
    case Reload(_) => true
    case Look(g, q, _, _) => q == p && g / VERSIONS == fw / VERSIONS ==> g == fw
    case Test(g, q, _, _, _) => q == p && g / VERSIONS == fw / VERSIONS ==> g == fw
  }

  /** p is tracked, let through by firewall fw last, and does not lapse before `until`. */
  ghost predicate Held(w: World, fw: nat, p: Packet, until: int) {
    && fw < |w.firewalls| && w.firewalls[fw].track < |w.tracks|
    && var f := w.firewalls[fw]; var conns := w.tracks[f.track].conns;
    && p in conns && conns[p].version == f.version && conns[p].expires >= until
    && until <= w.clock + TimeoutFor(f.rules, p)
  }

  lemma AdmittedIsHeld(w: World, e: Event, fw: nat, p: Packet)
    requires Inv(w) && Admits(w, e, fw, p)
    ensures Held(Step(w, e), fw, p, TimeOf(e) + TimeoutFor(w.firewalls[fw].rules, p))
  {}

  lemma ReloadHolds(w: World, rules: Ruleset, fw: nat, p: Packet, until: int)
    requires Inv(w) && Held(w, fw, p, until) && Loadable(rules)
    ensures Held(Reloaded(w, rules), fw, p, until)
  {}

  lemma LookHolds(w: World, e: Event, fw: nat, p: Packet, until: int)
    requires Inv(w) && e.Look? && Enabled(w, e) && Held(w, fw, p, until) && LeavesAlone(e, fw, p) && e.now.first < until
    ensures Held(Step(w, e), fw, p, until)
  {
    TrackUsable(w, e.fw, e.now);
    var f := w.firewalls[e.fw];
    assert f.track == e.fw / VERSIONS && w.firewalls[fw].track == fw / VERSIONS;
    LookUpIff(w.tracks[f.track], f.rules, f.version, e.packet, e.peer, e.now, p);
  }

  lemma TestHolds(w: World, e: Event, fw: nat, p: Packet, until: int)
    requires Inv(w) && e.Test? && Enabled(w, e) && Held(w, fw, p, until) && LeavesAlone(e, fw, p)
    ensures Held(Step(w, e), fw, p, until)
  {
    TrackUsable(w, e.fw, e.now);
    var f := w.firewalls[e.fw];
    assert f.track == e.fw / VERSIONS && w.firewalls[fw].track == fw / VERSIONS;
    AddConnTracks(w.tracks[f.track], f.rules, f.version, e.packet, e.incoming, e.now, p);
  }

  lemma StepHolds(w: World, e: Event, fw: nat, p: Packet, until: int)
    requires Inv(w) && Held(w, fw, p, until) && LeavesAlone(e, fw, p) && Step(w, e).clock < until
    ensures Held(Step(w, e), fw, p, until)
  {
    if Enabled(w, e) {
      match e
      case Reload(rules) => ReloadHolds(w, rules, fw, p, until);
      case Look(g, _, _, now) =>
        TrackUsable(w, g, now);
        LookHolds(w, e, fw, p, until);
      case Test(g, _, _, _, now) => TestHolds(w, e, fw, p, until);
    }
  }

  lemma StepClock(w: World, e: Event)
    ensures w.clock <= Step(w, e).clock
  {}

  lemma {:induction false} RunHolds(w: World, events: seq<Event>, fw: nat, p: Packet, until: int)
    requires Inv(w) && Held(w, fw, p, until) && Run(w, events).clock < until
    requires forall e :: e in events ==> LeavesAlone(e, fw, p)
    ensures Held(Run(w, events), fw, p, until)
    decreases |events|
  {
    if events != [] {
      var before := Run(w, events[..|events| - 1]);
      StepClock(before, events[|events| - 1]);
      RunOk(w, events[..|events| - 1]);
      RunHolds(w, events[..|events| - 1], fw, p, until);
      StepHolds(before, events[|events| - 1], fw, p, until);
    }
  }

  lemma HeldIsAdmitted(w: World, fw: nat, p: Packet, until: int, peer: Peer, now: Readings)
    requires Inv(w) && Held(w, fw, p, until) && Enabled(w, Look(fw, p, peer, now)) && now.first < until
    ensures Admits(w, Look(fw, p, peer, now), fw, p)
  {
    TrackUsable(w, fw, now);
    var f := w.firewalls[fw];
    LookUpIff(w.tracks[f.track], f.rules, f.version, p, peer, now, p);
  }

  /** In every run: a packet let through by a firewall is let through again by it, whoever the peer and whichever the
      direction, up to its protocol's timeout later, as long as no other firewall on the same table deals with the
      same packet.  Reloads, version wraps and any other traffic in between make no difference. */
  lemma AdmittedAgain(r: Ruleset, events: seq<Event>, e: Event, more: seq<Event>, fw: nat, p: Packet, timeout: int, peer: Peer, now: Readings)
    requires Loadable(r) && Admits(Run(First(r), events), e, fw, p)
    requires forall x :: x in more ==> LeavesAlone(x, fw, p)
    requires var w := Run(First(r), events);
      && IsTimeout(w.firewalls[fw].rules, p, timeout)
      && Enabled(Run(Step(w, e), more), Look(fw, p, peer, now)) && now.first < TimeOf(e) + timeout
    ensures Admits(Run(Step(Run(First(r), events), e), more), Look(fw, p, peer, now), fw, p)
  {
    FirstOk(r);
    RunOk(First(r), events);
    var w := Run(First(r), events);
    StepOk(w, e);
    AdmittedIsHeld(w, e, fw, p);
    var until := TimeOf(e) + timeout;
    RunOk(Step(w, e), more);
    RunHolds(Step(w, e), more, fw, p, until);
    HeldIsAdmitted(Run(Step(w, e), more), fw, p, until, peer, now);
  }
}
