/** The connection table of the firewall on values, and its life across reloads of the rules. */
module Conntrack {
  import opened Options
  import opened TimerSpec
  import opened FirewallRules

  /** A tracked connection: when it lapses, the direction it was let through in and the version of
      the rules that last let it through. */
  datatype Conn = Conn(expires: int, incoming: bool, version: nat)

  datatype Track = Track(conns: map<Packet, Conn>, timers: Timers<Packet>)

  /** One set of rules with the conntrack timeouts configured beside them. */
  datatype Ruleset = Ruleset(inRules: Table, outRules: Table, tcpTimeout: int, udpTimeout: int, defaultTimeout: int)

  predicate Passes(rules: Ruleset, p: Packet, incoming: bool, peer: Peer) {
    Match(if incoming then rules.inRules else rules.outRules, p, incoming, peer)
  }

  function TimeoutFor(rules: Ruleset, p: Packet): int {
    if p.protocol == TCP then rules.tcpTimeout else if p.protocol == UDP then rules.udpTimeout else rules.defaultTimeout
  }

  /** Readings of the clock inside one locked section, in the order they are taken. */
  datatype Readings = Readings(first: int, second: int, third: int)

  predicate Usable(t: Track, now: Readings) {
    Configured(t.timers) && NotBackwards(t.timers, now.first) && now.first <= now.second <= now.third
  }

  /** evict */
  function Evict(t: Track, p: Packet, now: Readings): Track
    requires Usable(t, now)
  {
    if p !in t.conns then t
    else if t.conns[p].expires - now.first > 0 then
      t.(timers := Added(Advanced(t.timers, now.second), p, t.conns[p].expires - now.first))
    else t.(conns := t.conns - {p})
  }

  /** The purge at the head of inConns. */
  function PurgeOne(t: Track, now: Readings): Track
    requires Usable(t, now)
  {
    if t.timers.expired == [] then t else Evict(t.(timers := Purged(t.timers)), t.timers.expired[0].item, now)
  }

  /** The lookup in inConns: a connection from older rules must pass the present ones. */
  function Rechecked(conns: map<Packet, Conn>, rules: Ruleset, version: nat, p: Packet, peer: Peer, now: int)
    : (map<Packet, Conn>, bool)
  {
    if p !in conns then (conns, false)
    else if conns[p].version != version && !Passes(rules, p, conns[p].incoming, peer) then (conns - {p}, false)
    else (conns[p := Conn(now + TimeoutFor(rules, p), conns[p].incoming, version)], true)
  }

  /** inConns, without a routine-local cache. */
  function InConns(t: Track, rules: Ruleset, version: nat, p: Packet, peer: Peer, now: Readings): (Track, bool)
    requires Usable(t, now)
  {
    var t' := PurgeOne(t, now);
    var (conns, ok) := Rechecked(t'.conns, rules, version, p, peer, now.third);
    (t'.(conns := conns), ok)
  }

  /** addConn */
  function AddConn(t: Track, rules: Ruleset, version: nat, p: Packet, incoming: bool, now: Readings): Track
    requires Usable(t, now)
  {
    var timers := if p in t.conns then t.timers else Added(Advanced(t.timers, now.first), p, TimeoutFor(rules, p));
    Track(t.conns[p := Conn(now.second + TimeoutFor(rules, p), incoming, version)], timers)
  }

  // ---- Every tracked connection has a timer ----

  ghost predicate Timed(t: Track) {
    forall p :: p in t.conns ==> Waits(t.timers, p)
  }

  /** A wheel in working order, not ahead of the clock. */
  predicate InTime(t: Track, clock: int) {
    Configured(t.timers) && NotBackwards(t.timers, clock)
  }

  lemma ReaddedTimes(t: Track, p: Packet, timeout: int, now: int, later: int)
    requires InTime(t, now) && now <= later
    ensures var timers := Added(Advanced(t.timers, now), p, timeout);
      && Configured(timers) && NotBackwards(timers, later) && Waits(timers, p)
      && (forall q :: Waits(t.timers, q) ==> Waits(timers, q))
  {
    AddedWaits(Advanced(t.timers, now), p, timeout);
    AdvancedNotBackwards(t.timers, now, later);
    forall q | Waits(t.timers, q) ensures Waits(Advanced(t.timers, now), q) {
      AdvancedWaits(t.timers, now, q);
    }
  }

  lemma PurgeOneTimed(t: Track, now: Readings)
    requires Usable(t, now) && Timed(t)
    ensures Timed(PurgeOne(t, now)) && InTime(PurgeOne(t, now), now.third)
  {
    if t.timers.expired != [] {
      var q := t.timers.expired[0].item;
      var t1 := t.(timers := Purged(t.timers));
      OthersWait(t, q, t1);
      EvictTimed(t1, q, now);
    }
  }

  /** Evicting a connection whose timer is gone: it gets another one or is dropped. */
  lemma EvictTimed(t: Track, q: Packet, now: Readings)
    requires Usable(t, now) && forall p :: p in t.conns && p != q ==> Waits(t.timers, p)
    ensures Timed(Evict(t, q, now)) && InTime(Evict(t, q, now), now.third)
  {
    if q in t.conns && t.conns[q].expires - now.first > 0 {
      ReaddedTimes(t, q, t.conns[q].expires - now.first, now.second, now.third);
    }
  }

  /** Taking the first expired item from the wheel leaves every other connection its timer. */
  lemma OthersWait(t: Track, q: Packet, t': Track)
    requires Configured(t.timers) && Timed(t) && t.timers.expired != [] && q == t.timers.expired[0].item && t' == t.(timers := Purged(t.timers))
    ensures forall p :: p in t.conns && p != q ==> Waits(t'.timers, p)
  {
    forall p | p in t.conns && p != q ensures Waits(t'.timers, p) {
      PurgedWaits(t.timers, p);
    }
  }

  lemma InConnsTimed(t: Track, rules: Ruleset, version: nat, p: Packet, peer: Peer, now: Readings)
    requires Usable(t, now) && Timed(t)
    ensures var t' := InConns(t, rules, version, p, peer, now).0; Timed(t') && InTime(t', now.third)
  {
    PurgeOneTimed(t, now);
  }

  lemma AddConnTimed(t: Track, rules: Ruleset, version: nat, p: Packet, incoming: bool, now: Readings)
    requires Usable(t, now) && Timed(t)
    ensures var t' := AddConn(t, rules, version, p, incoming, now); Timed(t') && InTime(t', now.third)
  {
    if p !in t.conns {
      ReaddedTimes(t, p, TimeoutFor(rules, p), now.first, now.third);
    }
  }

  // ---- Reloads ----

  /** rulesVersion is a uint16. */
  const VERSIONS: nat := 0x1_0000

  /** An installed firewall: the version of its rules and which connection table it works on. */
  datatype Installed = Installed(rules: Ruleset, version: nat, track: nat)

  /** A rule check that came out well, by the firewall number `fw`. */
  datatype Check = Check(fw: nat, packet: Packet, incoming: bool, peer: Peer)

  datatype Admission = Admission(fw: nat, packet: Packet)

  /** The firewalls ever installed, the last of them current; a goroutine may still be using an
      earlier one.  Every successful rule check and every packet let through is on record. */
  datatype World = World(firewalls: seq<Installed>, tracks: seq<Track>, clock: int, checks: set<Check>, admitted: set<Admission>)

  function Largest(a: int, b: int): int { if a < b then b else a }

  function Smallest(a: int, b: int): int { if a < b then a else b }

  /** Timeouts are refused unless positive. */
  predicate Loadable(r: Ruleset) {
    r.tcpTimeout > 0 && r.udpTimeout > 0 && r.defaultTimeout > 0
  }

  function NewTrack(r: Ruleset): Track
    requires Loadable(r)
  {
    Track(map[], Empty(Smallest(Smallest(r.tcpTimeout, r.udpTimeout), r.defaultTimeout),
                       Largest(Largest(r.tcpTimeout, r.udpTimeout), r.defaultTimeout)))
  }

  function First(r: Ruleset): World
    requires Loadable(r)
  {
    World([Installed(r, 0, 0)], [NewTrack(r)], 0, {}, {})
  }

  /** reloadFirewall, with rules that differ: the next version, and a fresh table when it wraps. */
  function Reloaded(w: World, r: Ruleset): World
    requires w.firewalls != [] && Loadable(r)
  {
    var current := w.firewalls[|w.firewalls| - 1];
    var version := (current.version + 1) % VERSIONS;
    if version == 0
    then w.(firewalls := w.firewalls + [Installed(r, 0, |w.tracks|)], tracks := w.tracks + [NewTrack(r)])
    else w.(firewalls := w.firewalls + [Installed(r, version, current.track)])
  }

  /** The locked section of inConns, in a Drop by firewall number `fw`. */
  function Looked(w: World, fw: nat, p: Packet, peer: Peer, now: Readings): World
    requires fw < |w.firewalls| && w.firewalls[fw].track < |w.tracks| && Usable(w.tracks[w.firewalls[fw].track], now)
  {
    var f := w.firewalls[fw];
    var t := PurgeOne(w.tracks[f.track], now);
    var (t', ok) := InConns(w.tracks[f.track], f.rules, f.version, p, peer, now);
    w.(tracks := w.tracks[f.track := t'], clock := now.third,
       checks := if ok && t.conns[p].version != f.version then w.checks + {Check(fw, p, t.conns[p].incoming, peer)} else w.checks,
       admitted := if ok then w.admitted + {Admission(fw, p)} else w.admitted)
  }

  /** The rest of that Drop when the connection was not known: the rules, and addConn. */
  function Tested(w: World, fw: nat, p: Packet, incoming: bool, peer: Peer, now: Readings): World
    requires fw < |w.firewalls| && w.firewalls[fw].track < |w.tracks| && Usable(w.tracks[w.firewalls[fw].track], now)
  {
    var f := w.firewalls[fw];
    if !Passes(f.rules, p, incoming, peer) then w
    else
      w.(tracks := w.tracks[f.track := AddConn(w.tracks[f.track], f.rules, f.version, p, incoming, now)], clock := now.third,
         checks := w.checks + {Check(fw, p, incoming, peer)},
         admitted := w.admitted + {Admission(fw, p)})
  }

  datatype Event =
    | Reload(rules: Ruleset)
    | Look(fw: nat, packet: Packet, peer: Peer, now: Readings)
    | Test(fw: nat, packet: Packet, incoming: bool, peer: Peer, now: Readings)

  // ---- The invariant over all runs ----

  /** Firewall number n has version n mod 2^16, and one connection table serves 2^16 of them. */
  ghost predicate Numbered(w: World) {
    && w.firewalls != [] && |w.tracks| == (|w.firewalls| - 1) / VERSIONS + 1
    && forall n :: 0 <= n < |w.firewalls| ==> w.firewalls[n].version == n % VERSIONS && w.firewalls[n].track == n / VERSIONS
  }

  ghost predicate ChecksOk(w: World) {
    forall c :: c in w.checks ==> c.fw < |w.firewalls| && Passes(w.firewalls[c.fw].rules, c.packet, c.incoming, c.peer)
  }

  /** Firewall number `fw` has let this packet through its own rules. */
  ghost predicate Checked(w: World, fw: nat, p: Packet) {
    exists c :: c in w.checks && c.fw == fw && c.packet == p
  }

  /** A connection in table k with version v was let through by the one firewall that uses table k
      at version v. */
  ghost predicate ConnsOk(w: World) {
    forall k, p {:trigger w.tracks[k].conns[p]} :: 0 <= k < |w.tracks| && p in w.tracks[k].conns ==>
      w.tracks[k].conns[p].version < VERSIONS && Checked(w, k * VERSIONS + w.tracks[k].conns[p].version, p)
  }

  ghost predicate Inv(w: World) {
    && Numbered(w) && ChecksOk(w) && ConnsOk(w)
    && (forall k :: 0 <= k < |w.tracks| ==> Timed(w.tracks[k]) && InTime(w.tracks[k], w.clock))
    && (forall a :: a in w.admitted ==> Checked(w, a.fw, a.packet))
  }

  predicate Enabled(w: World, e: Event) {
    match e
    case Reload(rules) => w.firewalls != [] && Loadable(rules)
    case Look(fw, _, _, now) => fw < |w.firewalls| && w.clock <= now.first <= now.second <= now.third
    case Test(fw, _, _, _, now) => fw < |w.firewalls| && w.clock <= now.first <= now.second <= now.third
  }

  /** What the locked sections need of the connection table, and always find. */
  predicate Ready(w: World, fw: nat, now: Readings) {
    fw < |w.firewalls| && w.firewalls[fw].track < |w.tracks| && Usable(w.tracks[w.firewalls[fw].track], now)
  }

  lemma TrackUsable(w: World, fw: nat, now: Readings)
    requires Inv(w) && fw < |w.firewalls| && w.clock <= now.first <= now.second <= now.third
    ensures Ready(w, fw, now) && Timed(w.tracks[w.firewalls[fw].track])
    ensures fw == w.firewalls[fw].track * VERSIONS + w.firewalls[fw].version
  {
    assert w.firewalls[fw].track == fw / VERSIONS;
    DivMonotone(fw, |w.firewalls| - 1, VERSIONS);
    assert InTime(w.tracks[fw / VERSIONS], w.clock);
  }

  /** An event that is not enabled does not happen. */
  function Step(w: World, e: Event): World {
    if !Enabled(w, e) then w
    else match e
      case Reload(rules) => Reloaded(w, rules)
      case Look(fw, p, peer, now) => if Ready(w, fw, now) then Looked(w, fw, p, peer, now) else w
      case Test(fw, p, incoming, peer, now) => if Ready(w, fw, now) then Tested(w, fw, p, incoming, peer, now) else w
  }

  function Run(w: World, events: seq<Event>): World
    decreases |events|
  {
    if events == [] then w else Step(Run(w, events[..|events| - 1]), events[|events| - 1])
  }

  lemma FirstOk(r: Ruleset)
    requires Loadable(r)
    ensures Inv(First(r))
  {
    var w := First(r);
    EmptyIsSound<Packet>(w.tracks[0].timers.tick, w.tracks[0].timers.longest);
    assert w.firewalls[0].version == 0 % VERSIONS;
  }

  lemma ReloadedNumbered(w: World, r: Ruleset)
    requires Numbered(w) && Loadable(r)
    ensures Numbered(Reloaded(w, r))
  {
    var n := |w.firewalls|;
    var current := w.firewalls[n - 1];
    assert current.version == (n - 1) % VERSIONS && current.track == (n - 1) / VERSIONS;
    NextNumber(n);
  }

  lemma NextNumber(n: nat)
    requires n > 0
    ensures ((n - 1) % VERSIONS + 1) % VERSIONS == n % VERSIONS
    ensures n / VERSIONS == (n - 1) / VERSIONS + (if n % VERSIONS == 0 then 1 else 0)
  {}

  lemma ReloadedOk(w: World, r: Ruleset)
    requires Inv(w) && Loadable(r)
    ensures Inv(Reloaded(w, r))
  {
    var w' := Reloaded(w, r);
    ReloadedNumbered(w, r);
    EmptyIsSound<Packet>(NewTrack(r).timers.tick, NewTrack(r).timers.longest);
    forall k, p | 0 <= k < |w'.tracks| && p in w'.tracks[k].conns
      ensures w'.tracks[k].conns[p].version < VERSIONS && Checked(w', k * VERSIONS + w'.tracks[k].conns[p].version, p)
    {
      assert k < |w.tracks| && w'.tracks[k] == w.tracks[k];
      assert Checked(w, k * VERSIONS + w.tracks[k].conns[p].version, p);
    }
    forall a | a in w'.admitted ensures Checked(w', a.fw, a.packet) {
      assert Checked(w, a.fw, a.packet);
    }
  }

  lemma ChecksGrow(w: World, w': World, fw: nat, p: Packet)
    requires w.checks <= w'.checks && Checked(w, fw, p)
    ensures Checked(w', fw, p)
  {}

  /** One connection table has changed: what it holds was there before with the same version, or
      was let through by the firewall at work. */
  lemma TrackReplaced(w: World, w': World, fw: nat)
    requires Inv(w) && fw < |w.firewalls| && w.firewalls[fw].track < |w.tracks|
    requires w'.firewalls == w.firewalls && |w'.tracks| == |w.tracks|
    requires w.checks <= w'.checks && ChecksOk(w') && w.clock <= w'.clock
    requires var k := w.firewalls[fw].track; var t' := w'.tracks[k];
      && w'.tracks == w.tracks[k := t'] && Timed(t') && InTime(t', w'.clock)
      && forall q :: q in t'.conns ==>
           || (q in w.tracks[k].conns && t'.conns[q].version == w.tracks[k].conns[q].version)
           || (t'.conns[q].version == w.firewalls[fw].version && Checked(w', fw, q))
    requires forall a :: a in w'.admitted ==> a in w.admitted || Checked(w', a.fw, a.packet)
    ensures Inv(w')
  {
    var k0 := w.firewalls[fw].track;
    TrackUsable(w, fw, Readings(w.clock, w.clock, w.clock));
    forall k, p | 0 <= k < |w'.tracks| && p in w'.tracks[k].conns
      ensures w'.tracks[k].conns[p].version < VERSIONS && Checked(w', k * VERSIONS + w'.tracks[k].conns[p].version, p)
    {
      if p in w.tracks[k].conns && w'.tracks[k].conns[p].version == w.tracks[k].conns[p].version {
        ChecksGrow(w, w', k * VERSIONS + w.tracks[k].conns[p].version, p);
      } else {
        assert k == k0;
      }
    }
    forall a | a in w'.admitted ensures Checked(w', a.fw, a.packet) {
      if a in w.admitted { ChecksGrow(w, w', a.fw, a.packet); }
    }
    forall k | 0 <= k < |w'.tracks| ensures Timed(w'.tracks[k]) && InTime(w'.tracks[k], w'.clock) {
      assert k != k0 ==> Timed(w.tracks[k]) && InTime(w.tracks[k], w.clock);
    }
  }

  /** inConns drops connections and renews the one asked for; it starts none. */
  lemma InConnsConns(t: Track, rules: Ruleset, version: nat, p: Packet, peer: Peer, now: Readings)
    requires Usable(t, now)
    ensures var (t', ok) := InConns(t, rules, version, p, peer, now);
      && (ok ==> p in t.conns && p in PurgeOne(t, now).conns && PurgeOne(t, now).conns[p] == t.conns[p])
      && forall q :: q in t'.conns ==>
           q in t.conns && (t'.conns[q].version == t.conns[q].version || (q == p && ok && t'.conns[q].version == version))
  {}

  lemma LookedChecked(w: World, fw: nat, p: Packet, peer: Peer, now: Readings)
    requires Inv(w) && Enabled(w, Look(fw, p, peer, now)) && Ready(w, fw, now)
    requires var f := w.firewalls[fw]; InConns(w.tracks[f.track], f.rules, f.version, p, peer, now).1
    ensures Checked(Looked(w, fw, p, peer, now), fw, p) && ChecksOk(Looked(w, fw, p, peer, now))
  {
    var f := w.firewalls[fw];
    TrackUsable(w, fw, now);
    InConnsConns(w.tracks[f.track], f.rules, f.version, p, peer, now);
    var c := w.tracks[f.track].conns[p];
    if c.version == f.version {
      assert Checked(w, f.track * VERSIONS + c.version, p);
      ChecksGrow(w, Looked(w, fw, p, peer, now), fw, p);
    } else {
      assert Check(fw, p, c.incoming, peer) in Looked(w, fw, p, peer, now).checks;
    }
  }

  lemma LookedOk(w: World, fw: nat, p: Packet, peer: Peer, now: Readings)
    requires Inv(w) && Enabled(w, Look(fw, p, peer, now))
    ensures Ready(w, fw, now) && Inv(Looked(w, fw, p, peer, now))
  {
    TrackUsable(w, fw, now);
    var f := w.firewalls[fw];
    InConnsTimed(w.tracks[f.track], f.rules, f.version, p, peer, now);
    InConnsConns(w.tracks[f.track], f.rules, f.version, p, peer, now);
    if InConns(w.tracks[f.track], f.rules, f.version, p, peer, now).1 {
      LookedChecked(w, fw, p, peer, now);
    }
    LookedReplaces(w, fw, p, peer, now, Looked(w, fw, p, peer, now));
  }

  lemma LookedReplaces(w: World, fw: nat, p: Packet, peer: Peer, now: Readings, w': World)
    requires Inv(w) && Enabled(w, Look(fw, p, peer, now)) && Ready(w, fw, now) && w' == Looked(w, fw, p, peer, now)
    requires var f := w.firewalls[fw]; var (t', ok) := InConns(w.tracks[f.track], f.rules, f.version, p, peer, now);
      && Timed(t') && InTime(t', now.third)
      && (ok ==> Checked(w', fw, p) && ChecksOk(w'))
      && forall q :: q in t'.conns ==>
           q in w.tracks[f.track].conns
           && (t'.conns[q].version == w.tracks[f.track].conns[q].version || (q == p && ok && t'.conns[q].version == f.version))
    ensures Inv(w')
  {
    TrackReplaced(w, w', fw);
  }

  lemma TestedOk(w: World, fw: nat, p: Packet, incoming: bool, peer: Peer, now: Readings)
    requires Inv(w) && Enabled(w, Test(fw, p, incoming, peer, now))
    ensures Ready(w, fw, now) && Inv(Tested(w, fw, p, incoming, peer, now))
  {
    TrackUsable(w, fw, now);
    var f := w.firewalls[fw];
    if Passes(f.rules, p, incoming, peer) {
      var w' := Tested(w, fw, p, incoming, peer, now);
      TestedChecked(w, fw, p, incoming, peer, w');
      AddConnTimed(w.tracks[f.track], f.rules, f.version, p, incoming, now);
      AddConnConns(w.tracks[f.track], f.rules, f.version, p, incoming, now);
      TrackReplaced(w, w', fw);
    }
  }

  lemma TestedChecked(w: World, fw: nat, p: Packet, incoming: bool, peer: Peer, w': World)
    requires ChecksOk(w) && fw < |w.firewalls| && Passes(w.firewalls[fw].rules, p, incoming, peer)
    requires w'.firewalls == w.firewalls && w'.checks == w.checks + {Check(fw, p, incoming, peer)}
    ensures ChecksOk(w') && Checked(w', fw, p)
  {
    assert Check(fw, p, incoming, peer) in w'.checks;
  }

  /** addConn enters the one connection with the version at hand and leaves the others. */
  lemma AddConnConns(t: Track, rules: Ruleset, version: nat, p: Packet, incoming: bool, now: Readings)
    requires Usable(t, now)
    ensures var t' := AddConn(t, rules, version, p, incoming, now);
      forall q :: q in t'.conns ==> if q == p then t'.conns[q].version == version else q in t.conns && t'.conns[q] == t.conns[q]
  {}

  lemma StepOk(w: World, e: Event)
    requires Inv(w)
    ensures Inv(Step(w, e))
  {
    if Enabled(w, e) {
      match e
      case Reload(rules) => ReloadedOk(w, rules);
      case Look(fw, p, peer, now) => LookedOk(w, fw, p, peer, now);
      case Test(fw, p, incoming, peer, now) => TestedOk(w, fw, p, incoming, peer, now);
    }
  }

  lemma {:induction false} RunOk(w: World, events: seq<Event>)
    requires Inv(w)
    ensures Inv(Run(w, events))
    decreases |events|
  {
    if events != [] {
      RunOk(w, events[..|events| - 1]);
      StepOk(Run(w, events[..|events| - 1]), events[|events| - 1]);
    }
  }

  // ---- What holds in every run ----

  /** No locked section ever finds its connection table out of order. */
  lemma AlwaysReady(r: Ruleset, events: seq<Event>, fw: nat, now: Readings)
    requires Loadable(r)
    requires var w := Run(First(r), events); fw < |w.firewalls| && w.clock <= now.first <= now.second <= now.third
    ensures Ready(Run(First(r), events), fw, now)
  {
    FirstOk(r);
    RunOk(First(r), events);
    TrackUsable(Run(First(r), events), fw, now);
  }

  /** Every tracked connection has a timer in the wheel or among the expired. */
  lemma TrackedIsTimed(r: Ruleset, events: seq<Event>, k: nat, p: Packet)
    requires Loadable(r)
    requires var w := Run(First(r), events); k < |w.tracks| && p in w.tracks[k].conns
    ensures Waits(Run(First(r), events).tracks[k].timers, p)
  {
    FirstOk(r);
    RunOk(First(r), events);
  }

  /** Every packet a firewall lets through has passed the rules of that same firewall, then or at an
      earlier step since it was installed, however many reloads and version wraps came between. */
  lemma AdmittedHasPassed(r: Ruleset, events: seq<Event>, a: Admission)
    requires Loadable(r) && a in Run(First(r), events).admitted
    ensures var w := Run(First(r), events);
      exists c :: c in w.checks && c.fw == a.fw && c.packet == a.packet && c.fw < |w.firewalls|
                  && Passes(w.firewalls[c.fw].rules, c.packet, c.incoming, c.peer)
  {
    FirstOk(r);
    RunOk(First(r), events);
    var w := Run(First(r), events);
    var c :| c in w.checks && c.fw == a.fw && c.packet == a.packet;
  }
}
