/** firewall.go: the rule tables and the connection table as they are changed in place. */
module Firewall {
  import opened Options
  import opened TimerSpec
  import opened TimerWheel
  import opened FirewallRules
  import opened Conntrack
  import opened ConntrackLife

  // ---- Matching ----

  /** FirewallRule.match */
  method MatchRule(x: RuleIndex, p: Packet, peer: Peer) returns (found: bool)
    ensures found == RuleMatch(x, p, peer)
  {
    if x.all.Some? && LocalMatch(x.all.value, p.localAddr) {
      return true;
    }
    for i := 0 to |x.groups|
      invariant forall k :: 0 <= k < i ==> !GroupsMatch(x.groups[k], p.localAddr, peer)
    {
      var all := HasAll(x.groups[i].names, peer.groups);
      if all && LocalMatch(x.groups[i].local, p.localAddr) {
        assert x.groups[i] in x.groups && GroupsMatch(x.groups[i], p.localAddr, peer);
        return true;
      }
    }
    if peer.name in x.hosts && LocalMatch(x.hosts[peer.name], p.localAddr) {
      return true;
    }
    found := MatchSupernets(x.cidr, p);
  }

  /** The loop over the groups of one rule; no groups are not matched. */
  method HasAll(names: seq<string>, groups: set<string>) returns (found: bool)
    ensures found == (names != [] && forall n :: n in names ==> n in groups)
  {
    found := false;
    for i := 0 to |names|
      invariant found == (i > 0) && forall k :: 0 <= k < i ==> names[k] in groups
    {
      if names[i] !in groups {
        return false;
      }
      found := true;
    }
  }

  /** The loop over the prefixes that hold the remote address, in whatever order. */
  method MatchSupernets(cidr: map<Prefix, LocalCidr>, p: Packet) returns (found: bool)
    ensures found == exists n :: n in cidr && Contains(n, p.remoteAddr) && LocalMatch(cidr[n], p.localAddr)
  {
    var rest := cidr.Keys;
    while rest != {}
      invariant rest <= cidr.Keys
      invariant forall n :: n in cidr && n !in rest ==> !(Contains(n, p.remoteAddr) && LocalMatch(cidr[n], p.localAddr))
      decreases |rest|
    {
      var n :| n in rest;
      if Contains(n, p.remoteAddr) && LocalMatch(cidr[n], p.localAddr) {
        return true;
      }
      rest := rest - {n};
    }
    return false;
  }

  /** FirewallCA.match */
  method MatchCa(c: CaIndex, p: Packet, peer: Peer) returns (found: bool)
    ensures found == CaMatch(c, p, peer)
  {
    if c.all.Some? {
      found := MatchRule(c.all.value, p, peer);
      if found { return; }
    }
    if peer.issuer in c.shas {
      found := MatchRule(c.shas[peer.issuer], p, peer);
      if found { return; }
    }
    if peer.caName.None? || peer.caName.value !in c.names {
      return false;
    }
    found := MatchRule(c.names[peer.caName.value], p, peer);
  }

  method MatchPort(ports: Ports, port: int, p: Packet, peer: Peer) returns (found: bool)
    ensures found == PortMatch(ports, port, p, peer)
  {
    if port !in ports {
      return false;
    }
    found := MatchCa(ports[port], p, peer);
  }

  /** firewallPort.match */
  method MatchPorts(ports: Ports, p: Packet, incoming: bool, peer: Peer) returns (found: bool)
    ensures found == PortsMatch(ports, p, incoming, peer)
  {
    if IsIcmp(p.protocol) {
      found := MatchPort(ports, PORT_ANY, p, peer);
      return;
    }
    var port := if p.fragment then PORT_FRAGMENT else if incoming then p.localPort else p.remotePort;
    found := MatchPort(ports, port, p, peer);
    if !found {
      found := MatchPort(ports, PORT_ANY, p, peer);
    }
  }

  /** FirewallTable.match */
  method MatchTable(t: Table, p: Packet, incoming: bool, peer: Peer) returns (found: bool)
    ensures found == Match(t, p, incoming, peer)
  {
    found := MatchPorts(t.anyProto, p, incoming, peer);
    if found {
      return;
    }
    if p.protocol == TCP {
      found := MatchPorts(t.tcp, p, incoming, peer);
    } else if p.protocol == UDP {
      found := MatchPorts(t.udp, p, incoming, peer);
    } else if IsIcmp(p.protocol) {
      found := MatchPorts(t.icmp, p, incoming, peer);
    }
  }

  // ---- The connection table ----

  class ConntrackTable {
    var conns: map<Packet, Conn>
    const wheel: TimerWheel<Packet>

    constructor (min: int, max: int)
      requires min > 0 && max >= 0
      ensures Valid() && View() == Track(map[], Empty(min, max))
      ensures fresh(wheel) && fresh(wheel.expired) && fresh(wheel.wheel) && wheel.g.where == map[]
      ensures forall s :: 0 <= s < wheel.wheel.Length ==> fresh(wheel.wheel[s])
    {
      conns := map[];
      wheel := new TimerWheel(min, max);
    }

    ghost predicate Valid()
      reads wheel, wheel.wheel, wheel.expired, wheel.wheel[..], wheel.g.where.Keys
    {
      wheel.Sized() && wheel.Valid()
    }

    ghost function View(): Track
      reads this`conns, wheel`g
    {
      Track(conns, wheel.g.timers)
    }

    method Readd(p: Packet, timeout: int, now: int)
      requires Valid() && NotBackwards(wheel.g.timers, now) && Configured(wheel.g.timers)
      modifies wheel, wheel.expired, wheel.wheel[..], wheel.g.where.Keys
      ensures Valid() && fresh(wheel.g.where.Keys - old(wheel.g.where.Keys))
      ensures wheel.g.timers == Added(Advanced(old(wheel.g.timers), now), p, timeout)
    {
      wheel.Advance(now);
      var ti := wheel.Add(p, timeout);
    }

    /** A connection not known yet gets a timer. */
    method Enroll(p: Packet, timeout: int, now: int)
      requires Valid() && NotBackwards(wheel.g.timers, now) && Configured(wheel.g.timers)
      modifies wheel, wheel.expired, wheel.wheel[..], wheel.g.where.Keys
      ensures Valid() && fresh(wheel.g.where.Keys - old(wheel.g.where.Keys))
      ensures wheel.g.timers == if p in conns then old(wheel.g.timers) else Added(Advanced(old(wheel.g.timers), now), p, timeout)
    {
      if p !in conns {
        Readd(p, timeout, now);
      }
    }

    /** evict */
    method Evict(p: Packet, now: Readings)
      requires Valid() && Usable(View(), now)
      modifies this`conns, wheel, wheel.expired, wheel.wheel[..], wheel.g.where.Keys
      ensures Valid() && fresh(wheel.g.where.Keys - old(wheel.g.where.Keys))
      ensures View() == Conntrack.Evict(old(View()), p, now)
    {
      if p !in conns {
        return;
      }
      var newT := conns[p].expires - now.first;
      if newT > 0 {
        Readd(p, newT, now.second);
        return;
      }
      conns := conns - {p};
    }

    /** The purge at the head of inConns. */
    method PurgeOne(now: Readings)
      requires Valid() && Usable(View(), now)
      modifies this`conns, wheel, wheel.expired, wheel.wheel[..], wheel.g.where.Keys
      ensures Valid() && fresh(wheel.g.where.Keys - old(wheel.g.where.Keys))
      ensures View() == Conntrack.PurgeOne(old(View()), now)
    {
      var ep := wheel.Purge();
      if ep.Some? {
        Evict(ep.value, now);
      }
    }
  }

  // ---- The firewall ----

  /** What the table of a hostinfo says of a prefix of its certificate. */
  datatype NetworkType = UnknownNetwork | VpnNetwork | VpnPeerNetwork | UnsafeNetwork | UnsafeVpnOverlap

  /** The networks of a hostinfo: one address only, or a table of prefixes with the most specific one first. */
  datatype HostNetworks = OneAddress(addr: Address) | Networks(lookup: Address -> Option<NetworkType>)

  datatype DropError = InvalidRemoteIP | PeerRejected | VpnOverlap | UnknownType | InvalidLocalIP | NoMatchingRule

  /** The peer may use the remote address: it is its own, or behind it and not another node's as a source. */
  predicate OwnsRemote(host: HostNetworks, a: Address, incoming: bool) {
    match host
    case OneAddress(addr) => a == addr
    case Networks(lookup) =>
      lookup(a) == Some(VpnNetwork) || lookup(a) == Some(UnsafeNetwork) || (lookup(a) == Some(UnsafeVpnOverlap) && !incoming)
  }

  /** The remote address is named in the peer's certificate at all. */
  predicate KnowsRemote(host: HostNetworks, addr: Address) {
    match host
    case OneAddress(a) => a == addr
    case Networks(lookup) => lookup(addr).Some?
  }

  /** The remote address is the peer's to use and the local one is ours to handle. */
  predicate AddressesFit(host: HostNetworks, routable: set<Prefix>, p: Packet, incoming: bool) {
    OwnsRemote(host, p.remoteAddr, incoming) && exists n :: n in routable && Contains(n, p.localAddr)
  }

  /** The first part of Drop: the remote address against the peer's certificate. */
  method CheckRemote(host: HostNetworks, p: Packet, incoming: bool) returns (error: Option<DropError>)
    ensures error.None? <==> OwnsRemote(host, p.remoteAddr, incoming)
    ensures error.Some? ==> error.value != NoMatchingRule && error.value != InvalidLocalIP
    ensures error == Some(InvalidRemoteIP) <==> !KnowsRemote(host, p.remoteAddr)
    ensures error == Some(PeerRejected) <==> host.Networks? && host.lookup(p.remoteAddr) == Some(VpnPeerNetwork)
    ensures error == Some(VpnOverlap) <==> incoming && host.Networks? && host.lookup(p.remoteAddr) == Some(UnsafeVpnOverlap)
  {
    match host
    case OneAddress(addr) =>
      error := if addr != p.remoteAddr then Some(InvalidRemoteIP) else None;
    case Networks(lookup) =>
      match lookup(p.remoteAddr)
      case None => error := Some(InvalidRemoteIP);
      case Some(VpnNetwork) => error := None;
      case Some(VpnPeerNetwork) => error := Some(PeerRejected);
      case Some(UnsafeNetwork) => error := None;
      case Some(UnsafeVpnOverlap) => error := if incoming then Some(VpnOverlap) else None;
      case Some(UnknownNetwork) => error := Some(UnknownType);
  }

  class Firewall {
    const env: Env
    const source: string
    const tcpTimeout: int
    const udpTimeout: int
    const defaultTimeout: int
    var inRules: Table
    var outRules: Table
    var rulesVersion: nat
    var conntrack: ConntrackTable

    /** NewFirewall */
    constructor (env: Env, source: string, tcpTimeout: int, udpTimeout: int, defaultTimeout: int)
      requires tcpTimeout > 0 && udpTimeout > 0 && defaultTimeout > 0
      ensures this.env == env && this.source == source && rulesVersion == 0
      ensures Rules() == Ruleset(NO_TABLE, NO_TABLE, tcpTimeout, udpTimeout, defaultTimeout)
      ensures fresh(conntrack) && conntrack.Valid() && conntrack.View() == NewTrack(Rules())
    {
      this.env, this.source := env, source;
      this.tcpTimeout, this.udpTimeout, this.defaultTimeout := tcpTimeout, udpTimeout, defaultTimeout;
      inRules, outRules, rulesVersion := NO_TABLE, NO_TABLE, 0;
      var tmin, tmax: int;
      if tcpTimeout < udpTimeout {
        tmin, tmax := tcpTimeout, udpTimeout;
      } else {
        tmin, tmax := udpTimeout, tcpTimeout;
      }
      if defaultTimeout < tmin {
        tmin := defaultTimeout;
      } else if defaultTimeout > tmax {
        tmax := defaultTimeout;
      }
      conntrack := new ConntrackTable(tmin, tmax);
    }

    function Rules(): Ruleset
      reads this
    {
      Ruleset(inRules, outRules, tcpTimeout, udpTimeout, defaultTimeout)
    }

    predicate BuiltFrom(src: string, networks: seq<Prefix>, unsafeNetworks: seq<Prefix>) {
      src != "" && src == source && networks == env.networks && unsafeNetworks == env.unsafeNetworks
    }

    /** firewallPort.addRule */
    method AddToPorts(ports0: Ports, r: Rule) returns (ports: Ports, ok: bool)
      ensures (ports, ok) == AddRange(env, ports0, r)
    {
      ports := ports0;
      if r.startPort > r.endPort {
        return ports, false;
      }
      var i := r.startPort;
      while i <= r.endPort
        invariant r.startPort <= i <= r.endPort + 1
        invariant AddPorts(env, ports0, r.startPort, r) == AddPorts(env, ports, i, r)
        decreases r.endPort + 1 - i
      {
        var (ports', ok') := AddPort(env, ports, i, r);
        ports := ports';
        if !ok' {
          return ports, false;
        }
        i := i + 1;
      }
      return ports, true;
    }

    /** AddRule */
    method AddRule(incoming: bool, r: Rule) returns (ok: bool)
      modifies this`inRules, this`outRules
      ensures (if incoming then (inRules, ok) else (outRules, ok))
           == FirewallRules.AddRule(env, old(if incoming then inRules else outRules), r)
      ensures if incoming then outRules == old(outRules) else inRules == old(inRules)
    {
      var t := if incoming then inRules else outRules;
      var ports;
      if r.proto == TCP {
        ports, ok := AddToPorts(t.tcp, r);
        t := t.(tcp := ports);
      } else if r.proto == UDP {
        ports, ok := AddToPorts(t.udp, r);
        t := t.(udp := ports);
      } else if IsIcmp(r.proto) {
        ports, ok := AddToPorts(t.icmp, r.(startPort := PORT_ANY, endPort := PORT_ANY));
        t := t.(icmp := ports);
      } else if r.proto == PROTO_ANY {
        ports, ok := AddToPorts(t.anyProto, r);
        t := t.(anyProto := ports);
      } else {
        return false;
      }
      if incoming {
        inRules := t;
      } else {
        outRules := t;
      }
    }

    function Timeout(p: Packet): (t: int)
      reads this
      ensures t == TimeoutFor(Rules(), p)
    {
      if p.protocol == TCP then tcpTimeout else if p.protocol == UDP then udpTimeout else defaultTimeout
    }

    method MatchRules(p: Packet, incoming: bool, peer: Peer) returns (found: bool)
      ensures found == Passes(Rules(), p, incoming, peer)
    {
      found := MatchTable(if incoming then inRules else outRules, p, incoming, peer);
    }

    /** inConns, with no routine-local cache. */
    method InConns(p: Packet, peer: Peer, now: Readings) returns (ok: bool)
      requires conntrack.Valid() && Usable(conntrack.View(), now)
      modifies conntrack`conns, conntrack.wheel, conntrack.wheel.expired, conntrack.wheel.wheel[..], conntrack.wheel.g.where.Keys
      ensures conntrack.Valid() && fresh(conntrack.wheel.g.where.Keys - old(conntrack.wheel.g.where.Keys))
      ensures (conntrack.View(), ok) == Conntrack.InConns(old(conntrack.View()), old(Rules()), rulesVersion, p, peer, now)
      ensures Rules() == old(Rules())
    {
      conntrack.PurgeOne(now);
      ok := Recheck(p, peer, now.third);
    }

    /** The rest of inConns: looks the connection up, and renews or forgets it. */
    method Recheck(p: Packet, peer: Peer, now: int) returns (ok: bool)
      modifies conntrack`conns
      ensures (conntrack.conns, ok) == Rechecked(old(conntrack.conns), old(Rules()), rulesVersion, p, peer, now)
    {
      if p !in conntrack.conns {
        return false;
      }
      var c := conntrack.conns[p];
      if c.version != rulesVersion {
        var found := MatchRules(p, c.incoming, peer);
        if !found {
          conntrack.conns := conntrack.conns - {p};
          return false;
        }
        c := c.(version := rulesVersion);
      }
      c := c.(expires := now + Timeout(p));
      conntrack.conns := conntrack.conns[p := c];
      return true;
    }

    /** addConn */
    method AddConn(p: Packet, incoming: bool, now: Readings)
      requires conntrack.Valid() && Usable(conntrack.View(), now)
      modifies conntrack`conns, conntrack.wheel, conntrack.wheel.expired, conntrack.wheel.wheel[..], conntrack.wheel.g.where.Keys
      ensures conntrack.Valid() && fresh(conntrack.wheel.g.where.Keys - old(conntrack.wheel.g.where.Keys))
      ensures conntrack.View() == Conntrack.AddConn(old(conntrack.View()), old(Rules()), rulesVersion, p, incoming, now)
    {
      conntrack.Enroll(p, Timeout(p), now.first);
      conntrack.conns := conntrack.conns[p := Conn(now.second + Timeout(p), incoming, rulesVersion)];
    }

    /** The rest of Drop once the addresses have been found to be in order: false is to drop. */
    method Admit(p: Packet, incoming: bool, peer: Peer, now: Readings, later: Readings) returns (ok: bool)
      requires conntrack.Valid() && Usable(conntrack.View(), now)
      requires now.third <= later.first <= later.second <= later.third
      modifies conntrack`conns, conntrack.wheel, conntrack.wheel.expired, conntrack.wheel.wheel[..], conntrack.wheel.g.where.Keys
      ensures conntrack.Valid()
      ensures (conntrack.View(), ok) == Admitted(old(conntrack.View()), old(Rules()), rulesVersion, p, incoming, peer, now, later)
    {
      ghost var t, r := conntrack.View(), Rules();
      UsableLater(t, r, rulesVersion, p, peer, now, later);
      ok := InConns(p, peer, now);
      if ok {
        KnownAdmitted(t, r, rulesVersion, p, incoming, peer, now, later, conntrack.View());
        return;
      }
      ok := TestUnknown(p, incoming, peer, now, later, t, r);
    }

    /** The rest of Drop when the look-up in t has not found the connection. */
    method TestUnknown(p: Packet, incoming: bool, peer: Peer, ghost now: Readings, later: Readings, ghost t: Track, ghost r: Ruleset)
      returns (ok: bool)
      requires conntrack.Valid() && Usable(conntrack.View(), later) && Usable(t, now) && r == Rules()
      requires now.third <= later.first <= later.second <= later.third
      requires (conntrack.View(), false) == Conntrack.InConns(t, r, rulesVersion, p, peer, now)
      modifies conntrack`conns, conntrack.wheel, conntrack.wheel.expired, conntrack.wheel.wheel[..], conntrack.wheel.g.where.Keys
      ensures conntrack.Valid()
      ensures (conntrack.View(), ok) == Admitted(t, r, rulesVersion, p, incoming, peer, now, later)
    {
      ghost var t1 := conntrack.View();
      ok := Test(p, incoming, peer, later);
      TestedAdmitted(t, r, rulesVersion, p, incoming, peer, now, later, t1, conntrack.View(), ok);
    }

    /** Drop; None is to let the packet pass. */
    method Drop(p: Packet, incoming: bool, host: HostNetworks, routable: set<Prefix>, peer: Peer, now: Readings, later: Readings)
      returns (error: Option<DropError>)
      requires conntrack.Valid() && Usable(conntrack.View(), now)
      requires now.third <= later.first <= later.second <= later.third
      modifies conntrack`conns, conntrack.wheel, conntrack.wheel.expired, conntrack.wheel.wheel[..], conntrack.wheel.g.where.Keys
      ensures conntrack.Valid()
      ensures !AddressesFit(host, routable, p, incoming) ==>
        error.Some? && error.value != NoMatchingRule && conntrack.View() == old(conntrack.View())
      ensures error == Some(InvalidLocalIP) <==>
        OwnsRemote(host, p.remoteAddr, incoming) && !exists n :: n in routable && Contains(n, p.localAddr)
      ensures AddressesFit(host, routable, p, incoming) ==>
        && (error == None || error == Some(NoMatchingRule))
        && (conntrack.View(), error.None?)
           == Admitted(old(conntrack.View()), old(Rules()), rulesVersion, p, incoming, peer, now, later)
    {
      error := CheckRemote(host, p, incoming);
      if error.Some? {
        return;
      }
      if !exists n :: n in routable && Contains(n, p.localAddr) {
        return Some(InvalidLocalIP);
      }
      var ok := Admit(p, incoming, peer, now, later);
      error := if ok then None else Some(NoMatchingRule);
    }

    /** The rest of Drop, for a packet of no known connection. */
    method Test(p: Packet, incoming: bool, peer: Peer, now: Readings) returns (ok: bool)
      requires conntrack.Valid() && Usable(conntrack.View(), now)
      modifies conntrack`conns, conntrack.wheel, conntrack.wheel.expired, conntrack.wheel.wheel[..], conntrack.wheel.g.where.Keys
      ensures conntrack.Valid()
      ensures (conntrack.View(), ok) == TestRules(old(conntrack.View()), old(Rules()), rulesVersion, p, incoming, peer, now)
    {
      ok := MatchRules(p, incoming, peer);
      if ok {
        AddConn(p, incoming, now);
      }
    }
  }

  lemma UsableLater(t: Track, rules: Ruleset, version: nat, p: Packet, peer: Peer, now: Readings, later: Readings)
    requires Usable(t, now) && now.third <= later.first <= later.second <= later.third
    ensures Usable(Conntrack.InConns(t, rules, version, p, peer, now).0, later)
  {
    if t.timers.expired != [] {
      AdvancedNotBackwards(Purged(t.timers), now.second, later.first);
    }
  }

  /** The rules, and addConn for a packet they let pass. */
  function TestRules(t: Track, rules: Ruleset, version: nat, p: Packet, incoming: bool, peer: Peer, now: Readings): (Track, bool)
    requires Usable(t, now)
  {
    if Passes(rules, p, incoming, peer) then (Conntrack.AddConn(t, rules, version, p, incoming, now), true) else (t, false)
  }

  /** The two locked sections of one Drop, one after the other. */
  function Admitted(t: Track, rules: Ruleset, version: nat, p: Packet, incoming: bool, peer: Peer, now: Readings, later: Readings)
    : (Track, bool)
    requires Usable(t, now) && now.third <= later.first <= later.second <= later.third
  {
    UsableLater(t, rules, version, p, peer, now, later);
    var (t', ok) := Conntrack.InConns(t, rules, version, p, peer, now);
    if ok then (t', true) else TestRules(t', rules, version, p, incoming, peer, later)
  }

  /** One Drop lets a packet pass exactly when its connection is known and still good, or the rules pass it, and it
      is then tracked under the present rules. */
  lemma LetThroughIff(t: Track, rules: Ruleset, version: nat, p: Packet, incoming: bool, peer: Peer, now: Readings, later: Readings)
    requires Usable(t, now) && now.third <= later.first <= later.second <= later.third
    ensures var (t', ok) := Admitted(t, rules, version, p, incoming, peer, now, later);
      && (ok <==> || (&& p in t.conns && !Lapsed(t, p, now)
                      && (t.conns[p].version == version || Passes(rules, p, t.conns[p].incoming, peer)))
                  || Passes(rules, p, incoming, peer))
      && (if ok then p in t'.conns && t'.conns[p].version == version else p !in t'.conns)
  {
    UsableLater(t, rules, version, p, peer, now, later);
    LookUpIff(t, rules, version, p, peer, now, p);
  }

  lemma KnownAdmitted(t: Track, rules: Ruleset, version: nat, p: Packet, incoming: bool, peer: Peer, now: Readings, later: Readings, t1: Track)
    requires Usable(t, now) && now.third <= later.first <= later.second <= later.third
    requires (t1, true) == Conntrack.InConns(t, rules, version, p, peer, now)
    ensures (t1, true) == Admitted(t, rules, version, p, incoming, peer, now, later)
  {}

  lemma TestedAdmitted(t: Track, rules: Ruleset, version: nat, p: Packet, incoming: bool, peer: Peer, now: Readings, later: Readings,
                       t1: Track, t2: Track, ok: bool)
    requires Usable(t, now) && now.third <= later.first <= later.second <= later.third && Usable(t1, later)
    requires (t1, false) == Conntrack.InConns(t, rules, version, p, peer, now)
    requires (t2, ok) == TestRules(t1, rules, version, p, incoming, peer, later)
    ensures (t2, ok) == Admitted(t, rules, version, p, incoming, peer, now, later)
  {}

  /** The part of interface.go that swaps firewalls. */
  class Interface {
    var firewall: Firewall

    constructor (fw: Firewall)
      ensures firewall == fw
    {
      firewall := fw;
    }

    /** reloadFirewall: src and the networks are those of the new configuration and certificate, fw
        is the firewall built from them, or null if it could not be built. */
    method ReloadFirewall(src: string, networks: seq<Prefix>, unsafeNetworks: seq<Prefix>, fw: Firewall?) returns (installed: bool)
      requires fw != null ==> fw != firewall && firewall.rulesVersion < VERSIONS
      modifies this, if fw != null then {fw} else {}
      ensures installed <==> (fw != null && !old(firewall).BuiltFrom(src, networks, unsafeNetworks))
      ensures !installed ==> firewall == old(firewall) && (fw != null ==> unchanged(fw))
      ensures installed ==> firewall == fw && fw.rulesVersion == (old(firewall.rulesVersion) + 1) % VERSIONS
      ensures installed ==> fw.Rules() == old(fw.Rules()) && fw.conntrack == if fw.rulesVersion == 0 then old(fw.conntrack) else old(firewall.conntrack)
    {
      if firewall.BuiltFrom(src, networks, unsafeNetworks) {
        return false;
      }
      if fw == null {
        return false;
      }
      fw.rulesVersion := (firewall.rulesVersion + 1) % VERSIONS;
      if fw.rulesVersion != 0 {
        fw.conntrack := firewall.conntrack;
      }
      firewall := fw;
      return true;
    }
  }
}
