/** What a firewall rule means, and the nested index that answers for a list of rules. */
module FirewallRules {
  import opened Options

  // ---- Packets, peers and rules ----

  /** An address as its bits, 32 or 128 of them. */
  type Address = seq<bool>

  /** The addresses of one family that begin with the given bits. */
  datatype Prefix = Prefix(family: nat, bits: seq<bool>)

  predicate Contains(p: Prefix, a: Address) {
    |a| == p.family && p.bits <= a
  }

  datatype Packet = Packet(localAddr: Address, remoteAddr: Address, localPort: nat, remotePort: nat, protocol: nat, fragment: bool)

  /** What of a peer's certificate the rules look at, and the name of the CA that signed it, if it
      is in the pool. */
  datatype Peer = Peer(name: string, groups: set<string>, issuer: string, caName: Option<string>)

  const PROTO_ANY: nat := 0
  const ICMP: nat := 1
  const TCP: nat := 6
  const UDP: nat := 17
  const ICMPV6: nat := 58
  const PORT_ANY: int := 0
  const PORT_FRAGMENT: int := -1

  datatype Rule = Rule(
    proto: nat, startPort: int, endPort: int, groups: seq<string>, host: string, cidr: string, localCidr: string,
    caName: string, caSha: string)

  /** What a firewall is built from besides its rules: netip.ParsePrefix, the networks of its own
      certificate and one setting. */
  datatype Env = Env(parse: string -> Option<Prefix>, networks: seq<Prefix>, unsafeNetworks: seq<Prefix>, defaultLocalCidrAny: bool)

  // ---- The meaning of one rule ----

  predicate IsIcmp(proto: nat) {
    proto == ICMP || proto == ICMPV6
  }

  predicate ProtoAllows(r: Rule, p: Packet) {
    || r.proto == PROTO_ANY
    || (r.proto == p.protocol && (r.proto == TCP || r.proto == UDP))
    || (IsIcmp(r.proto) && IsIcmp(p.protocol))
  }

  predicate InRange(r: Rule, port: int) {
    r.startPort <= port <= r.endPort
  }

  /** The port a rule is checked against: none for a later fragment, which has no ports. */
  function PortOf(p: Packet, incoming: bool): int {
    if p.fragment then PORT_FRAGMENT else if incoming then p.localPort else p.remotePort
  }

  /** A range that includes `any` is for every port.  Ports mean nothing to ICMP: a rule for ICMP is
      for all of it, and of the rules for every protocol those for any port are. */
  predicate PortAllows(r: Rule, p: Packet, incoming: bool) {
    || IsIcmp(r.proto)
    || InRange(r, PORT_ANY)
    || (!IsIcmp(p.protocol) && InRange(r, PortOf(p, incoming)))
  }

  predicate CaAllows(r: Rule, peer: Peer) {
    || (r.caSha == "" && r.caName == "")
    || (r.caSha != "" && peer.issuer == r.caSha)
    || (r.caName != "" && peer.caName == Some(r.caName))
  }

  predicate AnyRemote(r: Rule) {
    || (r.groups == [] && r.host == "" && r.cidr == "")
    || "any" in r.groups || r.host == "any" || r.cidr == "any"
  }

  predicate RemoteAllows(env: Env, r: Rule, p: Packet, peer: Peer) {
    || AnyRemote(r)
    || (r.groups != [] && forall g :: g in r.groups ==> g in peer.groups)
    || (r.host != "" && peer.name == r.host)
    || (r.cidr != "" && env.parse(r.cidr).Some? && Contains(env.parse(r.cidr).value, p.remoteAddr))
  }

  predicate LocalAllows(env: Env, localCidr: string, a: Address) {
    if localCidr == "any" then true
    else if localCidr == "" then
      env.unsafeNetworks == [] || env.defaultLocalCidrAny || exists n :: n in env.networks && Contains(n, a)
    else env.parse(localCidr).Some? && Contains(env.parse(localCidr).value, a)
  }

  predicate Allows(env: Env, r: Rule, p: Packet, incoming: bool, peer: Peer) {
    && ProtoAllows(r, p) && PortAllows(r, p, incoming) && CaAllows(r, peer)
    && RemoteAllows(env, r, p, peer) && LocalAllows(env, r.localCidr, p.localAddr)
  }

  // ---- The index ----

  /** firewallLocalCIDR */
  datatype LocalCidr = LocalCidr(all: bool, prefixes: set<Prefix>)

  /** firewallGroups */
  datatype Groups = Groups(names: seq<string>, local: LocalCidr)

  /** FirewallRule */
  datatype RuleIndex = RuleIndex(
    all: Option<LocalCidr>, hosts: map<string, LocalCidr>, groups: seq<Groups>, cidr: map<Prefix, LocalCidr>)

  /** FirewallCA */
  datatype CaIndex = CaIndex(all: Option<RuleIndex>, names: map<string, RuleIndex>, shas: map<string, RuleIndex>)

  /** firewallPort */
  type Ports = map<int, CaIndex>

  /** FirewallTable */
  datatype Table = Table(tcp: Ports, udp: Ports, icmp: Ports, anyProto: Ports)

  const NO_LOCAL: LocalCidr := LocalCidr(false, {})
  const NO_RULE: RuleIndex := RuleIndex(None, map[], [], map[])
  const NO_CA: CaIndex := CaIndex(None, map[], map[])
  const NO_TABLE: Table := Table(map[], map[], map[], map[])

  // ---- Matching, level by level ----

  predicate LocalMatch(l: LocalCidr, a: Address) {
    l.all || exists n :: n in l.prefixes && Contains(n, a)
  }

  predicate GroupsMatch(g: Groups, a: Address, peer: Peer) {
    g.names != [] && (forall n :: n in g.names ==> n in peer.groups) && LocalMatch(g.local, a)
  }

  predicate RuleMatch(r: RuleIndex, p: Packet, peer: Peer) {
    || (r.all.Some? && LocalMatch(r.all.value, p.localAddr))
    || (exists g :: g in r.groups && GroupsMatch(g, p.localAddr, peer))
    || (peer.name in r.hosts && LocalMatch(r.hosts[peer.name], p.localAddr))
    || (exists n :: n in r.cidr && Contains(n, p.remoteAddr) && LocalMatch(r.cidr[n], p.localAddr))
  }

  predicate CaMatch(c: CaIndex, p: Packet, peer: Peer) {
    || (c.all.Some? && RuleMatch(c.all.value, p, peer))
    || (peer.issuer in c.shas && RuleMatch(c.shas[peer.issuer], p, peer))
    || (peer.caName.Some? && peer.caName.value in c.names && RuleMatch(c.names[peer.caName.value], p, peer))
  }

  predicate PortMatch(ports: Ports, port: int, p: Packet, peer: Peer) {
    port in ports && CaMatch(ports[port], p, peer)
  }

  predicate PortsMatch(ports: Ports, p: Packet, incoming: bool, peer: Peer) {
    if IsIcmp(p.protocol) then PortMatch(ports, PORT_ANY, p, peer)
    else PortMatch(ports, PortOf(p, incoming), p, peer) || PortMatch(ports, PORT_ANY, p, peer)
  }

  /** FirewallTable.match */
  predicate Match(t: Table, p: Packet, incoming: bool, peer: Peer) {
    || PortsMatch(t.anyProto, p, incoming, peer)
    || (p.protocol == TCP && PortsMatch(t.tcp, p, incoming, peer))
    || (p.protocol == UDP && PortsMatch(t.udp, p, incoming, peer))
    || (IsIcmp(p.protocol) && PortsMatch(t.icmp, p, incoming, peer))
  }

  // ---- Adding, level by level ----
  // Every addition also says whether it went well; one that fails leaves what it has done so far.

  function AddLocal(env: Env, l: LocalCidr, localCidr: string): (LocalCidr, bool) {
    if localCidr == "any" then (l.(all := true), true)
    else if localCidr == "" then
      if env.unsafeNetworks == [] || env.defaultLocalCidrAny then (l.(all := true), true)
      else (l.(prefixes := l.prefixes + set n | n in env.networks), true)
    else
      match env.parse(localCidr)
      case None => (l, false)
      case Some(prefix) => (l.(prefixes := l.prefixes + {prefix}), true)
  }

  function AddGroups(env: Env, x: RuleIndex, r: Rule): (RuleIndex, bool) {
    if r.groups == [] then (x, true)
    else
      var (l, ok) := AddLocal(env, NO_LOCAL, r.localCidr);
      if ok then (x.(groups := x.groups + [Groups(r.groups, l)]), true) else (x, false)
  }

  function AddHost(env: Env, x: RuleIndex, r: Rule): (RuleIndex, bool) {
    if r.host == "" then (x, true)
    else
      var (l, ok) := AddLocal(env, if r.host in x.hosts then x.hosts[r.host] else NO_LOCAL, r.localCidr);
      if ok then (x.(hosts := x.hosts[r.host := l]), true) else (x, false)
  }

  function AddCidr(env: Env, x: RuleIndex, r: Rule): (RuleIndex, bool) {
    if r.cidr == "" then (x, true)
    else
      match env.parse(r.cidr)
      case None => (x, false)
      case Some(prefix) =>
        var (l, ok) := AddLocal(env, if prefix in x.cidr then x.cidr[prefix] else NO_LOCAL, r.localCidr);
        if ok then (x.(cidr := x.cidr[prefix := l]), true) else (x, false)
  }

  /** FirewallRule.addRule */
  function AddRemote(env: Env, x: RuleIndex, r: Rule): (RuleIndex, bool) {
    if AnyRemote(r) then
      var (l, ok) := AddLocal(env, if x.all.Some? then x.all.value else NO_LOCAL, r.localCidr);
      (x.(all := Some(l)), ok)
    else
      var (x1, ok1) := AddGroups(env, x, r);
      if !ok1 then (x1, false)
      else
        var (x2, ok2) := AddHost(env, x1, r);
        if !ok2 then (x2, false) else AddCidr(env, x2, r)
  }

  function AddSha(env: Env, c: CaIndex, r: Rule): (CaIndex, bool) {
    if r.caSha == "" then (c, true)
    else
      var (x, ok) := AddRemote(env, if r.caSha in c.shas then c.shas[r.caSha] else NO_RULE, r);
      (c.(shas := c.shas[r.caSha := x]), ok)
  }

  function AddName(env: Env, c: CaIndex, r: Rule): (CaIndex, bool) {
    if r.caName == "" then (c, true)
    else
      var (x, ok) := AddRemote(env, if r.caName in c.names then c.names[r.caName] else NO_RULE, r);
      (c.(names := c.names[r.caName := x]), ok)
  }

  /** FirewallCA.addRule */
  function AddCa(env: Env, c: CaIndex, r: Rule): (CaIndex, bool) {
    if r.caSha == "" && r.caName == "" then
      var (x, ok) := AddRemote(env, if c.all.Some? then c.all.value else NO_RULE, r);
      (c.(all := Some(x)), ok)
    else
      var (c1, ok1) := AddSha(env, c, r);
      if !ok1 then (c1, false) else AddName(env, c1, r)
  }

  function AddPort(env: Env, ports: Ports, port: int, r: Rule): (Ports, bool) {
    var (c, ok) := AddCa(env, if port in ports then ports[port] else NO_CA, r);
    (ports[port := c], ok)
  }

  /** firewallPort.addRule from port `from` on. */
  function AddPorts(env: Env, ports: Ports, from: int, r: Rule): (Ports, bool)
    decreases r.endPort - from
  {
    if from > r.endPort then (ports, true)
    else
      var (ports', ok) := AddPort(env, ports, from, r);
      if ok then AddPorts(env, ports', from + 1, r) else (ports', false)
  }

  function AddRange(env: Env, ports: Ports, r: Rule): (Ports, bool) {
    if r.startPort > r.endPort then (ports, false) else AddPorts(env, ports, r.startPort, r)
  }

  /** A rule for ICMP is filed under any port, whatever ports it gives. */
  function Coerced(r: Rule): Rule {
    if IsIcmp(r.proto) then r.(startPort := PORT_ANY, endPort := PORT_ANY) else r
  }

  /** Firewall.AddRule, for the table of its direction. */
  function AddRule(env: Env, t: Table, r: Rule): (Table, bool) {
    if r.proto == TCP then var (ports, ok) := AddRange(env, t.tcp, r); (t.(tcp := ports), ok)
    else if r.proto == UDP then var (ports, ok) := AddRange(env, t.udp, r); (t.(udp := ports), ok)
    else if IsIcmp(r.proto) then var (ports, ok) := AddRange(env, t.icmp, Coerced(r)); (t.(icmp := ports), ok)
    else if r.proto == PROTO_ANY then var (ports, ok) := AddRange(env, t.anyProto, r); (t.(anyProto := ports), ok)
    else (t, false)
  }

  // ---- One addition adds exactly what the rule allows ----

  lemma AddLocalAdds(env: Env, l: LocalCidr, localCidr: string, a: Address)
    requires AddLocal(env, l, localCidr).1
    ensures LocalMatch(AddLocal(env, l, localCidr).0, a) <==> LocalMatch(l, a) || LocalAllows(env, localCidr, a)
  {
    var l' := AddLocal(env, l, localCidr).0;
    if localCidr != "any" && localCidr != "" {
      var n := env.parse(localCidr).value;
      assert Contains(n, a) ==> n in l'.prefixes && Contains(n, a);
    } else if localCidr == "" {
      assert forall n :: n in env.networks && !l'.all ==> n in l'.prefixes;
    }
  }

  lemma AddGroupsAdds(env: Env, x: RuleIndex, r: Rule, p: Packet, peer: Peer)
    requires AddGroups(env, x, r).1
    ensures RuleMatch(AddGroups(env, x, r).0, p, peer) <==>
      RuleMatch(x, p, peer)
      || (r.groups != [] && (forall g :: g in r.groups ==> g in peer.groups) && LocalAllows(env, r.localCidr, p.localAddr))
  {
    if r.groups != [] {
      var x' := AddGroups(env, x, r).0;
      var g' := Groups(r.groups, AddLocal(env, NO_LOCAL, r.localCidr).0);
      AddLocalAdds(env, NO_LOCAL, r.localCidr, p.localAddr);
      assert g' in x'.groups && forall g :: g in x.groups ==> g in x'.groups;
      assert GroupsMatch(g', p.localAddr, peer) <==>
        (forall g :: g in r.groups ==> g in peer.groups) && LocalAllows(env, r.localCidr, p.localAddr);
    }
  }

  lemma AddHostAdds(env: Env, x: RuleIndex, r: Rule, p: Packet, peer: Peer)
    requires AddHost(env, x, r).1
    ensures RuleMatch(AddHost(env, x, r).0, p, peer) <==>
      RuleMatch(x, p, peer) || (r.host != "" && peer.name == r.host && LocalAllows(env, r.localCidr, p.localAddr))
  {
    if r.host != "" {
      AddLocalAdds(env, if r.host in x.hosts then x.hosts[r.host] else NO_LOCAL, r.localCidr, p.localAddr);
    }
  }

  lemma AddCidrAdds(env: Env, x: RuleIndex, r: Rule, p: Packet, peer: Peer)
    requires AddCidr(env, x, r).1
    ensures RuleMatch(AddCidr(env, x, r).0, p, peer) <==>
      RuleMatch(x, p, peer)
      || (r.cidr != "" && env.parse(r.cidr).Some? && Contains(env.parse(r.cidr).value, p.remoteAddr)
          && LocalAllows(env, r.localCidr, p.localAddr))
  {
    if r.cidr != "" {
      var prefix := env.parse(r.cidr).value;
      var was := if prefix in x.cidr then x.cidr[prefix] else NO_LOCAL;
      AddLocalAdds(env, was, r.localCidr, p.localAddr);
      var cidr' := x.cidr[prefix := AddLocal(env, was, r.localCidr).0];
      assert forall n :: n in x.cidr && n != prefix ==> n in cidr' && cidr'[n] == x.cidr[n];
      assert prefix in cidr';
    }
  }

  lemma AddRemoteAdds(env: Env, x: RuleIndex, r: Rule, p: Packet, peer: Peer)
    requires AddRemote(env, x, r).1
    ensures RuleMatch(AddRemote(env, x, r).0, p, peer) <==>
      RuleMatch(x, p, peer) || (RemoteAllows(env, r, p, peer) && LocalAllows(env, r.localCidr, p.localAddr))
  {
    if AnyRemote(r) {
      AddLocalAdds(env, if x.all.Some? then x.all.value else NO_LOCAL, r.localCidr, p.localAddr);
    } else {
      var x1 := AddGroups(env, x, r).0;
      var x2 := AddHost(env, x1, r).0;
      AddGroupsAdds(env, x, r, p, peer);
      AddHostAdds(env, x1, r, p, peer);
      AddCidrAdds(env, x2, r, p, peer);
    }
  }

  lemma NothingMatches(p: Packet, peer: Peer)
    ensures !RuleMatch(NO_RULE, p, peer) && !CaMatch(NO_CA, p, peer)
  {}

  lemma AddCaAdds(env: Env, c: CaIndex, r: Rule, p: Packet, peer: Peer)
    requires AddCa(env, c, r).1
    ensures CaMatch(AddCa(env, c, r).0, p, peer) <==>
      CaMatch(c, p, peer) || (CaAllows(r, peer) && RemoteAllows(env, r, p, peer) && LocalAllows(env, r.localCidr, p.localAddr))
  {
    NothingMatches(p, peer);
    if r.caSha == "" && r.caName == "" {
      AddRemoteAdds(env, if c.all.Some? then c.all.value else NO_RULE, r, p, peer);
    } else {
      if r.caSha != "" {
        AddRemoteAdds(env, if r.caSha in c.shas then c.shas[r.caSha] else NO_RULE, r, p, peer);
      }
      if r.caName != "" {
        AddRemoteAdds(env, if r.caName in c.names then c.names[r.caName] else NO_RULE, r, p, peer);
      }
    }
  }

  /** What a rule says once protocol and port fit. */
  predicate Rest(env: Env, r: Rule, p: Packet, peer: Peer) {
    CaAllows(r, peer) && RemoteAllows(env, r, p, peer) && LocalAllows(env, r.localCidr, p.localAddr)
  }

  lemma {:induction false} AddPortsAdds(env: Env, ports: Ports, from: int, r: Rule, port: int, p: Packet, peer: Peer)
    requires AddPorts(env, ports, from, r).1
    ensures PortMatch(AddPorts(env, ports, from, r).0, port, p, peer) <==>
      PortMatch(ports, port, p, peer) || (from <= port <= r.endPort && Rest(env, r, p, peer))
    decreases r.endPort - from
  {
    if from <= r.endPort {
      NothingMatches(p, peer);
      AddCaAdds(env, if from in ports then ports[from] else NO_CA, r, p, peer);
      AddPortsAdds(env, AddPort(env, ports, from, r).0, from + 1, r, port, p, peer);
    }
  }

  lemma AddRangeAdds(env: Env, ports: Ports, r: Rule, p: Packet, incoming: bool, peer: Peer)
    requires AddRange(env, ports, r).1
    ensures PortsMatch(AddRange(env, ports, r).0, p, incoming, peer) <==>
      PortsMatch(ports, p, incoming, peer)
      || ((InRange(r, PORT_ANY) || (!IsIcmp(p.protocol) && InRange(r, PortOf(p, incoming)))) && Rest(env, r, p, peer))
  {
    AddPortsAdds(env, ports, r.startPort, r, PORT_ANY, p, peer);
    AddPortsAdds(env, ports, r.startPort, r, PortOf(p, incoming), p, peer);
  }

  lemma AddRuleAdds(env: Env, t: Table, r: Rule, p: Packet, incoming: bool, peer: Peer)
    requires AddRule(env, t, r).1
    ensures Match(AddRule(env, t, r).0, p, incoming, peer) <==> Match(t, p, incoming, peer) || Allows(env, r, p, incoming, peer)
  {
    if r.proto == TCP {
      AddRangeAdds(env, t.tcp, r, p, incoming, peer);
    } else if r.proto == UDP {
      AddRangeAdds(env, t.udp, r, p, incoming, peer);
    } else if IsIcmp(r.proto) {
      AddRangeAdds(env, t.icmp, Coerced(r), p, incoming, peer);
    } else {
      AddRangeAdds(env, t.anyProto, r, p, incoming, peer);
    }
  }

  // ---- The index answers for the list ----

  /** The table after adding the rules in order, and whether each addition went well. */
  function Loaded(env: Env, rules: seq<Rule>): (Table, bool) {
    if rules == [] then (NO_TABLE, true)
    else
      var (t, ok) := Loaded(env, rules[..|rules| - 1]);
      var (t', ok') := AddRule(env, t, rules[|rules| - 1]);
      (t', ok && ok')
  }

  /** The nested index lets a packet pass exactly when some rule of the list allows it. */
  lemma {:induction false} IndexIsRuleList(env: Env, rules: seq<Rule>, p: Packet, incoming: bool, peer: Peer)
    requires Loaded(env, rules).1
    ensures Match(Loaded(env, rules).0, p, incoming, peer) <==> exists r :: r in rules && Allows(env, r, p, incoming, peer)
    decreases |rules|
  {
    if rules != [] {
      var before, r := rules[..|rules| - 1], rules[|rules| - 1];
      IndexIsRuleList(env, before, p, incoming, peer);
      AddRuleAdds(env, Loaded(env, before).0, r, p, incoming, peer);
      assert rules == before + [r];
    }
  }

  // ---- Which rules are accepted ----

  predicate LocalParses(env: Env, localCidr: string) {
    localCidr == "any" || localCidr == "" || env.parse(localCidr).Some?
  }

  /** The rules that load: a known protocol, ports in order unless they are ignored, and prefixes
      that parse wherever they are looked at. */
  predicate WellFormed(env: Env, r: Rule) {
    && (r.proto == TCP || r.proto == UDP || IsIcmp(r.proto) || r.proto == PROTO_ANY)
    && (IsIcmp(r.proto) || r.startPort <= r.endPort)
    && LocalParses(env, r.localCidr)
    && (AnyRemote(r) || r.cidr == "" || env.parse(r.cidr).Some?)
  }

  lemma AddRemoteAccepts(env: Env, x: RuleIndex, r: Rule)
    ensures AddRemote(env, x, r).1 <==> LocalParses(env, r.localCidr) && (AnyRemote(r) || r.cidr == "" || env.parse(r.cidr).Some?)
  {}

  lemma {:induction false} AddPortsAccepts(env: Env, ports: Ports, from: int, r: Rule)
    requires from <= r.endPort
    ensures AddPorts(env, ports, from, r).1 <==>
      LocalParses(env, r.localCidr) && (AnyRemote(r) || r.cidr == "" || env.parse(r.cidr).Some?)
    decreases r.endPort - from
  {
    var c := if from in ports then ports[from] else NO_CA;
    AddRemoteAccepts(env, if c.all.Some? then c.all.value else NO_RULE, r);
    AddRemoteAccepts(env, if r.caSha in c.shas then c.shas[r.caSha] else NO_RULE, r);
    AddRemoteAccepts(env, if r.caName in c.names then c.names[r.caName] else NO_RULE, r);
    if from < r.endPort {
      AddPortsAccepts(env, AddPort(env, ports, from, r).0, from + 1, r);
    }
  }

  /** A rule is refused exactly when it is not well formed, whatever the table holds. */
  lemma AddRuleAccepts(env: Env, t: Table, r: Rule)
    ensures AddRule(env, t, r).1 <==> WellFormed(env, r)
  {
    var r' := Coerced(r);
    if r'.startPort <= r'.endPort {
      AddPortsAccepts(env, t.tcp, r'.startPort, r');
      AddPortsAccepts(env, t.udp, r'.startPort, r');
      AddPortsAccepts(env, t.icmp, r'.startPort, r');
      AddPortsAccepts(env, t.anyProto, r'.startPort, r');
    }
  }

  /** A list of rules loads exactly when every one of them is well formed. */
  lemma {:induction false} LoadedAccepts(env: Env, rules: seq<Rule>)
    ensures Loaded(env, rules).1 <==> forall r :: r in rules ==> WellFormed(env, r)
    decreases |rules|
  {
    if rules != [] {
      var before, r := rules[..|rules| - 1], rules[|rules| - 1];
      LoadedAccepts(env, before);
      AddRuleAccepts(env, Loaded(env, before).0, r);
      assert rules == before + [r];
    }
  }
}
