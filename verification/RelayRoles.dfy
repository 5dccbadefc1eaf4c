/** Runs in which every node keeps its role: relays forward, all others start relays. */
module RelayRoles {
  import opened Options
  import opened RelayEntries
  import opened RelayNode
  import opened RelayNetwork
  import opened RelayRuns

  /** relay.am_relay decides both whether a node forwards and whether it starts relays itself. */
  predicate Respects(relays: set<Addr>, e: Event) {
    match e
    case Start(x, _, _, _) => x !in relays
    case Receive(v, amRelay, _, _, _, _) => amRelay == (v.dst in relays)
    case Send(_, _, _) => true
    case Arrive(_) => true
    case Disestablish(_, _, _) => true
  }

  /** A node that is no relay has only terminal entries, and completes them only with relays; what
      a relay keeps with a node that is none is only there to forward. */
  ghost predicate RoleEntry(relays: set<Addr>, x: Addr, y: Addr, e: Relay) {
    && (x !in relays ==> e.kind.TerminalType? && (e.remoteIndex != 0 ==> y in relays))
    && (x in relays && y !in relays ==> e.kind.ForwardingType?)
  }

  ghost predicate Roles(nodes: Nodes, relays: set<Addr>) {
    forall x, y, p {:trigger Table(nodes, x, y).byAddr[p]} ::
      p in Table(nodes, x, y).byAddr ==> RoleEntry(relays, x, y, Table(nodes, x, y).byAddr[p])
  }

  ghost predicate RoleMessage(relays: set<Addr>, src: Addr, dst: Addr, m: Message) {
    match m
    case CreateRelayRequest(from, _, _) => from != src ==> src in relays
    case CreateRelayResponse(_, _, _, _) => src in relays || dst in relays
  }

  lemma PutRoles(nodes: Nodes, relays: set<Addr>, x: Addr, y: Addr, r: Relay)
    requires Roles(nodes, relays) && RoleEntry(relays, x, y, r)
    ensures Roles(Put(nodes, x, y, r), relays)
  {
    var nodes' := Put(nodes, x, y, r);
    forall u, v, p | p in Table(nodes', u, v).byAddr ensures RoleEntry(relays, u, v, Table(nodes', u, v).byAddr[p]) {
      PutTable(nodes, x, y, r, u, v);
      if !(u == x && v == y && p == r.peerAddr) {
        assert RoleEntry(relays, u, v, Table(nodes, u, v).byAddr[p]);
      }
    }
  }

  ghost predicate RoleOutcome(nodes: Nodes, relays: set<Addr>, x: Addr, o: Outcome) {
    && Roles(nodes[x := o.node], relays)
    && forall k :: 0 <= k < |o.sent| ==> RoleMessage(relays, x, o.sent[k].neighbour, o.sent[k].message)
  }

  lemma QuietRoles(nodes: Nodes, relays: set<Addr>, x: Addr)
    requires Roles(nodes, relays) && x in nodes
    ensures RoleOutcome(nodes, relays, x, Outcome(nodes[x], []))
  {
    assert nodes[x := nodes[x]] == nodes;
  }

  /** A new version of an entry that differs in state, and in the remote index if that is allowed. */
  lemma EditRoles(nodes: Nodes, relays: set<Addr>, x: Addr, y: Addr, r: Relay)
    requires Paired(nodes) && Roles(nodes, relays)
    requires r.peerAddr in Table(nodes, x, y).byAddr
    requires var e := Table(nodes, x, y).byAddr[r.peerAddr];
      e.localIndex == r.localIndex && e.kind == r.kind && (e.remoteIndex == r.remoteIndex || x in relays || y in relays)
    ensures Roles(nodes[x := WithTable(NodeOf(nodes, x), y, Stored(Table(nodes, x, y), r))], relays)
  {
    assert NodeOk(NodeOf(nodes, x));
    EditIsPut(NodeOf(nodes, x), y, r);
    assert RoleEntry(relays, x, y, Table(nodes, x, y).byAddr[r.peerAddr]);
    PutRoles(nodes, relays, x, y, r);
  }

  lemma StartRoles(nodes: Nodes, relays: set<Addr>, x: Addr, relay: Addr, vpnIp: Addr, draw: Option<nat>)
    requires Paired(nodes) && Roles(nodes, relays) && x in nodes && x !in relays
    ensures RoleOutcome(nodes, relays, x, StartRelay(x, nodes[x], relay, vpnIp, draw))
  {
    var t := Table(nodes, x, relay);
    QuietRoles(nodes, relays, x);
    if vpnIp in t.byAddr {
      assert NodeOk(NodeOf(nodes, x)) && OnePerPeer(TableOf(NodeOf(nodes, x), relay));
      EditRoles(nodes, relays, x, relay, t.byAddr[vpnIp].(state := Requested));
    } else if Free(nodes[x], draw) {
      PutRoles(nodes, relays, x, relay, Relay(TerminalType, Requested, draw.value, 0, vpnIp));
    }
  }

  lemma RespondRoles(nodes: Nodes, relays: set<Addr>, x: Addr, n: Node, h: Addr, from: Addr, to: Addr)
    requires Roles(nodes[x := n], relays) && h in relays
    ensures RoleOutcome(nodes, relays, x, Respond(n, h, from, to))
  {}

  lemma OnRequestForMeRoles(nodes: Nodes, relays: set<Addr>, x: Addr, h: Addr, from: Addr, idx: nat, draw: Option<nat>)
    requires Paired(nodes) && Roles(nodes, relays) && x in nodes && h in relays
    ensures RoleOutcome(nodes, relays, x, OnRequestForMe(nodes[x], h, from, x, idx, draw))
  {
    var t := Table(nodes, x, h);
    QuietRoles(nodes, relays, x);
    assert NodeOk(NodeOf(nodes, x)) && OnePerPeer(TableOf(NodeOf(nodes, x), h));
    if from in t.byAddr {
      var r := t.byAddr[from].(state := Established, remoteIndex := idx);
      assert EntryOk(nodes, x, h, Table(nodes, x, h).byAddr[from]);
      EditRoles(nodes, relays, x, h, r);
      RespondRoles(nodes, relays, x, WithTable(nodes[x], h, Stored(t, r)), h, from, x);
      RespondRoles(nodes, relays, x, nodes[x], h, from, x);
    } else if Free(nodes[x], draw) {
      var r := Relay(TerminalType, Established, draw.value, idx, from);
      PutRoles(nodes, relays, x, h, r);
      RespondRoles(nodes, relays, x, Added(nodes[x], h, r), h, from, x);
    }
  }

  lemma OnRequestForwardRoles(nodes: Nodes, relays: set<Addr>, x: Addr, h: Addr, to: Addr, draw: Option<nat>)
    requires Paired(nodes) && Roles(nodes, relays) && x in nodes && x in relays && x != h
    ensures RoleOutcome(nodes, relays, x, OnRequestForward(nodes[x], h, h, to, draw))
  {
    var t := Table(nodes, x, to);
    QuietRoles(nodes, relays, x);
    assert NodeOk(NodeOf(nodes, x)) && OnePerPeer(TableOf(NodeOf(nodes, x), to));
    if h in t.byAddr {
      EditRoles(nodes, relays, x, to, t.byAddr[h].(state := Requested));
    } else if Free(nodes[x], draw) {
      PutRoles(nodes, relays, x, to, Relay(ForwardingType, Requested, draw.value, 0, h));
    }
  }

  lemma OnRequestTrackRoles(nodes: Nodes, relays: set<Addr>, x: Addr, n: Node, h: Addr, to: Addr, idx: nat, draw: Option<nat>)
    requires Roles(nodes[x := n], relays) && x in relays
    ensures Roles(nodes[x := OnRequestTrack(n, h, to, idx, draw)], relays)
  {
    if to !in TableOf(n, h).byAddr && Free(n, draw) {
      var r := Relay(ForwardingType, PeerRequested, draw.value, idx, to);
      PutRoles(nodes[x := n], relays, x, h, r);
      assert Put(nodes[x := n], x, h, r) == nodes[x := Added(n, h, r)];
    }
  }

  lemma OnRequestRoles(nodes: Nodes, relays: set<Addr>, x: Addr, h: Addr, from: Addr, to: Addr, idx: nat,
                       amRelay: bool, direct: bool, draw: Option<nat>, draw': Option<nat>)
    requires Paired(nodes) && Roles(nodes, relays) && x in nodes && amRelay == (x in relays)
    requires MessageOk(nodes, h, x, CreateRelayRequest(from, to, idx)) && RoleMessage(relays, h, x, CreateRelayRequest(from, to, idx))
    ensures RoleOutcome(nodes, relays, x, OnRequest(x, nodes[x], h, from, to, idx, amRelay, direct, draw, draw'))
  {
    QuietRoles(nodes, relays, x);
    if from == x {
    } else if to == x {
      OnRequestForMeRoles(nodes, relays, x, h, from, idx, draw);
    } else if amRelay && from == h && direct {
      var o := OnRequestForward(nodes[x], h, h, to, draw);
      OnRequestForwardRoles(nodes, relays, x, h, to, draw);
      OnRequestTrackRoles(nodes, relays, x, o.node, h, to, idx, draw');
    }
  }

  lemma OnFarLegUpRoles(nodes: Nodes, relays: set<Addr>, x: Addr, peer: Addr, relayTo: Addr)
    requires Paired(nodes) && Roles(nodes, relays) && x in nodes && x in relays
    ensures RoleOutcome(nodes, relays, x, OnFarLegUp(nodes[x], peer, relayTo))
  {
    var t := Table(nodes, x, peer);
    QuietRoles(nodes, relays, x);
    assert NodeOk(NodeOf(nodes, x)) && OnePerPeer(TableOf(NodeOf(nodes, x), peer));
    if relayTo in t.byAddr {
      EditRoles(nodes, relays, x, peer, t.byAddr[relayTo].(state := Established));
    }
  }

  lemma OnResponseRoles(nodes: Nodes, relays: set<Addr>, x: Addr, h: Addr, from: Addr, relayTo: Addr, ii: nat, ri: nat, known: bool)
    requires Paired(nodes) && Roles(nodes, relays) && x in nodes && (h in relays || x in relays)
    requires MessageOk(nodes, h, x, CreateRelayResponse(from, relayTo, ii, ri))
    ensures RoleOutcome(nodes, relays, x, OnResponse(nodes[x], h, relayTo, ii, ri, known))
  {
    var n := NodeOf(nodes, x);
    var t := Table(nodes, x, h);
    QuietRoles(nodes, relays, x);
    assert NodeOk(n) && OnePerPeer(TableOf(n, h));
    if ii in t.byIdx {
      var r := t.byIdx[ii].(state := Established, remoteIndex := ri);
      EditRoles(nodes, relays, x, h, r);
      var n' := WithTable(n, h, CompletedByIdx(t, ii, ri));
      if r.kind.ForwardingType? && known {
        assert RoleEntry(relays, x, h, Table(nodes, x, h).byAddr[r.peerAddr]);
        CompletedPaired(nodes, x, h, from, relayTo, ii, ri);
        OnFarLegUpRoles(nodes[x := n'], relays, x, r.peerAddr, relayTo);
        ThenRoles(nodes, relays, x, n', OnFarLegUp(n', r.peerAddr, relayTo));
      }
    }
  }

  lemma ThenRoles(nodes: Nodes, relays: set<Addr>, x: Addr, n: Node, o: Outcome)
    requires RoleOutcome(nodes[x := n], relays, x, o)
    ensures RoleOutcome(nodes, relays, x, o)
  {
    assert nodes[x := n][x := o.node] == nodes[x := o.node];
  }

  lemma CompletedPaired(nodes: Nodes, x: Addr, h: Addr, from: Addr, relayTo: Addr, ii: nat, ri: nat)
    requires Paired(nodes) && x in nodes && MessageOk(nodes, h, x, CreateRelayResponse(from, relayTo, ii, ri))
    requires ii in Table(nodes, x, h).byIdx
    ensures Paired(nodes[x := WithTable(NodeOf(nodes, x), h, CompletedByIdx(Table(nodes, x, h), ii, ri))])
  {
    OnResponseOk(nodes, x, h, from, relayTo, ii, ri, false);
  }

  // ---- Runs ----

  /** Between nodes that are no relays a payload is forwarded once, by a relay, and no more. */
  ghost predicate RolePayload(relays: set<Addr>, p: Payload) {
    p.origin !in relays && p.addressee !in relays ==>
      p.forwarded <= 1 && (p.forwarded == 0 ==> p.dst in relays) && (p.forwarded == 1 ==> p.src in relays)
  }

  ghost predicate RoleDelivery(relays: set<Addr>, d: Delivery) {
    d.payload.origin !in relays && d.payload.addressee !in relays ==> d.payload.forwarded == 1 && d.payload.src in relays
  }

  ghost predicate RoleInv(net: Net, relays: set<Addr>) {
    && Roles(net.nodes, relays)
    && (forall e :: e in net.wire ==> RoleMessage(relays, e.src, e.dst, e.message))
    && (forall p :: p in net.payloads ==> RolePayload(relays, p))
    && (forall d :: d in net.delivered ==> RoleDelivery(relays, d))
  }

  lemma PostedRoles(net: Net, relays: set<Addr>, x: Addr, o: Outcome)
    requires RoleInv(net, relays) && RoleOutcome(net.nodes, relays, x, o)
    ensures RoleInv(Posted(net, x, o), relays)
  {}

  lemma ReceiveRoles(net: Net, relays: set<Addr>, e: Event)
    requires Inv(net) && RoleInv(net, relays) && e.Receive? && Respects(relays, e)
    requires e.envelope in net.wire && e.envelope.dst in net.nodes
    ensures RoleOutcome(net.nodes, relays, e.envelope.dst, Handle(net.nodes[e.envelope.dst], e))
  {
    var v := e.envelope;
    assert MessageOk(net.nodes, v.src, v.dst, v.message) && RoleMessage(relays, v.src, v.dst, v.message);
    match v.message
    case CreateRelayRequest(from, to, i) =>
      OnRequestRoles(net.nodes, relays, v.dst, v.src, from, to, i, e.amRelay, e.direct, e.draw, e.draw');
    case CreateRelayResponse(from, to, ii, ri) =>
      OnResponseRoles(net.nodes, relays, v.dst, v.src, from, to, ii, ri, e.known);
  }

  lemma SentRoles(net: Net, relays: set<Addr>, x: Addr, relay: Addr, vpnIp: Addr)
    requires Inv(net) && RoleInv(net, relays)
    ensures RoleInv(Sent(net, x, relay, vpnIp), relays)
  {
    if SendIndex(NodeOf(net.nodes, x), relay, vpnIp).Some? {
      var e := Table(net.nodes, x, relay).byAddr[vpnIp];
      assert EntryOk(net.nodes, x, relay, e) && RoleEntry(relays, x, relay, e);
    }
  }

  /** The entry a payload under way leads to, with its role. */
  lemma ArrivalRole(nodes: Nodes, relays: set<Addr>, p: Payload)
    requires Paired(nodes) && Roles(nodes, relays) && PayloadOk(nodes, p)
    ensures var t := TableOf(NodeOf(nodes, p.dst), p.src); p.index in t.byIdx && RoleEntry(relays, p.dst, p.src, t.byIdx[p.index])
  {
    PayloadResolves(nodes, p);
    assert NodeOk(NodeOf(nodes, p.dst)) && OnePerPeer(TableOf(NodeOf(nodes, p.dst), p.src));
    var r := TableOf(NodeOf(nodes, p.dst), p.src).byIdx[p.index];
    assert RoleEntry(relays, p.dst, p.src, Table(nodes, p.dst, p.src).byAddr[r.peerAddr]);
  }

  lemma ArrivedRoles(net: Net, relays: set<Addr>, p: Payload)
    requires Inv(net) && RoleInv(net, relays) && p in net.payloads
    ensures RoleInv(Arrived(net, p), relays)
  {
    ArrivalRole(net.nodes, relays, p);
    assert RolePayload(relays, p) && PayloadOk(net.nodes, p);
  }

  lemma MarkedRoles(net: Net, relays: set<Addr>, x: Addr, relay: Addr, vpnIp: Addr)
    requires Inv(net) && RoleInv(net, relays)
    ensures RoleInv(Marked(net, x, relay, vpnIp), relays)
  {
    var t := Table(net.nodes, x, relay);
    if x in net.nodes && vpnIp in t.byAddr {
      assert NodeOk(NodeOf(net.nodes, x)) && OnePerPeer(TableOf(NodeOf(net.nodes, x), relay));
      EditRoles(net.nodes, relays, x, relay, t.byAddr[vpnIp].(state := Disestablished));
    }
  }

  lemma StepRoles(net: Net, relays: set<Addr>, e: Event)
    requires Inv(net) && RoleInv(net, relays) && Respects(relays, e)
    ensures RoleInv(Step(net, e), relays)
  {
    match e
    case Start(x, relay, vpnIp, draw) =>
      if x in net.nodes {
        StartRoles(net.nodes, relays, x, relay, vpnIp, draw);
        PostedRoles(net, relays, x, StartRelay(x, net.nodes[x], relay, vpnIp, draw));
      }
    case Receive(v, _, _, _, _, _) =>
      if v in net.wire && v.dst in net.nodes {
        ReceiveRoles(net, relays, e);
        PostedRoles(net, relays, v.dst, Handle(net.nodes[v.dst], e));
      }
    case Send(x, relay, vpnIp) => SentRoles(net, relays, x, relay, vpnIp);
    case Arrive(p) => if p in net.payloads { ArrivedRoles(net, relays, p); }
    case Disestablish(x, relay, vpnIp) => MarkedRoles(net, relays, x, relay, vpnIp);
  }

  lemma {:induction false} RunRoles(members: set<Addr>, relays: set<Addr>, events: seq<Event>)
    requires forall e :: e in events ==> Respects(relays, e)
    ensures Inv(Run(Initial(members), events)) && RoleInv(Run(Initial(members), events), relays)
    decreases |events|
  {
    InitialOk(members);
    if events == [] {
      var nodes := Initial(members).nodes;
      forall x, y ensures Table(nodes, x, y) == RelayTables([], map[], map[]) {}
    } else {
      var before := events[..|events| - 1];
      RunRoles(members, relays, before);
      StepRoles(Run(Initial(members), before), relays, events[|events| - 1]);
      StepKeeps(Run(Initial(members), before), events[|events| - 1]);
    }
  }

  /** End to end: between two nodes that are no relays, a payload is unwrapped by its addressee and
      nobody else, as coming from its origin, after exactly one relay has forwarded it. */
  lemma DeliveredEndToEnd(members: set<Addr>, relays: set<Addr>, events: seq<Event>, d: Delivery)
    requires forall e :: e in events ==> Respects(relays, e)
    requires d in Run(Initial(members), events).delivered
    requires d.payload.origin !in relays && d.payload.addressee !in relays
    ensures d.at == d.payload.addressee && d.peer == d.payload.origin && d.via in relays && d.payload.forwarded == 1
  {
    RunRoles(members, relays, events);
  }
}
