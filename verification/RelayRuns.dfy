/** Whole runs of the relay protocol: control messages and payloads. */
module RelayRuns {
  import opened Options
  import opened RelayEntries
  import opened RelayNode
  import opened RelayNetwork

  datatype Envelope = Envelope(src: Addr, dst: Addr, message: Message)

  /** A relayed payload on its way from src to dst.  Who sent it first, whom for and how often it
      has been forwarded are not on the wire; they are recorded here to speak about them. */
  datatype Payload = Payload(src: Addr, dst: Addr, index: nat, origin: Addr, addressee: Addr, forwarded: nat)

  /** A payload unwrapped by a node as coming from `peer` by way of `via`. */
  datatype Delivery = Delivery(at: Addr, via: Addr, peer: Addr, payload: Payload)

  /** wire and payloads hold everything ever sent: what is never received is lost, what is received
      twice is repeated, and receipts come in any order. */
  datatype Net = Net(nodes: Nodes, wire: set<Envelope>, payloads: set<Payload>, delivered: set<Delivery>)

  datatype Event =
    | Start(x: Addr, relay: Addr, vpnIp: Addr, draw: Option<nat>)
    | Receive(envelope: Envelope, amRelay: bool, direct: bool, known: bool, draw: Option<nat>, draw': Option<nat>)
    | Send(x: Addr, relay: Addr, vpnIp: Addr)
    | Arrive(payload: Payload)
    | Disestablish(x: Addr, relay: Addr, vpnIp: Addr)

  function Initial(members: set<Addr>): Net {
    Net(map x | x in members :: FRESH, {}, {}, {})
  }

  function Posted(net: Net, x: Addr, o: Outcome): Net {
    net.(nodes := net.nodes[x := o.node],
         wire := net.wire + set m | m in o.sent :: Envelope(x, m.neighbour, m.message))
  }

  function Handle(n: Node, e: Event): Outcome
    requires e.Receive?
  {
    match e.envelope.message
    case CreateRelayRequest(from, to, i) =>
      OnRequest(e.envelope.dst, n, e.envelope.src, from, to, i, e.amRelay, e.direct, e.draw, e.draw')
    case CreateRelayResponse(_, to, ii, ri) => OnResponse(n, e.envelope.src, to, ii, ri, e.known)
  }

  function Sent(net: Net, x: Addr, relay: Addr, vpnIp: Addr): Net {
    var index := SendIndex(NodeOf(net.nodes, x), relay, vpnIp);
    if index.Some? then net.(payloads := net.payloads + {Payload(x, relay, index.value, x, vpnIp, 0)}) else net
  }

  function Arrived(net: Net, p: Payload): Net {
    match OnPayload(NodeOf(net.nodes, p.dst), p.src, p.index)
    case Discard => net
    case Process(via, peer) => net.(delivered := net.delivered + {Delivery(p.dst, via, peer, p)})
    case Forward(neighbour, index) =>
      net.(payloads := net.payloads + {Payload(p.dst, neighbour, index, p.origin, p.addressee, p.forwarded + 1)})
  }

  /** A tunnel that went by way of a relay is gone: the entry it used, Established so far, is marked. */
  function Marked(net: Net, x: Addr, relay: Addr, vpnIp: Addr): Net {
    var t := Table(net.nodes, x, relay);
    if x in net.nodes && vpnIp in t.byAddr && t.byAddr[vpnIp].state.Established?
    then Posted(net, x, Outcome(WithTable(net.nodes[x], relay, StateSet(t, vpnIp, Disestablished)), [])) else net
  }

  function Step(net: Net, e: Event): Net {
    match e
    case Start(x, relay, vpnIp, draw) =>
      if x in net.nodes then Posted(net, x, StartRelay(x, net.nodes[x], relay, vpnIp, draw)) else net
    case Receive(envelope, _, _, _, _, _) =>
      if envelope in net.wire && envelope.dst in net.nodes
      then Posted(net, envelope.dst, Handle(net.nodes[envelope.dst], e)) else net
    case Send(x, relay, vpnIp) => Sent(net, x, relay, vpnIp)
    case Arrive(p) => if p in net.payloads then Arrived(net, p) else net
    case Disestablish(x, relay, vpnIp) => Marked(net, x, relay, vpnIp)
  }

  function Run(net: Net, events: seq<Event>): Net
    decreases |events|
  {
    if events == [] then net else Step(Run(net, events[..|events| - 1]), events[|events| - 1])
  }

  // ---- The invariant of every run ----

  /** A payload carries an index of the node it is going to: on the first leg that node's index for
      the addressee, on the second leg, which ends at the addressee, its index for the origin. */
  ghost predicate PayloadOk(nodes: Nodes, p: Payload) {
    && (p.forwarded == 0 ==> p.src == p.origin && Local(nodes, p.dst, p.src, p.addressee) == Some(p.index))
    && (p.forwarded == 1 ==> p.dst == p.addressee && Local(nodes, p.dst, p.src, p.origin) == Some(p.index))
    && (exists q :: Local(nodes, p.dst, p.src, q) == Some(p.index))
  }

  ghost predicate DeliveryOk(d: Delivery) {
    && d.at == d.payload.dst && d.via == d.payload.src
    && (d.payload.forwarded == 1 ==> d.at == d.payload.addressee && d.peer == d.payload.origin)
  }

  ghost predicate Inv(net: Net) {
    && Paired(net.nodes)
    && (forall e :: e in net.wire ==> MessageOk(net.nodes, e.src, e.dst, e.message))
    && (forall p :: p in net.payloads ==> PayloadOk(net.nodes, p))
    && (forall d :: d in net.delivered ==> DeliveryOk(d))
  }

  lemma GrowsKeepsPayload(nodes: Nodes, nodes': Nodes, p: Payload)
    requires Grows(nodes, nodes') && PayloadOk(nodes, p)
    ensures PayloadOk(nodes', p)
  {
    var q :| Local(nodes, p.dst, p.src, q) == Some(p.index);
    assert Local(nodes', p.dst, p.src, q) == Local(nodes, p.dst, p.src, q);
    assert p.forwarded == 0 ==> Local(nodes', p.dst, p.src, p.addressee) == Local(nodes, p.dst, p.src, p.addressee);
    assert p.forwarded == 1 ==> Local(nodes', p.dst, p.src, p.origin) == Local(nodes, p.dst, p.src, p.origin);
  }

  lemma PostedKeeps(net: Net, x: Addr, o: Outcome)
    requires Inv(net) && OutcomeOk(net.nodes, x, o)
    ensures Inv(Posted(net, x, o)) && Grows(net.nodes, Posted(net, x, o).nodes)
  {
    var nodes' := net.nodes[x := o.node];
    forall e | e in Posted(net, x, o).wire ensures MessageOk(nodes', e.src, e.dst, e.message) {
      if e in net.wire {
        GrowsKeepsMessage(net.nodes, nodes', e.src, e.dst, e.message);
      }
    }
    forall p | p in net.payloads ensures PayloadOk(nodes', p) {
      GrowsKeepsPayload(net.nodes, nodes', p);
    }
  }

  /** The index of a payload under way always leads to the tunnel it came through and to an entry
      there: neither an unknown index nor a tunnel without the entry is ever met. */
  lemma PayloadResolves(nodes: Nodes, p: Payload)
    requires Paired(nodes) && PayloadOk(nodes, p)
    ensures var n := NodeOf(nodes, p.dst);
      && p.index in n.relays && n.relays[p.index] == p.src && p.index in TableOf(n, p.src).byIdx
      && (p.forwarded == 0 ==> TableOf(n, p.src).byIdx[p.index].peerAddr == p.addressee)
      && (p.forwarded == 1 ==> TableOf(n, p.src).byIdx[p.index].peerAddr == p.origin)
  {
    var n := NodeOf(nodes, p.dst);
    assert NodeOk(n) && OnePerPeer(TableOf(n, p.src));
    var q :| Local(nodes, p.dst, p.src, q) == Some(p.index);
    assert TableOf(n, p.src).byAddr[q].localIndex == p.index;
    assert p.index in TableOf(n, p.src).byIdx;
  }

  /** Whatever a node sends or sends on by an Established entry carries an index of the receiver. */
  lemma UsableIndex(nodes: Nodes, x: Addr, y: Addr, p: Addr)
    requires Paired(nodes) && p in Table(nodes, x, y).byAddr && Table(nodes, x, y).byAddr[p].state.Established?
    ensures Local(nodes, y, x, p) == Some(Table(nodes, x, y).byAddr[p].remoteIndex)
  {
    assert NodeOk(NodeOf(nodes, x)) && OnePerPeer(TableOf(NodeOf(nodes, x), y));
    assert EntryOk(nodes, x, y, Table(nodes, x, y).byAddr[p]);
  }

  lemma PayloadAdded(net: Net, p: Payload)
    requires Inv(net) && PayloadOk(net.nodes, p)
    ensures Inv(net.(payloads := net.payloads + {p}))
  {}

  lemma DeliveryAdded(net: Net, d: Delivery)
    requires Inv(net) && DeliveryOk(d)
    ensures Inv(net.(delivered := net.delivered + {d}))
  {}

  lemma SentKeeps(net: Net, x: Addr, relay: Addr, vpnIp: Addr)
    requires Inv(net)
    ensures Inv(Sent(net, x, relay, vpnIp)) && Sent(net, x, relay, vpnIp).nodes == net.nodes
  {
    var index := SendIndex(NodeOf(net.nodes, x), relay, vpnIp);
    if index.Some? {
      UsableIndex(net.nodes, x, relay, vpnIp);
      PayloadAdded(net, Payload(x, relay, index.value, x, vpnIp, 0));
    }
  }

  lemma ArrivedKeeps(net: Net, p: Payload)
    requires Inv(net) && p in net.payloads
    ensures Inv(Arrived(net, p)) && Arrived(net, p).nodes == net.nodes
  {
    var handling := OnPayload(NodeOf(net.nodes, p.dst), p.src, p.index);
    ArrivedIs(net, p, handling);
    if handling.Process? {
      ProcessedOk(net.nodes, p, handling.via, handling.peer);
      DeliveryAdded(net, Delivery(p.dst, handling.via, handling.peer, p));
    } else if handling.Forward? {
      ForwardedOk(net.nodes, p, handling.neighbour, handling.index);
      PayloadAdded(net, Payload(p.dst, handling.neighbour, handling.index, p.origin, p.addressee, p.forwarded + 1));
    }
  }

  lemma ArrivedIs(net: Net, p: Payload, handling: Handling)
    requires handling == OnPayload(NodeOf(net.nodes, p.dst), p.src, p.index)
    ensures handling.Discard? ==> Arrived(net, p) == net
    ensures handling.Process? ==> Arrived(net, p) == net.(delivered := net.delivered + {Delivery(p.dst, handling.via, handling.peer, p)})
    ensures handling.Forward? ==>
      Arrived(net, p) == net.(payloads := net.payloads + {Payload(p.dst, handling.neighbour, handling.index, p.origin, p.addressee, p.forwarded + 1)})
  {}

  lemma ProcessedOk(nodes: Nodes, p: Payload, via: Addr, peer: Addr)
    requires Paired(nodes) && PayloadOk(nodes, p) && OnPayload(NodeOf(nodes, p.dst), p.src, p.index) == Process(via, peer)
    ensures DeliveryOk(Delivery(p.dst, via, peer, p))
  {
    PayloadResolves(nodes, p);
  }

  lemma ForwardedOk(nodes: Nodes, p: Payload, neighbour: Addr, index: nat)
    requires Paired(nodes) && PayloadOk(nodes, p) && OnPayload(NodeOf(nodes, p.dst), p.src, p.index) == Forward(neighbour, index)
    ensures PayloadOk(nodes, Payload(p.dst, neighbour, index, p.origin, p.addressee, p.forwarded + 1))
  {
    PayloadResolves(nodes, p);
    assert Table(nodes, p.dst, neighbour) == TableOf(NodeOf(nodes, p.dst), neighbour);
    UsableIndex(nodes, p.dst, neighbour, p.src);
  }

  lemma MarkedKeeps(net: Net, x: Addr, relay: Addr, vpnIp: Addr)
    requires Inv(net)
    ensures Inv(Marked(net, x, relay, vpnIp)) && Grows(net.nodes, Marked(net, x, relay, vpnIp).nodes)
  {
    var t := Table(net.nodes, x, relay);
    if x in net.nodes && vpnIp in t.byAddr && t.byAddr[vpnIp].state.Established? {
      MarkOk(net.nodes, x, relay, vpnIp);
      var o := Outcome(WithTable(net.nodes[x], relay, StateSet(t, vpnIp, Disestablished)), []);
      PostedKeeps(net, x, o);
    }
  }

  lemma StepKeeps(net: Net, e: Event)
    requires Inv(net)
    ensures Inv(Step(net, e)) && Grows(net.nodes, Step(net, e).nodes)
  {
    match e
    case Start(x, relay, vpnIp, draw) => StartKeeps(net, x, relay, vpnIp, draw);
    case Receive(_, _, _, _, _, _) => ReceiveKeeps(net, e);
    case Send(x, relay, vpnIp) => SentKeeps(net, x, relay, vpnIp);
    case Arrive(p) => if p in net.payloads { ArrivedKeeps(net, p); }
    case Disestablish(x, relay, vpnIp) => MarkedKeeps(net, x, relay, vpnIp);
  }

  lemma StartKeeps(net: Net, x: Addr, relay: Addr, vpnIp: Addr, draw: Option<nat>)
    requires Inv(net)
    ensures var net' := Step(net, Start(x, relay, vpnIp, draw)); Inv(net') && Grows(net.nodes, net'.nodes)
  {
    if x in net.nodes {
      StartOk(net.nodes, x, relay, vpnIp, draw);
      PostedKeeps(net, x, StartRelay(x, net.nodes[x], relay, vpnIp, draw));
    }
  }

  lemma ReceiveKeeps(net: Net, e: Event)
    requires Inv(net) && e.Receive?
    ensures Inv(Step(net, e)) && Grows(net.nodes, Step(net, e).nodes)
  {
    if e.envelope in net.wire && e.envelope.dst in net.nodes {
      HandleOk(net, e);
      PostedKeeps(net, e.envelope.dst, Handle(net.nodes[e.envelope.dst], e));
    }
  }

  lemma HandleOk(net: Net, e: Event)
    requires Inv(net) && e.Receive? && e.envelope in net.wire && e.envelope.dst in net.nodes
    ensures OutcomeOk(net.nodes, e.envelope.dst, Handle(net.nodes[e.envelope.dst], e))
  {
    var v := e.envelope;
    match v.message
    case CreateRelayRequest(from, to, i) =>
      OnRequestOk(net.nodes, v.dst, v.src, from, to, i, e.amRelay, e.direct, e.draw, e.draw');
    case CreateRelayResponse(from, to, ii, ri) =>
      OnResponseOk(net.nodes, v.dst, v.src, from, to, ii, ri, e.known);
  }

  lemma InitialOk(members: set<Addr>)
    ensures Inv(Initial(members))
  {
    var nodes := Initial(members).nodes;
    forall x ensures NodeOf(nodes, x) == FRESH {}
    forall y ensures TableOf(FRESH, y) == RelayTables([], map[], map[]) {}
  }

  lemma {:induction false} RunKeeps(net: Net, events: seq<Event>)
    requires Inv(net)
    ensures Inv(Run(net, events)) && Grows(net.nodes, Run(net, events).nodes)
    decreases |events|
  {
    if events != [] {
      var before := Run(net, events[..|events| - 1]);
      RunKeeps(net, events[..|events| - 1]);
      StepKeeps(before, events[|events| - 1]);
      GrowsTransitive(net.nodes, before.nodes, Run(net, events).nodes);
    }
  }

  // ---- What holds in every run ----

  /** Index agreement: a remote index x has stored for peer p on its tunnel to y is the local index
      of y's own entry for p on its tunnel to x. */
  lemma IndexesAgree(members: set<Addr>, events: seq<Event>, x: Addr, y: Addr, p: Addr)
    requires var nodes := Run(Initial(members), events).nodes;
      p in Table(nodes, x, y).byAddr && Table(nodes, x, y).byAddr[p].remoteIndex != 0
    ensures var nodes := Run(Initial(members), events).nodes;
      && p in Table(nodes, y, x).byAddr
      && Table(nodes, y, x).byAddr[p].localIndex == Table(nodes, x, y).byAddr[p].remoteIndex
  {
    InitialOk(members);
    RunKeeps(Initial(members), events);
    var nodes := Run(Initial(members), events).nodes;
    assert NodeOk(NodeOf(nodes, x)) && OnePerPeer(TableOf(NodeOf(nodes, x), y));
    assert EntryOk(nodes, x, y, Table(nodes, x, y).byAddr[p]);
  }

  /** The branch that finds an Established entry with another index is never taken. */
  lemma MismatchUnreachable(members: set<Addr>, events: seq<Event>, v: Envelope)
    requires v in Run(Initial(members), events).wire && v.message.CreateRelayRequest? && v.message.to == v.dst
    ensures !Mismatch(NodeOf(Run(Initial(members), events).nodes, v.dst), v.src, v.message.from, v.message.initiatorIndex)
  {
    InitialOk(members);
    RunKeeps(Initial(members), events);
    NeverMismatched(Run(Initial(members), events).nodes, v.dst, v.src, v.message.from, v.message.initiatorIndex);
  }

  /** An index, once allocated for a node, neighbour and peer, stays. */
  lemma IndexesNeverChange(members: set<Addr>, events: seq<Event>, more: seq<Event>)
    ensures Grows(Run(Initial(members), events).nodes, Run(Run(Initial(members), events), more).nodes)
  {
    InitialOk(members);
    RunKeeps(Initial(members), events);
    RunKeeps(Run(Initial(members), events), more);
  }

  /** A payload forwarded by a relay is addressed to the node that receives it, and that node
      finds the entry that names its first sender. */
  lemma ForwardedReachesAddressee(members: set<Addr>, events: seq<Event>, p: Payload)
    requires p in Run(Initial(members), events).payloads
    ensures var n := NodeOf(Run(Initial(members), events).nodes, p.dst);
      && p.index in n.relays && n.relays[p.index] == p.src && p.index in TableOf(n, p.src).byIdx
      && (p.forwarded == 0 ==> p.src == p.origin && TableOf(n, p.src).byIdx[p.index].peerAddr == p.addressee)
      && (p.forwarded == 1 ==> p.dst == p.addressee && TableOf(n, p.src).byIdx[p.index].peerAddr == p.origin)
  {
    InitialOk(members);
    RunKeeps(Initial(members), events);
    PayloadResolves(Run(Initial(members), events).nodes, p);
  }

  // ---- Exactly when a payload gets through ----

  /** The node that receives p unwraps it as coming from its origin. */
  ghost predicate Unwraps(nodes: Nodes, p: Payload) {
    OnPayload(NodeOf(nodes, p.dst), p.src, p.index) == Process(p.src, p.origin)
  }

  /** The node that receives p sends it on to the addressee, which unwraps it as coming from the origin. */
  ghost predicate GetsThrough(nodes: Nodes, p: Payload) {
    match OnPayload(NodeOf(nodes, p.dst), p.src, p.index)
    case Forward(neighbour, index) =>
      neighbour == p.addressee && Unwraps(nodes, Payload(p.dst, neighbour, index, p.origin, p.addressee, p.forwarded + 1))
    case Discard => false
    case Process(_, _) => false
  }

  /** x has an entry for p on its tunnel to y, of this kind. */
  predicate Keeps(nodes: Nodes, x: Addr, y: Addr, p: Addr, kind: RelayType) {
    p in Table(nodes, x, y).byAddr && Table(nodes, x, y).byAddr[p].kind == kind
  }

  /** The relay forwards on both legs, and the far one is up. */
  predicate BothForward(nodes: Nodes, origin: Addr, relay: Addr, addressee: Addr) {
    && Keeps(nodes, relay, origin, addressee, ForwardingType)
    && Keeps(nodes, relay, addressee, origin, ForwardingType) && Table(nodes, relay, addressee).byAddr[origin].state.Established?
  }

  /** ... and the addressee has the far end for itself. */
  predicate LegsUp(nodes: Nodes, origin: Addr, relay: Addr, addressee: Addr) {
    BothForward(nodes, origin, relay, addressee) && Keeps(nodes, addressee, relay, origin, TerminalType)
  }

  lemma UnwrapsIff(nodes: Nodes, p: Payload)
    requires Paired(nodes) && PayloadOk(nodes, p) && p.forwarded == 1
    ensures Unwraps(nodes, p) <==> Keeps(nodes, p.dst, p.src, p.origin, TerminalType)
  {
    PayloadResolves(nodes, p);
    assert NodeOk(NodeOf(nodes, p.dst)) && OnePerPeer(TableOf(NodeOf(nodes, p.dst), p.src));
  }

  /** A payload fresh from its origin is sent on exactly when both legs forward and the far one is up. */
  lemma ForwardsIff(nodes: Nodes, p: Payload)
    requires Paired(nodes) && PayloadOk(nodes, p) && p.forwarded == 0
    ensures var handling := OnPayload(NodeOf(nodes, p.dst), p.src, p.index);
      && (handling.Forward? <==> BothForward(nodes, p.origin, p.dst, p.addressee))
      && (handling.Forward? ==> handling == Forward(p.addressee, Table(nodes, p.dst, p.addressee).byAddr[p.origin].remoteIndex))
  {
    PayloadResolves(nodes, p);
    assert NodeOk(NodeOf(nodes, p.dst)) && OnePerPeer(TableOf(NodeOf(nodes, p.dst), p.src));
  }

  lemma GetsThroughIff(nodes: Nodes, p: Payload)
    requires Paired(nodes) && PayloadOk(nodes, p) && p.forwarded == 0
    ensures GetsThrough(nodes, p) <==> LegsUp(nodes, p.origin, p.dst, p.addressee)
  {
    ForwardsIff(nodes, p);
    if BothForward(nodes, p.origin, p.dst, p.addressee) {
      var index := Table(nodes, p.dst, p.addressee).byAddr[p.origin].remoteIndex;
      UsableIndex(nodes, p.dst, p.addressee, p.origin);
      UnwrapsIff(nodes, Payload(p.dst, p.addressee, index, p.origin, p.addressee, 1));
    }
  }

  /** In every run a payload once forwarded is unwrapped as coming from its origin exactly when the
      entry it reaches is of the terminal kind. */
  lemma ForwardedIsUnwrappedIff(members: set<Addr>, events: seq<Event>, p: Payload)
    requires p in Run(Initial(members), events).payloads && p.forwarded == 1
    ensures var nodes := Run(Initial(members), events).nodes;
      Unwraps(nodes, p) <==> Keeps(nodes, p.dst, p.src, p.origin, TerminalType)
  {
    InitialOk(members);
    RunKeeps(Initial(members), events);
    UnwrapsIff(Run(Initial(members), events).nodes, p);
  }

  /** In every run a payload that a node can send by way of a neighbour gets through exactly when the
      neighbour forwards on both legs, its far leg is up and the addressee's entry is of the terminal kind. */
  lemma SentGetsThroughIff(members: set<Addr>, events: seq<Event>, x: Addr, relay: Addr, vpnIp: Addr, index: nat)
    requires SendIndex(NodeOf(Run(Initial(members), events).nodes, x), relay, vpnIp) == Some(index)
    ensures var nodes := Run(Initial(members), events).nodes;
      GetsThrough(nodes, Payload(x, relay, index, x, vpnIp, 0)) <==> LegsUp(nodes, x, relay, vpnIp)
  {
    InitialOk(members);
    RunKeeps(Initial(members), events);
    var nodes := Run(Initial(members), events).nodes;
    UsableIndex(nodes, x, relay, vpnIp);
    GetsThroughIff(nodes, Payload(x, relay, index, x, vpnIp, 0));
  }

  /** The same for a payload under way, by the entries there are when it arrives. */
  lemma UnderWayGetsThroughIff(members: set<Addr>, events: seq<Event>, p: Payload)
    requires p in Run(Initial(members), events).payloads && p.forwarded == 0
    ensures var nodes := Run(Initial(members), events).nodes;
      GetsThrough(nodes, p) <==> LegsUp(nodes, p.origin, p.dst, p.addressee)
  {
    InitialOk(members);
    RunKeeps(Initial(members), events);
    GetsThroughIff(Run(Initial(members), events).nodes, p);
  }
}
