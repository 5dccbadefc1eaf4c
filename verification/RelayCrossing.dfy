/** Two ends that ask the same relay for each other: how one lost message can leave an end waiting for good. */
module RelayCrossing {
  import opened Options
  import opened RelayEntries
  import opened RelayNode
  import opened RelayNetwork
  import opened RelayRuns
  import opened RelayRoles
  import opened RelayProgress
  import B = RelayBounce

  /** Between two ends that are no relays an attempt fails only for one reason: the relay has asked the origin
      itself and still waits for its answer. */
  lemma AttemptBetweenEnds(members: set<Addr>, relays: set<Addr>, events: seq<Event>, x: Addr, relay: Addr, y: Addr, d: Draws)
    requires forall e :: e in events ==> Respects(relays, e)
    requires var nodes := Run(Initial(members), events).nodes;
      Party(nodes, x, relay, y) && Supplied(nodes, x, relay, y, d) && SendIndex(nodes[x], relay, y).None?
    requires x !in relays && y !in relays && relay in relays
    ensures var nodes := Run(Initial(members), events).nodes;
      Usable(Attempt(nodes, x, relay, y, d), x, relay, y) <==> !Waiting(EntryOf(nodes, relay, x, y))
  {
    RunRoles(members, relays, events);
    var nodes := Run(Initial(members), events).nodes;
    EndRoles(nodes, relays, x, relay, y);
    AttemptIff(nodes, x, relay, y, d);
  }

  lemma EndRoles(nodes: Nodes, relays: set<Addr>, x: Addr, relay: Addr, y: Addr)
    requires Paired(nodes) && Roles(nodes, relays) && x !in relays && y !in relays && relay in relays
    ensures var l := LegsOf(nodes, x, relay, y);
      && (Ready(l) <==> !Waiting(l.near)) && (l.origin.Some? ==> !l.origin.value.state.PeerRequested?)
  {
    OneRole(nodes, relays, x, relay, y);
    OneRole(nodes, relays, relay, y, x);
    OneRole(nodes, relays, relay, x, y);
    OneRole(nodes, relays, y, relay, x);
  }

  lemma OneRole(nodes: Nodes, relays: set<Addr>, x: Addr, y: Addr, p: Addr)
    requires Paired(nodes) && Roles(nodes, relays)
    ensures var e := EntryOf(nodes, x, y, p); e.Some? ==> RoleEntry(relays, x, y, e.value) && EntryOk(nodes, x, y, e.value)
  {
    EntryFacts(nodes, x, y, p);
    if p in Table(nodes, x, y).byAddr {
      assert RoleEntry(relays, x, y, Table(nodes, x, y).byAddr[p]);
    }
  }

  /** x waits for the relay, the relay for x, and the other end is up as far as both it and the relay know. */
  predicate Stalled(nodes: Nodes, x: Addr, relay: Addr, y: Addr) {
    && Party(nodes, x, relay, y)
    && var l := LegsOf(nodes, x, relay, y);
    && Waiting(l.origin) && Waiting(l.near) && Up(l.far, ForwardingType) && l.end.Some? && l.end.value.state.Established?
  }

  lemma StalledAsks(nodes: Nodes, x: Addr, relay: Addr, y: Addr, draw: Option<nat>)
    requires Stalled(nodes, x, relay, y)
    ensures StartRelay(x, nodes[x], relay, y, draw)
         == Outcome(nodes[x], [Outgoing(relay, CreateRelayRequest(x, y, LegsOf(nodes, x, relay, y).origin.value.localIndex))])
  {}

  /** The relay in between, while the target is asked once more. */
  function Between(nodes: Nodes, x: Addr, relay: Addr, y: Addr): Node
    requires relay in nodes
  {
    WithTable(nodes[relay], y, StateSet(TableOf(nodes[relay], y), x, Requested))
  }

  lemma StalledForwards(nodes: Nodes, x: Addr, relay: Addr, y: Addr, idx: nat, far: Option<nat>, near: Option<nat>)
    requires Stalled(nodes, x, relay, y)
    ensures OnRequest(relay, nodes[relay], x, x, y, idx, true, true, far, near)
         == Outcome(Between(nodes, x, relay, y), [Outgoing(y, CreateRelayRequest(x, y, LegsOf(nodes, x, relay, y).far.value.localIndex))])
  {
    assert TableOf(Between(nodes, x, relay, y), x) == TableOf(nodes[relay], x);
  }

  /** The two inner ends know each other's index. */
  lemma StalledAgree(nodes: Nodes, x: Addr, relay: Addr, y: Addr)
    requires Paired(nodes) && Stalled(nodes, x, relay, y)
    ensures var l := LegsOf(nodes, x, relay, y);
      l.end.value.remoteIndex == l.far.value.localIndex && l.far.value.remoteIndex == l.end.value.localIndex
  {
    EntryFacts(nodes, y, relay, x);
    EntryFacts(nodes, relay, y, x);
  }

  lemma StalledAnswers(nodes: Nodes, x: Addr, relay: Addr, y: Addr, draw: Option<nat>, draw': Option<nat>)
    requires Paired(nodes) && Stalled(nodes, x, relay, y)
    ensures var l := LegsOf(nodes, x, relay, y);
      OnRequest(y, nodes[y], relay, x, y, l.far.value.localIndex, true, true, draw, draw')
      == Outcome(nodes[y], [Outgoing(relay, CreateRelayResponse(x, y, l.far.value.localIndex, l.end.value.localIndex))])
  {
    StalledAgree(nodes, x, relay, y);
  }

  lemma StalledIsQuiet(nodes: Nodes, x: Addr, relay: Addr, y: Addr)
    requires Paired(nodes) && Stalled(nodes, x, relay, y)
    ensures var l := LegsOf(nodes, x, relay, y);
      OnResponse(Between(nodes, x, relay, y), y, y, l.far.value.localIndex, l.end.value.localIndex, true) == Outcome(nodes[relay], [])
  {
    StalledAgree(nodes, x, relay, y);
    EntryFacts(nodes, relay, y, x);
    assert NodeOk(NodeOf(nodes, relay));
    var e := EntryOf(nodes, relay, y, x).value;
    BackAgain(nodes[relay], y, e);
    assert e.(state := Requested).(state := Established, remoteIndex := e.remoteIndex) == e;
  }

  /** The relay asks, is answered out of an entry that stays as it is, and is what it was before. */
  lemma ThereAndBack(nodes: Nodes, relay: Addr, n: Node, y: Addr, ask: Outgoing, answer: Outgoing, end: Option<nat>)
    requires relay in nodes && y in nodes && relay != y && ask.neighbour == y && answer.neighbour == relay
    requires var nodes' := nodes[relay := n];
      && Received(nodes', relay, ask, end, None) == Outcome(nodes[y], [answer])
      && Received(nodes', y, answer, None, None) == Outcome(nodes[relay], [])
    ensures Settle(nodes[relay := n], relay, [ask], [(end, None)] + ([(None, None)] + LAST)) == nodes
  {
    var nodes' := nodes[relay := n];
    assert nodes'[y := nodes[y]] == nodes' && nodes'[relay := nodes[relay]] == nodes;
    SettleOne(nodes', relay, ask, end, None, [(None, None)] + LAST, Outcome(nodes[y], [answer]));
    SettleEnds(nodes', y, answer, None, None, LAST, Outcome(nodes[relay], []));
  }

  lemma StalledReturns(nodes: Nodes, x: Addr, relay: Addr, y: Addr, end: Option<nat>)
    requires Paired(nodes) && Stalled(nodes, x, relay, y)
    ensures var l := LegsOf(nodes, x, relay, y);
      Settle(nodes[relay := Between(nodes, x, relay, y)], relay, [Outgoing(y, CreateRelayRequest(x, y, l.far.value.localIndex))],
             [(end, None)] + ([(None, None)] + LAST)) == nodes
  {
    var l := LegsOf(nodes, x, relay, y);
    var answer := Outgoing(relay, CreateRelayResponse(x, y, l.far.value.localIndex, l.end.value.localIndex));
    StalledAnswers(nodes, x, relay, y, end, None);
    StalledIsQuiet(nodes, x, relay, y);
    ThereAndBack(nodes, relay, Between(nodes, x, relay, y), y, Outgoing(y, CreateRelayRequest(x, y, l.far.value.localIndex)), answer, end);
  }

  lemma OriginStaysStalled(nodes: Nodes, x: Addr, relay: Addr, y: Addr, d: Draws)
    requires Paired(nodes) && Stalled(nodes, x, relay, y)
    ensures Attempt(nodes, x, relay, y, d) == nodes
  {
    var l := LegsOf(nodes, x, relay, y);
    var ask := Outgoing(relay, CreateRelayRequest(x, y, l.origin.value.localIndex));
    var on := Outgoing(y, CreateRelayRequest(x, y, l.far.value.localIndex));
    StalledAsks(nodes, x, relay, y, d.start);
    assert nodes[x := nodes[x]] == nodes;
    StalledForwards(nodes, x, relay, y, l.origin.value.localIndex, d.far, d.near);
    SettleOne(nodes, x, ask, d.far, d.near, [(d.end, None)] + ([(None, None)] + LAST), Outcome(Between(nodes, x, relay, y), [on]));
    StalledReturns(nodes, x, relay, y, d.end);
  }

  /** In such a state neither end gets any further: every attempt of either, with all its messages received,
      leaves every node as it was. */
  lemma StalledStays(nodes: Nodes, x: Addr, relay: Addr, y: Addr, d: Draws)
    requires Paired(nodes) && Stalled(nodes, x, relay, y)
    ensures Attempt(nodes, x, relay, y, d) == nodes && Attempt(nodes, y, relay, x, d) == nodes
  {
    OriginStaysStalled(nodes, x, relay, y, d);
    AttemptIsQuiet(nodes, y, relay, x, d);
  }

  // A run of two ends and one relay that gets there.

  const N2A := Node(map[3 := B.Entry(TerminalType, Requested, 20, 0, 1)], map[20 := 3])
  const N2B := Node(map[3 := B.Entry(TerminalType, Established, 20, 30, 1)], map[20 := 3])
  const N3A := Node(map[2 := B.Entry(ForwardingType, Requested, 30, 0, 1), 1 := B.Entry(ForwardingType, PeerRequested, 31, 10, 2)],
                    map[30 := 2, 31 := 1])
  const N3B := Node(N3A.tables[1 := B.Entry(ForwardingType, Requested, 31, 10, 2)], N3A.relays)
  const N3C := Node(N3B.tables[2 := B.Entry(ForwardingType, Established, 30, 20, 1)], N3A.relays)

  const ASK1 := CreateRelayRequest(2, 1, 20)
  const ON1 := CreateRelayRequest(2, 1, 31)
  const ON2 := CreateRelayRequest(1, 2, 30)
  const FROM2 := CreateRelayResponse(1, 2, 30, 20)

  lemma Asking()
    ensures StartRelay(1, FRESH, 3, 2, Some(10)) == Outcome(B.N1A, [Outgoing(3, B.ASK2)])
    ensures StartRelay(2, FRESH, 3, 1, Some(20)) == Outcome(N2A, [Outgoing(3, ASK1)])
  {}

  lemma Relaying()
    ensures OnRequest(3, FRESH, 1, 1, 2, 10, true, true, Some(30), Some(31)) == Outcome(N3A, [Outgoing(2, ON2)])
    ensures OnRequest(3, N3A, 2, 2, 1, 20, true, true, Some(40), Some(41)) == Outcome(N3B, [Outgoing(1, ON1)])
  {
    B.Restored(Relay(ForwardingType, PeerRequested, 31, 10, 2), Relay(ForwardingType, Requested, 31, 10, 2));
  }

  lemma Answering()
    ensures OnRequest(2, N2A, 3, 1, 2, 30, false, true, Some(50), Some(51)) == Outcome(N2B, [Outgoing(3, FROM2)])
  {
    B.Restored(Relay(TerminalType, Requested, 20, 0, 1), Relay(TerminalType, Established, 20, 30, 1));
    assert N2A.tables[3 := B.Entry(TerminalType, Established, 20, 30, 1)] == N2B.tables;
  }

  lemma Completing()
    ensures OnResponse(N3B, 2, 2, 30, 20, true) == Outcome(N3C, [])
  {
    B.Restored(Relay(ForwardingType, Requested, 30, 0, 1), Relay(ForwardingType, Established, 30, 20, 1));
  }

  lemma BothAsk() returns (events: seq<Event>)
    ensures B.Reached(B.ONE, events, B.Three(B.N1A, N2A, FRESH))
    ensures Envelope(1, 3, B.ASK2) in B.Now(events).wire && Envelope(2, 3, ASK1) in B.Now(events).wire
  {
    Asking();
    assert B.Reached(B.ONE, [], B.Three(FRESH, FRESH, FRESH));
    B.StartNext(B.ONE, [], B.Three(FRESH, FRESH, FRESH), 1, 3, 2, 10, B.N1A, B.ASK2);
    B.Replaced1(FRESH, FRESH, FRESH, B.N1A);
    events := [] + [Start(1, 3, 2, Some(10))];
    B.StartNext(B.ONE, events, B.Three(B.N1A, FRESH, FRESH), 2, 3, 1, 20, N2A, ASK1);
    B.Replaced2(B.N1A, FRESH, FRESH, N2A);
    events := events + [Start(2, 3, 1, Some(20))];
  }

  /** The relay takes both requests; what it asks of 1 is lost. */
  lemma BothForwarded() returns (events: seq<Event>)
    ensures B.Reached(B.ONE, events, B.Three(B.N1A, N2A, N3B)) && Envelope(3, 2, ON2) in B.Now(events).wire
  {
    Relaying();
    events := BothAsk();
    B.HandleNext(B.ONE, events, B.Three(B.N1A, N2A, FRESH), B.Deliver(B.ONE, 1, 3, B.ASK2, 30), Outcome(N3A, [Outgoing(2, ON2)]));
    B.Replaced3(B.N1A, N2A, FRESH, N3A);
    events := events + [B.Deliver(B.ONE, 1, 3, B.ASK2, 30)];
    B.HandleNext(B.ONE, events, B.Three(B.N1A, N2A, N3A), B.Deliver(B.ONE, 2, 3, ASK1, 40), Outcome(N3B, [Outgoing(1, ON1)]));
    B.Replaced3(B.N1A, N2A, N3A, N3B);
    events := events + [B.Deliver(B.ONE, 2, 3, ASK1, 40)];
  }

  lemma OneAnswered() returns (events: seq<Event>)
    ensures B.Reached(B.ONE, events, B.Three(B.N1A, N2B, N3C))
  {
    Answering();
    Completing();
    events := BothForwarded();
    B.HandleNext(B.ONE, events, B.Three(B.N1A, N2A, N3B), B.Deliver(B.ONE, 3, 2, ON2, 50), Outcome(N2B, [Outgoing(3, FROM2)]));
    B.Replaced2(B.N1A, N2A, N3B, N2B);
    events := events + [B.Deliver(B.ONE, 3, 2, ON2, 50)];
    B.HandleNext(B.ONE, events, B.Three(B.N1A, N2B, N3B), B.Deliver(B.ONE, 2, 3, FROM2, 60), Outcome(N3C, []));
    B.Replaced3(B.N1A, N2B, N3B, N3C);
    events := events + [B.Deliver(B.ONE, 2, 3, FROM2, 60)];
  }

  /** Ends 1 and 2 ask relay 3 for each other and its request to 1 is lost: end 1 waits and, as no attempt changes
      anything, keeps waiting. */
  lemma CrossedRequestsStall() returns (events: seq<Event>)
    ensures forall e :: e in events ==> Respects({3}, e)
    ensures var nodes := Run(Initial({1, 2, 3}), events).nodes;
      && Stalled(nodes, 1, 3, 2)
      && forall d: Draws :: Attempt(nodes, 1, 3, 2, d) == nodes && Attempt(nodes, 2, 3, 1, d) == nodes
  {
    events := OneAnswered();
    InitialOk({1, 2, 3});
    RunKeeps(Initial({1, 2, 3}), events);
    EndsStalled();
    AllStalled(B.Three(B.N1A, N2B, N3C), 1, 3, 2);
  }

  lemma EndsStalled()
    ensures Stalled(B.Three(B.N1A, N2B, N3C), 1, 3, 2)
  {}

  lemma AllStalled(nodes: Nodes, x: Addr, relay: Addr, y: Addr)
    requires Paired(nodes) && Stalled(nodes, x, relay, y)
    ensures forall d: Draws :: Attempt(nodes, x, relay, y, d) == nodes && Attempt(nodes, y, relay, x, d) == nodes
  {
    forall d: Draws ensures Attempt(nodes, x, relay, y, d) == nodes && Attempt(nodes, y, relay, x, d) == nodes {
      StalledStays(nodes, x, relay, y, d);
    }
  }
}
