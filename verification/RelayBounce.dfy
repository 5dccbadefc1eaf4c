/** Why end-to-end delivery asks that neither the addressee nor the origin is a relay: a run of three
    nodes, two of them relays that each serve as a target behind the other, and a run with one relay
    that sends by an entry it keeps to forward. */
module RelayBounce {
  import opened Options
  import opened RelayEntries
  import opened RelayNode
  import opened RelayNetwork
  import opened RelayRuns
  import opened RelayRoles

  function One(r: Relay): RelayTables {
    RelayTables([], map[r.peerAddr := r], map[r.localIndex := r])
  }

  /** Node 3 is a relay in both runs, node 2 in the first. */
  const TWO: set<Addr> := {2, 3}
  const ONE: set<Addr> := {3}

  function Deliver(relays: set<Addr>, src: Addr, dst: Addr, m: Message, draw: nat): Event {
    Receive(Envelope(src, dst, m), dst in relays, true, true, Some(draw), Some(draw + 1))
  }

  const ASK2 := CreateRelayRequest(1, 2, 10)
  const ASK3 := CreateRelayRequest(1, 3, 11)
  const ON2 := CreateRelayRequest(1, 2, 20)
  const ON3 := CreateRelayRequest(1, 3, 30)
  const FROM2 := CreateRelayResponse(1, 2, 20, 30)
  const FROM3 := CreateRelayResponse(1, 3, 30, 20)
  const DONE2 := CreateRelayResponse(1, 2, 10, 21)

  /** Node 1's payload for 2 goes out by 3. */
  const PAYLOAD := Payload(1, 3, 21, 1, 2, 0)
  const ON_THE_WAY := Payload(3, 2, 30, 1, 2, 1)
  const BOUNCED := Payload(2, 1, 11, 1, 2, 2)

  // The nodes on the way.

  function Entry(kind: RelayType, state: RelayState, local: nat, remote: nat, peer: Addr): RelayTables {
    One(Relay(kind, state, local, remote, peer))
  }

  const N1A := Node(map[3 := Entry(TerminalType, Requested, 10, 0, 2)], map[10 := 3])
  const N1B := Node(N1A.tables[2 := Entry(TerminalType, Requested, 11, 0, 3)], map[10 := 3, 11 := 2])
  const N1C := Node(N1B.tables[3 := Entry(TerminalType, Established, 10, 21, 2)], N1B.relays)
  const N3A := Node(map[2 := Entry(ForwardingType, Requested, 20, 0, 1), 1 := Entry(ForwardingType, PeerRequested, 21, 10, 2)],
                    map[20 := 2, 21 := 1])
  const N3B := Node(map[2 := Entry(ForwardingType, Established, 20, 30, 1), 1 := Entry(ForwardingType, Established, 21, 10, 2)],
                    N3A.relays)
  const N2A := Node(map[3 := Entry(ForwardingType, Requested, 30, 0, 1), 1 := Entry(ForwardingType, PeerRequested, 31, 11, 3)],
                    map[30 := 3, 31 := 1])
  const N2B := Node(N2A.tables[3 := Entry(ForwardingType, Established, 30, 20, 1)], N2A.relays)
  const N2C := Node(N2B.tables[1 := Entry(ForwardingType, Established, 31, 11, 3)], N2A.relays)

  lemma Restored(r: Relay, r': Relay)
    requires r.peerAddr == r'.peerAddr && r.localIndex == r'.localIndex
    ensures Stored(One(r), r') == One(r')
  {}

  lemma Asking()
    ensures StartRelay(1, FRESH, 3, 2, Some(10)) == Outcome(N1A, [Outgoing(3, ASK2)])
    ensures StartRelay(1, N1A, 2, 3, Some(11)) == Outcome(N1B, [Outgoing(2, ASK3)])
    ensures OnResponse(N1B, 3, 2, 10, 21, true) == Outcome(N1C, [])
  {
    Restored(Relay(TerminalType, Requested, 10, 0, 2), Relay(TerminalType, Established, 10, 21, 2));
  }

  lemma Relaying()
    ensures OnRequest(3, FRESH, 1, 1, 2, 10, true, true, Some(20), Some(21)) == Outcome(N3A, [Outgoing(2, ON2)])
    ensures OnRequest(2, FRESH, 1, 1, 3, 11, true, true, Some(30), Some(31)) == Outcome(N2A, [Outgoing(3, ON3)])
  {}

  lemma Answering2()
    ensures OnRequest(2, N2A, 3, 1, 2, 20, true, true, Some(40), Some(41)) == Outcome(N2B, [Outgoing(3, FROM2)])
    ensures OnRequest(3, N3B, 2, 1, 3, 30, true, true, Some(70), Some(71)) == Outcome(N3B, [Outgoing(2, FROM3)])
  {
    Restored(Relay(ForwardingType, Requested, 30, 0, 1), Relay(ForwardingType, Established, 30, 20, 1));
  }

  lemma Answering3()
    ensures OnResponse(N3A, 2, 2, 20, 30, true) == Outcome(N3B, [Outgoing(1, DONE2)])
  {
    Restored(Relay(ForwardingType, Requested, 20, 0, 1), Relay(ForwardingType, Established, 20, 30, 1));
    Restored(Relay(ForwardingType, PeerRequested, 21, 10, 2), Relay(ForwardingType, Established, 21, 10, 2));
    assert N3A.tables[2 := Entry(ForwardingType, Established, 20, 30, 1)][1 := Entry(ForwardingType, Established, 21, 10, 2)] == N3B.tables;
  }

  lemma Answered()
    ensures OnResponse(N2B, 3, 3, 30, 20, true) == Outcome(N2C, [Outgoing(1, CreateRelayResponse(1, 3, 11, 31))])
  {
    Restored(Relay(ForwardingType, Established, 30, 20, 1), Relay(ForwardingType, Established, 30, 20, 1));
    Restored(Relay(ForwardingType, PeerRequested, 31, 11, 3), Relay(ForwardingType, Established, 31, 11, 3));
    assert N2B.tables[3 := Entry(ForwardingType, Established, 30, 20, 1)] == N2B.tables;
  }

  lemma Travelling()
    ensures SendIndex(N1C, 3, 2) == Some(21)
    ensures OnPayload(N3B, 1, 21) == Forward(2, 30)
  {}

  lemma Bouncing()
    ensures OnPayload(N2C, 3, 30) == Forward(1, 11)
    ensures OnPayload(N1C, 2, 11) == Process(2, 3)
  {}

  // The run.

  function Now(events: seq<Event>): Net {
    Run(Initial({1, 2, 3}), events)
  }

  function Three(n1: Node, n2: Node, n3: Node): Nodes {
    map[1 := n1, 2 := n2, 3 := n3]
  }

  /** A run with these relays has led to these nodes. */
  ghost predicate Reached(relays: set<Addr>, events: seq<Event>, nodes: Nodes) {
    (forall e :: e in events ==> Respects(relays, e)) && Now(events).nodes == nodes
  }

  lemma Then(events: seq<Event>, e: Event)
    ensures Now(events + [e]) == Step(Now(events), e)
  {
    assert (events + [e])[..|events|] == events;
  }

  lemma StartNext(relays: set<Addr>, events: seq<Event>, nodes: Nodes, x: Addr, relay: Addr, vpnIp: Addr, draw: nat, n': Node, m: Message)
    requires Reached(relays, events, nodes) && x in nodes && x !in relays
    requires StartRelay(x, nodes[x], relay, vpnIp, Some(draw)) == Outcome(n', [Outgoing(relay, m)])
    ensures var events' := events + [Start(x, relay, vpnIp, Some(draw))];
      Reached(relays, events', nodes[x := n']) && Now(events).wire <= Now(events').wire && Envelope(x, relay, m) in Now(events').wire
  {
    Then(events, Start(x, relay, vpnIp, Some(draw)));
    assert Outgoing(relay, m) in [Outgoing(relay, m)];
  }

  /** The receiver handles a message that is on the wire. */
  lemma HandleNext(relays: set<Addr>, events: seq<Event>, nodes: Nodes, e: Event, o: Outcome)
    requires Reached(relays, events, nodes) && e.Receive? && Respects(relays, e) && e.envelope in Now(events).wire
    requires e.envelope.dst in nodes && Handle(nodes[e.envelope.dst], e) == o
    ensures var events' := events + [e];
      && Reached(relays, events', nodes[e.envelope.dst := o.node])
      && Now(events).wire <= Now(events').wire
      && forall k :: 0 <= k < |o.sent| ==> Envelope(e.envelope.dst, o.sent[k].neighbour, o.sent[k].message) in Now(events').wire
  {
    Then(events, e);
  }

  lemma Replaced(n1: Node, n2: Node, n3: Node, n: Node)
    ensures Three(n1, n2, n3)[1 := n] == Three(n, n2, n3)
    ensures Three(n1, n2, n3)[2 := n] == Three(n1, n, n3)
    ensures Three(n1, n2, n3)[3 := n] == Three(n1, n2, n)
  {
    Replaced1(n1, n2, n3, n);
    Replaced2(n1, n2, n3, n);
    Replaced3(n1, n2, n3, n);
  }

  lemma Replaced1(n1: Node, n2: Node, n3: Node, n: Node)
    ensures Three(n1, n2, n3)[1 := n] == Three(n, n2, n3)
  {
    SameMap(Three(n1, n2, n3)[1 := n], Three(n, n2, n3));
  }

  lemma Replaced2(n1: Node, n2: Node, n3: Node, n: Node)
    ensures Three(n1, n2, n3)[2 := n] == Three(n1, n, n3)
  {
    SameMap(Three(n1, n2, n3)[2 := n], Three(n1, n, n3));
  }

  lemma Replaced3(n1: Node, n2: Node, n3: Node, n: Node)
    ensures Three(n1, n2, n3)[3 := n] == Three(n1, n2, n)
  {
    SameMap(Three(n1, n2, n3)[3 := n], Three(n1, n2, n));
  }

  lemma SameMap(a: Nodes, b: Nodes)
    requires a.Keys == {1, 2, 3} && b.Keys == {1, 2, 3} && a[1] == b[1] && a[2] == b[2] && a[3] == b[3]
    ensures a == b
  {}

  lemma ForwardNext(events: seq<Event>, p: Payload, n: Node, neighbour: Addr, index: nat)
    requires p in Now(events).payloads && NodeOf(Now(events).nodes, p.dst) == n
    requires OnPayload(n, p.src, p.index) == Forward(neighbour, index)
    ensures Now(events + [Arrive(p)]).nodes == Now(events).nodes
    ensures Payload(p.dst, neighbour, index, p.origin, p.addressee, p.forwarded + 1) in Now(events + [Arrive(p)]).payloads
  {
    Then(events, Arrive(p));
  }

  lemma Started() returns (events: seq<Event>)
    ensures Reached(TWO, events, Three(N1B, FRESH, FRESH))
    ensures Envelope(1, 3, ASK2) in Now(events).wire && Envelope(1, 2, ASK3) in Now(events).wire
  {
    Asking();
    assert Reached(TWO, [], Three(FRESH, FRESH, FRESH));
    StartNext(TWO, [], Three(FRESH, FRESH, FRESH), 1, 3, 2, 10, N1A, ASK2);
    Replaced(FRESH, FRESH, FRESH, N1A);
    events := [Start(1, 3, 2, Some(10))];
    StartNext(TWO, events, Three(N1A, FRESH, FRESH), 1, 2, 3, 11, N1B, ASK3);
    Replaced(N1A, FRESH, FRESH, N1B);
    events := events + [Start(1, 2, 3, Some(11))];
  }

  lemma BothAsked() returns (events: seq<Event>)
    ensures Reached(TWO, events, Three(N1B, N2A, N3A))
    ensures Envelope(3, 2, ON2) in Now(events).wire && Envelope(2, 3, ON3) in Now(events).wire
  {
    Relaying();
    events := Started();
    HandleNext(TWO, events, Three(N1B, FRESH, FRESH), Deliver(TWO, 1, 3, ASK2, 20), Outcome(N3A, [Outgoing(2, ON2)]));
    Replaced(N1B, FRESH, FRESH, N3A);
    events := events + [Deliver(TWO, 1, 3, ASK2, 20)];
    HandleNext(TWO, events, Three(N1B, FRESH, N3A), Deliver(TWO, 1, 2, ASK3, 30), Outcome(N2A, [Outgoing(3, ON3)]));
    Replaced(N1B, FRESH, N3A, N2A);
    events := events + [Deliver(TWO, 1, 2, ASK3, 30)];
  }

  lemma FirstAnswer() returns (events: seq<Event>)
    ensures Reached(TWO, events, Three(N1B, N2B, N3A))
    ensures Envelope(2, 3, ON3) in Now(events).wire && Envelope(2, 3, FROM2) in Now(events).wire
  {
    Answering2();
    events := BothAsked();
    HandleNext(TWO, events, Three(N1B, N2A, N3A), Deliver(TWO, 3, 2, ON2, 40), Outcome(N2B, [Outgoing(3, FROM2)]));
    Replaced2(N1B, N2A, N3A, N2B);
    events := events + [Deliver(TWO, 3, 2, ON2, 40)];
  }

  lemma OneAnswered() returns (events: seq<Event>)
    ensures Reached(TWO, events, Three(N1C, N2B, N3B)) && Envelope(2, 3, ON3) in Now(events).wire
  {
    Asking();
    Answering3();
    events := FirstAnswer();
    HandleNext(TWO, events, Three(N1B, N2B, N3A), Deliver(TWO, 2, 3, FROM2, 50), Outcome(N3B, [Outgoing(1, DONE2)]));
    Replaced3(N1B, N2B, N3A, N3B);
    events := events + [Deliver(TWO, 2, 3, FROM2, 50)];
    HandleNext(TWO, events, Three(N1B, N2B, N3B), Deliver(TWO, 3, 1, DONE2, 60), Outcome(N1C, []));
    Replaced(N1B, N2B, N3B, N1C);
    events := events + [Deliver(TWO, 3, 1, DONE2, 60)];
  }

  lemma BothAnswered() returns (events: seq<Event>)
    ensures Reached(TWO, events, Three(N1C, N2C, N3B))
  {
    Answering2();
    Answered();
    events := OneAnswered();
    HandleNext(TWO, events, Three(N1C, N2B, N3B), Deliver(TWO, 2, 3, ON3, 70), Outcome(N3B, [Outgoing(2, FROM3)]));
    Replaced(N1C, N2B, N3B, N3B);
    events := events + [Deliver(TWO, 2, 3, ON3, 70)];
    HandleNext(TWO, events, Three(N1C, N2B, N3B), Deliver(TWO, 3, 2, FROM3, 80), Outcome(N2C, [Outgoing(1, CreateRelayResponse(1, 3, 11, 31))]));
    Replaced(N1C, N2B, N3B, N2C);
    events := events + [Deliver(TWO, 3, 2, FROM3, 80)];
  }

  lemma SentOut() returns (events: seq<Event>)
    ensures Reached(TWO, events, Three(N1C, N2C, N3B)) && PAYLOAD in Now(events).payloads
  {
    var setUp := BothAnswered();
    Travelling();
    Then(setUp, Send(1, 3, 2));
    events := setUp + [Send(1, 3, 2)];
  }

  lemma OnItsWay() returns (events: seq<Event>)
    ensures Reached(TWO, events, Three(N1C, N2C, N3B)) && ON_THE_WAY in Now(events).payloads
  {
    var before := SentOut();
    Travelling();
    ForwardNext(before, PAYLOAD, N3B, 2, 30);
    events := before + [Arrive(PAYLOAD)];
  }

  lemma ComingBack() returns (events: seq<Event>)
    ensures Reached(TWO, events, Three(N1C, N2C, N3B)) && BOUNCED in Now(events).payloads
  {
    var before := OnItsWay();
    Bouncing();
    ForwardNext(before, ON_THE_WAY, N2C, 1, 11);
    events := before + [Arrive(ON_THE_WAY)];
  }

  /** A payload of node 1 for the relay 2 comes back to node 1, which unwraps it as coming from 3. */
  lemma RelayAddresseeBounces() returns (events: seq<Event>, d: Delivery)
    ensures forall e :: e in events ==> Respects(TWO, e)
    ensures d in Run(Initial({1, 2, 3}), events).delivered
    ensures d.payload.origin == 1 && d.payload.addressee == 2 && d.at == 1 && d.peer == 3
  {
    var before := ComingBack();
    Bouncing();
    Then(before, Arrive(BOUNCED));
    events := before + [Arrive(BOUNCED)];
    d := Delivery(1, 2, 3, BOUNCED);
  }

  // One relay, with a relay set up from 1 to 2 by way of 3.

  const N2T := Node(map[3 := Entry(TerminalType, Established, 30, 20, 1)], map[30 := 3])
  /** Node 3's payload for 1, sent out by 2. */
  const STRAY := Payload(3, 2, 30, 3, 1, 0)

  lemma Ending()
    ensures OnRequest(2, FRESH, 3, 1, 2, 20, false, true, Some(30), Some(31)) == Outcome(N2T, [Outgoing(3, FROM2)])
    ensures SendIndex(N3B, 2, 1) == Some(30) && OnPayload(N2T, 3, 30) == Process(3, 1)
  {}

  lemma OneStarted() returns (events: seq<Event>)
    ensures Reached(ONE, events, Three(N1A, FRESH, FRESH)) && Envelope(1, 3, ASK2) in Now(events).wire
  {
    Asking();
    assert Reached(ONE, [], Three(FRESH, FRESH, FRESH));
    StartNext(ONE, [], Three(FRESH, FRESH, FRESH), 1, 3, 2, 10, N1A, ASK2);
    Replaced1(FRESH, FRESH, FRESH, N1A);
    events := [] + [Start(1, 3, 2, Some(10))];
  }

  lemma OneAsked() returns (events: seq<Event>)
    ensures Reached(ONE, events, Three(N1A, FRESH, N3A)) && Envelope(3, 2, ON2) in Now(events).wire
  {
    Relaying();
    events := OneStarted();
    HandleNext(ONE, events, Three(N1A, FRESH, FRESH), Deliver(ONE, 1, 3, ASK2, 20), Outcome(N3A, [Outgoing(2, ON2)]));
    Replaced(N1A, FRESH, FRESH, N3A);
    events := events + [Deliver(ONE, 1, 3, ASK2, 20)];
  }

  lemma OneSetUp() returns (events: seq<Event>)
    ensures Reached(ONE, events, Three(N1A, N2T, N3B))
  {
    Ending();
    Answering3();
    events := OneAsked();
    HandleNext(ONE, events, Three(N1A, FRESH, N3A), Deliver(ONE, 3, 2, ON2, 30), Outcome(N2T, [Outgoing(3, FROM2)]));
    Replaced(N1A, FRESH, N3A, N2T);
    events := events + [Deliver(ONE, 3, 2, ON2, 30)];
    HandleNext(ONE, events, Three(N1A, N2T, N3A), Deliver(ONE, 2, 3, FROM2, 50), Outcome(N3B, [Outgoing(1, DONE2)]));
    Replaced(N1A, N2T, N3A, N3B);
    events := events + [Deliver(ONE, 2, 3, FROM2, 50)];
  }

  lemma StraySent() returns (events: seq<Event>)
    ensures Reached(ONE, events, Three(N1A, N2T, N3B)) && STRAY in Now(events).payloads
  {
    var setUp := OneSetUp();
    Ending();
    Then(setUp, Send(3, 2, 1));
    events := setUp + [Send(3, 2, 1)];
  }

  /** A payload the relay 3 sends to 1 by its entry for 1 on the tunnel to 2 stays with 2, which unwraps it as
      coming from 1. */
  lemma RelayOriginStrays() returns (events: seq<Event>, d: Delivery)
    ensures forall e :: e in events ==> Respects(ONE, e)
    ensures d in Run(Initial({1, 2, 3}), events).delivered
    ensures d.payload.origin == 3 && d.payload.addressee == 1 && d.at == 2 && d.peer == 1
  {
    var before := StraySent();
    Ending();
    Then(before, Arrive(STRAY));
    events := before + [Arrive(STRAY)];
    d := Delivery(2, 3, 1, STRAY);
  }
}
