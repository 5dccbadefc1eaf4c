/** What an attempt to set up a relay leads to when its own messages arrive. */
module RelayProgress {
  import opened Options
  import opened RelayEntries
  import opened RelayNode
  import opened RelayNetwork
  import opened RelayRuns

  /** The entry x keeps for p on its tunnel to y. */
  function EntryOf(nodes: Nodes, x: Addr, y: Addr, p: Addr): Option<Relay> {
    if p in Table(nodes, x, y).byAddr then Some(Table(nodes, x, y).byAddr[p]) else None
  }

  /** The entry after a change of state, or a new one. */
  function Updated(e: Option<Relay>, state: RelayState, created: Relay): Relay {
    if e.Some? then e.value.(state := state) else created
  }

  /** A draw is there for an entry that is not. */
  predicate Provided(nodes: Nodes, x: Addr, y: Addr, p: Addr, draw: Option<nat>)
    requires x in nodes
  {
    EntryOf(nodes, x, y, p).None? ==> Free(nodes[x], draw)
  }

  lemma EntryFacts(nodes: Nodes, x: Addr, y: Addr, p: Addr)
    requires Paired(nodes)
    ensures OnePerPeer(Table(nodes, x, y))
    ensures var e := EntryOf(nodes, x, y, p);
      e.Some? ==> e.value.peerAddr == p && EntryOk(nodes, x, y, e.value) && e.value.localIndex != 0
                  && e.value.localIndex in Table(nodes, x, y).byIdx && Table(nodes, x, y).byIdx[e.value.localIndex] == e.value
  {
    assert NodeOk(NodeOf(nodes, x)) && OnePerPeer(TableOf(NodeOf(nodes, x), y));
    if p in Table(nodes, x, y).byAddr {
      assert EntryOk(nodes, x, y, Table(nodes, x, y).byAddr[p]);
    }
  }

  // ---- What each handler sends, and the entries it leaves ----

  /** The entry for vpnIp asks for an answer: it is Requested, new or as it was but for the state, and told to the relay. */
  ghost predicate Asks(nodes: Nodes, x: Addr, relay: Addr, vpnIp: Addr, draw: Option<nat>, o: Outcome) {
    var e, e' := EntryOf(nodes, x, relay, vpnIp), EntryOf(nodes[x := o.node], x, relay, vpnIp);
    && e'.Some? && o.sent == [Outgoing(relay, CreateRelayRequest(x, vpnIp, e'.value.localIndex))]
    && o.node == Added(NodeOf(nodes, x), relay, e'.value)
    && (if e.Some? then e'.value == e.value.(state := Requested)
        else draw.Some? && e'.value == Relay(TerminalType, Requested, draw.value, 0, vpnIp))
  }

  /** StartRelays asks exactly when the relay is a third party and the entry is new and gets an index, waits for an
      answer or was disestablished: once, with the index of the entry, which then waits.  Otherwise nothing changes. */
  lemma StartSends(nodes: Nodes, x: Addr, relay: Addr, vpnIp: Addr, draw: Option<nat>)
    requires Paired(nodes) && x in nodes
    ensures var o := StartRelay(x, nodes[x], relay, vpnIp, draw);
      var e := EntryOf(nodes, x, relay, vpnIp);
      if relay != vpnIp && relay != x
         && (if e.Some? then e.value.state.Requested? || e.value.state.Disestablished? else Free(nodes[x], draw))
      then Asks(nodes, x, relay, vpnIp, draw, o)
      else o == Outcome(nodes[x], [])
  {
    var e := EntryOf(nodes, x, relay, vpnIp);
    if relay != vpnIp && relay != x {
      if e.Some? {
        StartKnown(nodes, x, relay, vpnIp, draw);
      } else if Free(nodes[x], draw) {
        AsksWith(nodes, x, relay, vpnIp, draw, Relay(TerminalType, Requested, draw.value, 0, vpnIp));
      }
    }
  }

  function Asking(x: Addr, n: Node, relay: Addr, r: Relay): Outcome {
    Outcome(Added(n, relay, r), [Outgoing(relay, CreateRelayRequest(x, r.peerAddr, r.localIndex))])
  }

  lemma AsksWith(nodes: Nodes, x: Addr, relay: Addr, vpnIp: Addr, draw: Option<nat>, r: Relay)
    requires x in nodes && r.peerAddr == vpnIp
    requires var e := EntryOf(nodes, x, relay, vpnIp);
      if e.Some? then r == e.value.(state := Requested) else draw.Some? && r == Relay(TerminalType, Requested, draw.value, 0, vpnIp)
    ensures Asks(nodes, x, relay, vpnIp, draw, Asking(x, nodes[x], relay, r))
  {
    PutTable(nodes, x, relay, r, x, relay);
  }

  lemma StartKnown(nodes: Nodes, x: Addr, relay: Addr, vpnIp: Addr, draw: Option<nat>)
    requires Paired(nodes) && x in nodes && relay != vpnIp && relay != x && EntryOf(nodes, x, relay, vpnIp).Some?
    ensures var o := StartRelay(x, nodes[x], relay, vpnIp, draw);
      var e := EntryOf(nodes, x, relay, vpnIp).value;
      if e.state.Requested? || e.state.Disestablished? then Asks(nodes, x, relay, vpnIp, draw, o) else o == Outcome(nodes[x], [])
  {
    var e := EntryOf(nodes, x, relay, vpnIp).value;
    assert e.peerAddr == vpnIp by { EntryFacts(nodes, x, relay, vpnIp); }
    if e.state.Requested? || e.state.Disestablished? {
      AskedAgain(nodes, x, relay, vpnIp, draw);
      AsksWith(nodes, x, relay, vpnIp, draw, e.(state := Requested));
    }
  }

  lemma AskedAgain(nodes: Nodes, x: Addr, relay: Addr, vpnIp: Addr, draw: Option<nat>)
    requires Paired(nodes) && x in nodes && relay != vpnIp && relay != x && EntryOf(nodes, x, relay, vpnIp).Some?
    requires var e := EntryOf(nodes, x, relay, vpnIp).value; e.state.Requested? || e.state.Disestablished?
    ensures StartRelay(x, nodes[x], relay, vpnIp, draw)
         == Asking(x, nodes[x], relay, EntryOf(nodes, x, relay, vpnIp).value.(state := Requested))
  {
    var e := EntryOf(nodes, x, relay, vpnIp).value;
    EntryFacts(nodes, x, relay, vpnIp);
    assert NodeOk(NodeOf(nodes, x));
    if e.state.Requested? {
      assert e.(state := Requested) == e;
      StoredAgain(nodes[x], relay, e);
    } else {
      EditIsPut(nodes[x], relay, e.(state := Requested));
    }
  }

  lemma StoredAgain(n: Node, y: Addr, r: Relay)
    requires NodeOk(n) && r.peerAddr in TableOf(n, y).byAddr && TableOf(n, y).byAddr[r.peerAddr] == r
    ensures Added(n, y, r) == n
  {
    var t := TableOf(n, y);
    assert OnePerPeer(TableOf(n, y));
    assert r.localIndex in TableOf(n, y).byIdx;
    assert t.byAddr[r.peerAddr := r] == t.byAddr && t.byIdx[r.localIndex := r] == t.byIdx;
    assert y in n.tables && n.tables[y := t] == n.tables;
    assert n.relays[r.localIndex := y] == n.relays;
  }

  /** The far leg, and the request that goes out on it. */
  lemma FarLegAsks(n: Node, x: Addr, y: Addr, far: Option<nat>)
    requires OnePerPeer(TableOf(n, y)) && x != y && (x !in TableOf(n, y).byAddr ==> Free(n, far))
    ensures var o := OnRequestForward(n, x, x, y, far);
      && x in TableOf(o.node, y).byAddr && TableOf(o.node, x) == TableOf(n, x)
      && var leg := TableOf(o.node, y).byAddr[x];
      && leg == (if x in TableOf(n, y).byAddr then TableOf(n, y).byAddr[x].(state := Requested)
                 else Relay(ForwardingType, Requested, Or(far, 0), 0, x))
      && o.sent == [Outgoing(y, CreateRelayRequest(x, y, leg.localIndex))]
      && (forall i :: i in o.node.relays && Some(i) != far ==> i in n.relays)
  {}

  lemma NearLegTracked(n: Node, x: Addr, y: Addr, idx: nat, near: Option<nat>)
    requires x != y && (y !in TableOf(n, x).byAddr ==> Free(n, near))
    ensures var n' := OnRequestTrack(n, x, y, idx, near);
      && TableOf(n', y) == TableOf(n, y) && y in TableOf(n', x).byAddr
      && TableOf(n', x).byAddr[y] == (if y in TableOf(n, x).byAddr then TableOf(n, x).byAddr[y]
                                      else Relay(ForwardingType, PeerRequested, Or(near, 0), idx, y))
  {}

  /** The relay asks the target, once, with the index of its far leg, and has both legs. */
  lemma RelayAsks(nodes: Nodes, x: Addr, relay: Addr, y: Addr, idx: nat, far: Option<nat>, near: Option<nat>)
    requires Paired(nodes) && relay in nodes && x != relay && y != relay && x != y
    requires Provided(nodes, relay, y, x, far) && Provided(nodes, relay, x, y, near) && far != near
    ensures var o := OnRequest(relay, nodes[relay], x, x, y, idx, true, true, far, near);
      var nodes' := nodes[relay := o.node];
      var leg := EntryOf(nodes', relay, y, x);
      && leg == Some(Updated(EntryOf(nodes, relay, y, x), Requested, Relay(ForwardingType, Requested, Or(far, 0), 0, x)))
      && EntryOf(nodes', relay, x, y) == Some(Or(EntryOf(nodes, relay, x, y), Relay(ForwardingType, PeerRequested, Or(near, 0), idx, y)))
      && o.sent == [Outgoing(y, CreateRelayRequest(x, y, leg.value.localIndex))]
  {
    var n := nodes[relay];
    EntryFacts(nodes, relay, y, x);
    FarLegAsks(n, x, y, far);
    NearLegTracked(OnRequestForward(n, x, x, y, far).node, x, y, idx, near);
  }

  /** The target answers, once, with both ends of the entry it then has. */
  lemma TargetAnswers(nodes: Nodes, x: Addr, relay: Addr, y: Addr, idx: nat, amRelay: bool, direct: bool, draw: Option<nat>, draw': Option<nat>)
    requires Paired(nodes) && y in nodes && x != y && x != relay && Local(nodes, relay, y, x) == Some(idx)
    requires Provided(nodes, y, relay, x, draw)
    ensures var o := OnRequest(y, nodes[y], relay, x, y, idx, amRelay, direct, draw, draw');
      var e, e' := EntryOf(nodes, y, relay, x), EntryOf(nodes[y := o.node], y, relay, x);
      && e'.Some? && o.sent == [Outgoing(relay, CreateRelayResponse(x, y, idx, e'.value.localIndex))]
      && e'.value == if e.Some? && e.value.state.PeerRequested? then e.value
                     else Or(e, Relay(TerminalType, Established, Or(draw, 0), idx, x)).(state := Established, remoteIndex := idx)
  {
    EntryFacts(nodes, y, relay, x);
    NeverMismatched(nodes, y, relay, x, idx);
    var n, e := nodes[y], EntryOf(nodes, y, relay, x);
    if e.Some? {
      ConfirmedEntry(n, relay, x, idx);
    } else {
      AddedTable(n, relay, Relay(TerminalType, Established, draw.value, idx, x), relay);
    }
  }

  /** A request confirms the entry for it, which it agrees with. */
  lemma ConfirmedEntry(n: Node, h: Addr, from: Addr, idx: nat)
    requires OnePerPeer(TableOf(n, h)) && from in TableOf(n, h).byAddr
    requires TableOf(n, h).byAddr[from].state.Requested? || TableOf(n, h).byAddr[from].remoteIndex == idx
    ensures var e, t' := TableOf(n, h).byAddr[from], TableOf(Confirmed(n, h, from, idx), h);
      from in t'.byAddr
      && t'.byAddr[from] == if e.state.PeerRequested? then e else e.(state := Established, remoteIndex := idx)
  {}

  /** The relay completes its far leg.  It tells the near one exactly when it forwards and has not asked there itself. */
  lemma RelayPassesOn(nodes: Nodes, x: Addr, relay: Addr, y: Addr, ii: nat, ri: nat)
    requires Paired(nodes) && relay in nodes && x != y && Local(nodes, relay, y, x) == Some(ii)
    requires EntryOf(nodes, relay, x, y).Some?
    ensures var o := OnResponse(nodes[relay], y, y, ii, ri, true);
      var nodes' := nodes[relay := o.node];
      var leg, near := EntryOf(nodes, relay, y, x).value, EntryOf(nodes, relay, x, y).value;
      && EntryOf(nodes', relay, y, x) == Some(leg.(state := Established, remoteIndex := ri))
      && (if leg.kind.ForwardingType? && !near.state.Requested?
          then EntryOf(nodes', relay, x, y) == Some(near.(state := Established))
               && o.sent == [Outgoing(x, CreateRelayResponse(x, y, near.remoteIndex, near.localIndex))]
          else EntryOf(nodes', relay, x, y) == Some(near) && o.sent == [])
  {
    EntryFacts(nodes, relay, y, x);
    EntryFacts(nodes, relay, x, y);
    var n := WithTable(nodes[relay], y, CompletedByIdx(Table(nodes, relay, y), ii, ri));
    assert TableOf(n, x) == Table(nodes, relay, x);
  }

  /** The origin completes its entry. */
  lemma OriginCompletes(nodes: Nodes, x: Addr, relay: Addr, y: Addr, ii: nat, ri: nat, known: bool)
    requires Paired(nodes) && x in nodes && y != relay && Local(nodes, x, relay, y) == Some(ii)
    ensures var o := OnResponse(nodes[x], relay, y, ii, ri, known);
      EntryOf(nodes[x := o.node], x, relay, y) == Some(EntryOf(nodes, x, relay, y).value.(state := Established, remoteIndex := ri))
  {
    EntryFacts(nodes, x, relay, y);
    var n := WithTable(nodes[x], relay, CompletedByIdx(Table(nodes, x, relay), ii, ri));
    assert TableOf(OnFarLegUp(n, y, y).node, relay) == TableOf(n, relay);
  }

  // ---- An attempt: StartRelays once, and then only what these very steps send arrives ----

  /** The indexes drawn by the origin, by the relay for its two legs and by the target. */
  datatype Draws = Draws(start: Option<nat>, far: Option<nat>, near: Option<nat>, end: Option<nat>)

  function Received(nodes: Nodes, src: Addr, m: Outgoing, draw: Option<nat>, draw': Option<nat>): Outcome
    requires m.neighbour in nodes
  {
    Handle(nodes[m.neighbour], Receive(Envelope(src, m.neighbour, m.message), true, true, true, draw, draw'))
  }

  /** What src has sent arrives at a node that forwards and has its tunnels up, then what that node sends, and so on. */
  function Settle(nodes: Nodes, src: Addr, sent: seq<Outgoing>, draws: seq<(Option<nat>, Option<nat>)>): Nodes
    decreases |draws|
  {
    if draws == [] || sent == [] || sent[0].neighbour !in nodes then nodes
    else
      var o := Received(nodes, src, sent[0], draws[0].0, draws[0].1);
      Settle(nodes[sent[0].neighbour := o.node], sent[0].neighbour, o.sent, draws[1..])
  }

  function Attempt(nodes: Nodes, x: Addr, relay: Addr, y: Addr, d: Draws): Nodes
    requires x in nodes
  {
    var o := StartRelay(x, nodes[x], relay, y, d.start);
    Settle(nodes[x := o.node], x, o.sent, [(d.far, d.near)] + ([(d.end, None)] + ([(None, None)] + LAST)))
  }

  /** The origin draws nothing when the news reaches it. */
  const LAST: seq<(Option<nat>, Option<nat>)> := [(None, None)] + []

  lemma SettleOne(nodes: Nodes, src: Addr, m: Outgoing, draw: Option<nat>, draw': Option<nat>, rest: seq<(Option<nat>, Option<nat>)>, o: Outcome)
    requires m.neighbour in nodes && o == Received(nodes, src, m, draw, draw')
    ensures Settle(nodes, src, [m], [(draw, draw')] + rest) == Settle(nodes[m.neighbour := o.node], m.neighbour, o.sent, rest)
  {
    assert ([(draw, draw')] + rest)[1..] == rest;
  }

  /** The last receipt, or one after which nothing is sent. */
  lemma SettleEnds(nodes: Nodes, src: Addr, m: Outgoing, draw: Option<nat>, draw': Option<nat>, rest: seq<(Option<nat>, Option<nat>)>, o: Outcome)
    requires m.neighbour in nodes && o == Received(nodes, src, m, draw, draw') && (rest == [] || o.sent == [])
    ensures Settle(nodes, src, [m], [(draw, draw')] + rest) == nodes[m.neighbour := o.node]
  {
    SettleOne(nodes, src, m, draw, draw', rest, o);
  }

  /** The four entries an attempt is about: the origin's, the relay's for the leg to the target and for the leg
      to the origin, and the target's. */
  datatype Legs = Legs(origin: Option<Relay>, far: Option<Relay>, near: Option<Relay>, end: Option<Relay>)

  function LegsOf(nodes: Nodes, x: Addr, relay: Addr, y: Addr): Legs {
    Legs(EntryOf(nodes, x, relay, y), EntryOf(nodes, relay, y, x), EntryOf(nodes, relay, x, y), EntryOf(nodes, y, relay, x))
  }

  /** x can send payloads for y by way of the relay, and they get through. */
  predicate Usable(nodes: Nodes, x: Addr, relay: Addr, y: Addr) {
    SendIndex(NodeOf(nodes, x), relay, y).Some? && LegsUp(nodes, x, relay, y)
  }

  /** The relay keeps both legs to forward and has not itself asked the origin, and the target keeps its end for itself. */
  predicate Ready(l: Legs) {
    && (l.far.Some? ==> l.far.value.kind.ForwardingType?)
    && (l.near.Some? ==> l.near.value.kind.ForwardingType? && !l.near.value.state.Requested?)
    && (l.end.Some? ==> l.end.value.kind.TerminalType?)
  }

  predicate Up(e: Option<Relay>, kind: RelayType) {
    e.Some? && e.value.kind == kind && e.value.state.Established?
  }

  lemma UsableLegs(nodes: Nodes, x: Addr, relay: Addr, y: Addr)
    ensures var l := LegsOf(nodes, x, relay, y);
      Usable(nodes, x, relay, y)
      <==> && l.origin.Some? && l.origin.value.state.Established? && Up(l.far, ForwardingType)
           && l.near.Some? && l.near.value.kind.ForwardingType? && l.end.Some? && l.end.value.kind.TerminalType?
  {}

  predicate Party(nodes: Nodes, x: Addr, relay: Addr, y: Addr) {
    x in nodes && relay in nodes && y in nodes && x != relay && y != relay && x != y
  }

  predicate Waiting(e: Option<Relay>) {
    e.Some? && e.value.state.Requested?
  }

  lemma ElsewhereSame(nodes: Nodes, u: Addr, n: Node, x: Addr, y: Addr, p: Addr)
    requires x != u
    ensures EntryOf(nodes[u := n], x, y, p) == EntryOf(nodes, x, y, p)
  {}

  lemma ProvidedElsewhere(nodes: Nodes, u: Addr, n: Node, x: Addr, y: Addr, p: Addr, draw: Option<nat>)
    requires x in nodes && x != u && Provided(nodes, x, y, p, draw)
    ensures x in nodes[u := n] && Provided(nodes[u := n], x, y, p, draw)
  {
    ElsewhereSame(nodes, u, n, x, y, p);
  }

  /** The relay's news, at the origin. */
  lemma OriginLegs(nodes: Nodes, x: Addr, relay: Addr, y: Addr)
    requires Paired(nodes) && Party(nodes, x, relay, y)
    requires var l := LegsOf(nodes, x, relay, y); l.origin.Some? && l.near.Some? && !l.near.value.state.Requested?
    ensures var l := LegsOf(nodes, x, relay, y);
      var o := OnResponse(nodes[x], relay, y, l.near.value.remoteIndex, l.near.value.localIndex, true);
      LegsOf(nodes[x := o.node], x, relay, y)
      == l.(origin := Some(l.origin.value.(state := Established, remoteIndex := l.near.value.localIndex)))
  {
    var near := EntryOf(nodes, relay, x, y).value;
    EntryFacts(nodes, relay, x, y);
    OriginCompletes(nodes, x, relay, y, near.remoteIndex, near.localIndex, true);
  }

  /** The relay has told the origin. */
  ghost predicate Told(nodes: Nodes, x: Addr, relay: Addr, y: Addr) {
    && Paired(nodes) && Party(nodes, x, relay, y)
    && var l := LegsOf(nodes, x, relay, y); l.origin.Some? && l.near.Some? && !l.near.value.state.Requested?
  }

  lemma AtOrigin(nodes: Nodes, x: Addr, relay: Addr, y: Addr)
    requires Told(nodes, x, relay, y)
    ensures var l := LegsOf(nodes, x, relay, y);
      var m := Outgoing(x, CreateRelayResponse(x, y, l.near.value.remoteIndex, l.near.value.localIndex));
      Usable(Settle(nodes, relay, [m], LAST), x, relay, y) <==> Ready(l) && l.end.Some? && Up(l.far, ForwardingType)
  {
    var near := EntryOf(nodes, relay, x, y).value;
    var o := OnResponse(nodes[x], relay, y, near.remoteIndex, near.localIndex, true);
    SettleEnds(nodes, relay, Outgoing(x, CreateRelayResponse(x, y, near.remoteIndex, near.localIndex)), None, None, [], o);
    OriginLegs(nodes, x, relay, y);
    UsableLegs(nodes[x := o.node], x, relay, y);
  }

  /** The target's answer, at the relay. */
  lemma RelayLegs(nodes: Nodes, x: Addr, relay: Addr, y: Addr)
    requires Paired(nodes) && Party(nodes, x, relay, y)
    requires var l := LegsOf(nodes, x, relay, y); l.far.Some? && l.near.Some? && l.end.Some?
    ensures var l := LegsOf(nodes, x, relay, y);
      var o := OnResponse(nodes[relay], y, y, l.far.value.localIndex, l.end.value.localIndex, true);
      var far := Some(l.far.value.(state := Established, remoteIndex := l.end.value.localIndex));
      var l' := LegsOf(nodes[relay := o.node], x, relay, y);
      if l.far.value.kind.ForwardingType? && !l.near.value.state.Requested?
      then l' == l.(far := far, near := Some(l.near.value.(state := Established)))
           && o.sent == [Outgoing(x, CreateRelayResponse(x, y, l.near.value.remoteIndex, l.near.value.localIndex))]
      else l' == l.(far := far) && o.sent == []
  {
    var ii, ri := EntryOf(nodes, relay, y, x).value.localIndex, EntryOf(nodes, y, relay, x).value.localIndex;
    var n := OnResponse(nodes[relay], y, y, ii, ri, true).node;
    ElsewhereSame(nodes, relay, n, x, relay, y);
    ElsewhereSame(nodes, relay, n, y, relay, x);
    RelayPassesOn(nodes, x, relay, y, ii, ri);
  }

  lemma RelayPaired(nodes: Nodes, x: Addr, relay: Addr, y: Addr)
    requires Paired(nodes) && Party(nodes, x, relay, y)
    requires var l := LegsOf(nodes, x, relay, y); l.far.Some? && l.end.Some?
    ensures var l := LegsOf(nodes, x, relay, y);
      Paired(nodes[relay := OnResponse(nodes[relay], y, y, l.far.value.localIndex, l.end.value.localIndex, true).node])
  {
    var ii, ri := EntryOf(nodes, relay, y, x).value.localIndex, EntryOf(nodes, y, relay, x).value.localIndex;
    assert Local(nodes, y, relay, x) == Some(ri) && Local(nodes, relay, y, x) == Some(ii);
    OnResponseOk(nodes, relay, y, x, y, ii, ri, true);
  }

  lemma AtRelay(nodes: Nodes, x: Addr, relay: Addr, y: Addr)
    requires Paired(nodes) && Party(nodes, x, relay, y)
    requires var l := LegsOf(nodes, x, relay, y); Waiting(l.origin) && l.far.Some? && l.near.Some? && l.end.Some?
    ensures var l := LegsOf(nodes, x, relay, y);
      var m := Outgoing(relay, CreateRelayResponse(x, y, l.far.value.localIndex, l.end.value.localIndex));
      Usable(Settle(nodes, y, [m], [(None, None)] + LAST), x, relay, y) <==> Ready(l)
  {
    var l := LegsOf(nodes, x, relay, y);
    if l.far.value.kind.ForwardingType? && !l.near.value.state.Requested? {
      RelayTells(nodes, x, relay, y);
    } else {
      RelayIsQuiet(nodes, x, relay, y);
    }
  }

  lemma RelayTells(nodes: Nodes, x: Addr, relay: Addr, y: Addr)
    requires Paired(nodes) && Party(nodes, x, relay, y)
    requires var l := LegsOf(nodes, x, relay, y);
      && Waiting(l.origin) && l.far.Some? && l.near.Some? && l.end.Some?
      && l.far.value.kind.ForwardingType? && !l.near.value.state.Requested?
    ensures var l := LegsOf(nodes, x, relay, y);
      var m := Outgoing(relay, CreateRelayResponse(x, y, l.far.value.localIndex, l.end.value.localIndex));
      Usable(Settle(nodes, y, [m], [(None, None)] + LAST), x, relay, y) <==> Ready(l)
  {
    var l := LegsOf(nodes, x, relay, y);
    var o := OnResponse(nodes[relay], y, y, l.far.value.localIndex, l.end.value.localIndex, true);
    var m := Outgoing(relay, CreateRelayResponse(x, y, l.far.value.localIndex, l.end.value.localIndex));
    var l' := LegsOf(nodes[relay := o.node], x, relay, y);
    RelayTold(nodes, x, relay, y);
    assert o.sent == [Outgoing(x, CreateRelayResponse(x, y, l'.near.value.remoteIndex, l'.near.value.localIndex))]
           && Up(l'.far, ForwardingType) && l'.end.Some? && (Ready(l') <==> Ready(l)) by { RelayLegs(nodes, x, relay, y); }
    SettleOne(nodes, y, m, None, None, LAST, o);
    AtOrigin(nodes[relay := o.node], x, relay, y);
  }

  lemma RelayTold(nodes: Nodes, x: Addr, relay: Addr, y: Addr)
    requires Paired(nodes) && Party(nodes, x, relay, y)
    requires var l := LegsOf(nodes, x, relay, y);
      && Waiting(l.origin) && l.far.Some? && l.near.Some? && l.end.Some?
      && l.far.value.kind.ForwardingType? && !l.near.value.state.Requested?
    ensures var l := LegsOf(nodes, x, relay, y);
      Told(nodes[relay := OnResponse(nodes[relay], y, y, l.far.value.localIndex, l.end.value.localIndex, true).node], x, relay, y)
  {
    RelayPaired(nodes, x, relay, y);
    RelayLegs(nodes, x, relay, y);
  }

  lemma RelayIsQuiet(nodes: Nodes, x: Addr, relay: Addr, y: Addr)
    requires Paired(nodes) && Party(nodes, x, relay, y)
    requires var l := LegsOf(nodes, x, relay, y);
      && Waiting(l.origin) && l.far.Some? && l.near.Some? && l.end.Some?
      && !(l.far.value.kind.ForwardingType? && !l.near.value.state.Requested?)
    ensures var l := LegsOf(nodes, x, relay, y);
      var m := Outgoing(relay, CreateRelayResponse(x, y, l.far.value.localIndex, l.end.value.localIndex));
      !Usable(Settle(nodes, y, [m], [(None, None)] + LAST), x, relay, y)
  {
    var l := LegsOf(nodes, x, relay, y);
    var o := OnResponse(nodes[relay], y, y, l.far.value.localIndex, l.end.value.localIndex, true);
    var m := Outgoing(relay, CreateRelayResponse(x, y, l.far.value.localIndex, l.end.value.localIndex));
    RelayLegs(nodes, x, relay, y);
    SettleEnds(nodes, y, m, None, None, LAST, o);
    UsableLegs(nodes[relay := o.node], x, relay, y);
  }

  /** The relay's request, at the target. */
  lemma TargetLegs(nodes: Nodes, x: Addr, relay: Addr, y: Addr, draw: Option<nat>, draw': Option<nat>)
    requires Paired(nodes) && Party(nodes, x, relay, y) && Provided(nodes, y, relay, x, draw) && EntryOf(nodes, relay, y, x).Some?
    ensures var l := LegsOf(nodes, x, relay, y);
      var o := OnRequest(y, nodes[y], relay, x, y, l.far.value.localIndex, true, true, draw, draw');
      var l' := LegsOf(nodes[y := o.node], x, relay, y);
      && l' == l.(end := l'.end)
      && l'.end.Some? && l'.end.value.kind == (if l.end.Some? then l.end.value.kind else TerminalType)
      && o.sent == [Outgoing(relay, CreateRelayResponse(x, y, l.far.value.localIndex, l'.end.value.localIndex))]
  {
    TargetAnswers(nodes, x, relay, y, EntryOf(nodes, relay, y, x).value.localIndex, true, true, draw, draw');
  }

  lemma TargetPaired(nodes: Nodes, x: Addr, relay: Addr, y: Addr, draw: Option<nat>, draw': Option<nat>)
    requires Paired(nodes) && Party(nodes, x, relay, y) && EntryOf(nodes, relay, y, x).Some?
    ensures var idx := EntryOf(nodes, relay, y, x).value.localIndex;
      Paired(nodes[y := OnRequest(y, nodes[y], relay, x, y, idx, true, true, draw, draw').node])
  {
    OnRequestOk(nodes, y, relay, x, y, EntryOf(nodes, relay, y, x).value.localIndex, true, true, draw, draw');
  }

  /** The relay has asked the target. */
  ghost predicate Asked(nodes: Nodes, x: Addr, relay: Addr, y: Addr, end: Option<nat>) {
    && Paired(nodes) && Party(nodes, x, relay, y) && Provided(nodes, y, relay, x, end)
    && var l := LegsOf(nodes, x, relay, y); Waiting(l.origin) && l.far.Some? && l.near.Some?
  }

  lemma AtTarget(nodes: Nodes, x: Addr, relay: Addr, y: Addr, end: Option<nat>)
    requires Asked(nodes, x, relay, y, end)
    ensures var l := LegsOf(nodes, x, relay, y);
      var m := Outgoing(y, CreateRelayRequest(x, y, l.far.value.localIndex));
      Usable(Settle(nodes, relay, [m], [(end, None)] + ([(None, None)] + LAST)), x, relay, y) <==> Ready(l)
  {
    var l := LegsOf(nodes, x, relay, y);
    var o := OnRequest(y, nodes[y], relay, x, y, l.far.value.localIndex, true, true, end, None);
    SettleOne(nodes, relay, Outgoing(y, CreateRelayRequest(x, y, l.far.value.localIndex)), end, None, [(None, None)] + LAST, o);
    TargetLegs(nodes, x, relay, y, end, None);
    TargetPaired(nodes, x, relay, y, end, None);
    AtRelay(nodes[y := o.node], x, relay, y);
  }

  /** The origin's request, at the relay. */
  lemma FirstLegs(nodes: Nodes, x: Addr, relay: Addr, y: Addr, idx: nat, far: Option<nat>, near: Option<nat>)
    requires Paired(nodes) && Party(nodes, x, relay, y)
    requires Provided(nodes, relay, y, x, far) && Provided(nodes, relay, x, y, near) && far != near
    ensures var l := LegsOf(nodes, x, relay, y);
      var o := OnRequest(relay, nodes[relay], x, x, y, idx, true, true, far, near);
      var l' := LegsOf(nodes[relay := o.node], x, relay, y);
      && l' == l.(far := l'.far, near := l'.near)
      && l'.far.Some? && l'.far.value.kind == (if l.far.Some? then l.far.value.kind else ForwardingType)
      && l'.near.Some? && (l.near.Some? ==> l'.near == l.near)
      && (l.near.None? ==> l'.near.value.kind == ForwardingType && l'.near.value.state == PeerRequested)
      && o.sent == [Outgoing(y, CreateRelayRequest(x, y, l'.far.value.localIndex))]
  {
    RelayAsks(nodes, x, relay, y, idx, far, near);
  }

  lemma FirstPaired(nodes: Nodes, x: Addr, relay: Addr, y: Addr, far: Option<nat>, near: Option<nat>)
    requires Paired(nodes) && Party(nodes, x, relay, y) && EntryOf(nodes, x, relay, y).Some?
    ensures var idx := EntryOf(nodes, x, relay, y).value.localIndex;
      Paired(nodes[relay := OnRequest(relay, nodes[relay], x, x, y, idx, true, true, far, near).node])
  {
    OnRequestOk(nodes, relay, x, x, y, EntryOf(nodes, x, relay, y).value.localIndex, true, true, far, near);
  }

  lemma AtFirst(nodes: Nodes, x: Addr, relay: Addr, y: Addr, far: Option<nat>, near: Option<nat>, end: Option<nat>)
    requires Paired(nodes) && Party(nodes, x, relay, y)
    requires Provided(nodes, relay, y, x, far) && Provided(nodes, relay, x, y, near) && far != near
    requires Provided(nodes, y, relay, x, end) && Waiting(EntryOf(nodes, x, relay, y))
    ensures var l := LegsOf(nodes, x, relay, y);
      var m := Outgoing(relay, CreateRelayRequest(x, y, l.origin.value.localIndex));
      Usable(Settle(nodes, x, [m], [(far, near)] + ([(end, None)] + ([(None, None)] + LAST))), x, relay, y) <==> Ready(l)
  {
    var idx := EntryOf(nodes, x, relay, y).value.localIndex;
    var o := OnRequest(relay, nodes[relay], x, x, y, idx, true, true, far, near);
    SettleOne(nodes, x, Outgoing(relay, CreateRelayRequest(x, y, idx)), far, near, [(end, None)] + ([(None, None)] + LAST), o);
    FirstReady(nodes, x, relay, y, far, near, end);
    FirstLegs(nodes, x, relay, y, idx, far, near);
    AtTarget(nodes[relay := o.node], x, relay, y, end);
  }

  lemma FirstReady(nodes: Nodes, x: Addr, relay: Addr, y: Addr, far: Option<nat>, near: Option<nat>, end: Option<nat>)
    requires Paired(nodes) && Party(nodes, x, relay, y)
    requires Provided(nodes, relay, y, x, far) && Provided(nodes, relay, x, y, near) && far != near
    requires Provided(nodes, y, relay, x, end) && Waiting(EntryOf(nodes, x, relay, y))
    ensures var idx := EntryOf(nodes, x, relay, y).value.localIndex;
      var o := OnRequest(relay, nodes[relay], x, x, y, idx, true, true, far, near);
      var nodes' := nodes[relay := o.node];
      Asked(nodes', x, relay, y, end)
  {
    var idx := EntryOf(nodes, x, relay, y).value.localIndex;
    var o := OnRequest(relay, nodes[relay], x, x, y, idx, true, true, far, near);
    FirstLegs(nodes, x, relay, y, idx, far, near);
    FirstPaired(nodes, x, relay, y, far, near);
    ProvidedElsewhere(nodes, relay, o.node, y, relay, x, end);
  }

  /** Every draw is free where an entry is still missing. */
  predicate Supplied(nodes: Nodes, x: Addr, relay: Addr, y: Addr, d: Draws)
    requires Party(nodes, x, relay, y)
  {
    && Provided(nodes, x, relay, y, d.start)
    && Provided(nodes, relay, y, x, d.far) && Provided(nodes, relay, x, y, d.near) && d.far != d.near
    && Provided(nodes, y, relay, x, d.end)
  }

  /** The origin asks. */
  lemma AttemptAsks(nodes: Nodes, x: Addr, relay: Addr, y: Addr, d: Draws)
    requires Paired(nodes) && Party(nodes, x, relay, y) && Supplied(nodes, x, relay, y, d)
    requires var e := EntryOf(nodes, x, relay, y); e.Some? ==> e.value.state.Requested? || e.value.state.Disestablished?
    ensures Usable(Attempt(nodes, x, relay, y, d), x, relay, y) <==> Ready(LegsOf(nodes, x, relay, y))
  {
    var o := StartRelay(x, nodes[x], relay, y, d.start);
    StartSends(nodes, x, relay, y, d.start);
    assert Asks(nodes, x, relay, y, d.start, o);
    assert Paired(nodes[x := o.node]) by { StartOk(nodes, x, relay, y, d.start); }
    Started(nodes, x, relay, y, o.node, d);
    AtFirst(nodes[x := o.node], x, relay, y, d.far, d.near, d.end);
  }

  lemma AttemptIsQuiet(nodes: Nodes, x: Addr, relay: Addr, y: Addr, d: Draws)
    requires Paired(nodes) && x in nodes
    requires var e := EntryOf(nodes, x, relay, y); e.Some? && (e.value.state.PeerRequested? || e.value.state.Established?)
    ensures Attempt(nodes, x, relay, y, d) == nodes
  {
    StartSends(nodes, x, relay, y, d.start);
    assert nodes[x := nodes[x]] == nodes;
  }

  lemma AttemptIff(nodes: Nodes, x: Addr, relay: Addr, y: Addr, d: Draws)
    requires Paired(nodes) && Party(nodes, x, relay, y) && Supplied(nodes, x, relay, y, d) && SendIndex(nodes[x], relay, y).None?
    ensures var l := LegsOf(nodes, x, relay, y);
      Usable(Attempt(nodes, x, relay, y, d), x, relay, y)
      <==> Ready(l) && (l.origin.Some? ==> !l.origin.value.state.PeerRequested?)
  {
    var e := EntryOf(nodes, x, relay, y);
    if e.Some? && e.value.state.PeerRequested? {
      AttemptIsQuiet(nodes, x, relay, y, d);
    } else {
      AttemptAsks(nodes, x, relay, y, d);
    }
  }

  lemma Started(nodes: Nodes, x: Addr, relay: Addr, y: Addr, n: Node, d: Draws)
    requires Party(nodes, x, relay, y) && Supplied(nodes, x, relay, y, d)
    ensures var l, l' := LegsOf(nodes, x, relay, y), LegsOf(nodes[x := n], x, relay, y);
      l'.far == l.far && l'.near == l.near && l'.end == l.end
    ensures var nodes' := nodes[x := n];
      && Party(nodes', x, relay, y)
      && Provided(nodes', relay, y, x, d.far) && Provided(nodes', relay, x, y, d.near) && Provided(nodes', y, relay, x, d.end)
  {
    ElsewhereSame(nodes, x, n, relay, y, x);
    ElsewhereSame(nodes, x, n, relay, x, y);
    ElsewhereSame(nodes, x, n, y, relay, x);
  }

  /** From every state a run leads to, an attempt whose own messages arrive makes the relay usable exactly when the
      relay keeps its legs to forward and has not itself asked the origin, the target keeps its end for itself,
      and the origin is not waiting as a forwarder. */
  lemma AttemptSucceedsIff(members: set<Addr>, events: seq<Event>, x: Addr, relay: Addr, y: Addr, d: Draws)
    requires var nodes := Run(Initial(members), events).nodes;
      Party(nodes, x, relay, y) && Supplied(nodes, x, relay, y, d) && SendIndex(nodes[x], relay, y).None?
    ensures var nodes := Run(Initial(members), events).nodes;
      var l := LegsOf(nodes, x, relay, y);
      Usable(Attempt(nodes, x, relay, y, d), x, relay, y)
      <==> Ready(l) && (l.origin.Some? ==> !l.origin.value.state.PeerRequested?)
  {
    InitialOk(members);
    RunKeeps(Initial(members), events);
    AttemptIff(Run(Initial(members), events).nodes, x, relay, y, d);
  }

  // ---- An attempt is a run ----

  lemma {:induction false} RunFirst(net: Net, e: Event, events: seq<Event>)
    ensures Run(net, [e] + events) == Run(Step(net, e), events)
    decreases |events|
  {
    if events == [] {
      assert [e] + events == [e] && [e][..0] == [];
    } else {
      var k := |events| - 1;
      assert ([e] + events)[..k + 1] == [e] + events[..k];
      RunFirst(net, e, events[..k]);
    }
  }

  lemma {:induction false} SettleRuns(net: Net, src: Addr, sent: seq<Outgoing>, draws: seq<(Option<nat>, Option<nat>)>) returns (events: seq<Event>)
    requires forall m :: m in sent ==> Envelope(src, m.neighbour, m.message) in net.wire
    ensures Run(net, events).nodes == Settle(net.nodes, src, sent, draws) && forall e :: e in events ==> e.Receive?
    decreases |draws|
  {
    events := [];
    if draws != [] && sent != [] && sent[0].neighbour in net.nodes {
      var e := Receive(Envelope(src, sent[0].neighbour, sent[0].message), true, true, true, draws[0].0, draws[0].1);
      var o := Received(net.nodes, src, sent[0], draws[0].0, draws[0].1);
      assert sent[0] in sent;
      assert Step(net, e) == Posted(net, sent[0].neighbour, o);
      var rest := SettleRuns(Step(net, e), sent[0].neighbour, o.sent, draws[1..]);
      RunFirst(net, e, rest);
      events := [e] + rest;
    }
  }

  /** A run that begins with the origin's step and goes on with receipts leads where the attempt leads. */
  lemma AttemptRuns(net: Net, x: Addr, relay: Addr, y: Addr, d: Draws) returns (events: seq<Event>)
    requires x in net.nodes
    ensures Run(net, [Start(x, relay, y, d.start)] + events).nodes == Attempt(net.nodes, x, relay, y, d)
    ensures forall e :: e in events ==> e.Receive?
  {
    var o := StartRelay(x, net.nodes[x], relay, y, d.start);
    events := SettleRuns(Posted(net, x, o), x, o.sent, [(d.far, d.near)] + ([(d.end, None)] + ([(None, None)] + LAST)));
    RunFirst(net, Start(x, relay, y, d.start), events);
  }

  /** A payload sent by a usable relay, once it has arrived at the relay and at the addressee, is delivered there as coming
      from its origin. */
  lemma UsableDelivers(members: set<Addr>, events: seq<Event>, x: Addr, relay: Addr, y: Addr) returns (p: Payload, p': Payload)
    requires Usable(Run(Initial(members), events).nodes, x, relay, y)
    ensures var net := Run(Initial(members), events);
      Delivery(y, relay, x, p') in Step(Step(Step(net, Send(x, relay, y)), Arrive(p)), Arrive(p')).delivered
  {
    InitialOk(members);
    RunKeeps(Initial(members), events);
    var net := Run(Initial(members), events);
    var index := SendIndex(NodeOf(net.nodes, x), relay, y).value;
    p := Payload(x, relay, index, x, y, 0);
    UsableIndex(net.nodes, x, relay, y);
    ForwardsIff(net.nodes, p);
    p' := Payload(relay, y, Table(net.nodes, relay, y).byAddr[x].remoteIndex, x, y, 1);
    UsableIndex(net.nodes, relay, y, x);
    UnwrapsIff(net.nodes, p');
    Delivering(net, x, relay, y, p, p');
  }

  lemma Delivering(net: Net, x: Addr, relay: Addr, y: Addr, p: Payload, p': Payload)
    requires SendIndex(NodeOf(net.nodes, x), relay, y) == Some(p.index) && p == Payload(x, relay, p.index, x, y, 0)
    requires OnPayload(NodeOf(net.nodes, relay), x, p.index) == Forward(y, p'.index) && p' == Payload(relay, y, p'.index, x, y, 1)
    requires Unwraps(net.nodes, p')
    ensures Delivery(y, relay, x, p') in Step(Step(Step(net, Send(x, relay, y)), Arrive(p)), Arrive(p')).delivered
  {
    var net1 := Step(net, Send(x, relay, y));
    assert p in net1.payloads && net1.nodes == net.nodes;
    var net2 := Step(net1, Arrive(p));
    assert p' in net2.payloads && net2.nodes == net.nodes;
  }

  // ---- When the relay has asked the origin itself ----

  lemma BackAgain(n: Node, y: Addr, e: Relay)
    requires NodeOk(n) && e.peerAddr in TableOf(n, y).byAddr && TableOf(n, y).byAddr[e.peerAddr] == e
    ensures var n' := WithTable(n, y, Stored(TableOf(n, y), e.(state := Requested)));
      && e.localIndex in TableOf(n', y).byIdx && TableOf(n', y).byIdx[e.localIndex] == e.(state := Requested)
      && WithTable(n', y, Stored(TableOf(n', y), e)) == n
  {
    var t := TableOf(n, y);
    assert OnePerPeer(TableOf(n, y));
    assert e.localIndex in TableOf(n, y).byIdx;
    var r := e.(state := Requested);
    assert t.byAddr[e.peerAddr := r][e.peerAddr := e] == t.byAddr && t.byIdx[e.localIndex := r][e.localIndex := e] == t.byIdx;
    assert y in n.tables && n.tables[y := Stored(t, r)][y := t] == n.tables;
  }

  // ---- Requests that come to nothing, and all candidates of one StartRelays ----

  /** A request in one's own name, for another while no relay or with no tunnel to it, or passed on by a third party is
      discarded, whatever the node knows. */
  lemma DiscardedRequests(me: Addr, n: Node, h: Addr, from: Addr, to: Addr, idx: nat, amRelay: bool, direct: bool, draw: Option<nat>, draw': Option<nat>)
    requires from == me || (to != me && (!amRelay || !direct || from != h))
    ensures OnRequest(me, n, h, from, to, idx, amRelay, direct, draw, draw') == Outcome(n, [])
  {}

  /** A response for an index there is none of changes nothing; one for an end of one's own, or for a peer there is no
      tunnel to, is told to nobody. */
  lemma QuietResponses(n: Node, h: Addr, relayTo: Addr, ii: nat, ri: nat, known: bool)
    ensures ii !in TableOf(n, h).byIdx ==> OnResponse(n, h, relayTo, ii, ri, known) == Outcome(n, [])
    ensures ii in TableOf(n, h).byIdx && (TableOf(n, h).byIdx[ii].kind.TerminalType? || !known) ==>
      && OnResponse(n, h, relayTo, ii, ri, known).sent == []
      && forall y :: y != h ==> TableOf(OnResponse(n, h, relayTo, ii, ri, known).node, y) == TableOf(n, y)
  {}

  /** One Start for every candidate with a direct tunnel. */
  function Starts(x: Addr, relays: seq<Addr>, direct: set<Addr>, vpnIp: Addr, draws: seq<Option<nat>>): seq<Event>
    requires |draws| == |relays|
    decreases |relays|
  {
    if relays == [] then []
    else
      var k := |relays| - 1;
      Starts(x, relays[..k], direct, vpnIp, draws[..k]) + if relays[k] in direct then [Start(x, relays[k], vpnIp, draws[k])] else []
  }

  lemma PostedTwice(net: Net, x: Addr, o: Outcome, o': Outcome)
    ensures Posted(Posted(net, x, o), x, o') == Posted(net, x, Outcome(o'.node, o.sent + o'.sent))
  {
    assert net.nodes[x := o.node][x := o'.node] == net.nodes[x := o'.node];
  }

  /** StartRelays comes to a run of such Starts. */
  lemma {:induction false} StartRelaysRuns(net: Net, x: Addr, relays: seq<Addr>, direct: set<Addr>, vpnIp: Addr, draws: seq<Option<nat>>)
    requires x in net.nodes && |draws| == |relays|
    ensures Run(net, Starts(x, relays, direct, vpnIp, draws)) == Posted(net, x, StartRelays(x, net.nodes[x], relays, direct, vpnIp, draws))
    decreases |relays|
  {
    if relays == [] {
      assert net.nodes[x := net.nodes[x]] == net.nodes;
    } else {
      var k := |relays| - 1;
      var before := Starts(x, relays[..k], direct, vpnIp, draws[..k]);
      StartRelaysRuns(net, x, relays[..k], direct, vpnIp, draws[..k]);
      var o := StartRelays(x, net.nodes[x], relays[..k], direct, vpnIp, draws[..k]);
      if relays[k] in direct {
        var e := Start(x, relays[k], vpnIp, draws[k]);
        assert (before + [e])[..|before|] == before;
        PostedTwice(net, x, o, StartRelay(x, o.node, relays[k], vpnIp, draws[k]));
      } else {
        assert before + [] == before;
      }
    }
  }
}
