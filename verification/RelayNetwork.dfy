/** Any number of nodes setting up relays over a network that loses, repeats and reorders. */
module RelayNetwork {
  import opened Options
  import opened RelayEntries
  import opened RelayNode

  type Nodes = map<Addr, Node>

  function NodeOf(nodes: Nodes, x: Addr): Node {
    if x in nodes then nodes[x] else FRESH
  }

  /** The entries x keeps with its tunnel to y. */
  function Table(nodes: Nodes, x: Addr, y: Addr): RelayTables {
    TableOf(NodeOf(nodes, x), y)
  }

  /** The index x has allocated for peer p on its tunnel to y. */
  function Local(nodes: Nodes, x: Addr, y: Addr, p: Addr): Option<nat> {
    var t := Table(nodes, x, y);
    if p in t.byAddr then Some(t.byAddr[p].localIndex) else None
  }

  // ---- The invariant ----

  /** One entry per peer, under its own address and its own index. */
  ghost predicate OnePerPeer(t: RelayTables) {
    Agree(t) && forall i :: i in t.byIdx ==> t.byAddr[t.byIdx[i].peerAddr] == t.byIdx[i]
  }

  /** HostMap.Relays names exactly the indexes of the entries, none of them zero. */
  ghost predicate NodeOk(n: Node) {
    && (forall y {:trigger TableOf(n, y)} :: OnePerPeer(TableOf(n, y)))
    && (forall i :: i in n.relays ==> i in TableOf(n, n.relays[i]).byIdx)
    && (forall y, i {:trigger i in TableOf(n, y).byIdx} :: i in TableOf(n, y).byIdx ==> i != 0 && i in n.relays && n.relays[i] == y)
  }

  /** The heart of it: a known remote index is the far end's own index for the same peer.  It is
      known in every state but Requested, and only a forwarder waits for its peer's request. */
  ghost predicate EntryOk(nodes: Nodes, x: Addr, y: Addr, e: Relay) {
    && (e.remoteIndex != 0 ==> Local(nodes, y, x, e.peerAddr) == Some(e.remoteIndex))
    && (e.state.Requested? || e.remoteIndex != 0)
    && (e.state.PeerRequested? ==> e.kind.ForwardingType?)
  }

  ghost predicate Paired(nodes: Nodes) {
    && (forall x {:trigger NodeOf(nodes, x)} :: NodeOk(NodeOf(nodes, x)))
    && (forall x, y, p {:trigger Table(nodes, x, y).byAddr[p]} ::
          p in Table(nodes, x, y).byAddr ==> EntryOk(nodes, x, y, Table(nodes, x, y).byAddr[p]))
  }

  /** Allocated indexes stay what they are. */
  ghost predicate Grows(nodes: Nodes, nodes': Nodes) {
    forall x, y, p {:trigger Local(nodes, x, y, p)} {:trigger Local(nodes', x, y, p)} ::
      Local(nodes, x, y, p).Some? ==> Local(nodes', x, y, p) == Local(nodes, x, y, p)
  }

  /** What may be on the wire from src to dst: a request carries the sender's own index for the
      peer it is about, a response the sender's and the receiver's index for one and the same peer. */
  ghost predicate MessageOk(nodes: Nodes, src: Addr, dst: Addr, m: Message) {
    match m
    case CreateRelayRequest(from, to, i) =>
      || (from == src && to != dst && Local(nodes, src, dst, to) == Some(i))
      || (from != src && to == dst && Local(nodes, src, dst, from) == Some(i))
    case CreateRelayResponse(_, _, ii, ri) =>
      exists p :: Local(nodes, src, dst, p) == Some(ri) && (ii != 0 ==> Local(nodes, dst, src, p) == Some(ii))
  }

  lemma GrowsKeepsMessage(nodes: Nodes, nodes': Nodes, src: Addr, dst: Addr, m: Message)
    requires Grows(nodes, nodes') && MessageOk(nodes, src, dst, m)
    ensures MessageOk(nodes', src, dst, m)
  {
    match m
    case CreateRelayRequest(from, to, i) =>
      var p := if from == src then to else from;
      assert Local(nodes', src, dst, p) == Local(nodes, src, dst, p);
    case CreateRelayResponse(_, _, ii, ri) =>
      var p :| Local(nodes, src, dst, p) == Some(ri) && (ii != 0 ==> Local(nodes, dst, src, p) == Some(ii));
      assert Local(nodes', src, dst, p) == Local(nodes, src, dst, p);
  }

  // ---- The one kind of change: an entry put in place, new or in place of an older version ----

  /** r is a new version of an entry, or an entry for a new peer under a new index. */
  ghost predicate Fits(n: Node, y: Addr, r: Relay) {
    var t := TableOf(n, y);
    if r.peerAddr in t.byAddr then t.byAddr[r.peerAddr].localIndex == r.localIndex
    else r.localIndex != 0 && r.localIndex !in n.relays
  }

  lemma StoredOnePerPeer(t: RelayTables, r: Relay)
    requires OnePerPeer(t)
    requires if r.peerAddr in t.byAddr then t.byAddr[r.peerAddr].localIndex == r.localIndex else r.localIndex !in t.byIdx
    ensures OnePerPeer(Stored(t, r))
  {}

  lemma AddedTable(n: Node, y: Addr, r: Relay, z: Addr)
    ensures TableOf(Added(n, y, r), z) == if z == y then Stored(TableOf(n, y), r) else TableOf(n, z)
  {}

  lemma AddedNodeOk(n: Node, y: Addr, r: Relay)
    requires NodeOk(n) && Fits(n, y, r)
    ensures NodeOk(Added(n, y, r))
  {
    var n' := Added(n, y, r);
    assert OnePerPeer(TableOf(n, y));
    StoredOnePerPeer(TableOf(n, y), r);
    forall z ensures OnePerPeer(TableOf(n', z)) {
      assert OnePerPeer(TableOf(n, z));
      AddedTable(n, y, r, z);
    }
    forall i | i in n'.relays ensures i in TableOf(n', n'.relays[i]).byIdx {
      AddedTable(n, y, r, n'.relays[i]);
      assert i != r.localIndex ==> i in TableOf(n, n.relays[i]).byIdx;
    }
    forall z, i {:trigger i in TableOf(n', z).byIdx} | i in TableOf(n', z).byIdx
      ensures i != 0 && i in n'.relays && n'.relays[i] == z
    {
      AddedIndex(n, y, r, z, i);
    }
  }

  lemma AddedIndex(n: Node, y: Addr, r: Relay, z: Addr, i: nat)
    requires NodeOk(n) && Fits(n, y, r) && i in TableOf(Added(n, y, r), z).byIdx
    ensures i != 0 && i in Added(n, y, r).relays && Added(n, y, r).relays[i] == z
  {
    AddedTable(n, y, r, z);
    assert OnePerPeer(TableOf(n, y));
    assert r.peerAddr in TableOf(n, y).byAddr ==> r.localIndex in TableOf(n, y).byIdx;
    if i == r.localIndex {
      assert z != y ==> i in TableOf(n, z).byIdx;
    } else {
      assert i in TableOf(n, z).byIdx;
    }
  }

  function Put(nodes: Nodes, x: Addr, y: Addr, r: Relay): Nodes {
    nodes[x := Added(NodeOf(nodes, x), y, r)]
  }

  lemma PutTable(nodes: Nodes, x: Addr, y: Addr, r: Relay, u: Addr, v: Addr)
    ensures Table(Put(nodes, x, y, r), u, v) == if u == x && v == y then Stored(Table(nodes, x, y), r) else Table(nodes, u, v)
  {
    AddedTable(NodeOf(nodes, x), y, r, v);
  }

  lemma PutGrows(nodes: Nodes, x: Addr, y: Addr, r: Relay)
    requires Fits(NodeOf(nodes, x), y, r)
    ensures Grows(nodes, Put(nodes, x, y, r)) && Local(Put(nodes, x, y, r), x, y, r.peerAddr) == Some(r.localIndex)
  {
    var nodes' := Put(nodes, x, y, r);
    forall u, v, p ensures Local(nodes, u, v, p).Some? ==> Local(nodes', u, v, p) == Local(nodes, u, v, p) {
      PutTable(nodes, x, y, r, u, v);
    }
    PutTable(nodes, x, y, r, x, y);
  }

  lemma GrowsKeepsEntry(nodes: Nodes, nodes': Nodes, x: Addr, y: Addr, e: Relay)
    requires Grows(nodes, nodes') && EntryOk(nodes, x, y, e)
    ensures EntryOk(nodes', x, y, e)
  {
    assert Local(nodes, y, x, e.peerAddr).Some? ==> Local(nodes', y, x, e.peerAddr) == Local(nodes, y, x, e.peerAddr);
  }

  lemma PutOk(nodes: Nodes, x: Addr, y: Addr, r: Relay)
    requires Paired(nodes) && Fits(NodeOf(nodes, x), y, r) && EntryOk(nodes, x, y, r)
    ensures Paired(Put(nodes, x, y, r)) && Grows(nodes, Put(nodes, x, y, r))
    ensures Local(Put(nodes, x, y, r), x, y, r.peerAddr) == Some(r.localIndex)
  {
    var nodes' := Put(nodes, x, y, r);
    PutGrows(nodes, x, y, r);
    forall u ensures NodeOk(NodeOf(nodes', u)) {
      assert NodeOk(NodeOf(nodes, u)) && NodeOk(NodeOf(nodes, x));
      AddedNodeOk(NodeOf(nodes, x), y, r);
    }
    forall u, v, p | p in Table(nodes', u, v).byAddr ensures EntryOk(nodes', u, v, Table(nodes', u, v).byAddr[p]) {
      PutTable(nodes, x, y, r, u, v);
      if u == x && v == y && p == r.peerAddr {
        GrowsKeepsEntry(nodes, nodes', x, y, r);
      } else {
        GrowsKeepsEntry(nodes, nodes', u, v, Table(nodes, u, v).byAddr[p]);
      }
    }
  }

  lemma EditIsPut(n: Node, y: Addr, r: Relay)
    requires NodeOk(n) && r.peerAddr in TableOf(n, y).byAddr && TableOf(n, y).byAddr[r.peerAddr].localIndex == r.localIndex
    ensures WithTable(n, y, Stored(TableOf(n, y), r)) == Added(n, y, r) && Fits(n, y, r)
  {
    assert OnePerPeer(TableOf(n, y));
    assert r.localIndex in TableOf(n, y).byIdx;
    assert n.relays[r.localIndex := y] == n.relays;
  }

  // ---- The handlers ----

  /** A handler of node x kept the invariant and sent only what may be sent. */
  ghost predicate OutcomeOk(nodes: Nodes, x: Addr, o: Outcome) {
    var nodes' := nodes[x := o.node];
    && Paired(nodes') && Grows(nodes, nodes')
    && forall k :: 0 <= k < |o.sent| ==> MessageOk(nodes', x, o.sent[k].neighbour, o.sent[k].message)
  }

  lemma QuietOk(nodes: Nodes, x: Addr)
    requires Paired(nodes) && x in nodes
    ensures OutcomeOk(nodes, x, Outcome(nodes[x], []))
  {
    assert nodes[x := nodes[x]] == nodes;
  }

  /** An entry put in place, and its index told to the neighbour in a request. */
  lemma PutThenAsk(nodes: Nodes, x: Addr, y: Addr, r: Relay, from: Addr, to: Addr)
    requires Paired(nodes) && Fits(NodeOf(nodes, x), y, r) && EntryOk(nodes, x, y, r)
    requires (from == x && to != y && r.peerAddr == to) || (from != x && to == y && r.peerAddr == from)
    ensures OutcomeOk(nodes, x, Outcome(Added(NodeOf(nodes, x), y, r), [Outgoing(y, CreateRelayRequest(from, to, r.localIndex))]))
  {
    var nodes' := Put(nodes, x, y, r);
    assert Paired(nodes') && Grows(nodes, nodes') && Local(nodes', x, y, r.peerAddr) == Some(r.localIndex) by {
      PutOk(nodes, x, y, r);
    }
  }

  lemma StartOk(nodes: Nodes, x: Addr, relay: Addr, vpnIp: Addr, draw: Option<nat>)
    requires Paired(nodes) && x in nodes
    ensures OutcomeOk(nodes, x, StartRelay(x, nodes[x], relay, vpnIp, draw))
  {
    var n := NodeOf(nodes, x);
    var t := TableOf(n, relay);
    assert t == Table(nodes, x, relay);
    QuietOk(nodes, x);
    if relay != vpnIp && vpnIp !in t.byAddr && Free(n, draw) {
      PutThenAsk(nodes, x, relay, Relay(TerminalType, Requested, draw.value, 0, vpnIp), x, vpnIp);
    } else if relay != vpnIp && vpnIp in t.byAddr {
      AskAgain(nodes, x, relay, vpnIp);
    }
  }

  /** An entry there already, and its index told to the neighbour once more. */
  lemma AskAgain(nodes: Nodes, x: Addr, y: Addr, to: Addr)
    requires Paired(nodes) && x in nodes && y != to && to in Table(nodes, x, y).byAddr
    ensures var e := Table(nodes, x, y).byAddr[to];
      && OutcomeOk(nodes, x, Outcome(nodes[x], [Outgoing(y, CreateRelayRequest(x, to, e.localIndex))]))
      && OutcomeOk(nodes, x, Outcome(WithTable(nodes[x], y, StateSet(Table(nodes, x, y), to, Requested)),
                                     [Outgoing(y, CreateRelayRequest(x, to, e.localIndex))]))
  {
    var e := Table(nodes, x, y).byAddr[to];
    assert NodeOk(NodeOf(nodes, x)) && OnePerPeer(TableOf(NodeOf(nodes, x), y));
    assert EntryOk(nodes, x, y, Table(nodes, x, y).byAddr[to]);
    assert nodes[x := nodes[x]] == nodes;
    assert Local(nodes, x, y, to) == Some(e.localIndex);
    EditIsPut(NodeOf(nodes, x), y, e.(state := Requested));
    PutThenAsk(nodes, x, y, e.(state := Requested), x, to);
  }

  /** An Established entry is marked as not to be used. */
  lemma MarkOk(nodes: Nodes, x: Addr, y: Addr, p: Addr)
    requires Paired(nodes) && x in nodes && p in Table(nodes, x, y).byAddr && Table(nodes, x, y).byAddr[p].state.Established?
    ensures OutcomeOk(nodes, x, Outcome(WithTable(nodes[x], y, StateSet(Table(nodes, x, y), p, Disestablished)), []))
  {
    var r := Table(nodes, x, y).byAddr[p].(state := Disestablished);
    assert NodeOk(NodeOf(nodes, x)) && OnePerPeer(TableOf(NodeOf(nodes, x), y));
    assert EntryOk(nodes, x, y, Table(nodes, x, y).byAddr[p]);
    EditIsPut(NodeOf(nodes, x), y, r);
    PutOk(nodes, x, y, r);
  }

  /** A node answers its neighbour h out of an entry that is in order. */
  lemma RespondOk(nodes: Nodes, x: Addr, h: Addr, from: Addr, to: Addr)
    requires Paired(nodes) && x in nodes
    ensures OutcomeOk(nodes, x, Respond(nodes[x], h, from, to))
  {
    QuietOk(nodes, x);
    assert Table(nodes, x, h) == TableOf(nodes[x], h);
    if from in Table(nodes, x, h).byAddr {
      var relay := Table(nodes, x, h).byAddr[from];
      assert EntryOk(nodes, x, h, relay);
      assert NodeOk(NodeOf(nodes, x)) && OnePerPeer(TableOf(NodeOf(nodes, x), h));
      assert Local(nodes, x, h, from) == Some(relay.localIndex);
      assert MessageOk(nodes, x, h, CreateRelayResponse(from, to, relay.remoteIndex, relay.localIndex));
    }
  }

  lemma GrowsTransitive(a: Nodes, b: Nodes, c: Nodes)
    requires Grows(a, b) && Grows(b, c)
    ensures Grows(a, c)
  {
    forall x, y, p ensures Local(a, x, y, p).Some? ==> Local(c, x, y, p) == Local(a, x, y, p) {
      assert Local(a, x, y, p).Some? ==> Local(b, x, y, p) == Local(a, x, y, p);
    }
  }

  /** One change to x, and then whatever x does next. */
  lemma Then(nodes: Nodes, x: Addr, n: Node, o: Outcome)
    requires Grows(nodes, nodes[x := n]) && OutcomeOk(nodes[x := n], x, o)
    ensures OutcomeOk(nodes, x, o)
  {
    assert nodes[x := n][x := o.node] == nodes[x := o.node];
    GrowsTransitive(nodes, nodes[x := n], nodes[x := o.node]);
  }

  /** The request that reaches its target never finds an Established entry with another index. */
  lemma NeverMismatched(nodes: Nodes, x: Addr, h: Addr, from: Addr, idx: nat)
    requires Paired(nodes) && MessageOk(nodes, h, x, CreateRelayRequest(from, x, idx))
    ensures !Mismatch(NodeOf(nodes, x), h, from, idx)
  {
    if from in Table(nodes, x, h).byAddr {
      assert EntryOk(nodes, x, h, Table(nodes, x, h).byAddr[from]);
      assert NodeOk(NodeOf(nodes, x)) && OnePerPeer(TableOf(NodeOf(nodes, x), h));
    }
  }

  /** The entry is completed with the far end's index, and the answer made out from it. */
  lemma CompleteThenAnswer(nodes: Nodes, x: Addr, h: Addr, from: Addr, idx: nat)
    requires Paired(nodes) && x in nodes && idx != 0 && Local(nodes, h, x, from) == Some(idx) && from in Table(nodes, x, h).byAddr
    ensures OutcomeOk(nodes, x, Respond(WithTable(nodes[x], h, CompletedByAddr(Table(nodes, x, h), from, idx)), h, from, x))
  {
    var r := Table(nodes, x, h).byAddr[from].(state := Established, remoteIndex := idx);
    assert NodeOk(NodeOf(nodes, x)) && OnePerPeer(TableOf(NodeOf(nodes, x), h));
    EditIsPut(NodeOf(nodes, x), h, r);
    PutThenRespond(nodes, x, h, r);
  }

  lemma PutThenRespond(nodes: Nodes, x: Addr, h: Addr, r: Relay)
    requires Paired(nodes) && x in nodes && Fits(NodeOf(nodes, x), h, r) && EntryOk(nodes, x, h, r)
    ensures OutcomeOk(nodes, x, Respond(Added(nodes[x], h, r), h, r.peerAddr, x))
  {
    PutOk(nodes, x, h, r);
    RespondOk(Put(nodes, x, h, r), x, h, r.peerAddr, x);
    Then(nodes, x, Added(nodes[x], h, r), Respond(Added(nodes[x], h, r), h, r.peerAddr, x));
  }

  /** A request that may be on the wire carries an index that is not zero. */
  lemma AskedIndex(nodes: Nodes, x: Addr, h: Addr, from: Addr, idx: nat)
    requires Paired(nodes) && MessageOk(nodes, h, x, CreateRelayRequest(from, x, idx))
    ensures idx != 0 && Local(nodes, h, x, from) == Some(idx)
  {
    assert NodeOk(NodeOf(nodes, h)) && OnePerPeer(TableOf(NodeOf(nodes, h), x));
    assert idx in TableOf(NodeOf(nodes, h), x).byIdx;
  }

  lemma OnRequestForMeOk(nodes: Nodes, x: Addr, h: Addr, from: Addr, idx: nat, draw: Option<nat>)
    requires Paired(nodes) && x in nodes && MessageOk(nodes, h, x, CreateRelayRequest(from, x, idx))
    ensures OutcomeOk(nodes, x, OnRequestForMe(nodes[x], h, from, x, idx, draw))
  {
    AskedIndex(nodes, x, h, from, idx);
    if from in Table(nodes, x, h).byAddr {
      KnownRequestOk(nodes, x, h, from, idx, draw);
    } else if Free(NodeOf(nodes, x), draw) {
      PutThenRespond(nodes, x, h, Relay(TerminalType, Established, draw.value, idx, from));
    } else {
      QuietOk(nodes, x);
    }
  }

  lemma KnownRequestOk(nodes: Nodes, x: Addr, h: Addr, from: Addr, idx: nat, draw: Option<nat>)
    requires Paired(nodes) && x in nodes && MessageOk(nodes, h, x, CreateRelayRequest(from, x, idx))
    requires from in Table(nodes, x, h).byAddr
    ensures OutcomeOk(nodes, x, OnRequestForMe(nodes[x], h, from, x, idx, draw))
  {
    AskedIndex(nodes, x, h, from, idx);
    NeverMismatched(nodes, x, h, from, idx);
    var e := Table(nodes, x, h).byAddr[from];
    if e.state.Requested? {
      CompleteThenAnswer(nodes, x, h, from, idx);
    } else if e.state.Disestablished? {
      assert e.remoteIndex == idx;
      CompleteThenAnswer(nodes, x, h, from, idx);
    } else {
      RespondOk(nodes, x, h, from, x);
    }
  }

  lemma OnRequestForwardOk(nodes: Nodes, x: Addr, h: Addr, to: Addr, draw: Option<nat>)
    requires Paired(nodes) && x in nodes && x != h
    ensures OutcomeOk(nodes, x, OnRequestForward(nodes[x], h, h, to, draw))
  {
    var n := NodeOf(nodes, x);
    var t := Table(nodes, x, to);
    QuietOk(nodes, x);
    if h in t.byAddr {
      assert NodeOk(n) && OnePerPeer(TableOf(n, to));
      assert EntryOk(nodes, x, to, Table(nodes, x, to).byAddr[h]);
      var r := t.byAddr[h].(state := Requested);
      EditIsPut(n, to, r);
      PutThenAsk(nodes, x, to, r, h, to);
    } else if Free(n, draw) {
      PutThenAsk(nodes, x, to, Relay(ForwardingType, Requested, draw.value, 0, h), h, to);
    }
  }

  lemma OnRequestTrackOk(nodes: Nodes, x: Addr, h: Addr, to: Addr, idx: nat, draw: Option<nat>)
    requires Paired(nodes) && x in nodes && Local(nodes, h, x, to) == Some(idx)
    ensures OutcomeOk(nodes, x, Outcome(OnRequestTrack(nodes[x], h, to, idx, draw), []))
  {
    QuietOk(nodes, x);
    assert NodeOk(NodeOf(nodes, h)) && OnePerPeer(TableOf(NodeOf(nodes, h), x));
    assert idx in TableOf(NodeOf(nodes, h), x).byIdx;
    assert Table(nodes, x, h) == TableOf(nodes[x], h);
    if to !in Table(nodes, x, h).byAddr && Free(nodes[x], draw) {
      PutOk(nodes, x, h, Relay(ForwardingType, PeerRequested, draw.value, idx, to));
    }
  }

  lemma OnRequestOk(nodes: Nodes, x: Addr, h: Addr, from: Addr, to: Addr, idx: nat,
                    amRelay: bool, direct: bool, draw: Option<nat>, draw': Option<nat>)
    requires Paired(nodes) && x in nodes && MessageOk(nodes, h, x, CreateRelayRequest(from, to, idx))
    ensures OutcomeOk(nodes, x, OnRequest(x, nodes[x], h, from, to, idx, amRelay, direct, draw, draw'))
  {
    QuietOk(nodes, x);
    if from == x {
    } else if to == x {
      OnRequestForMeOk(nodes, x, h, from, idx, draw);
    } else if amRelay && from == h && direct {
      var o := OnRequestForward(nodes[x], h, h, to, draw);
      OnRequestForwardOk(nodes, x, h, to, draw);
      if o.sent != [] {
        var nodes' := nodes[x := o.node];
        assert Local(nodes, h, x, to) == Some(idx) && Local(nodes', h, x, to) == Some(idx);
        var o' := Outcome(OnRequestTrack(o.node, h, to, idx, draw'), []);
        OnRequestTrackOk(nodes', x, h, to, idx, draw');
        SendBoth(nodes, x, o, o'.node);
      }
    }
  }

  /** Messages sent before a further change of the same node may still be sent after it. */
  lemma SendBoth(nodes: Nodes, x: Addr, o: Outcome, n': Node)
    requires OutcomeOk(nodes, x, o) && OutcomeOk(nodes[x := o.node], x, Outcome(n', []))
    ensures OutcomeOk(nodes, x, o.(node := n'))
  {
    Then(nodes, x, o.node, Outcome(n', []));
    assert nodes[x := o.node][x := n'] == nodes[x := n'];
    forall k | 0 <= k < |o.sent| ensures MessageOk(nodes[x := n'], x, o.sent[k].neighbour, o.sent[k].message) {
      GrowsKeepsMessage(nodes[x := o.node], nodes[x := n'], x, o.sent[k].neighbour, o.sent[k].message);
    }
  }

  /** An entry whose far end is known, put in place and told to that end. */
  lemma PutThenAnswer(nodes: Nodes, x: Addr, y: Addr, r: Relay, to: Addr)
    requires Paired(nodes) && Fits(NodeOf(nodes, x), y, r) && EntryOk(nodes, x, y, r) && r.remoteIndex != 0
    ensures OutcomeOk(nodes, x, Outcome(Added(NodeOf(nodes, x), y, r),
                                        [Outgoing(y, CreateRelayResponse(y, to, r.remoteIndex, r.localIndex))]))
  {
    var nodes' := Put(nodes, x, y, r);
    assert Paired(nodes') && Grows(nodes, nodes') && Local(nodes', x, y, r.peerAddr) == Some(r.localIndex) by {
      PutOk(nodes, x, y, r);
    }
    assert Local(nodes', y, x, r.peerAddr) == Local(nodes, y, x, r.peerAddr);
    assert MessageOk(nodes', x, y, CreateRelayResponse(y, to, r.remoteIndex, r.localIndex));
  }

  lemma OnFarLegUpOk(nodes: Nodes, x: Addr, peer: Addr, relayTo: Addr)
    requires Paired(nodes) && x in nodes
    ensures OutcomeOk(nodes, x, OnFarLegUp(nodes[x], peer, relayTo))
  {
    var n := NodeOf(nodes, x);
    var t := Table(nodes, x, peer);
    QuietOk(nodes, x);
    if relayTo in t.byAddr && !t.byAddr[relayTo].state.Requested? {
      assert NodeOk(n) && OnePerPeer(TableOf(n, peer));
      assert EntryOk(nodes, x, peer, Table(nodes, x, peer).byAddr[relayTo]);
      var r := t.byAddr[relayTo].(state := Established);
      EditIsPut(n, peer, r);
      PutThenAnswer(nodes, x, peer, r, relayTo);
    }
  }

  lemma OnResponseOk(nodes: Nodes, x: Addr, h: Addr, from: Addr, relayTo: Addr, ii: nat, ri: nat, known: bool)
    requires Paired(nodes) && x in nodes && MessageOk(nodes, h, x, CreateRelayResponse(from, relayTo, ii, ri))
    ensures OutcomeOk(nodes, x, OnResponse(nodes[x], h, relayTo, ii, ri, known))
  {
    var n := NodeOf(nodes, x);
    var t := Table(nodes, x, h);
    QuietOk(nodes, x);
    assert NodeOk(n) && NodeOk(NodeOf(nodes, h)) && OnePerPeer(TableOf(n, h)) && OnePerPeer(TableOf(NodeOf(nodes, h), x));
    if ii in t.byIdx {
      assert ii in TableOf(n, h).byIdx;
      var r := t.byIdx[ii].(state := Established, remoteIndex := ri);
      var p :| Local(nodes, h, x, p) == Some(ri) && Local(nodes, x, h, p) == Some(ii);
      assert r.peerAddr == p && ri in TableOf(NodeOf(nodes, h), x).byIdx;
      EditIsPut(n, h, r);
      PutOk(nodes, x, h, r);
      QuietOk(Put(nodes, x, h, r), x);
      OnFarLegUpOk(Put(nodes, x, h, r), x, r.peerAddr, relayTo);
      Then(nodes, x, Added(n, h, r), OnResponse(n, h, relayTo, ii, ri, known));
    }
  }
}
