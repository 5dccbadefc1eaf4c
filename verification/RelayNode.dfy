/** relay_manager.go on values: what one node's relay handlers do to its tables and what they send. */
module RelayNode {
  import opened Options
  import opened RelayEntries

  /** The relay entries kept with each tunnel, by the address of the neighbour at its far end, and
      HostMap.Relays: which neighbour's tunnel holds a relay index. */
  datatype Node = Node(tables: map<Addr, RelayTables>, relays: map<nat, Addr>)

  datatype Message =
    | CreateRelayRequest(from: Addr, to: Addr, initiatorIndex: nat)
    | CreateRelayResponse(from: Addr, to: Addr, initiatorIndex: nat, responderIndex: nat)

  datatype Outgoing = Outgoing(neighbour: Addr, message: Message)

  datatype Outcome = Outcome(node: Node, sent: seq<Outgoing>)

  const FRESH: Node := Node(map[], map[])

  function TableOf(n: Node, neighbour: Addr): RelayTables {
    if neighbour in n.tables then n.tables[neighbour] else RelayTables([], map[], map[])
  }

  function WithTable(n: Node, neighbour: Addr, t: RelayTables): Node {
    n.(tables := n.tables[neighbour := t])
  }

  /** The index a call of AddRelay settles on, if it finds one. */
  predicate Free(n: Node, draw: Option<nat>) {
    draw.Some? && draw.value != 0 && draw.value !in n.relays
  }

  /** AddRelay with a free index. */
  function Added(n: Node, neighbour: Addr, r: Relay): Node {
    Node(n.tables[neighbour := Stored(TableOf(n, neighbour), r)], n.relays[r.localIndex := neighbour])
  }

  /** StartRelays, for one candidate relay with a direct tunnel. */
  function StartRelay(me: Addr, n: Node, relay: Addr, vpnIp: Addr, draw: Option<nat>): Outcome {
    var t := TableOf(n, relay);
    if relay == vpnIp || relay == me then Outcome(n, [])
    else if vpnIp !in t.byAddr then
      if Free(n, draw) then
        Outcome(Added(n, relay, Relay(TerminalType, Requested, draw.value, 0, vpnIp)),
                [Outgoing(relay, CreateRelayRequest(me, vpnIp, draw.value))])
      else Outcome(n, [])
    else
      var request := [Outgoing(relay, CreateRelayRequest(me, vpnIp, t.byAddr[vpnIp].localIndex))];
      match t.byAddr[vpnIp].state
      case Established => Outcome(n, [])
      case Disestablished => Outcome(WithTable(n, relay, StateSet(t, vpnIp, Requested)), request)
      case Requested => Outcome(n, request)
      case PeerRequested => Outcome(n, [])
  }

  /** StartRelays: one candidate after the other; those without a direct tunnel get a handshake instead. */
  function StartRelays(me: Addr, n: Node, relays: seq<Addr>, direct: set<Addr>, vpnIp: Addr, draws: seq<Option<nat>>): Outcome
    requires |draws| == |relays|
    decreases |relays|
  {
    if relays == [] then Outcome(n, [])
    else
      var k := |relays| - 1;
      var o := StartRelays(me, n, relays[..k], direct, vpnIp, draws[..k]);
      if relays[k] !in direct then o
      else
        var last := StartRelay(me, o.node, relays[k], vpnIp, draws[k]);
        Outcome(last.node, o.sent + last.sent)
  }

  /** An answer to the request just received from h, made out from the entry for `from`. */
  function Respond(n: Node, h: Addr, from: Addr, to: Addr): Outcome {
    if from in TableOf(n, h).byAddr then
      var relay := TableOf(n, h).byAddr[from];
      Outcome(n, [Outgoing(h, CreateRelayResponse(from, to, relay.remoteIndex, relay.localIndex))])
    else Outcome(n, [])
  }

  /** The index of the request differs from the one this node has for the same peer. */
  predicate Mismatch(n: Node, h: Addr, from: Addr, idx: nat) {
    var t := TableOf(n, h);
    from in t.byAddr && (t.byAddr[from].state.Established? || t.byAddr[from].state.Disestablished?) && t.byAddr[from].remoteIndex != idx
  }

  /** The target has an entry for the requester: a request of its own is thereby answered. */
  function Confirmed(n: Node, h: Addr, from: Addr, idx: nat): Node
    requires from in TableOf(n, h).byAddr
  {
    var t := TableOf(n, h);
    match t.byAddr[from].state
    case Requested => WithTable(n, h, CompletedByAddr(t, from, idx))
    case Established => n
    case Disestablished => WithTable(n, h, StateSet(t, from, Established))
    case PeerRequested => n
  }

  /** handleCreateRelayRequest, when this node is the target. */
  function OnRequestForMe(n: Node, h: Addr, from: Addr, to: Addr, idx: nat, draw: Option<nat>): Outcome {
    var t := TableOf(n, h);
    if Mismatch(n, h, from, idx) then Outcome(n, [])
    else if from in t.byAddr then Respond(Confirmed(n, h, from, idx), h, from, to)
    else if Free(n, draw) then
      Respond(Added(n, h, Relay(TerminalType, Established, draw.value, idx, from)), h, from, to)
    else Outcome(n, [])
  }

  /** handleCreateRelayRequest, once this node has agreed to be the relay: the leg to the target. */
  function OnRequestForward(n: Node, h: Addr, from: Addr, to: Addr, draw: Option<nat>): Outcome {
    var t := TableOf(n, to);
    if from in t.byAddr then
      Outcome(WithTable(n, to, StateSet(t, from, Requested)), [Outgoing(to, CreateRelayRequest(h, to, t.byAddr[from].localIndex))])
    else if Free(n, draw) then
      Outcome(Added(n, to, Relay(ForwardingType, Requested, draw.value, 0, from)),
              [Outgoing(to, CreateRelayRequest(h, to, draw.value))])
    else Outcome(n, [])
  }

  /** The leg back to the requester, tracked when the request has gone out. */
  function OnRequestTrack(n: Node, h: Addr, to: Addr, idx: nat, draw: Option<nat>): Node {
    if to !in TableOf(n, h).byAddr && Free(n, draw) then Added(n, h, Relay(ForwardingType, PeerRequested, draw.value, idx, to)) else n
  }

  /** handleCreateRelayRequest, received from neighbour h.  `direct` says whether the node has a
      direct tunnel to the target; the two draws are for the two legs. */
  function OnRequest(me: Addr, n: Node, h: Addr, from: Addr, to: Addr, idx: nat,
                     amRelay: bool, direct: bool, draw: Option<nat>, draw': Option<nat>): Outcome
  {
    if from == me then Outcome(n, [])
    else if to == me then OnRequestForMe(n, h, from, to, idx, draw)
    else if !amRelay || from != h || !direct then Outcome(n, [])
    else
      var o := OnRequestForward(n, h, from, to, draw);
      if o.sent == [] then o else o.(node := OnRequestTrack(o.node, h, to, idx, draw'))
  }

  /** The middle of a relay passes the news that the far leg is up to the near leg. */
  function OnFarLegUp(n: Node, peer: Addr, relayTo: Addr): Outcome {
    var t := TableOf(n, peer);
    if relayTo !in t.byAddr || t.byAddr[relayTo].state.Requested? then Outcome(n, [])
    else
      var r := t.byAddr[relayTo];
      Outcome(WithTable(n, peer, StateSet(t, relayTo, Established)),
              [Outgoing(peer, CreateRelayResponse(peer, relayTo, r.remoteIndex, r.localIndex))])
  }

  /** handleCreateRelayResponse, received from neighbour h.  `known` says whether the node has a
      tunnel to the peer of the completed entry. */
  function OnResponse(n: Node, h: Addr, relayTo: Addr, initiatorIndex: nat, responderIndex: nat, known: bool): Outcome {
    var t := TableOf(n, h);
    if initiatorIndex !in t.byIdx then Outcome(n, [])
    else
      var relay := t.byIdx[initiatorIndex];
      var n' := WithTable(n, h, CompletedByIdx(t, initiatorIndex, responderIndex));
      if relay.kind.TerminalType? || !known then Outcome(n', []) else OnFarLegUp(n', relay.peerAddr, relayTo)
  }

  // ---- Payloads ----

  /** prepareSendVia: the index put on a payload for p sent by way of a neighbour. */
  function SendIndex(n: Node, neighbour: Addr, p: Addr): Option<nat> {
    var t := TableOf(n, neighbour);
    if p in t.byAddr && t.byAddr[p].state.Established? then Some(t.byAddr[p].remoteIndex) else None
  }

  datatype Handling =
    | Discard
    | Process(via: Addr, peer: Addr)                  // unwrapped, as coming from peer by way of via
    | Forward(neighbour: Addr, index: nat)            // sent on, with this index

  /** handleOutsideRelayPacket, for a payload that arrived with `index` from a sender that holds
      the keys of neighbour src.  The index picks the tunnel, and only its own neighbour passes
      its integrity check. */
  function OnPayload(n: Node, src: Addr, index: nat): Handling {
    if index !in n.relays || n.relays[index] != src || index !in TableOf(n, src).byIdx then Discard
    else
      var relay := TableOf(n, src).byIdx[index];
      match relay.kind
      case TerminalType => Process(src, relay.peerAddr)
      case ForwardingType =>
        var target := TableOf(n, relay.peerAddr);
        if src in target.byAddr && target.byAddr[src].state.Established? && target.byAddr[src].kind.ForwardingType?
        then Forward(relay.peerAddr, target.byAddr[src].remoteIndex)
        else Discard
  }
}
