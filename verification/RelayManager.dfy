/** relay_manager.go: the handlers as they run on one node's tunnels. */
module RelayManager {
  import opened Options
  import opened RelayEntries
  import opened HostLists
  import opened RelayNode
  import HostMap

  /** CompleteRelayByIP */
  method CompleteRelayByIP(h: HostInfo, vpnIp: Addr, remoteIdx: nat) returns (ok: bool)
    modifies h`relayForByAddr, h`relayForByIdx
    ensures HostMap.Tables(h) == CompletedByAddr(old(HostMap.Tables(h)), vpnIp, remoteIdx)
    ensures ok == (vpnIp in old(h.relayForByAddr))
  {
    if vpnIp !in h.relayForByAddr {
      return false;
    }
    var newRelay := h.relayForByAddr[vpnIp].(state := Established, remoteIndex := remoteIdx);
    h.relayForByIdx := h.relayForByIdx[newRelay.localIndex := newRelay];
    h.relayForByAddr := h.relayForByAddr[newRelay.peerAddr := newRelay];
    return true;
  }

  /** CompleteRelayByIdx */
  method CompleteRelayByIdx(h: HostInfo, localIdx: nat, remoteIdx: nat) returns (relay: Option<Relay>)
    modifies h`relayForByAddr, h`relayForByIdx
    ensures HostMap.Tables(h) == CompletedByIdx(old(HostMap.Tables(h)), localIdx, remoteIdx)
    ensures relay.Some? <==> localIdx in old(h.relayForByIdx)
    ensures relay.Some? ==> relay.value == old(h.relayForByIdx)[localIdx].(state := Established, remoteIndex := remoteIdx)
  {
    if localIdx !in h.relayForByIdx {
      return None;
    }
    var newRelay := h.relayForByIdx[localIdx].(state := Established, remoteIndex := remoteIdx);
    h.relayForByIdx := h.relayForByIdx[newRelay.localIndex := newRelay];
    h.relayForByAddr := h.relayForByAddr[newRelay.peerAddr := newRelay];
    return Some(newRelay);
  }

  /** One node: its tunnels by the address of their far end, and the relay index map. */
  class RelayManager {
    const me: Addr
    const hosts: map<Addr, HostInfo>
    var Relays: map<nat, Addr>

    constructor (me: Addr, hosts: map<Addr, HostInfo>)
      requires Distinct(hosts)
      ensures this.me == me && this.hosts == hosts && Relays == map[]
    {
      this.me, this.hosts, Relays := me, hosts, map[];
    }

    ghost predicate Valid() {
      Distinct(hosts)
    }

    function Host(y: Addr): HostInfo
      requires y in hosts
    {
      hosts[y]
    }

    ghost function View(): Node
      reads this, hosts.Values
    {
      Node(map y | y in hosts :: HostMap.Tables(hosts[y]), Relays)
    }

    /** Only the tunnel to y has new tables. */
    twostate lemma OneTable(y: Addr)
      requires Valid() && y in hosts && Relays == old(Relays)
      requires forall z :: z in hosts && z != y ==> HostMap.Tables(hosts[z]) == old(HostMap.Tables(hosts[z]))
      ensures View() == WithTable(old(View()), y, HostMap.Tables(hosts[y]))
    {}

    method AddRelay(y: Addr, vpnIp: Addr, remoteIdx: nat, kind: RelayType, state: RelayState, draw: Option<nat>)
      returns (index: Option<nat>)
      requires Valid() && y in hosts
      modifies this`Relays, Host(y)`relayForByAddr, Host(y)`relayForByIdx
      ensures index == if Free(old(View()), draw) then draw else None
      ensures View() == if Free(old(View()), draw) then Added(old(View()), y, Relay(kind, state, draw.value, remoteIdx, vpnIp))
                        else old(View())
    {
      if draw.None? || draw.value == 0 || draw.value in Relays {
        return None;
      }
      Relays := Relays[draw.value := y];
      HostMap.InsertRelay(hosts[y], vpnIp, draw.value, Relay(kind, state, draw.value, remoteIdx, vpnIp));
      return draw;
    }

    method UpdateState(y: Addr, p: Addr, state: RelayState)
      requires Valid() && y in hosts
      modifies Host(y)`relayForByAddr, Host(y)`relayForByIdx
      ensures View() == WithTable(old(View()), y, StateSet(TableOf(old(View()), y), p, state))
    {
      HostMap.UpdateRelayForByIpState(hosts[y], p, state);
      OneTable(y);
    }

    /** StartRelays, for one candidate relay with a direct tunnel. */
    method StartRelay(relay: Addr, vpnIp: Addr, draw: Option<nat>) returns (sent: seq<Outgoing>)
      requires Valid() && relay in hosts
      modifies this`Relays, Host(relay)`relayForByAddr, Host(relay)`relayForByIdx
      ensures Outcome(View(), sent) == RelayNode.StartRelay(me, old(View()), relay, vpnIp, draw)
    {
      if relay == vpnIp || relay == me {
        return [];
      }
      if vpnIp !in hosts[relay].relayForByAddr {
        var idx := AddRelay(relay, vpnIp, 0, TerminalType, Requested, draw);
        if idx.None? {
          return [];
        }
        return [Outgoing(relay, CreateRelayRequest(me, vpnIp, idx.value))];
      }
      var existing := hosts[relay].relayForByAddr[vpnIp];
      match existing.state {
        case Established => return [];
        case Disestablished =>
          UpdateState(relay, vpnIp, Requested);
          return [Outgoing(relay, CreateRelayRequest(me, vpnIp, existing.localIndex))];
        case Requested =>
          return [Outgoing(relay, CreateRelayRequest(me, vpnIp, existing.localIndex))];
        case PeerRequested => return [];
      }
    }

    /** StartRelays; `direct` are the hosts with a direct tunnel. */
    method StartRelays(relays: seq<Addr>, direct: set<Addr>, vpnIp: Addr, draws: seq<Option<nat>>) returns (sent: seq<Outgoing>)
      requires Valid() && direct <= hosts.Keys && |draws| == |relays|
      modifies this`Relays, hosts.Values
      ensures Outcome(View(), sent) == RelayNode.StartRelays(me, old(View()), relays, direct, vpnIp, draws)
    {
      sent := [];
      for i := 0 to |relays|
        invariant Outcome(View(), sent) == RelayNode.StartRelays(me, old(View()), relays[..i], direct, vpnIp, draws[..i])
      {
        assert relays[..i + 1][..i] == relays[..i] && draws[..i + 1][..i] == draws[..i];
        if relays[i] in direct {
          var more := StartRelay(relays[i], vpnIp, draws[i]);
          sent := sent + more;
        }
      }
      assert relays[..|relays|] == relays && draws[..|relays|] == draws;
    }

    /** The answer sent back through the tunnel to h. */
    method Respond(h: Addr, from: Addr, to: Addr) returns (sent: seq<Outgoing>)
      requires h in hosts
      ensures Outcome(View(), sent) == RelayNode.Respond(View(), h, from, to)
    {
      if from !in hosts[h].relayForByAddr {
        return [];
      }
      var relay := hosts[h].relayForByAddr[from];
      return [Outgoing(h, CreateRelayResponse(from, to, relay.remoteIndex, relay.localIndex))];
    }

    /** The target's part of handleCreateRelayRequest when it has an entry already: false is a mismatch. */
    method Confirm(h: Addr, from: Addr, idx: nat) returns (ok: bool)
      requires Valid() && h in hosts && from in hosts[h].relayForByAddr
      modifies Host(h)`relayForByAddr, Host(h)`relayForByIdx
      ensures ok == !Mismatch(old(View()), h, from, idx)
      ensures View() == if ok then Confirmed(old(View()), h, from, idx) else old(View())
    {
      var existing := hosts[h].relayForByAddr[from];
      match existing.state {
        case Requested =>
          var _ := CompleteRelayByIP(hosts[h], from, idx);
          OneTable(h);
          return true;
        case Established => return existing.remoteIndex == idx;
        case Disestablished =>
          if existing.remoteIndex != idx {
            return false;
          }
          UpdateState(h, from, Established);
          return true;
        case PeerRequested => return true;
      }
    }

    /** handleCreateRelayRequest, when this node is the target. */
    method HandleRequestForMe(h: Addr, from: Addr, to: Addr, idx: nat, draw: Option<nat>) returns (sent: seq<Outgoing>)
      requires Valid() && h in hosts
      modifies this`Relays, Host(h)`relayForByAddr, Host(h)`relayForByIdx
      ensures Outcome(View(), sent) == OnRequestForMe(old(View()), h, from, to, idx, draw)
    {
      if from in hosts[h].relayForByAddr {
        var ok := Confirm(h, from, idx);
        if !ok {
          return [];
        }
      } else {
        var index := AddRelay(h, from, idx, TerminalType, Established, draw);
        if index.None? {
          return [];
        }
      }
      sent := Respond(h, from, to);
    }

    /** handleCreateRelayRequest, the leg to the target. */
    method HandleRequestForward(h: Addr, from: Addr, to: Addr, draw: Option<nat>) returns (sent: seq<Outgoing>)
      requires Valid() && to in hosts
      modifies this`Relays, Host(to)`relayForByAddr, Host(to)`relayForByIdx
      ensures Outcome(View(), sent) == OnRequestForward(old(View()), h, from, to, draw)
    {
      var index: nat;
      if from in hosts[to].relayForByAddr {
        index := hosts[to].relayForByAddr[from].localIndex;
      } else {
        var added := AddRelay(to, from, 0, ForwardingType, Requested, draw);
        if added.None? {
          return [];
        }
        index := added.value;
        SameState(old(View()), to, Relay(ForwardingType, Requested, index, 0, from));
      }
      UpdateState(to, from, Requested);
      return [Outgoing(to, CreateRelayRequest(h, to, index))];
    }

    /** handleCreateRelayRequest, received through the tunnel to h. */
    method HandleRequest(h: Addr, from: Addr, to: Addr, idx: nat, amRelay: bool, direct: bool,
                         draw: Option<nat>, draw': Option<nat>) returns (sent: seq<Outgoing>)
      requires Valid() && h in hosts
      modifies this`Relays, hosts.Values
      ensures Outcome(View(), sent) == OnRequest(me, old(View()), h, from, to, idx, amRelay, direct && to in hosts, draw, draw')
    {
      if from == me {
        return [];
      }
      if to == me {
        sent := HandleRequestForMe(h, from, to, idx, draw);
        return;
      }
      if !amRelay || from != h || to !in hosts || !direct {
        return [];
      }
      sent := HandleRequestForward(h, from, to, draw);
      if sent == [] {
        return;
      }
      if to !in hosts[h].relayForByAddr {
        var index := AddRelay(h, to, idx, ForwardingType, PeerRequested, draw');
      }
    }

    /** handleCreateRelayResponse, the part that tells the other leg. */
    method HandleFarLegUp(peer: Addr, relayTo: Addr) returns (sent: seq<Outgoing>)
      requires Valid() && peer in hosts
      modifies Host(peer)`relayForByAddr, Host(peer)`relayForByIdx
      ensures Outcome(View(), sent) == OnFarLegUp(old(View()), peer, relayTo)
    {
      if relayTo !in hosts[peer].relayForByAddr {
        return [];
      }
      var peerRelay := hosts[peer].relayForByAddr[relayTo];
      match peerRelay.state {
        case Requested => return [];
        case _ =>
          UpdateState(peer, relayTo, Established);
          return [Outgoing(peer, CreateRelayResponse(peer, relayTo, peerRelay.remoteIndex, peerRelay.localIndex))];
      }
    }

    /** handleCreateRelayResponse, received through the tunnel to h. */
    method HandleResponse(h: Addr, relayTo: Addr, initiatorIndex: nat, responderIndex: nat) returns (sent: seq<Outgoing>)
      requires Valid() && h in hosts
      modifies hosts.Values
      ensures var t := TableOf(old(View()), h);
        var known := initiatorIndex in t.byIdx && t.byIdx[initiatorIndex].peerAddr in hosts;
        Outcome(View(), sent) == OnResponse(old(View()), h, relayTo, initiatorIndex, responderIndex, known)
    {
      var completed := CompleteRelayByIdx(hosts[h], initiatorIndex, responderIndex);
      OneTable(h);
      if completed.None? {
        assert View() == old(View());
        return [];
      }
      var relay := completed.value;
      if relay.kind.TerminalType? || relay.peerAddr !in hosts {
        return [];
      }
      sent := HandleFarLegUp(relay.peerAddr, relayTo);
    }
  }

  lemma SameState(n: Node, y: Addr, r: Relay)
    ensures WithTable(Added(n, y, r), y, StateSet(TableOf(Added(n, y, r), y), r.peerAddr, r.state)) == Added(n, y, r)
  {
    assert StateSet(Stored(TableOf(n, y), r), r.peerAddr, r.state) == Stored(TableOf(n, y), r);
  }

  ghost predicate Distinct(hosts: map<Addr, HostInfo>) {
    forall y, z :: y in hosts && z in hosts && y != z ==> hosts[y] != hosts[z]
  }
}
