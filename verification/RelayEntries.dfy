/** The relay entries a node keeps with one tunnel, and the edits made to them. */
module RelayEntries {

  /** A vpn address. */
  type Addr = nat

  datatype RelayState = Requested | PeerRequested | Established | Disestablished
  datatype RelayType = ForwardingType | TerminalType

  datatype Relay = Relay(kind: RelayType, state: RelayState, localIndex: nat, remoteIndex: nat, peerAddr: Addr)

  /** RelayState: the relays used to reach this host, and the relay entries for which this host
      is the next hop, by peer address and by local index. */
  datatype RelayTables = RelayTables(relays: seq<Addr>, byAddr: map<Addr, Relay>, byIdx: map<nat, Relay>)

  /** Every entry by address is the entry at its own index, every entry sits under its own index,
      and the address of every entry is known. */
  ghost predicate Agree(t: RelayTables) {
    && (forall a :: a in t.byAddr ==>
          t.byAddr[a].peerAddr == a && t.byAddr[a].localIndex in t.byIdx && t.byIdx[t.byAddr[a].localIndex] == t.byAddr[a])
    && (forall i :: i in t.byIdx ==> t.byIdx[i].localIndex == i && t.byIdx[i].peerAddr in t.byAddr)
  }

  /** The copy-edit-store idiom of RelayState: a new version of an entry replaces the old one in
      both tables. */
  function Stored(t: RelayTables, r: Relay): RelayTables {
    t.(byAddr := t.byAddr[r.peerAddr := r], byIdx := t.byIdx[r.localIndex := r])
  }

  /** UpdateRelayForByIpState */
  function StateSet(t: RelayTables, addr: Addr, state: RelayState): RelayTables {
    if addr in t.byAddr then Stored(t, t.byAddr[addr].(state := state)) else t
  }

  /** UpdateRelayForByIdxState */
  function StateSetByIdx(t: RelayTables, idx: nat, state: RelayState): RelayTables {
    if idx in t.byIdx then Stored(t, t.byIdx[idx].(state := state)) else t
  }

  /** CompleteRelayByIP */
  function CompletedByAddr(t: RelayTables, addr: Addr, remoteIdx: nat): RelayTables {
    if addr in t.byAddr then Stored(t, t.byAddr[addr].(state := Established, remoteIndex := remoteIdx)) else t
  }

  /** CompleteRelayByIdx */
  function CompletedByIdx(t: RelayTables, localIdx: nat, remoteIdx: nat): RelayTables {
    if localIdx in t.byIdx then Stored(t, t.byIdx[localIdx].(state := Established, remoteIndex := remoteIdx)) else t
  }

  /** Storing a new version of an entry, or an entry under a new index. */
  lemma StoredAgrees(t: RelayTables, r: Relay)
    requires Agree(t) && (r.localIndex in t.byIdx ==> t.byIdx[r.localIndex].peerAddr == r.peerAddr)
    ensures Agree(Stored(t, r)) && Stored(t, r).byIdx.Keys == t.byIdx.Keys + {r.localIndex}
  {}

  /** Every edit keeps the two tables in agreement and the set of allocated indexes as it was. */
  lemma StateSetAgrees(t: RelayTables, addr: Addr, state: RelayState)
    requires Agree(t)
    ensures Agree(StateSet(t, addr, state)) && StateSet(t, addr, state).byIdx.Keys == t.byIdx.Keys
  {
    if addr in t.byAddr { StoredAgrees(t, t.byAddr[addr].(state := state)); }
  }

  lemma StateSetByIdxAgrees(t: RelayTables, idx: nat, state: RelayState)
    requires Agree(t)
    ensures Agree(StateSetByIdx(t, idx, state)) && StateSetByIdx(t, idx, state).byIdx.Keys == t.byIdx.Keys
  {
    if idx in t.byIdx { StoredAgrees(t, t.byIdx[idx].(state := state)); }
  }

  lemma CompletedByAddrAgrees(t: RelayTables, addr: Addr, remoteIdx: nat)
    requires Agree(t)
    ensures Agree(CompletedByAddr(t, addr, remoteIdx)) && CompletedByAddr(t, addr, remoteIdx).byIdx.Keys == t.byIdx.Keys
  {
    if addr in t.byAddr { StoredAgrees(t, t.byAddr[addr].(state := Established, remoteIndex := remoteIdx)); }
  }

  lemma CompletedByIdxAgrees(t: RelayTables, localIdx: nat, remoteIdx: nat)
    requires Agree(t)
    ensures Agree(CompletedByIdx(t, localIdx, remoteIdx)) && CompletedByIdx(t, localIdx, remoteIdx).byIdx.Keys == t.byIdx.Keys
  {
    if localIdx in t.byIdx { StoredAgrees(t, t.byIdx[localIdx].(state := Established, remoteIndex := remoteIdx)); }
  }
}
