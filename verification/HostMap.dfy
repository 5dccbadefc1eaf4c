/** hostmap.go: the five maps that together hold the tunnels, and the relay tables in them. */
module HostMap {
  import opened Options
  import opened RelayEntries
  import opened HostLists
  import opened HostMapSpec

  function Tables(h: HostInfo): RelayTables
    reads h
  {
    RelayTables(h.relays, h.relayForByAddr, h.relayForByIdx)
  }

  ghost function AllTables(known: set<HostInfo>): (tables: map<HostInfo, RelayTables>)
    reads known
    ensures tables.Keys == known
  {
    map h | h in known :: Tables(h)
  }

  /** moreHosts has an entry only while an address is held by two or more, and then its head is
      the primary. */
  ghost predicate Split(hosts: map<Addr, HostInfo>, moreHosts: map<Addr, seq<HostInfo>>) {
    forall a :: a in moreHosts ==> a in hosts && |moreHosts[a]| > 1 && moreHosts[a][0] == hosts[a]
  }

  /** Hosts and moreHosts as one list per address. */
  function Merged(hosts: map<Addr, HostInfo>, moreHosts: map<Addr, seq<HostInfo>>): Lists {
    map a | a in hosts :: if a in moreHosts then moreHosts[a] else [hosts[a]]
  }

  lemma MergedSet(hosts: map<Addr, HostInfo>, moreHosts: map<Addr, seq<HostInfo>>, addr: Addr, list: seq<HostInfo>)
    requires Split(hosts, moreHosts)
    ensures list == [] ==> Split(hosts - {addr}, moreHosts - {addr})
                           && Merged(hosts - {addr}, moreHosts - {addr}) == WithList(Merged(hosts, moreHosts), addr, list)
    ensures |list| == 1 ==> Split(hosts[addr := list[0]], moreHosts - {addr})
                            && Merged(hosts[addr := list[0]], moreHosts - {addr}) == WithList(Merged(hosts, moreHosts), addr, list)
    ensures |list| > 1 ==> Split(hosts[addr := list[0]], moreHosts[addr := list])
                           && Merged(hosts[addr := list[0]], moreHosts[addr := list]) == WithList(Merged(hosts, moreHosts), addr, list)
  {
    if |list| == 1 { assert [list[0]] == list; }
  }

  lemma AlreadyFirst(lists: Lists, addr: Addr, hi: HostInfo)
    requires addr in lists && lists[addr] != [] && lists[addr][0] == hi
    ensures WithList(lists, addr, [hi] + Remove(ListOf(lists, addr), hi)) == lists
  {
    assert [hi] + lists[addr][1..] == lists[addr];
  }

  /** UpdateRelayForByIpState, as one locked section of the hostinfo's relay state. */
  method UpdateRelayForByIpState(h: HostInfo, vpnIp: Addr, state: RelayState)
    modifies h`relayForByAddr, h`relayForByIdx
    ensures Tables(h) == StateSet(old(Tables(h)), vpnIp, state)
  {
    if vpnIp in h.relayForByAddr {
      var newRelay := h.relayForByAddr[vpnIp].(state := state);
      h.relayForByAddr := h.relayForByAddr[newRelay.peerAddr := newRelay];
      h.relayForByIdx := h.relayForByIdx[newRelay.localIndex := newRelay];
    }
  }

  class HostMap {
    var Indexes: map<nat, HostInfo>
    var Relays: map<nat, HostInfo>
    var RemoteIndexes: map<nat, HostInfo>
    var Hosts: map<Addr, HostInfo>
    var moreHosts: map<Addr, seq<HostInfo>>
    ghost var known: set<HostInfo>

    ghost function Lists(): Lists
      reads this
    {
      Merged(Hosts, moreHosts)
    }

    /** The maps as values. */
    ghost function View(): Maps
      reads this, known
    {
      Maps(Lists(), Indexes, RemoteIndexes, Relays, AllTables(known))
    }

    constructor ()
      ensures Split(Hosts, moreHosts) && known == {} && View() == EMPTY_MAPS
    {
      Indexes, Relays, RemoteIndexes, Hosts, moreHosts := map[], map[], map[], map[], map[];
      known := {};
    }

    /** unlockedSetHostsForAddr */
    method SetHostsForAddr(addr: Addr, list: seq<HostInfo>)
      requires Split(Hosts, moreHosts)
      modifies this`Hosts, this`moreHosts
      ensures Split(Hosts, moreHosts) && Lists() == WithList(old(Lists()), addr, list)
    {
      MergedSet(Hosts, moreHosts, addr, list);
      if |list| == 0 {
        Hosts := Hosts - {addr};
        moreHosts := moreHosts - {addr};
        return;
      }
      Hosts := Hosts[addr := list[0]];
      if |list| > 1 {
        moreHosts := moreHosts[addr := list];
      } else {
        moreHosts := moreHosts - {addr};
      }
    }

    /** unlockedGetHostList */
    function GetHostList(addr: Addr): (list: seq<HostInfo>)
      requires Split(Hosts, moreHosts)
      reads this
      ensures list == ListOf(Lists(), addr)
    {
      if addr in moreHosts then moreHosts[addr]
      else if addr in Hosts then [Hosts[addr]]
      else []
    }

    /** unlockedMakePrimary: refuses a hostinfo that is no longer registered, otherwise moves it to
        the front of the list of each of its addresses. */
    method MakePrimary(hi: HostInfo) returns (ok: bool)
      requires Split(Hosts, moreHosts)
      modifies this`Hosts, this`moreHosts
      ensures Split(Hosts, moreHosts) && View() == Primary(old(View()), hi)
      ensures ok <==> IsLive(View(), hi)
    {
      if !(hi.localIndexId in Indexes && Indexes[hi.localIndexId] == hi) {
        return false;
      }
      for i := 0 to |hi.vpnAddrs|
        invariant Split(Hosts, moreHosts) && Lists() == Promoted(old(Lists()), hi.vpnAddrs[..i], hi)
      {
        var addr := hi.vpnAddrs[i];
        assert hi.vpnAddrs[..i + 1][..i] == hi.vpnAddrs[..i];
        if addr in Hosts && Hosts[addr] == hi {
          // Already primary for this address, the list is already in the right order
          AlreadyFirst(Lists(), addr, hi);
          continue;
        }
        var list := Remove(GetHostList(addr), hi);
        list := [hi] + list;
        SetHostsForAddr(addr, list);
      }
      assert hi.vpnAddrs[..|hi.vpnAddrs|] == hi.vpnAddrs;
      return true;
    }

    /** The address loop of unlockedDeleteHostInfo: hi leaves the list of each of its addresses;
        final says that this emptied them all. */
    method DropAll(hi: HostInfo) returns (final: bool)
      requires Split(Hosts, moreHosts) && AllNoRepeats(Lists())
      modifies this`Hosts, this`moreHosts
      ensures Split(Hosts, moreHosts) && Lists() == Dropped(old(Lists()), hi.vpnAddrs, hi)
      ensures final <==> Gone(Lists(), hi)
    {
      final := true;
      for i := 0 to |hi.vpnAddrs|
        invariant Split(Hosts, moreHosts) && Lists() == Dropped(old(Lists()), hi.vpnAddrs[..i], hi)
        invariant final <==> forall a :: a in hi.vpnAddrs[..i] ==> a !in Lists()
      {
        var addr := hi.vpnAddrs[i];
        assert hi.vpnAddrs[..i + 1] == hi.vpnAddrs[..i] + [addr];
        assert hi.vpnAddrs[..i + 1][..i] == hi.vpnAddrs[..i];
        DroppedAgain(old(Lists()), hi.vpnAddrs[..i], hi, addr);
        var held := DropOne(addr, hi);
        if held {
          final := false;
        }
      }
      assert hi.vpnAddrs[..|hi.vpnAddrs|] == hi.vpnAddrs;
    }

    /** One turn of that loop; held says that another hostinfo still holds the address. */
    method DropOne(addr: Addr, hi: HostInfo) returns (held: bool)
      requires Split(Hosts, moreHosts)
      modifies this`Hosts, this`moreHosts
      ensures Split(Hosts, moreHosts)
      ensures Lists() == WithList(old(Lists()), addr, Remove(ListOf(old(Lists()), addr), hi))
      ensures held <==> addr in Lists()
    {
      held := false;
      if addr in moreHosts {
        var list := Remove(moreHosts[addr], hi);
        SetHostsForAddr(addr, list);
        held := |list| > 0;
      } else if addr in Hosts {
        assert Remove([Hosts[addr]], hi) == if Hosts[addr] == hi then [] else [Hosts[addr]];
        if Hosts[addr] == hi {
          // Common case, the only hostinfo for this address. moreHosts has no entry to clean up.
          Hosts := Hosts - {addr};
        } else {
          // We don't hold this address but another hostinfo does, we still have a tunnel to the peer
          held := true;
        }
      }
    }

    /** The address of every hop of one list is marked Disestablished. */
    method DisestablishOn(list: seq<HostInfo>, addr: Addr, ghost was: map<HostInfo, RelayTables>, ghost done: set<HostInfo>)
      requires Marked(known, was, done, addr) && forall x :: x in list ==> x in known
      modifies known`relayForByAddr, known`relayForByIdx
      ensures Marked(known, was, done + Members(list), addr)
    {
      for i := 0 to |list|
        invariant Marked(known, was, done + Members(list[..i]), addr)
      {
        ghost var before := done + Members(list[..i]);
        assert list[..i + 1] == list[..i] + [list[i]];
        assert done + Members(list[..i + 1]) == before + {list[i]};
        StateSetTwice(was[list[i]], addr, Disestablished);
        UpdateRelayForByIpState(list[i], addr, Disestablished);
      }
      assert list[..|list|] == list;
    }

    /** unlockedDisestablishVpnAddrRelayFor */
    method DisestablishRelaysFor(hi: HostInfo)
      requires Split(Hosts, moreHosts) && hi in known && hi.vpnAddrs != []
      requires forall a, h :: h in ListOf(Lists(), a) ==> h in known && h != hi
      modifies known`relayForByAddr, known`relayForByIdx
      ensures AllTables(known)
           == Disestablish(old(AllTables(known)), OnLists(Lists(), HopAddrs(old(Tables(hi)))), hi.vpnAddrs[0])
      ensures Tables(hi) == old(Tables(hi))
    {
      ghost var was := AllTables(known);
      DisestablishVia(hi.relays, hi.vpnAddrs[0], was);
      assert hi !in OnLists(Lists(), Elements(hi.relays));
      var forwards := CopyAllRelayFor(hi);
      HopAddrsAre(Tables(hi), forwards);
      DisestablishForwards(forwards, hi.vpnAddrs[0], was, Elements(hi.relays));
      assert hi !in OnLists(Lists(), Elements(hi.relays) + ForwardPeers(forwards));
    }

    /** The first loop: the relays this host is reached through. */
    method DisestablishVia(relays: seq<Addr>, addr: Addr, ghost was: map<HostInfo, RelayTables>)
      requires Split(Hosts, moreHosts) && Marked(known, was, {}, addr)
      requires forall a, h :: h in ListOf(Lists(), a) ==> h in known
      modifies known`relayForByAddr, known`relayForByIdx
      ensures Marked(known, was, OnLists(Lists(), Elements(relays)), addr)
    {
      for i := 0 to |relays|
        invariant Marked(known, was, OnLists(Lists(), Elements(relays[..i])), addr)
      {
        var list := GetHostList(relays[i]);
        DisestablishOn(list, addr, was, OnLists(Lists(), Elements(relays[..i])));
        assert relays[..i + 1] == relays[..i] + [relays[i]];
        assert Elements(relays[..i + 1]) == Elements(relays[..i]) + {relays[i]};
        OnListsGrow(Lists(), Elements(relays[..i]), relays[i]);
      }
      assert relays[..|relays|] == relays;
    }

    /** The second loop: the peers this host forwards for. */
    method DisestablishForwards(
      forwards: seq<Relay>, addr: Addr, ghost was: map<HostInfo, RelayTables>, ghost first: set<Addr>)
      requires Split(Hosts, moreHosts) && Marked(known, was, OnLists(Lists(), first), addr)
      requires forall a, h :: h in ListOf(Lists(), a) ==> h in known
      modifies known`relayForByAddr, known`relayForByIdx
      ensures Marked(known, was, OnLists(Lists(), first + ForwardPeers(forwards)), addr)
    {
      assert first + ForwardPeers([]) == first;
      for i := 0 to |forwards|
        invariant Marked(known, was, OnLists(Lists(), first + ForwardPeers(forwards[..i])), addr)
      {
        assert forwards[..i + 1] == forwards[..i] + [forwards[i]];
        ghost var hops := first + ForwardPeers(forwards[..i]);
        ForwardPeersGrow(first, forwards[..i], forwards[i]);
        if forwards[i].kind == ForwardingType {
          var list := GetHostList(forwards[i].peerAddr);
          DisestablishOn(list, addr, was, OnLists(Lists(), hops));
          OnListsGrow(Lists(), hops, forwards[i].peerAddr);
        }
      }
      assert forwards[..|forwards|] == forwards;
    }

    /** unlockedDeleteHostInfo: hi leaves its lists and the index maps, its relay indexes are
        reclaimed, and if it was the peer's last tunnel the relays through it are marked. */
    method DeleteHostInfo(hi: HostInfo) returns (final: bool)
      requires Split(Hosts, moreHosts) && hi.vpnAddrs != [] && CanDrop(Lists(), known, hi)
      modifies this`Hosts, this`moreHosts, this`Indexes, this`RemoteIndexes, this`Relays
      modifies known`relayForByAddr, known`relayForByIdx
      ensures Split(Hosts, moreHosts) && View() == Delete(old(View()), hi)
      ensures final <==> Gone(View().lists, hi)
    {
      final := Unlink(hi);
      DroppedMembers(old(Lists()), hi);
      Reclaim(hi, final);
      DeleteIs(old(View()), old(Tables(hi)), hi, View());
    }

    /** DeleteHostInfo of a live hostinfo: the invariant stays, and the answer is whether no other live hostinfo
        holds any of its addresses. */
    method DeleteLive(hi: HostInfo, ghost ages: Ages) returns (final: bool)
      requires Split(Hosts, moreHosts) && Inv(View(), ages) && IsLive(View(), hi)
      modifies this`Hosts, this`moreHosts, this`Indexes, this`RemoteIndexes, this`Relays
      modifies known`relayForByAddr, known`relayForByIdx
      ensures Split(Hosts, moreHosts) && Inv(View(), ages) && !IsLive(View(), hi)
      ensures hi.vpnAddrs != [] && hi in old(View()).tables && View() == Delete(old(View()), hi)
      ensures final <==> (forall x, a :: x in old(Indexes).Values && x != hi && a in hi.vpnAddrs ==> a !in x.vpnAddrs)
    {
      LiveCanDrop(View(), ages, hi);
      DeleteKeeps(View(), ages, hi);
      final := DeleteHostInfo(hi);
    }

    /** The last part of unlockedDeleteHostInfo: the relays. */
    method Reclaim(hi: HostInfo, final: bool)
      requires Split(Hosts, moreHosts) && hi in known && hi.vpnAddrs != []
      requires forall a, h :: h in ListOf(Lists(), a) ==> h in known && h != hi
      modifies this`Relays, known`relayForByAddr, known`relayForByIdx
      ensures Relays == old(Relays) - old(Tables(hi)).byIdx.Keys
      ensures AllTables(known) == if final
        then Disestablish(old(AllTables(known)), OnLists(Lists(), HopAddrs(old(Tables(hi)))), hi.vpnAddrs[0])
        else old(AllTables(known))
    {
      if final {
        DisestablishRelaysFor(hi);
      }
      // Clean up any local relay indexes for which I am acting as a relay hop
      Relays := Relays - hi.relayForByIdx.Keys;
    }

    /** The first part of unlockedDeleteHostInfo: the lists and the two index maps. */
    method Unlink(hi: HostInfo) returns (final: bool)
      requires Split(Hosts, moreHosts) && AllNoRepeats(Lists())
      modifies this`Hosts, this`moreHosts, this`Indexes, this`RemoteIndexes
      ensures Split(Hosts, moreHosts)
      ensures Lists() == Dropped(old(Lists()), hi.vpnAddrs, hi) && Indexes == old(Indexes) - {hi.localIndexId}
      ensures RemoteIndexes == if hi.remoteIndexId in old(RemoteIndexes) && old(RemoteIndexes)[hi.remoteIndexId] == hi
                               then old(RemoteIndexes) - {hi.remoteIndexId} else old(RemoteIndexes)
      ensures final <==> Gone(Lists(), hi)
    {
      final := DropAll(hi);
      if hi.remoteIndexId in RemoteIndexes && RemoteIndexes[hi.remoteIndexId] == hi {
        RemoteIndexes := RemoteIndexes - {hi.remoteIndexId};
      }
      Indexes := Indexes - {hi.localIndexId};
    }

    /** unlockedInnerAddHostInfo: hi becomes the primary of one address, and the oldest hostinfo of
        that address is fully retired if there are now too many. */
    method InnerAddHostInfo(addr: Addr, hi: HostInfo)
      requires Split(Hosts, moreHosts) && CanEnter(View(), addr, hi)
      modifies this`Hosts, this`moreHosts, this`Indexes, this`RemoteIndexes, this`Relays
      modifies known`relayForByAddr, known`relayForByIdx
      ensures Split(Hosts, moreHosts) && View() == Enter(old(View()), addr, hi)
    {
      var list := PutFirst(addr, hi);
      // Enforce the per-address cap by fully retiring the oldest hostinfo once we exceed it.
      if |list| > MAX_HOSTINFOS_PER_VPN_IP {
        var _ := DeleteHostInfo(list[|list| - 1]);
      }
    }

    /** The first half of unlockedInnerAddHostInfo. */
    method PutFirst(addr: Addr, hi: HostInfo) returns (list: seq<HostInfo>)
      requires Split(Hosts, moreHosts)
      modifies this`Hosts, this`moreHosts
      ensures Split(Hosts, moreHosts) && Lists() == Promoted(old(Lists()), [addr], hi) && list == ListOf(Lists(), addr)
    {
      assert [addr][..0] == [];
      MergedSet(Hosts, moreHosts, addr, [hi]);
      if addr !in Hosts {
        assert moreHosts - {addr} == moreHosts && [hi] + Remove([], hi) == [hi];
        // Common case, the first hostinfo for this address. moreHosts stays empty.
        Hosts := Hosts[addr := hi];
        return [hi];
      }
      list := if addr in moreHosts then moreHosts[addr] else [Hosts[addr]];
      list := Remove(list, hi);
      list := [hi] + list;
      SetHostsForAddr(addr, list);
    }

    /** unlockedAddHostInfo: hi becomes the primary of each of its addresses and is registered under
        its two indexes. */
    method AddHostInfo(hi: HostInfo, ghost ages: Ages)
      requires Split(Hosts, moreHosts) && Inv(View(), ages) && CanAdd(View(), hi)
      modifies this`Hosts, this`moreHosts, this`Indexes, this`RemoteIndexes, this`Relays
      modifies known`relayForByAddr, known`relayForByIdx
      ensures Split(Hosts, moreHosts) && View() == Add(old(View()), hi)
      ensures Inv(View(), Refreshed(ages, hi)) && IsLive(View(), hi)
    {
      AddKeeps(View(), ages, hi);
      EnterAddrs(hi, ages);
      Register(hi);
    }

    method Register(hi: HostInfo)
      requires Split(Hosts, moreHosts)
      modifies this`Indexes, this`RemoteIndexes
      ensures Split(Hosts, moreHosts) && View() == Registered(old(View()), hi)
    {
      Indexes := Indexes[hi.localIndexId := hi];
      RemoteIndexes := RemoteIndexes[hi.remoteIndexId := hi];
    }

    /** The loop of unlockedAddHostInfo. */
    method EnterAddrs(hi: HostInfo, ghost ages: Ages)
      requires Split(Hosts, moreHosts) && Inv(View(), ages) && CanAdd(View(), hi)
      modifies this`Hosts, this`moreHosts, this`Indexes, this`RemoteIndexes, this`Relays
      modifies known`relayForByAddr, known`relayForByIdx
      ensures Split(Hosts, moreHosts) && View() == EnterAll(old(View()), hi.vpnAddrs, hi)
    {
      ghost var was := View();
      for i := 0 to |hi.vpnAddrs|
        invariant Split(Hosts, moreHosts) && View() == EnterAll(was, hi.vpnAddrs[..i], hi)
      {
        AddReady(was, ages, hi, hi.vpnAddrs[..i], hi.vpnAddrs[i]);
        InnerAddHostInfo(hi.vpnAddrs[i], hi);
        EnterNext(was, hi, i);
      }
      assert hi.vpnAddrs[..|hi.vpnAddrs|] == hi.vpnAddrs;
    }

    /** AddRelay: at most 32 draws of a random index (None is a failure of the random source); the
        first one not in use is given to a new relay entry of hi, provided hi is still registered. */
    method AddRelay(
      hi: HostInfo, vpnIp: Addr, remoteIdx: Option<nat>, kind: RelayType, state: RelayState, draws: seq<Option<nat>>)
      returns (r: Option<nat>)
      requires Split(Hosts, moreHosts) && hi in known && |draws| == 32
      modifies this`Hosts, this`moreHosts, this`Relays, hi`relayForByAddr, hi`relayForByIdx
      ensures Split(Hosts, moreHosts)
      ensures r.Some? ==> FirstFree(draws, old(Relays), r) && IsLive(old(View()), hi)
      ensures r.Some? ==>
        var relay := Relay(kind, state, r.value, if remoteIdx.Some? then remoteIdx.value else 0, vpnIp);
        View() == HostMapSpec.AddRelay(old(View()), hi, relay)
      ensures r.None? ==> View() == old(View())
      ensures r.None? ==> !IsLive(old(View()), hi) || FirstFree(draws, old(Relays), None)
                          || forall k :: 0 <= k < 32 ==> Taken(draws[k], old(Relays))
    {
      for k := 0 to 32
        invariant Split(Hosts, moreHosts) && View() == old(View()) && Tables(hi) == old(Tables(hi))
        invariant forall j :: 0 <= j < k ==> Taken(draws[j], old(Relays))
      {
        if draws[k].None? {
          return None;
        }
        var index := draws[k].value;
        if index !in Relays {
          var ok := InstallRelay(hi, vpnIp, remoteIdx, kind, state, index);
          return if ok then Some(index) else None;
        }
      }
      return None;
    }

    /** The body of AddRelay once a free index is drawn. */
    method InstallRelay(hi: HostInfo, vpnIp: Addr, remoteIdx: Option<nat>, kind: RelayType, state: RelayState, index: nat)
      returns (ok: bool)
      requires Split(Hosts, moreHosts) && hi in known
      modifies this`Hosts, this`moreHosts, this`Relays, hi`relayForByAddr, hi`relayForByIdx
      ensures Split(Hosts, moreHosts) && (ok <==> IsLive(old(View()), hi))
      ensures !ok ==> View() == old(View())
      ensures ok ==>
        var relay := Relay(kind, state, index, if remoteIdx.Some? then remoteIdx.value else 0, vpnIp);
        View() == HostMapSpec.AddRelay(old(View()), hi, relay)
    {
      ok := MakePrimary(hi);
      if !ok {
        return;
      }
      ghost var tables := AllTables(known);
      Relays := Relays[index := hi];
      var newRelay := Relay(kind, state, index, 0, vpnIp);
      if remoteIdx.Some? {
        newRelay := newRelay.(remoteIndex := remoteIdx.value);
      }
      InsertRelay(hi, vpnIp, index, newRelay);
      assert AllTables(known) == tables[hi := Stored(tables[hi], newRelay)];
    }
  }

  predicate Taken(draw: Option<nat>, relays: map<nat, HostInfo>) {
    draw.Some? && draw.value in relays
  }

  /** d is the first draw that is not an index in use. */
  ghost predicate FirstFree(draws: seq<Option<nat>>, relays: map<nat, HostInfo>, d: Option<nat>) {
    exists k :: 0 <= k < |draws| && draws[k] == d && !Taken(d, relays) && forall j :: 0 <= j < k ==> Taken(draws[j], relays)
  }

  /** RelayState.InsertRelay */
  method InsertRelay(h: HostInfo, ip: Addr, idx: nat, r: Relay)
    requires r.peerAddr == ip && r.localIndex == idx
    modifies h`relayForByAddr, h`relayForByIdx
    ensures Tables(h) == Stored(old(Tables(h)), r)
  {
    h.relayForByAddr := h.relayForByAddr[ip := r];
    h.relayForByIdx := h.relayForByIdx[idx := r];
  }

  lemma AddReady(m: Maps, ages: Ages, hi: HostInfo, reached: seq<Addr>, a: Addr)
    requires Inv(m, ages) && CanAdd(m, hi)
    ensures CanEnter(EnterAll(m, reached, hi), a, hi)
  {
    var stamps := Refreshed(ages, hi).stamps;
    Restamped(People(m), ages.stamps, hi, ages.clock);
    EnterAllKeeps(m, stamps, hi, reached);
    AddingCanEnter(EnterAll(m, reached, hi), stamps, hi, reached, a);
  }

  lemma EnterNext(m: Maps, hi: HostInfo, i: nat)
    requires i < |hi.vpnAddrs|
    ensures EnterAll(m, hi.vpnAddrs[..i + 1], hi) == Enter(EnterAll(m, hi.vpnAddrs[..i], hi), hi.vpnAddrs[i], hi)
  {
    assert hi.vpnAddrs[..i + 1][..i] == hi.vpnAddrs[..i];
  }

  /** hi can be deleted: the lists name known hostinfos, none twice for one address, and hi only
      under its own addresses. */
  ghost predicate CanDrop(lists: Lists, known: set<HostInfo>, hi: HostInfo) {
    && hi in known && AllNoRepeats(lists)
    && (forall a, h :: h in ListOf(lists, a) ==> h in known)
    && (forall a :: hi in ListOf(lists, a) ==> a in hi.vpnAddrs)
  }

  /** hi can be put first for address a: whoever that pushes out can be deleted. */
  ghost predicate CanEnter(m: Maps, a: Addr, hi: HostInfo) {
    var lists := Promoted(m.lists, [a], hi);
    var list := ListOf(lists, a);
    |list| > MAX_HOSTINFOS_PER_VPN_IP ==>
      list[|list| - 1].vpnAddrs != [] && CanDrop(lists, m.tables.Keys, list[|list| - 1])
  }

  lemma AddingCanEnter(m: Maps, stamps: Stamps, hi: HostInfo, reached: seq<Addr>, a: Addr)
    requires Adding(m, stamps, hi, reached)
    ensures CanEnter(m, a, hi)
  {
    var p := People(m).(lists := Promoted(m.lists, [a], hi));
    assert KeepsBut(p, stamps, hi, reached + [a], a) by {
      Fronted(People(m), stamps, hi, reached, a);
    }
    if |p.lists[a]| > MAX_HOSTINFOS_PER_VPN_IP {
      OldestCanDrop(p, stamps, hi, reached + [a], a, m.tables.Keys);
    }
  }

  lemma OldestCanDrop(p: Population, stamps: Stamps, hi: HostInfo, reached: seq<Addr>, a: Addr, known: set<HostInfo>)
    requires KeepsBut(p, stamps, hi, reached, a) && |p.lists[a]| > 1 && hi !in p.live && p.live <= known && hi in known
    ensures var out := p.lists[a][|p.lists[a]| - 1];
            out.vpnAddrs != [] && CanDrop(p.lists, known, out)
  {
    var out := p.lists[a][|p.lists[a]| - 1];
    assert out in p.live && out != hi && a in out.vpnAddrs by {
      OldestRetired(p, stamps, hi, reached, a, out);
    }
    HoldersCanDrop(p, hi, reached, known, out);
  }

  lemma HoldersCanDrop(p: Population, hi: HostInfo, reached: seq<Addr>, known: set<HostInfo>, out: HostInfo)
    requires Holders(p, hi, reached) && AllNoRepeats(p.lists) && p.live <= known && hi in known && out in p.live && out != hi
    ensures CanDrop(p.lists, known, out)
  {}

  lemma LiveCanDrop(m: Maps, ages: Ages, hi: HostInfo)
    requires Inv(m, ages) && IsLive(m, hi)
    ensures hi.vpnAddrs != [] && CanDrop(m.lists, m.tables.Keys, hi)
  {
    KeepsNoRepeats(People(m), ages.stamps, null, []);
    LiveIsValue(m, hi);
    forall a, h | h in ListOf(m.lists, a) ensures h in m.tables {
      LiveIsValue(m, h);
    }
  }

  lemma DeleteIs(m: Maps, t: RelayTables, hi: HostInfo, m': Maps)
    requires hi in m.tables && m.tables[hi] == t && hi.vpnAddrs != []
    requires m'.lists == Dropped(m.lists, hi.vpnAddrs, hi)
    requires m'.indexes == m.indexes - {hi.localIndexId} && m'.relays == m.relays - t.byIdx.Keys
    requires m'.remoteIndexes == if hi.remoteIndexId in m.remoteIndexes && m.remoteIndexes[hi.remoteIndexId] == hi
                                 then m.remoteIndexes - {hi.remoteIndexId} else m.remoteIndexes
    requires m'.tables == if Gone(m'.lists, hi) then Disestablish(m.tables, OnLists(m'.lists, HopAddrs(t)), hi.vpnAddrs[0])
                          else m.tables
    ensures m' == Delete(m, hi)
  {}

  /** After hi has been dropped nobody new is in any list and hi is in none. */
  lemma DroppedMembers(lists: Lists, hi: HostInfo)
    requires AllNoRepeats(lists) && forall a :: hi in ListOf(lists, a) ==> a in hi.vpnAddrs
    ensures AllNoRepeats(Dropped(lists, hi.vpnAddrs, hi))
    ensures forall a, x :: x in ListOf(Dropped(lists, hi.vpnAddrs, hi), a) ==> x in ListOf(lists, a) && x != hi
  {
    var lists' := Dropped(lists, hi.vpnAddrs, hi);
    forall a ensures a in lists' ==> lists'[a] != [] && NoRepeats(lists'[a])
             ensures forall x :: x in ListOf(lists', a) ==> x in ListOf(lists, a) && x != hi {
      DroppedAt(lists, hi.vpnAddrs, hi, a);
      RemoveFacts(ListOf(lists, a), hi);
      if a in hi.vpnAddrs {
        assert ListOf(lists', a) == Remove(ListOf(lists, a), hi);
      } else {
        assert ListOf(lists', a) == ListOf(lists, a) && hi !in ListOf(lists, a);
      }
    }
  }

  lemma ForwardPeersGrow(first: set<Addr>, relays: seq<Relay>, r: Relay)
    ensures first + ForwardPeers(relays + [r])
         == if r.kind == ForwardingType then first + ForwardPeers(relays) + {r.peerAddr} else first + ForwardPeers(relays)
  {}

  lemma HopAddrsAre(t: RelayTables, forwards: seq<Relay>)
    requires forall r :: r in forwards <==> r in t.byIdx.Values
    ensures Elements(t.relays) + ForwardPeers(forwards) == HopAddrs(t)
  {}

  ghost function Members(list: seq<HostInfo>): set<HostInfo> {
    set x | x in list
  }

  ghost function Elements(addrs: seq<Addr>): set<Addr> {
    set a | a in addrs
  }

  ghost function ForwardPeers(relays: seq<Relay>): set<Addr> {
    set r | r in relays && r.kind == ForwardingType :: r.peerAddr
  }

  /** Of the known hostinfos exactly those in `done` have had their entry for addr marked. */
  ghost predicate Marked(known: set<HostInfo>, was: map<HostInfo, RelayTables>, done: set<HostInfo>, addr: Addr)
    reads known
  {
    && was.Keys == known
    && forall h {:trigger Tables(h)} :: h in known ==>
         Tables(h) == if h in done then StateSet(was[h], addr, Disestablished) else was[h]
  }

  lemma StateSetTwice(t: RelayTables, addr: Addr, state: RelayState)
    ensures StateSet(StateSet(t, addr, state), addr, state) == StateSet(t, addr, state)
  {}

  lemma OnListsGrow(lists: Lists, addrs: set<Addr>, a: Addr)
    ensures OnLists(lists, addrs + {a}) == OnLists(lists, addrs) + Members(ListOf(lists, a))
  {}

  /** CopyAllRelayFor: the entries in some order. */
  method CopyAllRelayFor(h: HostInfo) returns (ret: seq<Relay>)
    ensures forall r :: r in ret <==> r in h.relayForByIdx.Values
  {
    ret := [];
    var rest := h.relayForByIdx;
    while rest != map[]
      invariant forall r :: r in h.relayForByIdx.Values <==> r in ret || r in rest.Values
      decreases |rest|
    {
      var i :| i in rest;
      ghost var before := rest;
      ret := ret + [rest[i]];
      rest := rest - {i};
      assert before == rest[i := before[i]];
    }
  }

  /** Taking hi out of one more list does not change which earlier lists are left. */
  lemma DroppedAgain(lists: Lists, addrs: seq<Addr>, hi: HostInfo, addr: Addr)
    requires AllNoRepeats(lists)
    ensures forall a :: a in addrs ==>
      (a in Dropped(lists, addrs, hi) <==> a in WithList(Dropped(lists, addrs, hi), addr, Remove(ListOf(Dropped(lists, addrs, hi), addr), hi)))
  {
    forall a | a in addrs
      ensures a in Dropped(lists, addrs, hi) <==> a in WithList(Dropped(lists, addrs, hi), addr, Remove(ListOf(Dropped(lists, addrs, hi), addr), hi))
    {
      DroppedAt(lists, addrs, hi, a);
      RemoveFacts(ListOf(lists, a), hi);
      RemoveAbsent(Remove(ListOf(lists, a), hi), hi);
    }
  }
}
