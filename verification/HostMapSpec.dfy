/** The host map's operations on values, and the invariant all of them keep. */
module HostMapSpec {
  import opened RelayEntries
  import opened HostLists

  // ---- The five maps ----

  /** Hosts and moreHosts as one list per address, the index maps, and the relay tables of every
      hostinfo. */
  datatype Maps = Maps(
    lists: Lists, indexes: map<nat, HostInfo>, remoteIndexes: map<nat, HostInfo>,
    relays: map<nat, HostInfo>, tables: map<HostInfo, RelayTables>)

  function People(m: Maps): Population {
    Population(m.lists, m.indexes.Values)
  }

  /** The addresses of the next hops through which, or for which, a host is relayed. */
  function HopAddrs(t: RelayTables): set<Addr> {
    (set a | a in t.relays) + (set r | r in t.byIdx.Values && r.kind == ForwardingType :: r.peerAddr)
  }

  /** Everybody in the list of one of the given addresses. */
  ghost function OnLists(lists: Lists, addrs: set<Addr>): set<HostInfo> {
    set a, x | a in addrs && x in ListOf(lists, a) :: x
  }

  /** unlockedDisestablishVpnAddrRelayFor, for the hosts `hops`. */
  function Disestablish(tables: map<HostInfo, RelayTables>, hops: set<HostInfo>, addr: Addr): map<HostInfo, RelayTables> {
    map h | h in tables :: if h in hops then StateSet(tables[h], addr, Disestablished) else tables[h]
  }

  predicate Gone(lists: Lists, hi: HostInfo) {
    forall a :: a in hi.vpnAddrs ==> a !in lists
  }

  /** unlockedDeleteHostInfo */
  ghost function Delete(m: Maps, hi: HostInfo): Maps
    requires hi in m.tables && hi.vpnAddrs != []
  {
    var lists := Dropped(m.lists, hi.vpnAddrs, hi);
    m.(lists := lists,
       remoteIndexes := if hi.remoteIndexId in m.remoteIndexes && m.remoteIndexes[hi.remoteIndexId] == hi
                        then m.remoteIndexes - {hi.remoteIndexId} else m.remoteIndexes,
       indexes := m.indexes - {hi.localIndexId},
       tables := if Gone(lists, hi) then Disestablish(m.tables, OnLists(lists, HopAddrs(m.tables[hi])), hi.vpnAddrs[0])
                 else m.tables,
       relays := m.relays - m.tables[hi].byIdx.Keys)
  }

  /** unlockedInnerAddHostInfo */
  ghost function Enter(m: Maps, a: Addr, hi: HostInfo): Maps {
    var lists := Promoted(m.lists, [a], hi);
    var list := ListOf(lists, a);
    if |list| > MAX_HOSTINFOS_PER_VPN_IP && list[|list| - 1] in m.tables && list[|list| - 1].vpnAddrs != []
    then Delete(m.(lists := lists), list[|list| - 1])
    else m.(lists := lists)
  }

  ghost function EnterAll(m: Maps, addrs: seq<Addr>, hi: HostInfo): Maps
    decreases |addrs|
  {
    if addrs == [] then m else Enter(EnterAll(m, addrs[..|addrs| - 1], hi), addrs[|addrs| - 1], hi)
  }

  /** unlockedAddHostInfo */
  ghost function Add(m: Maps, hi: HostInfo): Maps {
    Registered(EnterAll(m, hi.vpnAddrs, hi), hi)
  }

  function Registered(m: Maps, hi: HostInfo): Maps {
    m.(indexes := m.indexes[hi.localIndexId := hi], remoteIndexes := m.remoteIndexes[hi.remoteIndexId := hi])
  }

  predicate IsLive(m: Maps, hi: HostInfo) {
    hi.localIndexId in m.indexes && m.indexes[hi.localIndexId] == hi
  }

  /** unlockedMakePrimary */
  ghost function Primary(m: Maps, hi: HostInfo): Maps {
    if IsLive(m, hi) then m.(lists := Promoted(m.lists, hi.vpnAddrs, hi)) else m
  }

  /** AddRelay, once it has found a free index for a live hostinfo. */
  ghost function AddRelay(m: Maps, hi: HostInfo, r: Relay): Maps
    requires hi in m.tables
  {
    var m' := Primary(m, hi);
    m'.(relays := m'.relays[r.localIndex := hi], tables := m'.tables[hi := Stored(m'.tables[hi], r)])
  }

  // ---- The invariant ----

  /** Each index map names live hostinfos under their own ids. */
  ghost predicate IdsOk(m: Maps) {
    && (forall i :: i in m.indexes ==> m.indexes[i].localIndexId == i && m.indexes[i].vpnAddrs != [])
    && (forall r :: r in m.remoteIndexes ==> m.remoteIndexes[r].remoteIndexId == r && IsLive(m, m.remoteIndexes[r]))
  }

  /** The relay index map names exactly the relay entries of the live hostinfos, and the tables of
      every hostinfo agree. */
  ghost predicate RelaysOk(m: Maps) {
    && (forall i :: i in m.indexes ==> m.indexes[i] in m.tables)
    && RelayIndexOk(m)
    && AllAgree(m.tables)
  }

  ghost predicate RelayIndexOk(m: Maps) {
    && (forall i :: i in m.relays ==>
          IsLive(m, m.relays[i]) && m.relays[i] in m.tables && i in m.tables[m.relays[i]].byIdx)
    && (forall h, i {:trigger i in m.tables[h].byIdx} ::
          h in m.tables && IsLive(m, h) && i in m.tables[h].byIdx ==> i in m.relays && m.relays[i] == h)
  }

  ghost predicate AllAgree(tables: map<HostInfo, RelayTables>) {
    forall h {:trigger Agree(tables[h])} :: h in tables ==> Agree(tables[h])
  }

  /** When each hostinfo was last added or made primary, and the next such time. */
  datatype Ages = Ages(stamps: Stamps, clock: nat)

  ghost predicate Past(m: Maps, ages: Ages) {
    forall h :: h in m.indexes.Values ==> h in ages.stamps && ages.stamps[h] < ages.clock
  }

  function Refreshed(ages: Ages, hi: HostInfo): Ages {
    Ages(ages.stamps[hi := ages.clock], ages.clock + 1)
  }

  ghost predicate Inv(m: Maps, ages: Ages) {
    IdsOk(m) && RelaysOk(m) && Past(m, ages) && Consistent(People(m), ages.stamps)
  }

  lemma LiveIsValue(m: Maps, h: HostInfo)
    requires IdsOk(m)
    ensures IsLive(m, h) <==> h in m.indexes.Values
  {}

  // ---- Delete ----

  /** The same indexes are allocated in both. */
  ghost predicate SameIndexes(tables': map<HostInfo, RelayTables>, tables: map<HostInfo, RelayTables>) {
    && tables'.Keys == tables.Keys
    && forall h {:trigger tables'[h]} :: h in tables ==> tables'[h].byIdx.Keys == tables[h].byIdx.Keys
  }

  lemma DisestablishKeeps(tables: map<HostInfo, RelayTables>, hops: set<HostInfo>, addr: Addr)
    requires AllAgree(tables)
    ensures AllAgree(Disestablish(tables, hops, addr)) && SameIndexes(Disestablish(tables, hops, addr), tables)
  {
    var tables' := Disestablish(tables, hops, addr);
    forall h {:trigger Agree(tables'[h])} | h in tables
      ensures Agree(tables'[h]) && tables'[h].byIdx.Keys == tables[h].byIdx.Keys
    {
      assert Agree(tables[h]);
      StateSetAgrees(tables[h], addr, Disestablished);
    }
    forall h {:trigger tables'[h]} | h in tables ensures tables'[h].byIdx.Keys == tables[h].byIdx.Keys {
      assert Agree(tables[h]);
      StateSetAgrees(tables[h], addr, Disestablished);
    }
  }

  lemma WithoutIndex(indexes: map<nat, HostInfo>, hi: HostInfo)
    requires forall i :: i in indexes ==> indexes[i].localIndexId == i
    requires hi.localIndexId in indexes && indexes[hi.localIndexId] == hi
    ensures (indexes - {hi.localIndexId}).Values == indexes.Values - {hi}
  {
    var indexes' := indexes - {hi.localIndexId};
    forall h | h in indexes.Values - {hi} ensures h in indexes'.Values {
      assert indexes'[h.localIndexId] == h;
    }
  }

  /** From m to m' the remote indexes of the hostinfos no longer live are dropped, and no others. */
  ghost predicate RemotesFollow(m: Maps, m': Maps) {
    && (forall r :: r in m'.remoteIndexes <==> r in m.remoteIndexes && m.remoteIndexes[r] in m'.indexes.Values)
    && (forall r :: r in m'.remoteIndexes ==> m'.remoteIndexes[r] == m.remoteIndexes[r])
  }

  lemma DeleteRemotes(m: Maps, hi: HostInfo)
    requires IdsOk(m) && IsLive(m, hi) && hi in m.tables && hi.vpnAddrs != []
    ensures RemotesFollow(m, Delete(m, hi))
  {
    WithoutIndex(m.indexes, hi);
    forall r | r in m.remoteIndexes ensures m.remoteIndexes[r] in m.indexes.Values {}
  }

  /** Deleting a live hostinfo leaves nothing behind that names it. */
  lemma DeleteKeepsIndexes(m: Maps, hi: HostInfo)
    requires IdsOk(m) && RelaysOk(m) && IsLive(m, hi)
    ensures hi in m.tables && hi.vpnAddrs != []
    ensures IdsOk(Delete(m, hi)) && RelaysOk(Delete(m, hi)) && SameIndexes(Delete(m, hi).tables, m.tables)
    ensures People(Delete(m, hi)) == Deleted(People(m), hi)
  {
    var m' := Delete(m, hi);
    WithoutIndex(m.indexes, hi);
    DisestablishKeeps(m.tables, OnLists(m'.lists, HopAddrs(m.tables[hi])), hi.vpnAddrs[0]);
    DeleteKeepsRelays(m, hi, m');
  }

  lemma DeleteKeepsRelays(m: Maps, hi: HostInfo, m': Maps)
    requires IdsOk(m) && RelayIndexOk(m) && IsLive(m, hi) && hi in m.tables
    requires m'.indexes == m.indexes - {hi.localIndexId} && m'.relays == m.relays - m.tables[hi].byIdx.Keys
    requires SameIndexes(m'.tables, m.tables)
    ensures RelayIndexOk(m')
  {
    forall i | i in m'.relays
      ensures IsLive(m', m'.relays[i]) && m'.relays[i] in m'.tables && i in m'.tables[m'.relays[i]].byIdx
    {
      assert i in m.relays && m.relays[i] != hi;
      assert i in m.tables[m.relays[i]].byIdx.Keys;
    }
    forall h, i {:trigger i in m'.tables[h].byIdx} | h in m'.tables && IsLive(m', h) && i in m'.tables[h].byIdx
      ensures i in m'.relays && m'.relays[i] == h
    {
      assert i in m'.tables[h].byIdx.Keys;
      assert i in m.tables[h].byIdx;
      assert IsLive(m, h) && m.relays[i] == h;
    }
  }

  /** Delete keeps the invariant, and reports true exactly when no other live hostinfo holds any
      address of the deleted one. */
  lemma DeleteKeeps(m: Maps, ages: Ages, hi: HostInfo)
    requires Inv(m, ages) && IsLive(m, hi)
    ensures hi in m.tables && hi.vpnAddrs != [] && Inv(Delete(m, hi), ages)
    ensures Gone(Delete(m, hi).lists, hi)
       <==> (forall x, a :: x in m.indexes.Values && x != hi && a in hi.vpnAddrs ==> a !in x.vpnAddrs)
  {
    DeleteKeepsIndexes(m, hi);
    DeletedIsConsistent(People(m), ages.stamps, hi);
    LastTunnel(People(m), ages.stamps, hi);
  }

  // ---- Make primary ----

  lemma PrimaryKeeps(m: Maps, ages: Ages, hi: HostInfo)
    requires Inv(m, ages) && IsLive(m, hi)
    ensures Inv(Primary(m, hi), Refreshed(ages, hi))
  {
    assert hi in m.indexes.Values;
    MadePrimaryIsConsistent(People(m), ages.stamps, hi, ages.clock);
    assert People(Primary(m, hi)) == MadePrimary(People(m), hi);
  }

  // ---- Add ----

  /** The invariant while hi is being added and has reached the addresses in `reached`. */
  ghost predicate Adding(m: Maps, stamps: Stamps, hi: HostInfo, reached: seq<Addr>) {
    IdsOk(m) && RelaysOk(m) && Keeps(People(m), stamps, hi, reached) && AddingOk(m, stamps, hi)
  }

  /** The newcomer is not registered yet, has no relay entries, and is newer than everybody. */
  ghost predicate AddingOk(m: Maps, stamps: Stamps, hi: HostInfo) {
    && hi !in m.indexes.Values && hi.localIndexId !in m.indexes && hi.vpnAddrs != []
    && hi in m.tables && m.tables[hi].byIdx == map[]
    && hi in stamps && forall x :: x in m.indexes.Values ==> x in stamps && stamps[x] < stamps[hi]
  }

  /** Adding a hostinfo to the host map may push others out of the index map, and does nothing else to it. */
  lemma {:induction false} EnterAllIndexes(m: Maps, addrs: seq<Addr>, hi: HostInfo)
    ensures var indexes := EnterAll(m, addrs, hi).indexes; indexes == m.indexes - (m.indexes.Keys - indexes.Keys)
    decreases |addrs|
  {
    if addrs != [] {
      EnterAllIndexes(m, addrs[..|addrs| - 1], hi);
    }
  }

  lemma AddIndexes(m: Maps, hi: HostInfo) returns (evicted: set<nat>)
    ensures evicted <= m.indexes.Keys && Add(m, hi).indexes == (m.indexes - evicted)[hi.localIndexId := hi]
  {
    EnterAllIndexes(m, hi.vpnAddrs, hi);
    evicted := m.indexes.Keys - EnterAll(m, hi.vpnAddrs, hi).indexes.Keys;
  }

  /** From m to m' some hostinfos are retired, each of them a holder of one of these addresses, and the relay
      indexes of everybody stay in their tables. */
  ghost predicate OnlyEvicts(m: Maps, m': Maps, addrs: seq<Addr>) {
    && m'.indexes.Values <= m.indexes.Values
    && (forall x :: x in m.indexes.Values && x !in m'.indexes.Values ==> exists a :: a in addrs && a in x.vpnAddrs)
    && SameIndexes(m'.tables, m.tables)
  }

  lemma EvictsMore(m: Maps, m1: Maps, m': Maps, addrs: seq<Addr>, a: Addr)
    requires OnlyEvicts(m, m1, addrs) && OnlyEvicts(m1, m', [a])
    ensures OnlyEvicts(m, m', addrs + [a])
  {
    forall x | x in m.indexes.Values && x !in m'.indexes.Values ensures exists b :: b in addrs + [a] && b in x.vpnAddrs {
      if x in m1.indexes.Values {
        assert a in addrs + [a] && a in x.vpnAddrs;
      } else {
        var b :| b in addrs && b in x.vpnAddrs;
        assert b in addrs + [a];
      }
    }
  }

  function FrontedMap(m: Maps, a: Addr, hi: HostInfo): Maps {
    m.(lists := Promoted(m.lists, [a], hi))
  }

  /** What entering comes to: with a list that is not too long the front, otherwise the last on it goes. */
  lemma EnterIs(m: Maps, a: Addr, hi: HostInfo, m1: Maps, list: seq<HostInfo>)
    requires m1 == FrontedMap(m, a, hi) && list == ListOf(m1.lists, a)
    ensures |list| <= MAX_HOSTINFOS_PER_VPN_IP ==> Enter(m, a, hi) == m1
    ensures |list| > MAX_HOSTINFOS_PER_VPN_IP && list[|list| - 1] in m1.tables && list[|list| - 1].vpnAddrs != [] ==>
      Enter(m, a, hi) == Delete(m1, list[|list| - 1])
  {}

  lemma EnterKeeps(m: Maps, stamps: Stamps, hi: HostInfo, reached: seq<Addr>, a: Addr)
    requires Adding(m, stamps, hi, reached)
    ensures Adding(Enter(m, a, hi), stamps, hi, reached + [a])
    ensures OnlyEvicts(m, Enter(m, a, hi), [a])
  {
    var m1 := FrontedMap(m, a, hi);
    var list := ListOf(m1.lists, a);
    FrontedMaps(m, stamps, hi, reached, a);
    EnterIs(m, a, hi, m1, list);
    if |list| > MAX_HOSTINFOS_PER_VPN_IP {
      RetireOldest(m1, stamps, hi, reached + [a], a, list[|list| - 1]);
      SameEvicts(m, m1, Enter(m, a, hi), [a]);
    } else {
      NotTooLong(m1, stamps, hi, reached + [a], a);
      SameEvicts(m, m1, m1, [a]);
    }
  }

  lemma SameEvicts(m: Maps, m1: Maps, m': Maps, addrs: seq<Addr>)
    requires m1 == m.(lists := m1.lists) && (m' == m1 || OnlyEvicts(m1, m', addrs))
    ensures OnlyEvicts(m, m', addrs)
  {}

  lemma NotTooLong(m: Maps, stamps: Stamps, hi: HostInfo, reached: seq<Addr>, a: Addr)
    requires IdsOk(m) && RelaysOk(m) && AddingOk(m, stamps, hi) && KeepsBut(People(m), stamps, hi, reached, a)
    requires |ListOf(m.lists, a)| <= MAX_HOSTINFOS_PER_VPN_IP && forall b :: b in m.lists ==> m.lists[b] != []
    ensures Adding(m, stamps, hi, reached)
  {}

  /** hi put at the front of one more list. */
  lemma FrontedMaps(m: Maps, stamps: Stamps, hi: HostInfo, reached: seq<Addr>, a: Addr)
    requires Adding(m, stamps, hi, reached)
    ensures var m1 := FrontedMap(m, a, hi);
      && IdsOk(m1) && RelaysOk(m1) && AddingOk(m1, stamps, hi) && KeepsBut(People(m1), stamps, hi, reached + [a], a)
      && forall b :: b in m1.lists ==> m1.lists[b] != []
  {
    var m1 := FrontedMap(m, a, hi);
    Fronted(People(m), stamps, hi, reached, a);
    assert People(m1) == People(m).(lists := m1.lists);
    SameRelays(m, m1);
    KeepsNoRepeats(People(m), stamps, hi, reached);
    forall b | b in m1.lists ensures m1.lists[b] != [] { PromotedAt(m.lists, [a], hi, b); }
  }

  /** The oldest on a list that has got too long goes. */
  lemma RetireOldest(m: Maps, stamps: Stamps, hi: HostInfo, reached: seq<Addr>, a: Addr, out: HostInfo)
    requires IdsOk(m) && RelaysOk(m) && AddingOk(m, stamps, hi) && KeepsBut(People(m), stamps, hi, reached, a)
    requires |ListOf(m.lists, a)| > MAX_HOSTINFOS_PER_VPN_IP && out == ListOf(m.lists, a)[|ListOf(m.lists, a)| - 1]
    ensures IsLive(m, out) && out in m.tables && out.vpnAddrs != [] && Adding(Delete(m, out), stamps, hi, reached)
    ensures OnlyEvicts(m, Delete(m, out), [a])
  {
    OldestRetired(People(m), stamps, hi, reached, a, out);
    LiveIsValue(m, out);
    RetireKeeps(m, stamps, hi, reached, out);
    assert a in [a];
  }

  /** ... and takes its remote index with it. */
  lemma EnterRemotes(m: Maps, stamps: Stamps, hi: HostInfo, reached: seq<Addr>, a: Addr)
    requires Adding(m, stamps, hi, reached)
    ensures RemotesFollow(m, Enter(m, a, hi))
  {
    var m1 := FrontedMap(m, a, hi);
    var list := ListOf(m1.lists, a);
    FrontedMaps(m, stamps, hi, reached, a);
    EnterIs(m, a, hi, m1, list);
    if |list| > MAX_HOSTINFOS_PER_VPN_IP {
      RetireOldest(m1, stamps, hi, reached + [a], a, list[|list| - 1]);
      DeleteRemotes(m1, list[|list| - 1]);
    }
    SameFollow(m, m1, Enter(m, a, hi));
  }

  lemma SameFollow(m: Maps, m1: Maps, m': Maps)
    requires IdsOk(m) && m1 == m.(lists := m1.lists) && (m' == m1 || RemotesFollow(m1, m'))
    ensures RemotesFollow(m, m')
  {
    forall r | r in m.remoteIndexes ensures m.remoteIndexes[r] in m.indexes.Values {}
  }

  lemma FollowOn(m: Maps, m1: Maps, m': Maps)
    requires RemotesFollow(m, m1) && RemotesFollow(m1, m') && m'.indexes.Values <= m1.indexes.Values
    ensures RemotesFollow(m, m')
  {}

  lemma {:induction false} EnterAllRemotes(m: Maps, stamps: Stamps, hi: HostInfo, addrs: seq<Addr>)
    requires Adding(m, stamps, hi, [])
    ensures RemotesFollow(m, EnterAll(m, addrs, hi))
    decreases |addrs|
  {
    if addrs == [] {
      forall r | r in m.remoteIndexes ensures m.remoteIndexes[r] in m.indexes.Values {}
    } else {
      var init, last := addrs[..|addrs| - 1], addrs[|addrs| - 1];
      var m1 := EnterAll(m, init, hi);
      EnterAllRemotes(m, stamps, hi, init);
      EnterAllKeeps(m, stamps, hi, init);
      EnterRemotes(m1, stamps, hi, init, last);
      EnterKeeps(m1, stamps, hi, init, last);
      FollowOn(m, m1, Enter(m1, last, hi));
    }
  }

  lemma SameRelays(m: Maps, m1: Maps)
    requires IdsOk(m) && RelaysOk(m) && m1 == m.(lists := m1.lists)
    ensures IdsOk(m1) && RelaysOk(m1)
  {}

  lemma RetireKeeps(m: Maps, stamps: Stamps, hi: HostInfo, reached: seq<Addr>, out: HostInfo)
    requires IdsOk(m) && RelaysOk(m) && IsLive(m, out) && AddingOk(m, stamps, hi)
    requires Keeps(Deleted(People(m), out), stamps, hi, reached)
    ensures out in m.tables && out.vpnAddrs != [] && Adding(Delete(m, out), stamps, hi, reached)
    ensures Delete(m, out).indexes.Values == m.indexes.Values - {out} && SameIndexes(Delete(m, out).tables, m.tables)
  {
    DeleteKeepsIndexes(m, out);
    assert Delete(m, out).tables[hi].byIdx.Keys == m.tables[hi].byIdx.Keys;
  }

  lemma {:induction false} EnterAllKeeps(m: Maps, stamps: Stamps, hi: HostInfo, addrs: seq<Addr>)
    requires Adding(m, stamps, hi, [])
    ensures Adding(EnterAll(m, addrs, hi), stamps, hi, addrs)
    ensures OnlyEvicts(m, EnterAll(m, addrs, hi), addrs)
    decreases |addrs|
  {
    if addrs != [] {
      var init, last := addrs[..|addrs| - 1], addrs[|addrs| - 1];
      EnterAllKeeps(m, stamps, hi, init);
      EnterOneMore(m, EnterAll(m, init, hi), stamps, hi, init, last);
      assert addrs == init + [last];
    }
  }

  lemma EnterOneMore(m: Maps, m1: Maps, stamps: Stamps, hi: HostInfo, reached: seq<Addr>, a: Addr)
    requires Adding(m1, stamps, hi, reached) && OnlyEvicts(m, m1, reached)
    ensures Adding(Enter(m1, a, hi), stamps, hi, reached + [a]) && OnlyEvicts(m, Enter(m1, a, hi), reached + [a])
  {
    EnterKeeps(m1, stamps, hi, reached, a);
    EvictsMore(m, m1, Enter(m1, a, hi), reached, a);
  }

  /** A hostinfo can be added when its index is free and it has no relay entries yet; relays to reach it by,
      from a handshake that came over one, it may have. */
  ghost predicate CanAdd(m: Maps, hi: HostInfo) {
    hi.localIndexId !in m.indexes && hi.vpnAddrs != [] && hi in m.tables && m.tables[hi].byIdx == map[]
  }

  /** Adding keeps the invariant, makes hi live and nobody else, retires only hostinfos that share an address
      with hi, keeps every relay index in its table, and gives hi its remote index, whoever had it before. */
  lemma AddKeeps(m: Maps, ages: Ages, hi: HostInfo)
    requires Inv(m, ages) && CanAdd(m, hi)
    ensures Inv(Add(m, hi), Refreshed(ages, hi)) && IsLive(Add(m, hi), hi)
    ensures Add(m, hi).indexes.Values <= m.indexes.Values + {hi} && SameIndexes(Add(m, hi).tables, m.tables)
    ensures forall x :: x in m.indexes.Values && x !in Add(m, hi).indexes.Values ==> exists a :: a in hi.vpnAddrs && a in x.vpnAddrs
    ensures RemotesFollow(m.(remoteIndexes := m.remoteIndexes[hi.remoteIndexId := hi]), Add(m, hi))
  {
    var stamps := Refreshed(ages, hi).stamps;
    assert hi !in m.indexes.Values;
    Restamped(People(m), ages.stamps, hi, ages.clock);
    EnterAllKeeps(m, stamps, hi, hi.vpnAddrs);
    RegisterKeeps(EnterAll(m, hi.vpnAddrs, hi), ages, hi);
    EnterAllRemotes(m, stamps, hi, hi.vpnAddrs);
    RegisterRemotes(m, EnterAll(m, hi.vpnAddrs, hi), hi);
  }

  lemma RegisterRemotes(m: Maps, m1: Maps, hi: HostInfo)
    requires RemotesFollow(m, m1) && Registered(m1, hi).indexes.Values == m1.indexes.Values + {hi}
    requires forall r :: r in m.remoteIndexes ==> m.remoteIndexes[r] != hi
    ensures RemotesFollow(m.(remoteIndexes := m.remoteIndexes[hi.remoteIndexId := hi]), Registered(m1, hi))
  {}

  lemma WithIndex(indexes: map<nat, HostInfo>, hi: HostInfo)
    requires forall i :: i in indexes ==> indexes[i].localIndexId == i
    requires hi.localIndexId !in indexes
    ensures indexes[hi.localIndexId := hi].Values == indexes.Values + {hi}
  {
    var indexes' := indexes[hi.localIndexId := hi];
    forall h | h in indexes.Values ensures h in indexes'.Values { assert indexes'[h.localIndexId] == h; }
    assert indexes'[hi.localIndexId] == hi;
  }

  /** The last step of an insertion: hi is entered in the index maps. */
  lemma RegisterKeeps(m: Maps, ages: Ages, hi: HostInfo)
    requires Adding(m, Refreshed(ages, hi).stamps, hi, hi.vpnAddrs)
    ensures var m' := Registered(m, hi);
      Inv(m', Refreshed(ages, hi)) && IsLive(m', hi) && m'.indexes.Values == m.indexes.Values + {hi}
  {
    var m' := Registered(m, hi);
    WithIndex(m.indexes, hi);
    JoinedHolders(People(m), hi);
    assert People(m') == People(m).(live := m.indexes.Values + {hi});
    assert RelayIndexOk(m') by { RegisterRelays(m, m', hi); }
  }

  lemma RegisterRelays(m: Maps, m': Maps, hi: HostInfo)
    requires RelayIndexOk(m) && hi.localIndexId !in m.indexes && hi in m.tables && m.tables[hi].byIdx == map[]
    requires m'.indexes == m.indexes[hi.localIndexId := hi] && m'.relays == m.relays && m'.tables == m.tables
    ensures RelayIndexOk(m')
  {
    forall h, i {:trigger i in m'.tables[h].byIdx} | h in m'.tables && IsLive(m', h) && i in m'.tables[h].byIdx
      ensures i in m'.relays && m'.relays[i] == h
    {
      assert i in m.tables[h].byIdx && h != hi;
      assert IsLive(m, h);
    }
  }

  // ---- AddRelay ----

  lemma AddRelayKeeps(m: Maps, ages: Ages, hi: HostInfo, r: Relay)
    requires Inv(m, ages) && IsLive(m, hi) && r.localIndex !in m.relays
    ensures hi in m.tables && Inv(AddRelay(m, hi, r), Refreshed(ages, hi))
  {
    PrimaryKeeps(m, ages, hi);
    var m1, m' := Primary(m, hi), AddRelay(m, hi, r);
    assert r.localIndex !in m1.tables[hi].byIdx;
    assert Agree(m1.tables[hi]);
    StoredAgrees(m1.tables[hi], r);
    assert People(m') == People(m1);
    NewRelayIndex(m1, m', hi, r);
    forall h {:trigger Agree(m'.tables[h])} | h in m'.tables ensures Agree(m'.tables[h]) {
      if h != hi { assert Agree(m1.tables[h]); }
    }
  }

  lemma NewRelayIndex(m: Maps, m': Maps, hi: HostInfo, r: Relay)
    requires RelayIndexOk(m) && IsLive(m, hi) && hi in m.tables && r.localIndex !in m.relays
    requires m' == m.(relays := m.relays[r.localIndex := hi], tables := m.tables[hi := Stored(m.tables[hi], r)])
    ensures RelayIndexOk(m')
  {
    forall h, i {:trigger i in m'.tables[h].byIdx} | h in m'.tables && IsLive(m', h) && i in m'.tables[h].byIdx
      ensures i in m'.relays && m'.relays[i] == h
    {
      if !(h == hi && i == r.localIndex) { assert i in m.tables[h].byIdx; }
    }
  }

  // ---- Editing one hostinfo's relay tables ----

  datatype Edit =
    | SetState(addr: Addr, state: RelayState)
    | SetStateByIdx(idx: nat, state: RelayState)
    | CompleteByAddr(addr: Addr, remoteIdx: nat)
    | CompleteByIdx(idx: nat, remoteIdx: nat)
    | UseRelay(addr: Addr)                               // InsertRelayTo
    | ForgetRelay(addr: Addr)                            // DeleteRelay

  function Without(s: seq<Addr>, a: Addr): seq<Addr> {
    if s == [] then [] else if s[0] == a then s[1..] else [s[0]] + Without(s[1..], a)
  }

  function Edited(t: RelayTables, e: Edit): RelayTables {
    match e
    case SetState(a, s) => StateSet(t, a, s)
    case SetStateByIdx(i, s) => StateSetByIdx(t, i, s)
    case CompleteByAddr(a, r) => CompletedByAddr(t, a, r)
    case CompleteByIdx(i, r) => CompletedByIdx(t, i, r)
    case UseRelay(a) => if a in t.relays then t else t.(relays := t.relays + [a])
    case ForgetRelay(a) => t.(relays := Without(t.relays, a))
  }

  lemma EditedAgrees(t: RelayTables, e: Edit)
    requires Agree(t)
    ensures Agree(Edited(t, e)) && Edited(t, e).byIdx.Keys == t.byIdx.Keys
  {
    match e
    case SetState(a, s) => StateSetAgrees(t, a, s);
    case SetStateByIdx(i, s) => StateSetByIdxAgrees(t, i, s);
    case CompleteByAddr(a, r) => CompletedByAddrAgrees(t, a, r);
    case CompleteByIdx(i, r) => CompletedByIdxAgrees(t, i, r);
    case UseRelay(a) =>
    case ForgetRelay(a) =>
  }

  ghost function EditTables(m: Maps, hi: HostInfo, e: Edit): Maps
    requires hi in m.tables
  {
    m.(tables := m.tables[hi := Edited(m.tables[hi], e)])
  }

  lemma EditKeeps(m: Maps, ages: Ages, hi: HostInfo, e: Edit)
    requires Inv(m, ages) && hi in m.tables
    ensures Inv(EditTables(m, hi, e), ages)
  {
    var m' := EditTables(m, hi, e);
    assert Agree(m.tables[hi]);
    EditedAgrees(m.tables[hi], e);
    forall h {:trigger Agree(m'.tables[h])} | h in m'.tables ensures Agree(m'.tables[h]) {
      if h != hi { assert Agree(m.tables[h]); }
    }
    EditKeepsRelays(m, m', hi);
    assert People(m') == People(m);
  }

  lemma EditKeepsRelays(m: Maps, m': Maps, hi: HostInfo)
    requires RelayIndexOk(m) && hi in m.tables && hi in m'.tables && m' == m.(tables := m.tables[hi := m'.tables[hi]])
    requires m'.tables[hi].byIdx.Keys == m.tables[hi].byIdx.Keys
    ensures RelayIndexOk(m')
  {
    forall i | i in m'.relays ensures m'.relays[i] in m'.tables && i in m'.tables[m'.relays[i]].byIdx {
      assert i in m.tables[m.relays[i]].byIdx.Keys;
    }
    forall h, i {:trigger i in m'.tables[h].byIdx} | h in m'.tables && IsLive(m', h) && i in m'.tables[h].byIdx
      ensures i in m'.relays && m'.relays[i] == h
    {
      assert i in m'.tables[h].byIdx.Keys;
      assert i in m.tables[h].byIdx;
    }
  }

  // ---- Whole runs ----

  datatype HostOp =
    | NewHost(hi: HostInfo)
    | AddHost(hi: HostInfo)
    | DeleteHost(hi: HostInfo)
    | MakePrimary(hi: HostInfo)
    | NewRelay(hi: HostInfo, relay: Relay)
    | EditRelay(hi: HostInfo, edit: Edit)

  /** A new hostinfo is allocated with empty relay tables; only a hostinfo with a free index is
      added and only a live one deleted; AddRelay draws an index that is not in use. */
  ghost predicate CanStep(m: Maps, op: HostOp) {
    match op
    case NewHost(hi) => hi !in m.tables
    case AddHost(hi) => CanAdd(m, hi)
    case DeleteHost(hi) => IsLive(m, hi) && hi in m.tables && hi.vpnAddrs != []
    case MakePrimary(hi) => true
    case NewRelay(hi, r) => IsLive(m, hi) && hi in m.tables && r.localIndex !in m.relays
    case EditRelay(hi, e) => hi in m.tables
  }

  ghost function StepMaps(m: Maps, op: HostOp): Maps
    requires CanStep(m, op)
  {
    match op
    case NewHost(hi) => m.(tables := m.tables[hi := RelayTables([], map[], map[])])
    case AddHost(hi) => Add(m, hi)
    case DeleteHost(hi) => Delete(m, hi)
    case MakePrimary(hi) => Primary(m, hi)
    case NewRelay(hi, r) => AddRelay(m, hi, r)
    case EditRelay(hi, e) => EditTables(m, hi, e)
  }

  function StepAges(m: Maps, ages: Ages, op: HostOp): Ages {
    match op
    case AddHost(hi) => Refreshed(ages, hi)
    case MakePrimary(hi) => if IsLive(m, hi) then Refreshed(ages, hi) else ages
    case NewRelay(hi, _) => Refreshed(ages, hi)
    case _ => ages
  }

  lemma NewHostKeeps(m: Maps, ages: Ages, hi: HostInfo)
    requires Inv(m, ages) && hi !in m.tables
    ensures Inv(m.(tables := m.tables[hi := RelayTables([], map[], map[])]), ages)
  {
    var m' := m.(tables := m.tables[hi := RelayTables([], map[], map[])]);
    assert People(m') == People(m);
    forall h {:trigger Agree(m'.tables[h])} | h in m'.tables ensures Agree(m'.tables[h]) {
      if h != hi { assert Agree(m.tables[h]); }
    }
    forall h, i {:trigger i in m'.tables[h].byIdx} | h in m'.tables && IsLive(m', h) && i in m'.tables[h].byIdx
      ensures i in m'.relays && m'.relays[i] == h
    {
      assert i in m.tables[h].byIdx;
    }
  }

  lemma StepKeeps(m: Maps, ages: Ages, op: HostOp)
    requires Inv(m, ages) && CanStep(m, op)
    ensures Inv(StepMaps(m, op), StepAges(m, ages, op))
  {
    match op
    case NewHost(hi) => NewHostKeeps(m, ages, hi);
    case AddHost(hi) => AddKeeps(m, ages, hi);
    case DeleteHost(hi) => DeleteKeeps(m, ages, hi);
    case MakePrimary(hi) => if IsLive(m, hi) { PrimaryKeeps(m, ages, hi); }
    case NewRelay(hi, r) => AddRelayKeeps(m, ages, hi, r);
    case EditRelay(hi, e) => EditKeeps(m, ages, hi, e);
  }

  const EMPTY_MAPS: Maps := Maps(map[], map[], map[], map[], map[])

  /** A run from the empty host map. */
  ghost predicate Run(states: seq<(Maps, Ages)>, ops: seq<HostOp>) {
    && |states| == |ops| + 1 && states[0] == (EMPTY_MAPS, Ages(map[], 0))
    && forall k :: 0 <= k < |ops| ==>
         CanStep(states[k].0, ops[k])
         && states[k + 1] == (StepMaps(states[k].0, ops[k]), StepAges(states[k].0, states[k].1, ops[k]))
  }

  /** In every reachable state: each address has one list of exactly its live holders, newest
      first and at most five; each list member is registered under its own id; and the relay
      index map, the per-host tables and the live hostinfos agree. */
  lemma {:induction false} ReachableIsConsistent(states: seq<(Maps, Ages)>, ops: seq<HostOp>, k: nat)
    requires Run(states, ops) && k < |states|
    ensures Inv(states[k].0, states[k].1)
    decreases k
  {
    if k > 0 {
      ReachableIsConsistent(states, ops, k - 1);
      StepKeeps(states[k - 1].0, states[k - 1].1, ops[k - 1]);
    }
  }

  /** Every relay index in a hostinfo's table in `tables` is there in `tables'`. */
  ghost predicate IndexesStay(tables: map<HostInfo, RelayTables>, tables': map<HostInfo, RelayTables>) {
    forall h, i {:trigger i in tables[h].byIdx} ::
      h in tables && i in tables[h].byIdx ==> h in tables' && i in tables'[h].byIdx
  }

  lemma SameIndexesStay(tables: map<HostInfo, RelayTables>, tables': map<HostInfo, RelayTables>)
    requires SameIndexes(tables', tables)
    ensures IndexesStay(tables, tables')
  {
    forall h, i {:trigger i in tables[h].byIdx} | h in tables && i in tables[h].byIdx ensures i in tables'[h].byIdx {
      assert i in tables'[h].byIdx.Keys;
    }
  }

  lemma StepKeepsIndexes(m: Maps, ages: Ages, op: HostOp)
    requires Inv(m, ages) && CanStep(m, op)
    ensures IndexesStay(m.tables, StepMaps(m, op).tables)
  {
    match op
    case NewHost(hi) =>
    case AddHost(hi) => AddKeeps(m, ages, hi); SameIndexesStay(m.tables, Add(m, hi).tables);
    case DeleteHost(hi) => DeleteKeepsIndexes(m, hi); SameIndexesStay(m.tables, Delete(m, hi).tables);
    case MakePrimary(hi) =>
    case NewRelay(hi, r) => StoredAgreesAt(m, hi, r);
    case EditRelay(hi, e) =>
      assert Agree(m.tables[hi]);
      EditedAgrees(m.tables[hi], e);
      SameIndexesStay(m.tables, EditTables(m, hi, e).tables);
  }

  lemma StoredAgreesAt(m: Maps, hi: HostInfo, r: Relay)
    requires hi in m.tables
    ensures IndexesStay(m.tables, AddRelay(m, hi, r).tables)
  {
    forall h, i {:trigger i in m.tables[h].byIdx} | h in m.tables && i in m.tables[h].byIdx
      ensures i in AddRelay(m, hi, r).tables[h].byIdx
    {}
  }

  lemma NextKeepsIndexes(states: seq<(Maps, Ages)>, ops: seq<HostOp>, k: nat, m: Maps, m': Maps)
    requires Run(states, ops) && k < |ops| && m == states[k].0 && m' == states[k + 1].0
    ensures IndexesStay(m.tables, m'.tables)
  {
    ReachableIsConsistent(states, ops, k);
    StepKeepsIndexes(m, states[k].1, ops[k]);
  }

  lemma StayOn(tables: map<HostInfo, RelayTables>, tables1: map<HostInfo, RelayTables>, tables': map<HostInfo, RelayTables>)
    requires IndexesStay(tables, tables1) && IndexesStay(tables1, tables')
    ensures IndexesStay(tables, tables')
  {
    forall h, i {:trigger i in tables[h].byIdx} | h in tables && i in tables[h].byIdx ensures h in tables' && i in tables'[h].byIdx {
      assert i in tables1[h].byIdx;
    }
  }

  /** A relay index never leaves the table it was put in, not even when its hostinfo is deleted. */
  lemma {:induction false} RelayIndexesStay(states: seq<(Maps, Ages)>, ops: seq<HostOp>, j: nat, k: nat)
    requires Run(states, ops) && j <= k < |states|
    ensures IndexesStay(states[j].0.tables, states[k].0.tables)
    decreases k
  {
    if j < k {
      RelayIndexesStay(states, ops, j, k - 1);
      NextKeepsIndexes(states, ops, k - 1, states[k - 1].0, states[k].0);
      StayOn(states[j].0.tables, states[k - 1].0.tables, states[k].0.tables);
    }
  }

  /** Relays read at one time and the table of the hostinfo it names read at any later time: the entry is there,
      whatever happened to the hostinfo in between. */
  lemma ReadInTwoSteps(states: seq<(Maps, Ages)>, ops: seq<HostOp>, j: nat, k: nat, i: nat)
    requires Run(states, ops) && j <= k < |states| && i in states[j].0.relays
    ensures var h := states[j].0.relays[i]; h in states[k].0.tables && i in states[k].0.tables[h].byIdx
  {
    ReachableIsConsistent(states, ops, j);
    RelayIndexesStay(states, ops, j, k);
    assert i in states[j].0.tables[states[j].0.relays[i]].byIdx;
  }

  /** What the invariant says at one address and one index, spelled out. */
  lemma ReadOff(m: Maps, ages: Ages, a: Addr, h: HostInfo, i: nat)
    requires Inv(m, ages)
    ensures |ListOf(m.lists, a)| <= 5 && NoRepeats(ListOf(m.lists, a))
    ensures h in ListOf(m.lists, a) <==> IsLive(m, h) && a in h.vpnAddrs
    ensures h in m.tables && IsLive(m, h) ==> (i in m.relays && m.relays[i] == h <==> i in m.tables[h].byIdx)
    ensures i in m.relays ==> IsLive(m, m.relays[i]) && i in m.tables[m.relays[i]].byIdx
  {
    assert NewestFirst(ListOf(m.lists, a), ages.stamps);
    NewestFirstNoRepeats(ListOf(m.lists, a), ages.stamps);
    LiveIsValue(m, h);
  }
}
