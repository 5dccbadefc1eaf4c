/** What the host map's operations bring about: who is found by a remote index, which relay entries a deletion
    marks, and what AddRelay and the edits leave in the tables. */
module HostMapEffects {
  import opened Options
  import opened RelayEntries
  import opened HostLists
  import opened HostMapSpec

  // ---- Remote indexes ----

  /** The hostinfo that was added last with this remote index. */
  function LastAdded(ops: seq<HostOp>, r: nat): Option<HostInfo>
    decreases |ops|
  {
    if ops == [] then None
    else
      var op := ops[|ops| - 1];
      if op.AddHost? && op.hi.remoteIndexId == r then Some(op.hi) else LastAdded(ops[..|ops| - 1], r)
  }

  /** RemoteIndexes holds r exactly when `last` is live, and names it. */
  ghost predicate NamesLast(m: Maps, r: nat, last: Option<HostInfo>) {
    && (r in m.remoteIndexes <==> last.Some? && IsLive(m, last.value))
    && (r in m.remoteIndexes ==> m.remoteIndexes[r] == last.value)
  }

  lemma AddNamesLast(m: Maps, ages: Ages, hi: HostInfo, r: nat, last: Option<HostInfo>)
    requires Inv(m, ages) && CanAdd(m, hi) && NamesLast(m, r, last) && (last.Some? ==> last.value.remoteIndexId == r)
    ensures NamesLast(Add(m, hi), r, if hi.remoteIndexId == r then Some(hi) else last)
  {
    AddKeeps(m, ages, hi);
    AddedNamesLast(m, Add(m, hi), hi, r, last);
  }

  lemma AddedNamesLast(m: Maps, m': Maps, hi: HostInfo, r: nat, last: Option<HostInfo>)
    requires IdsOk(m) && IdsOk(m') && NamesLast(m, r, last) && (last.Some? ==> last.value.remoteIndexId == r)
    requires IsLive(m', hi) && m'.indexes.Values <= m.indexes.Values + {hi}
    requires RemotesFollow(m.(remoteIndexes := m.remoteIndexes[hi.remoteIndexId := hi]), m')
    ensures NamesLast(m', r, if hi.remoteIndexId == r then Some(hi) else last)
  {
    LiveIsValue(m', hi);
    if last.Some? {
      LiveIsValue(m, last.value);
      LiveIsValue(m', last.value);
    }
  }

  lemma DeleteNamesLast(m: Maps, ages: Ages, hi: HostInfo, r: nat, last: Option<HostInfo>)
    requires Inv(m, ages) && IsLive(m, hi) && hi in m.tables && hi.vpnAddrs != [] && NamesLast(m, r, last)
    ensures NamesLast(Delete(m, hi), r, last)
  {
    DeleteKeeps(m, ages, hi);
    DeleteRemotes(m, hi);
    if last.Some? {
      LiveIsValue(m, last.value);
      LiveIsValue(Delete(m, hi), last.value);
    }
  }

  lemma StepNamesLast(m: Maps, ages: Ages, op: HostOp, r: nat, last: Option<HostInfo>)
    requires Inv(m, ages) && CanStep(m, op) && NamesLast(m, r, last) && (last.Some? ==> last.value.remoteIndexId == r)
    ensures NamesLast(StepMaps(m, op), r, if op.AddHost? && op.hi.remoteIndexId == r then Some(op.hi) else last)
  {
    match op
    case AddHost(hi) => AddNamesLast(m, ages, hi, r, last);
    case DeleteHost(hi) => DeleteNamesLast(m, ages, hi, r, last);
    case _ =>
  }

  lemma {:induction false} LastAddedId(ops: seq<HostOp>, r: nat)
    ensures LastAdded(ops, r).Some? ==> LastAdded(ops, r).value.remoteIndexId == r
    decreases |ops|
  {
    if ops != [] { LastAddedId(ops[..|ops| - 1], r); }
  }

  /** In every run a remote index leads exactly to the hostinfo added last with it, for as long as that one lives. */
  lemma {:induction false} RemoteIndexNamesLast(states: seq<(Maps, Ages)>, ops: seq<HostOp>, k: nat, r: nat)
    requires Run(states, ops) && k < |states|
    ensures NamesLast(states[k].0, r, LastAdded(ops[..k], r))
    decreases k
  {
    if k > 0 {
      RemoteIndexNamesLast(states, ops, k - 1, r);
      ReachableIsConsistent(states, ops, k - 1);
      LastAddedId(ops[..k - 1], r);
      assert ops[..k][..k - 1] == ops[..k - 1];
      StepNamesLast(states[k - 1].0, states[k - 1].1, ops[k - 1], r, LastAdded(ops[..k - 1], r));
    }
  }

  // ---- Who is retired ----

  /** x is the oldest of five tunnels that hold address a. */
  ghost predicate OldestOfFive(m: Maps, a: Addr, x: HostInfo) {
    |ListOf(m.lists, a)| == 5 && ListOf(m.lists, a)[4] == x
  }

  /** In two lists, newest first, of which one has only members of the other, nobody is further to the front in the longer one. */
  lemma {:induction false} FurtherBack(part: seq<HostInfo>, whole: seq<HostInfo>, stamps: Stamps, k: nat) returns (i: nat)
    requires NewestFirst(part, stamps) && NewestFirst(whole, stamps) && k < |part| && forall x :: x in part ==> x in whole
    ensures k <= i < |whole| && whole[i] == part[k]
  {
    assert part[k] in whole;
    i :| 0 <= i < |whole| && whole[i] == part[k];
    if k > 0 {
      var j := FurtherBack(part, whole, stamps, k - 1);
      assert stamps[part[k - 1]] > stamps[part[k]];
    }
  }

  lemma SameOldest(part: seq<HostInfo>, whole: seq<HostInfo>, stamps: Stamps)
    requires NewestFirst(part, stamps) && NewestFirst(whole, stamps) && forall x :: x in part ==> x in whole
    requires |part| >= 5 && |whole| <= 5
    ensures |whole| == 5 && |part| == 5 && whole[4] == part[4]
  {
    var last := FurtherBack(part, whole, stamps, |part| - 1);
  }

  /** Who goes has the index of the last of a list that has got too long. */
  lemma EvictedIsLast(m: Maps, a: Addr, hi: HostInfo, x: HostInfo)
    requires IdsOk(m) && x in m.indexes.Values && x !in Enter(m, a, hi).indexes.Values
    ensures var list := ListOf(Promoted(m.lists, [a], hi), a);
      |list| > 5 && list[|list| - 1].localIndexId == x.localIndexId && m.indexes[x.localIndexId] == x
  {
    var i :| i in m.indexes && m.indexes[i] == x;
    assert i !in Enter(m, a, hi).indexes;
  }

  /** The others on the list of an address are live, and held it before the add began. */
  lemma HeldBefore(p0: Population, p: Population, hi: HostInfo, reached: seq<Addr>, a: Addr, y: HostInfo)
    requires Holders(p0, hi, []) && Holders(p, hi, reached) && p.live <= p0.live && y in ListOf(p.lists, a) && y != hi
    ensures y in p.live && y in ListOf(p0.lists, a)
  {}

  lemma FrontedList(p: Population, stamps: Stamps, hi: HostInfo, reached: seq<Addr>, a: Addr)
    requires Keeps(p, stamps, hi, reached)
    ensures var part := Remove(ListOf(p.lists, a), hi);
      && ListOf(Promoted(p.lists, [a], hi), a) == [hi] + part && NewestFirst(part, stamps)
      && forall y :: y in part ==> y in ListOf(p.lists, a) && y != hi
  {
    KeepsNoRepeats(p, stamps, hi, reached);
    PromotedAt(p.lists, [a], hi, a);
    assert NewestFirst(ListOf(p.lists, a), stamps);
    RemoveKeepsOrder(ListOf(p.lists, a), stamps, hi);
    RemoveFacts(ListOf(p.lists, a), hi);
  }

  /** While hi is added to a host map that was m0: only the oldest of five goes. */
  lemma EnterEvictsOldest(m0: Maps, m: Maps, stamps: Stamps, hi: HostInfo, reached: seq<Addr>, a: Addr, x: HostInfo)
    requires Adding(m0, stamps, hi, []) && Adding(m, stamps, hi, reached) && m.indexes.Values <= m0.indexes.Values
    requires x in m.indexes.Values && x !in Enter(m, a, hi).indexes.Values
    ensures OldestOfFive(m0, a, x)
  {
    var part, whole := Remove(ListOf(m.lists, a), hi), ListOf(m0.lists, a);
    EvictedIsLast(m, a, hi, x);
    FrontedList(People(m), stamps, hi, reached, a);
    assert NewestFirst(ListOf(m0.lists, a), stamps) && |whole| <= 5;
    forall y | y in part ensures y in whole && y in m.indexes.Values {
      HeldBefore(People(m0), People(m), hi, reached, a, y);
    }
    var out := part[|part| - 1];
    assert out in part && out == x;
    SameOldest(part, whole, stamps);
  }

  lemma {:induction false} EnterAllEvictsOldest(m: Maps, stamps: Stamps, hi: HostInfo, addrs: seq<Addr>, x: HostInfo)
    requires Adding(m, stamps, hi, []) && x in m.indexes.Values && x !in EnterAll(m, addrs, hi).indexes.Values
    ensures exists a :: a in addrs && OldestOfFive(m, a, x)
    decreases |addrs|
  {
    var init, last := addrs[..|addrs| - 1], addrs[|addrs| - 1];
    EnterAllKeeps(m, stamps, hi, init);
    if x in EnterAll(m, init, hi).indexes.Values {
      EnterEvictsOldest(m, EnterAll(m, init, hi), stamps, hi, init, last, x);
      assert last in addrs;
    } else {
      EnterAllEvictsOldest(m, stamps, hi, init, x);
      var a :| a in init && OldestOfFive(m, a, x);
      assert a in addrs;
    }
  }

  /** An add retires a tunnel only when that is the oldest of five at one of the newcomer's addresses. */
  lemma AddEvictsOldest(m: Maps, ages: Ages, hi: HostInfo, x: HostInfo)
    requires Inv(m, ages) && CanAdd(m, hi) && x in m.indexes.Values && x !in Add(m, hi).indexes.Values
    ensures exists a :: a in hi.vpnAddrs && OldestOfFive(m, a, x)
  {
    var stamps := Refreshed(ages, hi).stamps;
    assert hi !in m.indexes.Values;
    Restamped(People(m), ages.stamps, hi, ages.clock);
    EnterAllKeeps(m, stamps, hi, hi.vpnAddrs);
    RegisterKeeps(EnterAll(m, hi.vpnAddrs, hi), ages, hi);
    EnterAllEvictsOldest(m, stamps, hi, hi.vpnAddrs, x);
  }

  // ---- Relay entries ----

  /** The entry of h for peer p. */
  ghost function EntryOf(m: Maps, h: HostInfo, p: Addr): Option<Relay> {
    if h in m.tables && p in m.tables[h].byAddr then Some(m.tables[h].byAddr[p]) else None
  }

  /** h is a next hop of hi: it holds the address of a relay that hi is reached by, or of a peer hi is forwarded for. */
  ghost predicate NextHop(m: Maps, hi: HostInfo, h: HostInfo)
    requires hi in m.tables
  {
    exists a :: h in ListOf(m.lists, a)
      && (a in m.tables[hi].relays
          || exists i :: i in m.tables[hi].byIdx && m.tables[hi].byIdx[i].kind.ForwardingType? && m.tables[hi].byIdx[i].peerAddr == a)
  }

  lemma OnListsIsNextHop(m: Maps, hi: HostInfo, h: HostInfo)
    requires hi in m.tables
    ensures h in OnLists(m.lists, HopAddrs(m.tables[hi])) <==> NextHop(m, hi, h)
  {
    var t := m.tables[hi];
    forall a ensures a in HopAddrs(t) <==> a in t.relays || exists i :: i in t.byIdx && t.byIdx[i].kind.ForwardingType? && t.byIdx[i].peerAddr == a {
      HopAddrIs(t, a);
    }
  }

  lemma HopAddrIs(t: RelayTables, a: Addr)
    ensures a in HopAddrs(t) <==> a in t.relays || exists i :: i in t.byIdx && t.byIdx[i].kind.ForwardingType? && t.byIdx[i].peerAddr == a
  {
    if i :| i in t.byIdx && t.byIdx[i].kind.ForwardingType? && t.byIdx[i].peerAddr == a {
      assert t.byIdx[i] in t.byIdx.Values;
    }
  }

  /** Deleting the last tunnel to a peer marks the entries for it at its next hops, and changes no other entry. */
  lemma DeleteMarks(m: Maps, ages: Ages, hi: HostInfo, h: HostInfo, p: Addr)
    requires Inv(m, ages) && IsLive(m, hi)
    ensures hi in m.tables && hi.vpnAddrs != []
    ensures var m' := Delete(m, hi);
      var e := EntryOf(m, h, p);
      EntryOf(m', h, p) == if e.Some? && p == hi.vpnAddrs[0] && Gone(m'.lists, hi) && NextHop(m.(lists := m'.lists), hi, h)
                           then Some(e.value.(state := Disestablished)) else e
  {
    DeleteKeeps(m, ages, hi);
    OnListsIsNextHop(m.(lists := Delete(m, hi).lists), hi, h);
    if h in m.tables {
      assert Agree(m.tables[h]);
    }
  }

  lemma {:induction false} PromotedFirst(lists: Lists, addrs: seq<Addr>, hi: HostInfo, a: Addr)
    requires a in addrs
    ensures ListOf(Promoted(lists, addrs, hi), a) != [] && ListOf(Promoted(lists, addrs, hi), a)[0] == hi
    decreases |addrs|
  {
    var init, last := addrs[..|addrs| - 1], addrs[|addrs| - 1];
    var before := Promoted(lists, init, hi);
    WithListAt(before, last, [hi] + Remove(ListOf(before, last), hi), a);
    if a != last {
      PromotedFirst(lists, init, hi, a);
    }
  }

  /** The new entry is found by its address and by its index, the other entries stay, and its hostinfo is primary. */
  lemma AddRelayEnters(m: Maps, ages: Ages, hi: HostInfo, r: Relay)
    requires Inv(m, ages) && IsLive(m, hi) && r.localIndex !in m.relays
    ensures hi in m.tables
    ensures var m' := AddRelay(m, hi, r);
      && EntryOf(m', hi, r.peerAddr) == Some(r) && r.localIndex in m'.tables[hi].byIdx && m'.tables[hi].byIdx[r.localIndex] == r
      && r.localIndex in m'.relays && m'.relays[r.localIndex] == hi
      && (forall h, p :: h != hi || p != r.peerAddr ==> EntryOf(m', h, p) == EntryOf(m, h, p))
      && forall a :: a in hi.vpnAddrs ==> ListOf(m'.lists, a) != [] && ListOf(m'.lists, a)[0] == hi
  {
    assert hi in m.indexes.Values && hi in m.tables;
    forall a | a in hi.vpnAddrs ensures ListOf(Promoted(m.lists, hi.vpnAddrs, hi), a) != [] && ListOf(Promoted(m.lists, hi.vpnAddrs, hi), a)[0] == hi {
      PromotedFirst(m.lists, hi.vpnAddrs, hi, a);
    }
  }

  // ---- Edits ----

  /** The entry an edit is about. */
  function Target(t: RelayTables, e: Edit): Option<Relay> {
    match e
    case SetState(a, _) => if a in t.byAddr then Some(t.byAddr[a]) else None
    case SetStateByIdx(i, _) => if i in t.byIdx then Some(t.byIdx[i]) else None
    case CompleteByAddr(a, _) => if a in t.byAddr then Some(t.byAddr[a]) else None
    case CompleteByIdx(i, _) => if i in t.byIdx then Some(t.byIdx[i]) else None
    case UseRelay(_) => None
    case ForgetRelay(_) => None
  }

  /** The new version of an entry: a completion brings the far end's index, every edit a state. */
  predicate IsVersion(r: Relay, r': Relay, e: Edit) {
    && r'.kind == r.kind && r'.localIndex == r.localIndex && r'.peerAddr == r.peerAddr
    && (if e.CompleteByAddr? || e.CompleteByIdx? then r'.remoteIndex == e.remoteIdx && r'.state == Established
        else r'.remoteIndex == r.remoteIndex && ((e.SetState? || e.SetStateByIdx?) ==> r'.state == e.state))
  }

  /** An edit puts one new version in place, in both tables at once, and leaves every other entry alone. */
  lemma EditPutsVersion(t: RelayTables, e: Edit, p: Addr, i: nat)
    requires Agree(t)
    ensures var t' := Edited(t, e);
      match Target(t, e)
      case None => t'.byAddr == t.byAddr && t'.byIdx == t.byIdx
      case Some(r) =>
        && r.localIndex in t'.byIdx && r.peerAddr in t'.byAddr && t'.byAddr[r.peerAddr] == t'.byIdx[r.localIndex]
        && IsVersion(r, t'.byIdx[r.localIndex], e)
        && (p != r.peerAddr ==> (p in t'.byAddr <==> p in t.byAddr) && (p in t.byAddr ==> t'.byAddr[p] == t.byAddr[p]))
        && (i != r.localIndex ==> (i in t'.byIdx <==> i in t.byIdx) && (i in t.byIdx ==> t'.byIdx[i] == t.byIdx[i]))
  {}

  predicate Once(s: seq<Addr>) {
    forall i, j :: 0 <= i < j < |s| ==> s[i] != s[j]
  }

  lemma {:induction false} WithoutIs(s: seq<Addr>, a: Addr, x: Addr)
    requires Once(s)
    ensures Once(Without(s, a)) && (x in Without(s, a) <==> x in s && x != a)
  {
    if s != [] && s[0] != a {
      WithoutIs(s[1..], a, x);
      forall k | 0 <= k < |Without(s[1..], a)| ensures Without(s[1..], a)[k] != s[0] {
        WithoutIs(s[1..], a, Without(s[1..], a)[k]);
      }
    }
  }

  /** The relays a host is reached by stay a list without repetition, to which exactly the one named is added or
      from which it is taken. */
  lemma EditedRelays(t: RelayTables, e: Edit, x: Addr)
    requires Once(t.relays)
    ensures var t' := Edited(t, e);
      && Once(t'.relays)
      && (x in t'.relays <==> match e
                              case UseRelay(a) => x == a || x in t.relays
                              case ForgetRelay(a) => x != a && x in t.relays
                              case _ => x in t.relays)
  {
    if e.ForgetRelay? { WithoutIs(t.relays, e.addr, x); }
  }
}
