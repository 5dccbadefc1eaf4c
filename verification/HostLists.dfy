/** What the host map promises: for every address one list of the hostinfos that hold it, most
    recent first. */
module HostLists {
  import opened RelayEntries

  /** A tunnel.  Its indexes and addresses are settled before it enters the host map. */
  class HostInfo {
    const vpnAddrs: seq<Addr>
    const localIndexId: nat
    const remoteIndexId: nat
    var relays: seq<Addr>
    var relayForByAddr: map<Addr, Relay>
    var relayForByIdx: map<nat, Relay>

    constructor (vpnAddrs: seq<Addr>, localIndexId: nat, remoteIndexId: nat)
      ensures this.vpnAddrs == vpnAddrs && this.localIndexId == localIndexId && this.remoteIndexId == remoteIndexId
      ensures relays == [] && relayForByAddr == map[] && relayForByIdx == map[]
    {
      this.vpnAddrs, this.localIndexId, this.remoteIndexId := vpnAddrs, localIndexId, remoteIndexId;
      relays, relayForByAddr, relayForByIdx := [], map[], map[];
    }
  }

  const MAX_HOSTINFOS_PER_VPN_IP: nat := 5

  type Lists = map<Addr, seq<HostInfo>>

  ghost predicate NoRepeats(list: seq<HostInfo>) {
    forall i, j :: 0 <= i < j < |list| ==> list[i] != list[j]
  }

  /** removeHostInfo: the list without hi, order kept. */
  function Remove(list: seq<HostInfo>, hi: HostInfo): seq<HostInfo> {
    if list == [] then []
    else if list[0] == hi then list[1..]
    else [list[0]] + Remove(list[1..], hi)
  }

  /** The list holding addr, empty if nobody does. */
  function ListOf(lists: Lists, addr: Addr): seq<HostInfo> {
    if addr in lists then lists[addr] else []
  }

  /** Writes the list for one address; an empty list is no entry. */
  function WithList(lists: Lists, addr: Addr, list: seq<HostInfo>): Lists {
    if list == [] then lists - {addr} else lists[addr := list]
  }

  lemma {:induction false} RemoveFacts(list: seq<HostInfo>, hi: HostInfo)
    requires NoRepeats(list)
    ensures NoRepeats(Remove(list, hi)) && hi !in Remove(list, hi)
    ensures forall x :: x in Remove(list, hi) <==> x in list && x != hi
    ensures |Remove(list, hi)| == |list| - (if hi in list then 1 else 0)
    decreases |list|
  {
    if list != [] {
      var rest := list[1..];
      RemoveFacts(rest, hi);
      assert list == [list[0]] + rest;
      assert list[0] !in rest;
      if list[0] != hi {
        var r := [list[0]] + Remove(rest, hi);
        forall i, j | 0 <= i < j < |r| ensures r[i] != r[j] {
          if i == 0 { assert r[j] in Remove(rest, hi); }
        }
      }
    }
  }

  lemma {:induction false} RemoveAbsent(list: seq<HostInfo>, hi: HostInfo)
    requires hi !in list
    ensures Remove(list, hi) == list
    decreases |list|
  {
    if list != [] { RemoveAbsent(list[1..], hi); }
  }

  // ---- The operations, on the lists ----

  /** hi moved, or added, to the front of the lists of the given addresses. */
  function Promoted(lists: Lists, addrs: seq<Addr>, hi: HostInfo): Lists
    decreases |addrs|
  {
    if addrs == [] then lists
    else
      var before := Promoted(lists, addrs[..|addrs| - 1], hi);
      var a := addrs[|addrs| - 1];
      WithList(before, a, [hi] + Remove(ListOf(before, a), hi))
  }

  /** hi taken out of the lists of the given addresses. */
  function Dropped(lists: Lists, addrs: seq<Addr>, hi: HostInfo): Lists
    decreases |addrs|
  {
    if addrs == [] then lists
    else
      var before := Dropped(lists, addrs[..|addrs| - 1], hi);
      var a := addrs[|addrs| - 1];
      WithList(before, a, Remove(ListOf(before, a), hi))
  }

  // ---- What the lists look like afterwards ----

  ghost predicate AllNoRepeats(lists: Lists) {
    forall a :: a in lists ==> lists[a] != [] && NoRepeats(lists[a])
  }

  lemma WithListAt(lists: Lists, b: Addr, list: seq<HostInfo>, a: Addr)
    ensures ListOf(WithList(lists, b, list), a) == if a == b then list else ListOf(lists, a)
    ensures a in WithList(lists, b, list) ==> WithList(lists, b, list)[a] == if a == b then list else lists[a]
    ensures a == b && a in WithList(lists, b, list) ==> list != []
  {}

  lemma {:induction false} DroppedAt(lists: Lists, addrs: seq<Addr>, hi: HostInfo, a: Addr)
    requires AllNoRepeats(lists)
    ensures ListOf(Dropped(lists, addrs, hi), a) == if a in addrs then Remove(ListOf(lists, a), hi) else ListOf(lists, a)
    ensures a in Dropped(lists, addrs, hi) ==> Dropped(lists, addrs, hi)[a] != []
    decreases |addrs|
  {
    if addrs != [] {
      var init, last := addrs[..|addrs| - 1], addrs[|addrs| - 1];
      assert addrs == init + [last];
      DroppedAt(lists, init, hi, a);
      var before := Dropped(lists, init, hi);
      WithListAt(before, last, Remove(ListOf(before, last), hi), a);
      RemoveFacts(ListOf(lists, a), hi);
      RemoveAbsent(Remove(ListOf(lists, a), hi), hi);
    }
  }

  lemma {:induction false} PromotedAt(lists: Lists, addrs: seq<Addr>, hi: HostInfo, a: Addr)
    requires AllNoRepeats(lists)
    ensures ListOf(Promoted(lists, addrs, hi), a)
         == if a in addrs then [hi] + Remove(ListOf(lists, a), hi) else ListOf(lists, a)
    ensures a in Promoted(lists, addrs, hi) ==> Promoted(lists, addrs, hi)[a] != []
    decreases |addrs|
  {
    if addrs != [] {
      var init, last := addrs[..|addrs| - 1], addrs[|addrs| - 1];
      assert addrs == init + [last];
      PromotedAt(lists, init, hi, a);
      var before := Promoted(lists, init, hi);
      WithListAt(before, last, [hi] + Remove(ListOf(before, last), hi), a);
      var l := [hi] + Remove(ListOf(lists, a), hi);
      assert Remove(l, hi) == l[1..];
    }
  }

  // ---- The invariant ----

  /** The lists together with the hostinfos registered in Indexes. */
  datatype Population = Population(lists: Lists, live: set<HostInfo>)

  /** When each hostinfo was last added or made primary. */
  type Stamps = map<HostInfo, nat>

  /** The newest first. */
  ghost predicate NewestFirst(list: seq<HostInfo>, stamps: Stamps) {
    && (forall i :: 0 <= i < |list| ==> list[i] in stamps)
    && (forall i, j :: 0 <= i < j < |list| ==> stamps[list[i]] > stamps[list[j]])
  }

  /** Who is in which list: the live hostinfos in those of their addresses, and hi in those it has
      reached. */
  ghost predicate Holders(p: Population, hi: HostInfo?, reached: seq<Addr>) {
    && (forall a, x :: x in ListOf(p.lists, a) ==> (x in p.live && a in x.vpnAddrs) || (x == hi && a in reached))
    && (forall a, x :: x in p.live && a in x.vpnAddrs ==> x in ListOf(p.lists, a))
    && (forall a :: a in reached ==> hi != null && hi in ListOf(p.lists, a))
  }

  /** While hi is being added and has reached the addresses in `reached`: the list of an address
      holds exactly the live hostinfos with that address, plus hi where it has been put, newest
      first and never more than the cap. */
  ghost predicate Keeps(p: Population, stamps: Stamps, hi: HostInfo?, reached: seq<Addr>) {
    && (forall a :: a in p.lists ==> p.lists[a] != [] && |p.lists[a]| <= MAX_HOSTINFOS_PER_VPN_IP)
    && (forall a :: NewestFirst(ListOf(p.lists, a), stamps))
    && Holders(p, hi, reached)
  }

  /** Between operations: the list of every address holds exactly the live hostinfos with that
      address. */
  ghost predicate Consistent(p: Population, stamps: Stamps) {
    Keeps(p, stamps, null, [])
  }

  lemma NewestFirstNoRepeats(list: seq<HostInfo>, stamps: Stamps)
    requires NewestFirst(list, stamps)
    ensures NoRepeats(list)
  {}

  lemma {:induction false} RemoveKeepsOrder(list: seq<HostInfo>, stamps: Stamps, hi: HostInfo)
    requires NewestFirst(list, stamps)
    ensures NewestFirst(Remove(list, hi), stamps)
    decreases |list|
  {
    if list != [] && list[0] != hi {
      var rest := list[1..];
      RemoveKeepsOrder(rest, stamps, hi);
      RemoveFacts(rest, hi);
      var r := [list[0]] + Remove(rest, hi);
      forall i, j | 0 <= i < j < |r| ensures stamps[r[i]] > stamps[r[j]] {
        assert r[j] in Remove(rest, hi);
        assert r[j] in rest;
      }
    }
  }

  /** unlockedDeleteHostInfo, on the lists. */
  function Deleted(p: Population, hi: HostInfo): Population {
    Population(Dropped(p.lists, hi.vpnAddrs, hi), p.live - {hi})
  }

  /** unlockedMakePrimary of a live hostinfo, on the lists. */
  function MadePrimary(p: Population, hi: HostInfo): Population {
    p.(lists := Promoted(p.lists, hi.vpnAddrs, hi))
  }

  lemma KeepsNoRepeats(p: Population, stamps: Stamps, hi: HostInfo?, reached: seq<Addr>)
    requires Keeps(p, stamps, hi, reached)
    ensures AllNoRepeats(p.lists)
  {
    forall a | a in p.lists ensures NoRepeats(p.lists[a]) {
      assert NewestFirst(ListOf(p.lists, a), stamps);
    }
  }

  /** Deleting another hostinfo in the middle of an insertion. */
  lemma DeletedKeeps(p: Population, stamps: Stamps, hi: HostInfo?, reached: seq<Addr>, out: HostInfo)
    requires AllNoRepeats(p.lists) && forall a :: NewestFirst(ListOf(p.lists, a), stamps)
    requires Holders(p, hi, reached)
    requires out in p.live && out != hi
    requires forall a :: a in p.lists && a !in out.vpnAddrs ==> |p.lists[a]| <= MAX_HOSTINFOS_PER_VPN_IP
    requires forall a :: a in p.lists ==> |p.lists[a]| <= MAX_HOSTINFOS_PER_VPN_IP + 1
    ensures Keeps(Deleted(p, out), stamps, hi, reached)
  {
    var q := Deleted(p, out);
    forall a ensures NewestFirst(ListOf(q.lists, a), stamps) {
      DroppedAt(p.lists, out.vpnAddrs, out, a);
      RemoveKeepsOrder(ListOf(p.lists, a), stamps, out);
    }
    forall a | a in q.lists ensures q.lists[a] != [] && |q.lists[a]| <= MAX_HOSTINFOS_PER_VPN_IP {
      DroppedAt(p.lists, out.vpnAddrs, out, a);
      RemoveFacts(ListOf(p.lists, a), out);
      if a in out.vpnAddrs { assert out in ListOf(p.lists, a); }
    }
    forall a ensures forall x :: x in ListOf(q.lists, a) <==> x in ListOf(p.lists, a) && x != out {
      DroppedAt(p.lists, out.vpnAddrs, out, a);
      RemoveFacts(ListOf(p.lists, a), out);
    }
  }

  /** As Keeps, except that the list of address a, with hi at its front, may be one too long. */
  ghost predicate KeepsBut(p: Population, stamps: Stamps, hi: HostInfo, reached: seq<Addr>, a: Addr) {
    && AllNoRepeats(p.lists) && (forall b :: NewestFirst(ListOf(p.lists, b), stamps))
    && Holders(p, hi, reached)
    && (forall b :: b in p.lists && b != a ==> |p.lists[b]| <= MAX_HOSTINFOS_PER_VPN_IP)
    && a in p.lists && p.lists[a][0] == hi && |p.lists[a]| <= MAX_HOSTINFOS_PER_VPN_IP + 1
  }

  lemma OldestRetired(p: Population, stamps: Stamps, hi: HostInfo, reached: seq<Addr>, a: Addr, out: HostInfo)
    requires KeepsBut(p, stamps, hi, reached, a) && hi !in p.live && |p.lists[a]| > 1
    requires out == p.lists[a][|p.lists[a]| - 1]
    ensures out in p.live && a in out.vpnAddrs && Keeps(Deleted(p, out), stamps, hi, reached)
  {
    assert NoRepeats(p.lists[a]);
    assert out != hi && out in ListOf(p.lists, a);
    DeletedKeeps(p, stamps, hi, reached, out);
  }

  /** hi put at the front of one more list, before the cap is looked at. */
  lemma Fronted(p: Population, stamps: Stamps, hi: HostInfo, reached: seq<Addr>, a: Addr)
    requires Keeps(p, stamps, hi, reached) && hi !in p.live && hi in stamps
    requires forall x :: x in p.live ==> x in stamps && stamps[x] < stamps[hi]
    ensures KeepsBut(p.(lists := Promoted(p.lists, [a], hi)), stamps, hi, reached + [a], a)
  {
    KeepsNoRepeats(p, stamps, hi, reached);
    var lists := Promoted(p.lists, [a], hi);
    FrontList(ListOf(p.lists, a), stamps, hi);
    forall b
      ensures ListOf(lists, b) == if b == a then [hi] + Remove(ListOf(p.lists, a), hi) else ListOf(p.lists, b)
      ensures b in lists ==> lists[b] != []
      ensures NewestFirst(ListOf(lists, b), stamps) && NoRepeats(ListOf(lists, b))
    {
      PromotedAt(p.lists, [a], hi, b);
      assert NewestFirst(ListOf(p.lists, b), stamps);
    }
    EnteredHolders(p, p.(lists := lists), hi, reached, a);
  }

  lemma FrontList(list: seq<HostInfo>, stamps: Stamps, hi: HostInfo)
    requires NewestFirst(list, stamps) && hi in stamps
    requires forall x :: x in list && x != hi ==> stamps[x] < stamps[hi]
    ensures NoRepeats(list) && NewestFirst([hi] + Remove(list, hi), stamps)
    ensures forall x :: x in Remove(list, hi) ==> x in list && x != hi
    ensures |[hi] + Remove(list, hi)| <= |list| + 1
  {
    RemoveFacts(list, hi);
    RemoveKeepsOrder(list, stamps, hi);
    var r := [hi] + Remove(list, hi);
    forall i, j | 0 <= i < j < |r| ensures stamps[r[i]] > stamps[r[j]] {
      assert r[j] in Remove(list, hi);
    }
  }

  lemma EnteredHolders(p: Population, p': Population, hi: HostInfo, reached: seq<Addr>, a: Addr)
    requires Holders(p, hi, reached) && p'.live == p.live
    requires NoRepeats(ListOf(p.lists, a))
    requires forall b :: ListOf(p'.lists, b) == if b == a then [hi] + Remove(ListOf(p.lists, a), hi) else ListOf(p.lists, b)
    ensures Holders(p', hi, reached + [a])
  {
    RemoveFacts(ListOf(p.lists, a), hi);
    forall x, b | x in ListOf(p'.lists, b)
      ensures (x in p.live && b in x.vpnAddrs) || (x == hi && b in reached + [a])
    {
      if b == a && x != hi { assert x in Remove(ListOf(p.lists, a), hi); }
    }
    forall x, b | x in p.live && b in x.vpnAddrs ensures x in ListOf(p'.lists, b) {
      assert x in ListOf(p.lists, b);
      if b == a && x != hi { assert x in Remove(ListOf(p.lists, a), hi); }
    }
  }

  lemma Restamped(p: Population, stamps: Stamps, hi: HostInfo, now: nat)
    requires Consistent(p, stamps) && hi !in p.live
    ensures Keeps(p, stamps[hi := now], hi, [])
  {
    forall a ensures NewestFirst(ListOf(p.lists, a), stamps[hi := now]) {
      assert NewestFirst(ListOf(p.lists, a), stamps);
      assert hi !in ListOf(p.lists, a);
    }
  }

  lemma JoinedHolders(q: Population, hi: HostInfo)
    requires Holders(q, hi, hi.vpnAddrs)
    ensures Holders(q.(live := q.live + {hi}), null, [])
  {}

  lemma DeletedIsConsistent(p: Population, stamps: Stamps, hi: HostInfo)
    requires Consistent(p, stamps) && hi in p.live
    ensures Consistent(Deleted(p, hi), stamps)
  {
    KeepsNoRepeats(p, stamps, null, []);
    DeletedKeeps(p, stamps, null, [], hi);
  }

  lemma MadePrimaryIsConsistent(p: Population, stamps: Stamps, hi: HostInfo, now: nat)
    requires Consistent(p, stamps) && hi in p.live
    requires forall x :: x in p.live ==> x in stamps && stamps[x] < now
    ensures Consistent(MadePrimary(p, hi), stamps[hi := now])
  {
    KeepsNoRepeats(p, stamps, null, []);
    var q, stamps' := MadePrimary(p, hi), stamps[hi := now];
    forall a
      ensures NewestFirst(ListOf(q.lists, a), stamps')
      ensures forall x :: x in ListOf(q.lists, a) <==> x in ListOf(p.lists, a)
      ensures a in q.lists ==> q.lists[a] != [] && |q.lists[a]| <= MAX_HOSTINFOS_PER_VPN_IP
    {
      MadePrimaryAt(p, stamps, hi, now, a);
    }
  }

  lemma MadePrimaryAt(p: Population, stamps: Stamps, hi: HostInfo, now: nat, a: Addr)
    requires AllNoRepeats(p.lists) && NewestFirst(ListOf(p.lists, a), stamps)
    requires hi in ListOf(p.lists, a) <==> a in hi.vpnAddrs
    requires forall x :: x in ListOf(p.lists, a) ==> x in stamps && stamps[x] < now
    requires |ListOf(p.lists, a)| <= MAX_HOSTINFOS_PER_VPN_IP
    ensures var q := MadePrimary(p, hi);
      && NewestFirst(ListOf(q.lists, a), stamps[hi := now])
      && (forall x :: x in ListOf(q.lists, a) <==> x in ListOf(p.lists, a))
      && (a in q.lists ==> q.lists[a] != [] && |q.lists[a]| <= MAX_HOSTINFOS_PER_VPN_IP)
  {
    PromotedAt(p.lists, hi.vpnAddrs, hi, a);
    PromotedList(ListOf(p.lists, a), stamps, hi, now);
  }

  lemma PromotedList(list: seq<HostInfo>, stamps: Stamps, hi: HostInfo, now: nat)
    requires NewestFirst(list, stamps) && forall x :: x in list ==> stamps[x] < now
    ensures NewestFirst([hi] + Remove(list, hi), stamps[hi := now])
    ensures hi !in list ==> NewestFirst(list, stamps[hi := now])
    ensures forall x :: x in [hi] + Remove(list, hi) <==> x == hi || x in list
    ensures hi in list ==> |[hi] + Remove(list, hi)| == |list|
  {
    RemoveFacts(list, hi);
    RemoveKeepsOrder(list, stamps, hi);
    var r := [hi] + Remove(list, hi);
    forall i, j | 0 <= i < j < |r| ensures stamps[hi := now][r[i]] > stamps[hi := now][r[j]] {
      assert r[j] in Remove(list, hi);
      if i > 0 { assert r[i] in Remove(list, hi); }
    }
  }

  /** Delete reports whether the peer is gone: no address of hi has a list left exactly when no
      other live hostinfo holds any address of hi. */
  lemma LastTunnel(p: Population, stamps: Stamps, hi: HostInfo)
    requires Consistent(p, stamps) && hi in p.live
    ensures (forall a :: a in hi.vpnAddrs ==> a !in Deleted(p, hi).lists)
       <==> (forall x, a :: x in p.live && x != hi && a in hi.vpnAddrs ==> a !in x.vpnAddrs)
  {
    DeletedIsConsistent(p, stamps, hi);
    var q := Deleted(p, hi);
    forall a | a in hi.vpnAddrs
      ensures a in q.lists <==> exists x :: x in p.live && x != hi && a in x.vpnAddrs
    {
      if a in q.lists {
        var x := q.lists[a][0];
        assert x in ListOf(q.lists, a);
        assert x in q.live && a in x.vpnAddrs;
        assert x in p.live && x != hi;
      }
      if x :| x in p.live && x != hi && a in x.vpnAddrs {
        assert x in ListOf(q.lists, a);
      }
    }
  }
}
