/**
  * The main table of the pending handshakes is the index map of the host map.
  *
  * The runs of pending handshakes let any set of tunnels be evicted when one is added. Here every addition
  * to the host map and every deletion from it is shown to be one of those steps, with the hostinfos that
  * share an address with the newcomer as the only ones evicted.
  */
module MainTable {
  import opened HostLists
  import P = PendingSpec
  import H = HostMapSpec

  /** t.main is the index map of m, under the names of the hostinfos. */
  ghost predicate Shows(t: P.Tables, m: H.Maps, names: map<HostInfo, P.Id>) {
    && t.main.Keys == m.indexes.Keys
    && forall i {:trigger t.main[i]} :: i in t.main ==> m.indexes[i] in names && t.main[i] == names[m.indexes[i]]
  }

  /** Every tunnel at these indexes shares an address with hi. */
  ghost predicate SharesAll(m: H.Maps, evicted: set<nat>, hi: HostInfo) {
    forall i :: i in evicted ==> i in m.indexes && exists a :: a in hi.vpnAddrs && a in m.indexes[i].vpnAddrs
  }

  /** unlockedAddHostInfo is an addition to the main table. */
  lemma AddShows(t: P.Tables, m: H.Maps, ages: H.Ages, names: map<HostInfo, P.Id>, id: P.Id, hi: HostInfo) returns (evicted: set<nat>)
    requires Shows(t, m, names) && H.Inv(m, ages) && H.CanAdd(m, hi)
    requires id in t.infos && t.infos[id].localIndex == hi.localIndexId && hi in names && names[hi] == id
    ensures Shows(P.AddMain(t, id, evicted), H.Add(m, hi), names) && SharesAll(m, evicted, hi)
  {
    evicted := H.AddIndexes(m, hi);
    MainAdded(t, m, names, id, hi, evicted, H.Add(m, hi));
    assert SharesAll(m, evicted, hi) by {
      H.AddKeeps(m, ages, hi);
      EvictedShare(m, ages, hi, H.Add(m, hi), evicted);
    }
  }

  lemma MainAdded(t: P.Tables, m: H.Maps, names: map<HostInfo, P.Id>, id: P.Id, hi: HostInfo, evicted: set<nat>, m': H.Maps)
    requires Shows(t, m, names) && m'.indexes == (m.indexes - evicted)[hi.localIndexId := hi]
    requires id in t.infos && t.infos[id].localIndex == hi.localIndexId && hi in names && names[hi] == id
    ensures Shows(P.AddMain(t, id, evicted), m', names)
  {
    var t' := P.AddMain(t, id, evicted);
    forall i {:trigger t'.main[i]} | i in t'.main ensures m'.indexes[i] in names && t'.main[i] == names[m'.indexes[i]] {
      if i != hi.localIndexId { assert t.main[i] == names[m.indexes[i]]; }
    }
  }

  lemma EvictedShare(m: H.Maps, ages: H.Ages, hi: HostInfo, m': H.Maps, evicted: set<nat>)
    requires H.Inv(m, ages) && H.CanAdd(m, hi) && evicted <= m.indexes.Keys
    requires m'.indexes == (m.indexes - evicted)[hi.localIndexId := hi]
    requires forall x :: x in m.indexes.Values && x !in m'.indexes.Values ==> exists a :: a in hi.vpnAddrs && a in x.vpnAddrs
    ensures SharesAll(m, evicted, hi)
  {
    forall i | i in evicted ensures exists a :: a in hi.vpnAddrs && a in m.indexes[i].vpnAddrs {
      var x := m.indexes[i];
      assert x in m.indexes.Values && x.localIndexId == i;
      forall k | k in m'.indexes ensures m'.indexes[k] != x {
        if k != hi.localIndexId { assert m.indexes[k].localIndexId == k; }
      }
    }
  }

  /** Complete, with unlockedAddHostInfo on the host map: the pending entry goes and the tunnel comes. */
  lemma CompleteShows(t: P.Tables, m: H.Maps, ages: H.Ages, names: map<HostInfo, P.Id>, id: P.Id, hi: HostInfo) returns (evicted: set<nat>)
    requires Shows(t, m, names) && H.Inv(m, ages) && H.CanAdd(m, hi)
    requires id in t.infos && t.infos[id].localIndex == hi.localIndexId && hi in names && names[hi] == id
    ensures Shows(P.Complete(t, id, hi.vpnAddrs, evicted), H.Add(m, hi), names) && SharesAll(m, evicted, hi)
  {
    var t1 := P.Delete(t.(infos := t.infos[id := t.infos[id].(vpnAddrs := hi.vpnAddrs)]), id);
    assert Shows(t1, m, names);
    evicted := AddShows(t1, m, ages, names, id, hi);
  }

  /** CheckAndComplete that is not refused, with unlockedAddHostInfo on the host map: the tunnel comes exactly when
      neither the host map nor another pending handshake holds its index. */
  lemma CheckAndCompleteShows(t: P.Tables, m: H.Maps, ages: H.Ages, names: map<HostInfo, P.Id>, id: P.Id, hi: HostInfo) returns (evicted: set<nat>)
    requires Shows(t, m, names) && H.Inv(m, ages) && hi.vpnAddrs != [] && hi in m.tables && m.tables[hi].byIdx == map[]
    requires id in t.infos && t.infos[id].localIndex == hi.localIndexId && hi in names && names[hi] == id
    ensures var free := hi.localIndexId !in m.indexes && (hi.localIndexId in t.indexes ==> t.indexes[hi.localIndexId] == id);
      && Shows(P.CheckAndComplete(t, id, false, evicted), if free then H.Add(m, hi) else m, names)
      && SharesAll(m, evicted, hi)
  {
    evicted := {};
    if hi.localIndexId !in m.indexes && (hi.localIndexId in t.indexes ==> t.indexes[hi.localIndexId] == id) {
      evicted := AddShows(t, m, ages, names, id, hi);
    }
  }

  /** unlockedDeleteHostInfo of a live hostinfo closes its index. */
  lemma DeleteShows(t: P.Tables, m: H.Maps, ages: H.Ages, names: map<HostInfo, P.Id>, hi: HostInfo)
    requires Shows(t, m, names) && H.Inv(m, ages) && H.IsLive(m, hi)
    ensures hi in m.tables && hi.vpnAddrs != [] && Shows(P.Closed(t, hi.localIndexId), H.Delete(m, hi), names)
  {
    H.DeleteKeeps(m, ages, hi);
  }
}
