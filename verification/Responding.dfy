/** CheckAndComplete on the host map: the two refusals that look at the tunnels already there, and what they are for. */
module Responding {
  import opened HostLists
  import H = HostMapSpec
  import P = PendingSpec
  import M = MainTable

  /** What CheckAndComplete compares besides the indexes: the handshake packet a tunnel was made from, the time in it,
      and whether this node began the handshake. */
  datatype Shown = Shown(packet: seq<nat>, time: nat, initiator: bool)

  datatype Answer = Fine | AlreadySeen | ExistingHostInfo | LocalIndexCollision

  /** The main table's part of CheckAndComplete. */
  ghost function Check(m: H.Maps, shown: HostInfo -> Shown, hi: HostInfo): Answer
    requires hi.vpnAddrs != []
  {
    var list := ListOf(m.lists, hi.vpnAddrs[0]);
    if list != [] && exists h :: h in list && shown(h).packet == shown(hi).packet then AlreadySeen
    else if list != [] && shown(list[0]).time >= shown(hi).time && !shown(list[0]).initiator then ExistingHostInfo
    else if hi.localIndexId in m.indexes then LocalIndexCollision
    else Fine
  }

  /** The primary for the first address of hi was made by answering a handshake that is no older. */
  ghost predicate Outdated(m: H.Maps, shown: HostInfo -> Shown, hi: HostInfo)
    requires hi.vpnAddrs != []
  {
    hi.vpnAddrs[0] in m.lists && m.lists[hi.vpnAddrs[0]] != []
    && var primary := shown(m.lists[hi.vpnAddrs[0]][0]); !primary.initiator && shown(hi).time <= primary.time
  }

  /** A tunnel is refused as seen exactly when a live tunnel with its first address was made from the same packet; as too old
      exactly when it is not seen and the primary, made by answering, is no older; and otherwise only for its index. */
  lemma CheckIff(m: H.Maps, ages: H.Ages, shown: HostInfo -> Shown, hi: HostInfo)
    requires H.Inv(m, ages) && hi.vpnAddrs != []
    ensures var a := hi.vpnAddrs[0];
      && (Check(m, shown, hi) == AlreadySeen <==>
            exists h :: h in m.indexes.Values && a in h.vpnAddrs && shown(h).packet == shown(hi).packet)
      && (Check(m, shown, hi) == ExistingHostInfo <==> Check(m, shown, hi) != AlreadySeen && Outdated(m, shown, hi))
      && (Check(m, shown, hi) == Fine <==> Check(m, shown, hi) != AlreadySeen && !Outdated(m, shown, hi) && hi.localIndexId !in m.indexes)
  {
    var a := hi.vpnAddrs[0];
    forall h ensures h in ListOf(m.lists, a) <==> h in m.indexes.Values && a in h.vpnAddrs {
      H.ReadOff(m, ages, a, h, 0);
      H.LiveIsValue(m, h);
    }
    if h :| h in m.indexes.Values && a in h.vpnAddrs && shown(h).packet == shown(hi).packet {
      assert h in ListOf(m.lists, a);
    }
  }

  /** A run of the host map in which tunnels made by answering come in by CheckAndComplete. */
  ghost predicate Guarded(states: seq<(H.Maps, H.Ages)>, ops: seq<H.HostOp>, shown: HostInfo -> Shown) {
    && H.Run(states, ops)
    && forall k :: 0 <= k < |ops| && ops[k].AddHost? && !shown(ops[k].hi).initiator ==>
         ops[k].hi.vpnAddrs != [] && Check(states[k].0, shown, ops[k].hi) == Fine
  }

  ghost predicate Twins(shown: HostInfo -> Shown, h: HostInfo, h': HostInfo) {
    h != h' && h.vpnAddrs != [] && h'.vpnAddrs != [] && h.vpnAddrs[0] == h'.vpnAddrs[0]
    && !shown(h).initiator && !shown(h').initiator && shown(h).packet == shown(h').packet
  }

  ghost predicate NoTwins(m: H.Maps, shown: HostInfo -> Shown) {
    forall h, h' :: h in m.indexes.Values && h' in m.indexes.Values ==> !Twins(shown, h, h')
  }

  lemma AddKeepsNoTwins(m: H.Maps, ages: H.Ages, shown: HostInfo -> Shown, hi: HostInfo)
    requires H.Inv(m, ages) && H.CanAdd(m, hi) && NoTwins(m, shown)
    requires !shown(hi).initiator ==> Check(m, shown, hi) == Fine
    ensures NoTwins(H.Add(m, hi), shown)
  {
    H.AddKeeps(m, ages, hi);
    CheckIff(m, ages, shown, hi);
  }

  lemma StepKeepsNoTwins(m: H.Maps, ages: H.Ages, shown: HostInfo -> Shown, op: H.HostOp)
    requires H.Inv(m, ages) && H.CanStep(m, op) && NoTwins(m, shown)
    requires op.AddHost? && !shown(op.hi).initiator ==> op.hi.vpnAddrs != [] && Check(m, shown, op.hi) == Fine
    ensures NoTwins(H.StepMaps(m, op), shown)
  {
    match op
    case AddHost(hi) => AddKeepsNoTwins(m, ages, shown, hi);
    case DeleteHost(hi) => H.WithoutIndex(m.indexes, hi);
    case _ =>
  }

  /** In every such run a handshake packet that comes again does not make a second tunnel: no two live tunnels with the same
      first address were made by answering the same packet. */
  lemma {:induction false} RepeatsMakeNoTunnel(states: seq<(H.Maps, H.Ages)>, ops: seq<H.HostOp>, shown: HostInfo -> Shown, k: nat)
    requires Guarded(states, ops, shown) && k < |states|
    ensures NoTwins(states[k].0, shown)
    decreases k
  {
    if k > 0 {
      RepeatsMakeNoTunnel(states, ops, shown, k - 1);
      H.ReachableIsConsistent(states, ops, k - 1);
      StepKeepsNoTwins(states[k - 1].0, states[k - 1].1, shown, ops[k - 1]);
    }
  }

  /** CheckAndComplete on the host map is CheckAndComplete on the tables of the pending handshakes, with its refusals spelled out. */
  lemma CheckedShows(t: P.Tables, m: H.Maps, ages: H.Ages, names: map<HostInfo, P.Id>, id: P.Id, hi: HostInfo, shown: HostInfo -> Shown)
    returns (evicted: set<nat>)
    requires M.Shows(t, m, names) && H.Inv(m, ages) && hi.vpnAddrs != [] && hi in m.tables && m.tables[hi].byIdx == map[]
    requires id in t.infos && t.infos[id].localIndex == hi.localIndexId && hi in names && names[hi] == id
    ensures var answer := Check(m, shown, hi);
      var refused := answer == AlreadySeen || answer == ExistingHostInfo;
      var comes := answer == Fine && (hi.localIndexId in t.indexes ==> t.indexes[hi.localIndexId] == id);
      M.Shows(P.CheckAndComplete(t, id, refused, evicted), if comes then H.Add(m, hi) else m, names) && M.SharesAll(m, evicted, hi)
  {
    evicted := M.CheckAndCompleteShows(t, m, ages, names, id, hi);
    CheckIff(m, ages, shown, hi);
  }
}
