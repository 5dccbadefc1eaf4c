/** The tables of pending handshakes on values, next to the index map of the main host map. */
module PendingSpec {
  import opened Options
  import opened RelayEntries

  /** Names a hostinfo; a pending one is also its HandshakeHostInfo. */
  type Id = nat

  /** What is tracked of a hostinfo: its addresses, its local index once it has one, and for a
      pending one the attempts made and whether its first packet is built.  Whether it is pending
      is recorded to speak about it. */
  datatype Info = Info(vpnAddrs: seq<Addr>, localIndex: nat, counter: nat, ready: bool, pending: bool)

  /** vpnIps and indexes are the pending tables, main is the index map of the main host map. */
  datatype Tables = Tables(vpnIps: map<Addr, Id>, indexes: map<nat, Id>, main: map<nat, Id>, infos: map<Id, Info>)

  const EMPTY: Tables := Tables(map[], map[], map[], map[])

  // ---- The operations ----

  /** unlockedDeleteHostInfo */
  function Delete(t: Tables, id: Id): Tables
    requires id in t.infos
  {
    t.(vpnIps := map a | a in t.vpnIps && !(a in t.infos[id].vpnAddrs && t.vpnIps[a] == id) :: t.vpnIps[a],
       indexes := t.indexes - {t.infos[id].localIndex},
       infos := t.infos[id := t.infos[id].(pending := false)])
  }

  /** StartHandshake for an address that is not pending; `id` names the hostinfo it makes. */
  function Started(t: Tables, a: Addr, id: Id): Tables {
    t.(vpnIps := t.vpnIps[a := id], infos := t.infos[id := Info([a], 0, 0, false, true)])
  }

  /** Whether allocateIndex settles on this index. */
  predicate Free(t: Tables, draw: Option<nat>) {
    draw.Some? && draw.value != 0 && draw.value !in t.indexes && draw.value !in t.main
  }

  /** allocateIndex with a free index, for a packet that is then built. */
  function Allocated(t: Tables, id: Id, index: nat): Tables
    requires id in t.infos
  {
    t.(infos := t.infos[id := t.infos[id].(localIndex := index, ready := true)], indexes := t.indexes[index := id])
  }

  function Counted(t: Tables, id: Id): Tables
    requires id in t.infos
  {
    t.(infos := t.infos[id := t.infos[id].(counter := t.infos[id].counter + 1)])
  }

  /** unlockedAddHostInfo on the index map: the newcomer comes in, and some may have to go. */
  function AddMain(t: Tables, id: Id, evicted: set<nat>): Tables
    requires id in t.infos
  {
    t.(main := (t.main - evicted)[t.infos[id].localIndex := id])
  }

  /** Complete, with the addresses of the peer's certificate. */
  function Complete(t: Tables, id: Id, vpnAddrs: seq<Addr>, evicted: set<nat>): Tables
    requires id in t.infos
  {
    AddMain(Delete(t.(infos := t.infos[id := t.infos[id].(vpnAddrs := vpnAddrs)]), id), id, evicted)
  }

  /** A responder's hostinfo is made; its index has not been checked against anything yet. */
  function Made(t: Tables, id: Id, vpnAddrs: seq<Addr>, index: nat): Tables {
    t.(infos := t.infos[id := Info(vpnAddrs, index, 0, false, false)])
  }

  /** CheckAndComplete for a responder's hostinfo.  `refused` stands for the two answers that
      depend on the tunnels already there. */
  function CheckAndComplete(t: Tables, id: Id, refused: bool, evicted: set<nat>): Tables
    requires id in t.infos
  {
    var i := t.infos[id].localIndex;
    if refused || i in t.main || (i in t.indexes && t.indexes[i] != id) then t else AddMain(t, id, evicted)
  }

  /** A live tunnel is deleted from the main host map. */
  function Closed(t: Tables, i: nat): Tables {
    t.(main := t.main - {i})
  }

  /** handleRecvError on a live tunnel, the two deletions as one step. */
  function RecvError(t: Tables, i: nat): Tables
    requires i in t.main ==> t.main[i] in t.infos
  {
    if i in t.main then Delete(Closed(t, i), t.main[i]) else t
  }

  // ---- The invariant ----

  /** A pending entry sits under its one address, and has an index exactly when its packet is built. */
  predicate PendingAt(t: Tables, a: Addr) {
    a in t.vpnIps ==>
      var id := t.vpnIps[a];
      && id in t.infos && t.infos[id].pending && t.infos[id].vpnAddrs == [a]
      && if t.infos[id].ready then t.infos[id].localIndex in t.indexes && t.indexes[t.infos[id].localIndex] == id
         else t.infos[id].localIndex == 0
  }

  /** A pending index leads to the pending entry whose index it is. */
  predicate IndexAt(t: Tables, i: nat) {
    i in t.indexes ==>
      var id := t.indexes[i];
      && i != 0 && id in t.infos && t.infos[id].localIndex == i && t.infos[id].ready && t.infos[id].pending
      && |t.infos[id].vpnAddrs| == 1 && t.infos[id].vpnAddrs[0] in t.vpnIps && t.vpnIps[t.infos[id].vpnAddrs[0]] == id
  }

  /** The one index space: an index in use is not pending, nor is the hostinfo it belongs to. */
  predicate MainAt(t: Tables, i: nat) {
    i in t.main ==>
      i != 0 && i !in t.indexes && t.main[i] in t.infos && t.infos[t.main[i]].localIndex == i && !t.infos[t.main[i]].pending
  }

  ghost predicate Indexed(t: Tables) {
    && (forall a {:trigger PendingAt(t, a)} :: PendingAt(t, a))
    && (forall i {:trigger IndexAt(t, i)} :: IndexAt(t, i))
    && (forall i {:trigger MainAt(t, i)} :: MainAt(t, i))
  }

  predicate IsPending(t: Tables, id: Id) {
    id in t.infos && |t.infos[id].vpnAddrs| == 1 && t.infos[id].vpnAddrs[0] in t.vpnIps && t.vpnIps[t.infos[id].vpnAddrs[0]] == id
  }

  // ---- Every operation keeps it ----

  lemma StartedOk(t: Tables, a: Addr, id: Id)
    requires Indexed(t) && a !in t.vpnIps && id !in t.infos
    ensures Indexed(Started(t, a, id))
  {
    var t' := Started(t, a, id);
    forall b ensures PendingAt(t', b) { assert PendingAt(t, b); }
    forall i ensures IndexAt(t', i) { assert IndexAt(t, i); }
    forall i ensures MainAt(t', i) { assert MainAt(t, i); }
  }

  lemma CountedOk(t: Tables, id: Id)
    requires Indexed(t) && id in t.infos
    ensures Indexed(Counted(t, id))
  {
    var t' := Counted(t, id);
    forall b ensures PendingAt(t', b) { assert PendingAt(t, b); }
    forall i ensures IndexAt(t', i) { assert IndexAt(t, i); }
    forall i ensures MainAt(t', i) { assert MainAt(t, i); }
  }

  lemma AllocatedOk(t: Tables, id: Id, index: nat)
    requires Indexed(t) && IsPending(t, id) && !t.infos[id].ready && Free(t, Some(index))
    ensures Indexed(Allocated(t, id, index))
  {
    var t' := Allocated(t, id, index);
    var a0 := t.infos[id].vpnAddrs[0];
    assert PendingAt(t, a0);
    forall b ensures PendingAt(t', b) { assert PendingAt(t, b); }
    forall i ensures IndexAt(t', i) { assert IndexAt(t, i); }
    forall i ensures MainAt(t', i) { assert MainAt(t, i); }
  }

  /** Deleting a pending entry takes it out of both tables and touches nothing else. */
  lemma DeleteOk(t: Tables, id: Id)
    requires Indexed(t) && IsPending(t, id)
    ensures Indexed(Delete(t, id)) && Delete(t, id).vpnIps == t.vpnIps - {t.infos[id].vpnAddrs[0]}
    ensures id !in Delete(t, id).vpnIps.Values && id !in Delete(t, id).indexes.Values
  {
    assert t.infos[id := t.infos[id].(vpnAddrs := t.infos[id].vpnAddrs)] == t.infos;
    DeletedOk(t, id, t.infos[id].vpnAddrs);
  }

  /** The same when the entry has meanwhile got the addresses of the peer's certificate, as long as
      the address it was waiting for is one of them. */
  lemma DeletedOk(t: Tables, id: Id, vpnAddrs: seq<Addr>)
    requires Indexed(t) && IsPending(t, id) && t.infos[id].vpnAddrs[0] in vpnAddrs
    ensures var t' := Delete(t.(infos := t.infos[id := t.infos[id].(vpnAddrs := vpnAddrs)]), id);
      && Indexed(t') && t'.vpnIps == t.vpnIps - {t.infos[id].vpnAddrs[0]}
      && id !in t'.vpnIps.Values && id !in t'.indexes.Values
  {
    var a0 := t.infos[id].vpnAddrs[0];
    var t' := Delete(t.(infos := t.infos[id := t.infos[id].(vpnAddrs := vpnAddrs)]), id);
    assert PendingAt(t, a0);
    forall b ensures b in t'.vpnIps <==> b in t.vpnIps && b != a0 { assert PendingAt(t, b); }
    assert t'.vpnIps == t.vpnIps - {a0};
    forall b ensures PendingAt(t', b) {
      assert PendingAt(t, b);
      if b in t'.vpnIps { assert IndexAt(t, t.infos[t.vpnIps[b]].localIndex); }
    }
    forall i ensures IndexAt(t', i) && (i in t'.indexes ==> t'.indexes[i] != id) { assert IndexAt(t, i); }
    forall i ensures MainAt(t', i) { assert MainAt(t, i); }
    forall b | b in t'.vpnIps ensures t'.vpnIps[b] != id { assert PendingAt(t, b); }
  }

  lemma AddMainOk(t: Tables, id: Id, evicted: set<nat>)
    requires Indexed(t) && id in t.infos && !t.infos[id].pending && t.infos[id].localIndex != 0 && t.infos[id].localIndex !in t.indexes
    ensures Indexed(AddMain(t, id, evicted))
  {
    var t' := AddMain(t, id, evicted);
    forall b ensures PendingAt(t', b) { assert PendingAt(t, b); }
    forall i ensures IndexAt(t', i) { assert IndexAt(t, i); }
    forall i ensures MainAt(t', i) { assert MainAt(t, i); }
  }

  /** Complete moves one index from the pending to the main table: nothing there is overwritten, and
      no pending table names the hostinfo any more. */
  lemma CompleteOk(t: Tables, id: Id, vpnAddrs: seq<Addr>, evicted: set<nat>)
    requires Indexed(t) && IsPending(t, id) && t.infos[id].ready && t.infos[id].vpnAddrs[0] in vpnAddrs
    ensures var t' := Complete(t, id, vpnAddrs, evicted);
      && Indexed(t')
      && t.infos[id].localIndex !in t.main && t.infos[id].localIndex in t'.main && t'.main[t.infos[id].localIndex] == id
      && id !in t'.vpnIps.Values && id !in t'.indexes.Values
      && t'.vpnIps == t.vpnIps - {t.infos[id].vpnAddrs[0]} && t'.indexes == t.indexes - {t.infos[id].localIndex}
      && (forall j :: j != t.infos[id].localIndex ==> (j in t'.main <==> j in t.main && j !in evicted))
      && (forall j :: j != t.infos[id].localIndex && j in t'.main ==> t'.main[j] == t.main[j])
  {
    var i := t.infos[id].localIndex;
    assert PendingAt(t, t.infos[id].vpnAddrs[0]) && IndexAt(t, i) && MainAt(t, i);
    DeletedOk(t, id, vpnAddrs);
    AddMainOk(Delete(t.(infos := t.infos[id := t.infos[id].(vpnAddrs := vpnAddrs)]), id), id, evicted);
  }

  lemma MadeOk(t: Tables, id: Id, vpnAddrs: seq<Addr>, index: nat)
    requires Indexed(t) && id !in t.infos
    ensures Indexed(Made(t, id, vpnAddrs, index))
  {
    var t' := Made(t, id, vpnAddrs, index);
    forall b ensures PendingAt(t', b) { assert PendingAt(t, b); }
    forall i ensures IndexAt(t', i) { assert IndexAt(t, i); }
    forall i ensures MainAt(t', i) { assert MainAt(t, i); }
  }

  /** From t to t' the tunnel `id` has come into the main table at index i, those at `evicted` have gone, and
      nothing else has changed. */
  ghost predicate Joined(t: Tables, t': Tables, i: nat, id: Id, evicted: set<nat>) {
    && t'.vpnIps == t.vpnIps && t'.indexes == t.indexes && t'.infos == t.infos
    && i in t'.main && t'.main[i] == id
    && (forall j :: j != i ==> (j in t'.main <==> j in t.main && j !in evicted))
    && (forall j :: j != i && j in t'.main ==> t'.main[j] == t.main[j])
  }

  /** CheckAndComplete enters the tunnel exactly when it is not refused and nobody holds its index, and otherwise
      changes nothing. */
  lemma CheckAndCompleteOk(t: Tables, id: Id, refused: bool, evicted: set<nat>)
    requires Indexed(t) && id in t.infos && !t.infos[id].pending && t.infos[id].localIndex != 0
    ensures Indexed(CheckAndComplete(t, id, refused, evicted))
    ensures var i := t.infos[id].localIndex;
      var t' := CheckAndComplete(t, id, refused, evicted);
      if !refused && i !in t.main && i !in t.indexes then Joined(t, t', i, id, evicted) else t' == t
  {
    assert IndexAt(t, t.infos[id].localIndex);
    if t.infos[id].localIndex !in t.indexes {
      AddMainOk(t, id, evicted);
    }
  }

  lemma ClosedOk(t: Tables, i: nat)
    requires Indexed(t)
    ensures Indexed(Closed(t, i))
  {
    var t' := Closed(t, i);
    forall b ensures PendingAt(t', b) { assert PendingAt(t, b); }
    forall j ensures IndexAt(t', j) { assert IndexAt(t, j); }
    forall j ensures MainAt(t', j) { assert MainAt(t, j); }
  }

  /** A receive error for a live tunnel leaves the pending tables alone. */
  lemma RecvErrorOk(t: Tables, i: nat)
    requires Indexed(t)
    ensures (i in t.main ==> t.main[i] in t.infos)
    ensures var t' := RecvError(t, i);
      Indexed(t') && t'.vpnIps == t.vpnIps && t'.indexes == t.indexes && t'.main == t.main - {i} && t'.infos == t.infos
  {
    assert MainAt(t, i);
    if i in t.main {
      var id, t1 := t.main[i], Closed(t, i);
      ClosedOk(t, i);
      forall a | a in t.vpnIps ensures t.vpnIps[a] != id { assert PendingAt(t, a); }
      assert Delete(t1, id).vpnIps == t.vpnIps && Delete(t1, id).indexes == t.indexes;
      assert Delete(t1, id).infos == t.infos;
    }
  }
}
