/** handshake_manager.go: the pending tables as they are changed in place. */
module HandshakeManager {
  import opened Options
  import opened RelayEntries
  import opened TimerSpec
  import opened TimerWheel
  import opened PendingSpec
  import Runs = PendingRuns

  const INDEX_DRAWS: nat := 32

  /** What allocateIndex settles on out of its draws: the first index nobody holds, unless a draw
      fails before. */
  function Settled(t: Tables, draws: seq<Option<nat>>): Option<nat> {
    if draws == [] || draws[0].None? then None
    else if draws[0].value !in t.indexes && draws[0].value !in t.main then draws[0]
    else Settled(t, draws[1..])
  }

  class HandshakeManager {
    const config: Runs.Config
    var vpnIps: map<Addr, Id>
    var indexes: map<nat, Id>
    var infos: map<Id, Info>
    var mainIndexes: map<nat, Id>
    const timer: TimerWheel<Addr>

    constructor (config: Runs.Config)
      requires config.tryInterval > 0
      ensures this.config == config && Valid() && View() == EMPTY && timer.g.timers == Runs.Fresh(config).timers
    {
      this.config := config;
      vpnIps, indexes, infos, mainIndexes := map[], map[], map[], map[];
      Runs.LongestIsNat(config);
      timer := new TimerWheel(config.tryInterval, Runs.Longest(config));
    }

    ghost predicate Valid()
      reads timer, timer.wheel, timer.expired, timer.wheel[..], timer.g.where.Keys
    {
      timer.Sized() && timer.Valid() && Configured(timer.g.timers)
    }

    function View(): Tables
      reads this
    {
      Tables(vpnIps, indexes, mainIndexes, infos)
    }

    /** unlockedDeleteHostInfo */
    method DeleteHostInfo(id: Id)
      requires id in infos
      modifies this`vpnIps, this`indexes, this`infos
      ensures View() == Delete(old(View()), id)
    {
      var addrs := infos[id].vpnAddrs;
      for k := 0 to |addrs|
        invariant vpnIps == map a | a in old(vpnIps) && !(a in addrs[..k] && old(vpnIps)[a] == id) :: old(vpnIps)[a]
        modifies this`vpnIps
      {
        if addrs[k] in vpnIps && vpnIps[addrs[k]] == id {
          vpnIps := vpnIps - {addrs[k]};
        }
        assert addrs[..k + 1] == addrs[..k] + [addrs[k]];
      }
      assert addrs[..|addrs|] == addrs;
      indexes := indexes - {infos[id].localIndex};
      infos := infos[id := infos[id].(pending := false)];
    }

    /** StartHandshake, the locked section. */
    method StartHandshake(a: Addr, id: Id)
      requires Valid()
      modifies this, timer, timer.expired, timer.wheel[..], timer.g.where.Keys
      ensures Valid() && fresh(timer.g.where.Keys - old(timer.g.where.Keys))
      ensures mainIndexes == old(mainIndexes) && indexes == old(indexes)
      ensures View() == if a in old(vpnIps) then old(View()) else Started(old(View()), a, id)
      ensures timer.g.timers == if a in old(vpnIps) then old(timer.g.timers) else Added(old(timer.g.timers), a, config.tryInterval)
    {
      if a in vpnIps {
        return;
      }
      var ti := timer.Add(a, config.tryInterval);
      infos := infos[id := Info([a], 0, 0, false, true)];
      vpnIps := vpnIps[a := id];
    }

    /** allocateIndex; generateIndex never draws zero. */
    method AllocateIndex(id: Id, draws: seq<Option<nat>>) returns (index: Option<nat>)
      requires id in infos && |draws| == INDEX_DRAWS
      modifies this`indexes, this`infos
      ensures index == Settled(old(View()), draws)
      ensures index.None? ==> View() == old(View())
      ensures index.Some? ==> indexes == old(indexes)[index.value := id]
                              && infos == old(infos)[id := old(infos)[id].(localIndex := index.value)]
    {
      for k := 0 to INDEX_DRAWS
        invariant View() == old(View()) && Settled(old(View()), draws) == Settled(old(View()), draws[k..])
      {
        if draws[k].None? {
          return None;
        }
        if draws[k].value !in mainIndexes && draws[k].value !in indexes {
          infos := infos[id := infos[id].(localIndex := draws[k].value)];
          indexes := indexes[draws[k].value := id];
          return draws[k];
        }
      }
      return None;
    }

    /** buildStage0Packet, as far as the tables see it. */
    method BuildStage0Packet(id: Id, draws: seq<Option<nat>>) returns (ok: bool)
      requires id in infos && |draws| == INDEX_DRAWS
      modifies this`indexes, this`infos
      ensures ok == Settled(old(View()), draws).Some?
      ensures View() == if ok then Allocated(old(View()), id, Settled(old(View()), draws).value) else old(View())
    {
      var index := AllocateIndex(id, draws);
      if index.None? {
        return false;
      }
      infos := infos[id := infos[id].(ready := true)];
      return true;
    }

    /** Complete: out of the pending tables first, then into the main one, from which the add may
        have to evict some. */
    method Complete(id: Id, vpnAddrs: seq<Addr>, evicted: set<nat>)
      requires id in infos
      modifies this
      ensures View() == PendingSpec.Complete(old(View()), id, vpnAddrs, evicted)
    {
      infos := infos[id := infos[id].(vpnAddrs := vpnAddrs)];
      DeleteHostInfo(id);
      mainIndexes := (mainIndexes - evicted)[infos[id].localIndex := id];
    }

    /** CheckAndComplete */
    method CheckAndComplete(id: Id, refused: bool, evicted: set<nat>) returns (ok: bool)
      requires id in infos
      modifies this`mainIndexes
      ensures View() == PendingSpec.CheckAndComplete(old(View()), id, refused, evicted)
      ensures var i := infos[id].localIndex; ok <==> (!refused && i !in old(mainIndexes) && (i in indexes ==> indexes[i] == id))
    {
      if refused {
        return false;
      }
      var index := infos[id].localIndex;
      if index in mainIndexes {
        return false;
      }
      if index in indexes && indexes[index] != id {
        return false;
      }
      mainIndexes := (mainIndexes - evicted)[index := id];
      return true;
    }

    /** The tail of handleOutbound: the next timer. */
    method Again(a: Addr, counter: nat)
      requires Valid()
      modifies timer, timer.expired, timer.wheel[..], timer.g.where.Keys
      ensures Valid() && timer.g.timers == Added(old(timer.g.timers), a, Runs.Delay(config, counter))
    {
      var ti := timer.Add(a, config.tryInterval * counter);
    }

    /** The middle of handleOutbound: counts the attempt, builds the packet if there is none yet, and
        says whether a timer is to be set. */
    method Try(id: Id, triggered: bool, draws: seq<Option<nat>>) returns (again: bool)
      requires id in infos && |draws| == INDEX_DRAWS
      modifies this`infos, this`indexes
      ensures var t := Counted(old(View()), id);
        && again == (!triggered || (!t.infos[id].ready && Settled(t, draws).None?))
        && View() == if t.infos[id].ready || Settled(t, draws).None? then t else Allocated(t, id, Settled(t, draws).value)
    {
      infos := infos[id := infos[id].(counter := infos[id].counter + 1)];
      assert View() == Counted(old(View()), id);
      if !infos[id].ready {
        var ok := BuildStage0Packet(id, draws);
        if !ok {
          return true;
        }
      }
      return !triggered;
    }

    /** handleOutbound */
    method HandleOutbound(a: Addr, triggered: bool, draws: seq<Option<nat>>)
      requires Valid() && PendingAt(View(), a) && |draws| == INDEX_DRAWS && forall d :: d in draws ==> d != Some(0)
      modifies this, timer, timer.expired, timer.wheel[..], timer.g.where.Keys
      ensures Valid()
      ensures var s := Runs.Manager(old(View()), old(timer.g.timers), None, map[]);
        var s' := Runs.HandleOutbound(config, s, a, triggered, Settled(old(View()), draws));
        View() == s'.tables && timer.g.timers == s'.timers
    {
      if a !in vpnIps {
        return;
      }
      var id := vpnIps[a];
      if infos[id].counter >= config.retries {
        DeleteHostInfo(id);
        return;
      }
      SettledIsFree(View(), id, draws);
      var again := Try(id, triggered, draws);
      if again {
        Again(a, infos[id].counter);
      }
    }
  }

  /** What is settled on is free, and counting an attempt makes no difference to it. */
  lemma {:induction false} SettledIsFree(t: Tables, id: Id, draws: seq<Option<nat>>)
    requires id in t.infos && forall d :: d in draws ==> d != Some(0)
    ensures Settled(Counted(t, id), draws) == Settled(t, draws)
    ensures Settled(t, draws).Some? ==> Free(Counted(t, id), Settled(t, draws))
    decreases |draws|
  {
    if draws != [] && draws[0].Some? {
      assert draws[0] in draws && forall d :: d in draws[1..] ==> d in draws;
      SettledIsFree(t, id, draws[1..]);
    }
  }
}
