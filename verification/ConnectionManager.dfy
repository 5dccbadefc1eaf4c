/** connection_manager.go: one traffic check as it marks the tunnel and sets the timer. */
module ConnectionManager {
  import opened Options
  import opened TimerSpec
  import opened TimerWheel
  import opened TrafficWord
  import opened LiveTunnels

  /** A tunnel in the host map. */
  class TunnelInfo {
    const id: nat
    const localIndexId: nat
    const word: StateWord
    var lastUsed: int
    ghost var marks: nat
    ghost var checks: seq<nat>
    ghost var spared: bool

    constructor (id: nat, localIndexId: nat, word: StateWord)
      requires word.Valid()
      ensures this.id == id && this.localIndexId == localIndexId && this.word == word
      ensures View() == Tunnel(id, word.view, 0, 0, [0], false)
    {
      this.id, this.localIndexId, this.word := id, localIndexId, word;
      lastUsed, marks, checks, spared := 0, 0, [0], false;
    }

    ghost function View(): Tunnel
      reads this, word
    {
      Tunnel(id, word.view, lastUsed, marks, checks, spared)
    }
  }

  class ConnectionManager {
    const config: Config
    const trafficTimer: TimerWheel<nat>

    constructor (config: Config, min: int, max: int)
      requires min > 0 && max >= 0
      ensures this.config == config && trafficTimer.Sized() && trafficTimer.Valid() && trafficTimer.g.timers == Empty(min, max)
    {
      this.config := config;
      trafficTimer := new TimerWheel(min, max);
    }

    /** getAndResetTrafficCheck */
    method GetAndResetTrafficCheck(h: TunnelInfo, now: int) returns (inbound: bool, outbound: bool)
      requires h.word.Valid()
      modifies h, h.word
      ensures h.word.Valid() && h.View() == Taken(old(h.View()), now)
      ensures inbound == old(h.word.view).inbound && outbound == old(h.word.view).outbound
    {
      inbound, outbound := h.word.TakeTraffic();
      if inbound || outbound {
        h.lastUsed := now;
      }
      h.checks := h.checks + [h.marks];
    }

    predicate IsInactive(h: TunnelInfo, f: Findings)
      reads h
    {
      f.dropInactive && f.now - h.lastUsed >= f.inactivityTimeout
    }

    /** makeTrafficDecision on a tunnel in the host map: marks it, and says what to do and when to
        look again. */
    method Judge(h: TunnelInfo, f: Findings) returns (decision: Decision, next: Option<int>)
      requires h.word.Valid()
      modifies h, h.word
      ensures h.word.Valid()
      ensures Verdict(h.View(), decision, next) == Decide(config, old(h.View()), f)
    {
      if f.invalidCert {
        return CloseTunnel, None;
      }
      if f.exhausted {
        return DeleteTunnel(false), None;
      }
      var inbound, outbound := GetAndResetTrafficCheck(h, f.now);
      if inbound {
        h.word.SetPendingDeletion(false);
        h.spared := false;
        if f.primary {
          decision := TryRehandshake;
        } else if f.swap {
          decision := SwapPrimary;
        } else {
          decision := MigrateRelays;
        }
        return decision, Some(config.checkInterval);
      }
      var doomed := h.word.IsPendingDeletion();
      if doomed {
        return DeleteTunnel(true), None;
      }
      decision := DoNothing;
      if f.connected && f.primary {
        if !outbound {
          h.spared := true;
          if IsInactive(h, f) {
            return CloseTunnel, None;
          }
          return DoNothing, Some(config.checkInterval);
        }
        decision := SendTestPacket;
      }
      h.word.SetPendingDeletion(true);
      h.spared := false;
      return decision, Some(config.pendingDeletionInterval);
    }

    /** makeTrafficDecision with its timer. */
    method MakeTrafficDecision(h: TunnelInfo, f: Findings) returns (decision: Decision)
      requires h.word.Valid() && trafficTimer.Sized() && trafficTimer.Valid() && Configured(trafficTimer.g.timers)
      modifies h, h.word, trafficTimer, trafficTimer.expired, trafficTimer.wheel[..], trafficTimer.g.where.Keys
      ensures h.word.Valid() && trafficTimer.Valid()
      ensures var v := Decide(config, old(h.View()), f);
        && h.View() == v.tunnel && decision == v.decision
        && trafficTimer.g.timers == if v.next.Some? then TimerSpec.Added(old(trafficTimer.g.timers), h.localIndexId, v.next.value)
                                    else old(trafficTimer.g.timers)
    {
      var next;
      decision, next := Judge(h, f);
      if next.Some? {
        var ti := trafficTimer.Add(h.localIndexId, next.value);
      }
    }
  }
}
