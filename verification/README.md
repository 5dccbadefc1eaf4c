# A verified model of Nebula's protocol and table code

Nebula is a peer-to-peer overlay network. This project models the parts of it whose correctness does not
show in any one function: protocols that run over a lossy network, tables that several operations must
keep in step, and data formats with a writer and a reader. Every locked section and every message handler
is one atomic step, a run is any sequence of steps, and the main results are statements about every run
or every input. Where the Go code works by changing things in place, there is an imperative model (a
class, or methods over an array) proved equal, step by step, to a specification function; what the code
is for is then proved of the specification.

`dafny verify dfyconfig.toml` verifies everything.

## What is modelled

- **Relay set-up** (`RelayEntries`, `RelayNode`, `RelayNetwork`, `RelayRuns`, `RelayRoles`, `RelayProgress`,
  `RelayCrossing`, `RelayBounce`, `RelayManager`). Any number of nodes with one vpn address each exchange
  CreateRelayRequest and CreateRelayResponse over a network that loses, duplicates and reorders. The invariant
  pairs entries: an index stored for the far end is the index the far end allocated, and it never changes.
  From every state a run leads to, it is settled exactly when one more attempt succeeds.
- **HostMap** (`HostLists`, `HostMapSpec`, `HostMapEffects`, `HostMap`). Five maps and the relay tables of
  every hostinfo against one most-recent-first list per address, with the cap of five and the eviction in the
  middle of an insertion; who is found by a remote index, and which relay entries a deletion marks.
- **Anti-replay window** (`Words`, `PackedSlots`, `ReplayWindow`, `Bits`, `ConnectionState`). A circular
  bitmap in 64-bit words against a plain set of accepted counters, with exact loss accounting; interleaved
  readers and interleaved senders.
- **Timer wheel** (`TimerSpec`, `TimerWheel`). Linked lists on the heap, the item cache and the capped
  advance against buckets of entries with due ticks.
- **Firewall** (`FirewallRules`, `Conntrack`, `ConntrackLife`, `Firewall`). The nested rule index against the flat list of
  rules, and connection tracking over any number of reloads, the wrap of the 16-bit version included: what is
  let through has passed the rules, and what has been let through is let through again until it lapses.
- **Handshake** (`HandshakeSpec`, `HandshakeRuns`, `HandshakeMachine`, `PendingSpec`, `PendingRuns`,
  `PendingEffects`, `HandshakeManager`, `MainTable`, `Responding`). The two-message machine over an abstract Noise IX exchange (section 7.5 of the Noise
  Protocol Framework, revision 34), and the pending and main tables that share one index space.
- **Live tunnels** (`TrafficWord`, `LiveTunnels`, `TunnelChecks`, `ConnectionManager`). The packed state word
  and the traffic checks, and exactly when two of them in a row find a tunnel dead.
- **Wire formats** (`Wire`, `Messages`, `FieldTags`, `UnknownFields`, `WireErrors`, `Marshal`, `ProtoWire`,
  `PayloadWire`). The back-to-front protobuf writer, its size functions and its reader, and the hand-written
  handshake payload, with fields the reader does not know anywhere among its own, and what the readers refuse.
- **Reject packets** (`Checksum`, `UpperProtocol`, `RejectSpec`, `RejectRules`, `RejectPacket`). Checksums
  (section 1 of RFC 1071), the IPv6 extension walk (section 4 of RFC 8200), the packets built with them, and
  exactly which packets are answered.

## Findings

- A relayed payload does not always end where it was sent. A payload for an addressee that is itself a relay
  can come back to its sender as if from somebody else (`RelayBounce.RelayAddresseeBounces`), and a payload
  that a relay sends by an entry it keeps to forward stays with the wrong node
  (`RelayBounce.RelayOriginStrays`; the run sends by any Established entry, where the source also wants a
  handshake to have come that way). Exactly when a payload gets through is a matter of the kinds of three
  entries: in every run one that can be sent gets through if and only if the relay's entries on both legs are
  of the forwarding kind with the far one Established, and the addressee's entry is of the terminal kind
  (`RelayRuns.SentGetsThroughIff`, and `RelayRuns.ForwardedIsUnwrappedIff` for the second leg). Between nodes
  that are not relays this always holds of what is delivered (`RelayRoles.DeliveredEndToEnd`).
- One lost message can stop a relay for good. When two ends ask the same relay for each other, the relay marks
  its leg to each as asked for; if its request to one of them is then lost, that end keeps asking, the other
  takes the relay for up and asks no more, and the relay, waiting for an answer of its own, never passes the
  news on (`RelayCrossing.CrossedRequestsStall`). No further attempt of either end changes anything
  (`RelayCrossing.StalledStays`); what would help is the lost message, or the loss of a tunnel. Between nodes
  that are not relays this is the only way for an attempt whose own messages arrive to fail
  (`RelayCrossing.AttemptBetweenEnds`); in general it succeeds exactly when the entries there already are of the
  right kinds and the relay does not wait for the origin (`RelayProgress.AttemptSucceedsIff`).
- With a single retry configured, the timer wheel of pending handshakes has no range, so the delay it is given
  is clamped to zero before it is rounded to ticks; with more than one it spans all of them (`PendingEffects.DelaysFit`).
- An unknown field nested in more than 10001 groups makes a handshake payload unreadable, since protowire
  stops there; with none nested deeper the payload is read as if the unknown fields were not there
  (`PayloadWire.PayloadReadsThrough`). The generated reader counts groups and has no such limit.
- The comment on IPv6FindUpperProtocol says more than eight extension headers are an error. The loop has
  eight turns and the upper layer needs one of them, so exactly eight are an error too
  (`UpperProtocol.EightHeadersAreTooMany`, with a packet in `UpperProtocol.EightHeadersAreRefused`); the walk succeeds exactly when a chain with at most seven
  headers before its end exists (`UpperProtocol.FoundIffChain`).
- An answer of CreateRejectPacket would be answered in turn exactly when it is a TCP reset
  (`RejectSpec.OnlyResetsAreAnswered`); an ICMP answer never is.
- The headroom below 2^64 in NextMessageCounter is exactly enough: with one caller more than the headroom
  between the add and the pinning store the counter wraps and 0 is handed out, with two more 1
  (`ConnectionState.HeadroomIsTight`).

## Model

| member | source | states |
|---|---|---|
| `RelayRuns.IndexesAgree` | relay_manager.go:62-610 | In every run, a non-zero RemoteIndex that X stores for peer P in hostinfo Y is the LocalIndex of Y's entry for P in hostinfo X |
| `RelayRuns.MismatchUnreachable` | relay_manager.go:448-480 | No request in flight in any run finds, at its target, an Established or Disestablished entry with another index |
| `RelayRuns.IndexesNeverChange` | relay_manager.go:230-269 | An index allocated for a node, neighbour and peer stays as it is over any continuation of any run |
| `RelayRuns.ForwardedReachesAddressee` | outside.go:188-266 | In every run each payload names a live relay index at the node it is for; before forwarding the entry names the addressee, after it the payload is at the addressee and the entry names the sender |
| `RelayRuns.SentGetsThroughIff` | outside.go:188-266 | In every run a payload that can be sent is forwarded to its addressee and unwrapped there as from its sender exactly when both entries of the relay forward, the far one is Established, and the addressee's entry is terminal |
| `RelayRuns.UnderWayGetsThroughIff` | outside.go:188-266 | The same for every payload under way, by the entries there are when it arrives |
| `RelayRuns.ForwardedIsUnwrappedIff` | outside.go:215-266 | In every run a payload once forwarded is unwrapped as from its sender exactly when the entry it reaches is terminal |
| `RelayRuns.PayloadResolves` | outside.go:198-204 | From the pairing invariant, the relay index of a payload is found in Relays and in the hostinfo's table, so the missing-index branch is not taken |
| `RelayRuns.StepKeeps` | relay_manager.go:299-610 | Every event of the network keeps the pairing invariant for entries, messages and payloads, and only adds indexes |
| `RelayRuns.RunKeeps` | relay_manager.go:299-610 | The same over every run |
| `RelayNetwork.PutOk` | hostmap.go:219-224 | Storing an entry that is new, or a later version of one, keeps all entries of all nodes paired |
| `RelayNetwork.StartOk` | relay_manager.go:62-226 | Starting a relay, anew, once more or after it was disestablished, keeps the network paired and sends only messages that are in order |
| `RelayNetwork.NeverMismatched` | relay_manager.go:448-480 | A request in order never meets an Established entry with another index |
| `RelayNetwork.OnRequestOk` | relay_manager.go:427-610 | Handling any request keeps the network paired and every answer is in order, with the relay off or on, the far tunnel there or not, and the draws of indexes succeeding or not |
| `RelayNetwork.OnFarLegUpOk` | relay_manager.go:366-425 | Telling the other leg that the far leg is up keeps the network paired |
| `RelayNetwork.OnResponseOk` | relay_manager.go:345-425 | Handling any response keeps the network paired and every message sent is in order |
| `RelayRoles.DeliveredEndToEnd` | outside.go:188-266 | In every run where only relays forward, a payload between two nodes that are not relays is unwrapped only at its addressee, as coming from its sender, after exactly one relay |
| `RelayRoles.RunRoles` | relay_manager.go:299-610 | In every such run the entries of relays and of other nodes keep their roles |
| `RelayBounce.RelayAddresseeBounces` | outside.go:188-266 | A run in which a payload for a relay is delivered back to its sender as coming from a third node |
| `RelayBounce.RelayOriginStrays` | outside.go:188-266 | A run in which a payload from a relay is delivered to a node it was not for, as coming from its addressee |
| `RelayProgress.StartSends` | relay_manager.go:62-226 | StartRelays sends exactly when the relay is a third party and the entry is new and gets an index, still waits, or was disestablished: one request with the entry's index, and the entry then waits; otherwise nothing changes |
| `RelayProgress.RelayAsks` | relay_manager.go:526-610 | A relay asked by the origin has both legs afterwards, the far one waiting, and sends the target one request with the index of the far leg |
| `RelayProgress.TargetAnswers` | relay_manager.go:446-526 | The target answers every request once, with both indexes of its entry, which is Established unless it waits as a forwarder |
| `RelayProgress.RelayPassesOn` | relay_manager.go:345-425 | On the answer the far leg is up; the origin is told, once and with both indexes of the near leg, exactly when the far leg forwards and the relay has not itself asked the origin |
| `RelayProgress.OriginCompletes` | relay_manager.go:345-369 | On the relay's news the origin's entry is Established with the relay's index |
| `RelayProgress.AttemptSucceedsIff` | relay_manager.go:62-610 | From every state a run leads to, one StartRelays of which only its own messages and those they cause arrive makes the relay usable exactly when the relay's entries forward and it does not itself wait for the origin, the target's entry is terminal, and the origin does not wait as a forwarder |
| `RelayProgress.AttemptRuns` | relay_manager.go:62-610 | Such an attempt is a run: a start followed by receipts |
| `RelayProgress.UsableDelivers` | outside.go:188-266 | In every run a payload sent by a usable relay is delivered to its addressee as from its sender once it has arrived twice |
| `RelayProgress.DiscardedRequests` | relay_manager.go:438-546 | A request in the receiver's own name, passed on by a third party, or for another node while no relay or without a tunnel to it changes nothing and is not answered, whatever the receiver knows |
| `RelayProgress.QuietResponses` | relay_manager.go:345-380 | A response for an unknown index changes nothing; one for a terminal entry or a peer without a tunnel is told to nobody and touches no other tunnel |
| `RelayProgress.StartRelaysRuns` | relay_manager.go:62-226 | The loop over all candidates comes to a run of one start for each candidate with a direct tunnel |
| `RelayCrossing.AttemptBetweenEnds` | relay_manager.go:62-610 | In every run where only relays forward, an attempt between two other nodes fails exactly when the relay itself still waits for the origin |
| `RelayCrossing.StalledStays` | relay_manager.go:345-425 | When origin and relay wait for each other and the other end is up, every further attempt of either end leaves every node as it was |
| `RelayCrossing.CrossedRequestsStall` | relay_manager.go:526-610 | A run of two ends and a relay with one message lost that leads to such a state |
| `RelayManager.RelayManager.StartRelay` | relay_manager.go:62-226 | The in-place updates and messages for one candidate relay are those of the specification |
| `RelayManager.RelayManager.StartRelays` | relay_manager.go:62-226 | The loop over all candidates, those without a tunnel passed over, is the specification's |
| `RelayManager.RelayManager.AddRelay` | relay_manager.go:230-269 | A free draw becomes an entry in both tables and in Relays; any other draw changes nothing |
| `RelayManager.RelayManager.HandleRequestForMe` | relay_manager.go:447-526 | The target's handling of a request, in place, is that of the specification |
| `RelayManager.RelayManager.Confirm` | relay_manager.go:450-481 | An entry the target has already is completed, kept or re-established as in the specification; false exactly on a mismatch |
| `RelayManager.RelayManager.HandleRequestForward` | relay_manager.go:547-600 | The relay's leg to the target, in place, is that of the specification |
| `RelayManager.RelayManager.HandleRequest` | relay_manager.go:427-610 | The whole handler, in place, is that of the specification |
| `RelayManager.RelayManager.HandleFarLegUp` | relay_manager.go:366-425 | The relay's part of a response, in place, is that of the specification |
| `RelayManager.RelayManager.HandleResponse` | relay_manager.go:345-425 | The whole response handler, in place, is that of the specification |
| `RelayManager.CompleteRelayByIP` | hostmap.go:175-188 | The entry for an address becomes Established with the remote index in both tables; true exactly when there is one |
| `RelayManager.CompleteRelayByIdx` | hostmap.go:190-203 | The entry at a local index becomes Established with the remote index in both tables, and is returned |
| `RelayEntries.StoredAgrees` | hostmap.go:219-224 | Inserting an entry keeps the two tables in agreement and adds exactly its index |
| `RelayEntries.StateSetAgrees` | hostmap.go:100-109 | Changing a state by address keeps the tables in agreement and the indexes as they were |
| `RelayEntries.StateSetByIdxAgrees` | hostmap.go:111-120 | The same by index |
| `RelayEntries.CompletedByAddrAgrees` | hostmap.go:175-188 | Completing by address keeps the tables in agreement and the indexes as they were |
| `RelayEntries.CompletedByIdxAgrees` | hostmap.go:190-203 | The same by index |
| `HostMapSpec.ReachableIsConsistent` | hostmap.go:392-707 | In every run of new hostinfos, add, delete of a live one, make-primary, AddRelay and edits of relay entries, the lists are exact, capped at five, duplicate-free and newest first, every index names its hostinfo, and the relay tables agree |
| `HostMapSpec.ReadOff` | hostmap.go:451-543 | What the invariant says at one address and index: a hostinfo is in the list of an address exactly when it is live and has the address; Relays names a live hostinfo at an index exactly when the index is a key of its table |
| `HostMapSpec.RelayIndexesStay` | hostmap.go:100-224 | Over every run a relay index never leaves the table it was put in, not even when its hostinfo is deleted |
| `HostMapSpec.ReadInTwoSteps` | outside.go:198-204 | Relays read at one time and the table of the hostinfo it names at any later time of the run: the entry is there |
| `HostMapEffects.RemoteIndexNamesLast` | hostmap.go:578-587 | In every run a remote index leads to a hostinfo exactly when the one added last with it is still live, and to that one |
| `HostMapEffects.AddEvictsOldest` | hostmap.go:684-707 | An add retires a hostinfo only when it is the oldest of five at one of the newcomer's addresses |
| `HostMapEffects.DeleteMarks` | hostmap.go:626-639 | Deleting the last tunnel to a peer marks the entries for it at its next hops Disestablished, and no delete changes any other entry |
| `HostMapEffects.AddRelayEnters` | relay_manager.go:230-269 | A new relay entry is found by its address, by its index and in Relays, every other entry stays, and its hostinfo is primary at all its addresses |
| `HostMapEffects.EditPutsVersion` | hostmap.go:100-203 | An edit of RelayState puts one new version of one entry into both tables, with the state and remote index it is for, and leaves all other entries |
| `HostMapEffects.EditedRelays` | hostmap.go:89-145 | The list of relays a host is reached by never repeats, and gains or loses exactly the one named |
| `HostMapSpec.DeleteKeeps` | hostmap.go:479-543 | Deleting a live hostinfo keeps the invariant, and its lists are gone exactly when no other live hostinfo holds any of its addresses |
| `HostMapSpec.PrimaryKeeps` | hostmap.go:451-473 | Making a live hostinfo primary keeps the invariant, with it as the newest |
| `HostMapSpec.AddKeeps` | hostmap.go:659-707 | Adding keeps the invariant whatever is evicted on the way; the hostinfo is live afterwards and nobody else becomes live, only hostinfos that share an address with it are evicted, every relay index stays in its table, and RemoteIndexes loses exactly those evicted and names the hostinfo at its remote index |
| `HostMapSpec.AddRelayKeeps` | relay_manager.go:230-269 | A relay entry under a free index keeps the invariant |
| `HostMapSpec.EditKeeps` | hostmap.go:100-203 | Every edit of a relay entry keeps the invariant |
| `HostMapSpec.DisestablishKeeps` | hostmap.go:626-639 | Disestablishing relays keeps the tables in agreement and all indexes |
| `HostLists.DeletedIsConsistent` | hostmap.go:479-499 | Deleting keeps them so |
| `HostLists.MadePrimaryIsConsistent` | hostmap.go:451-473 | Make-primary keeps them so |
| `HostLists.LastTunnel` | hostmap.go:479-499 | After a delete every list of the hostinfo is gone exactly when no other live hostinfo shares an address with it |
| `HostMap.HostMap.SetHostsForAddr` | hostmap.go:392-404 | Hosts and moreHosts together hold the list for the address and are as before elsewhere |
| `HostMap.HostMap.GetHostList` | hostmap.go:410-418 | The two maps read as one list |
| `HostMap.HostMap.MakePrimary` | hostmap.go:443-473 | In place, the hostinfo moves to the front of each of its lists; true exactly when it is live |
| `HostMap.HostMap.DropAll` | hostmap.go:482-499 | The hostinfo is out of each of its lists; true exactly when they are all gone |
| `HostMap.HostMap.Unlink` | hostmap.go:479-523 | Lists, Indexes and RemoteIndexes lose the hostinfo and nothing else |
| `HostMap.HostMap.Reclaim` | hostmap.go:532-543 | Relays loses exactly the hostinfo's indexes; with the last tunnel gone the relays by way of it are disestablished |
| `HostMap.HostMap.DisestablishRelaysFor` | hostmap.go:626-639 | Every entry for the deleted address on every hostinfo along its relays is disestablished and no other |
| `HostMap.HostMap.DeleteHostInfo` | hostmap.go:479-543 | All five maps and the relay tables change as in the specification; the result says whether all its lists are gone |
| `HostMap.HostMap.DeleteLive` | hostmap.go:434-441 | Deleting a live hostinfo keeps the invariant; true exactly when no other live hostinfo holds any of its addresses |
| `HostMap.HostMap.InnerAddHostInfo` | hostmap.go:684-707 | One address: the hostinfo is put first and the sixth, if any, is deleted |
| `HostMap.HostMap.AddHostInfo` | hostmap.go:659-682 | The whole insertion, with evictions in the middle, is that of the specification, and keeps the invariant |
| `HostMap.HostMap.AddRelay` | relay_manager.go:230-269 | The first free of 32 draws is used, only for a live hostinfo; with none the maps stay as they were |
| `HostMap.UpdateRelayForByIpState` | hostmap.go:100-109 | Both tables of the hostinfo change as in the specification |
| `HostMap.InsertRelay` | hostmap.go:219-224 | Both tables hold the entry |
| `HostMap.CopyAllRelayFor` | hostmap.go:122-130 | Exactly the entries of the table |
| `ReplayWindow.NeverTakenTwice` | bits.go:162-254 | For every length and run, a counter taken once is not taken again |
| `ReplayWindow.LostIsWhatNeverArrived` | bits.go:162-254 | After every run the lost count is the number of counters from 1 to current - length that were never taken |
| `ReplayWindow.AcceptedIsTaken` | bits.go:162-254 | The accepted set is exactly the counters some call of the run took |
| `ReplayWindow.RunIsConsistent` | bits.go:162-254 | Over every run: nothing above current, 0 never newly accepted, the losses exact |
| `ReplayWindow.OfferedIsConsistent` | bits.go:162-254 | One call keeps that |
| `Bits.Bits.constructor` | bits.go:28-50 | A fresh window of a power of two with only counter 0 marked |
| `Bits.Bits.Get` | bits.go:52-56 | The masked word and bit is the slot of the counter |
| `Bits.Bits.Set` | bits.go:58-61 | Exactly the counter's slot is set |
| `Bits.Bits.ClearRange` | bits.go:66-112 | Exactly the circular range is cleared, across word boundaries and the end, and its population count returned |
| `Bits.Bits.StrictlyWithinWindow` | bits.go:114-126 | For counters up to current, true exactly in the window |
| `Bits.Bits.Check` | bits.go:129-144 | Predicts Update: true exactly for counters above current, or in the window and not accepted |
| `Bits.Bits.Update` | bits.go:162-180 | Answer and new state are those of the set of accepted counters, losses, duplicates and out-of-window counts included |
| `Bits.Bits.UpdateSlow` | bits.go:183-254 | The same for jumps, back-fill, duplicates and counters out of the window |
| `Bits.Bits.Slide` | bits.go:185-218 | After a jump the slots ahead are cleared and the losses exact, in warm-up, in steady state and beyond a full window |
| `Bits.Bits.SlideSteady` | bits.go:191-195 | Each unset slot evicted in steady state is one lost counter |
| `Bits.Bits.SlideWarmup` | bits.go:196-207 | The same while the first circle is being filled |
| `ConnectionState.SeedWindow` | connection_state.go:55-75 | A window with exactly the handshake's counters accepted and nothing counted; refused exactly when the handshake is as long as the window |
| `ConnectionState.EachCounterDeliveredOnce` | connection_state.go:99-148 | In every interleaving of Decrypt and VerifyRelay calls no counter is delivered twice and 0 never |
| `ConnectionState.DeliveredIff` | connection_state.go:99-148 | In every interleaving a call passes the check, and a packet that authenticates is delivered, exactly when its counter is not 0, not the handshake's, not delivered before and not out of the window |
| `ConnectionState.CountersAreUnique` | connection_state.go:86-93 | In every interleaving of adds and pinning stores with fewer callers than the headroom, the counters handed out are distinct and below the ceiling |
| `ConnectionState.HeadroomIsTight` | main.go:28-32 | With more callers than the headroom between add and store, 0 and then 1 are handed out |
| `TimerSpec.FiresExactlyWhenDue` | timeout.go:164-224 | In every run an item added with the clock at L is out after Advance(now) exactly when floor((now - L) / tick) is at least its rounded-up clamped timeout in ticks plus one, and it is never lost |
| `TimerSpec.FiresFromFirstAdvance` | timeout.go:188-224 | In every run an item added before the first Advance is out exactly as if it was added at the clock of that Advance |
| `TimerSpec.NeitherEarlyNorLate` | timeout.go:164-224 | An item never comes out before its timeout has passed and is out once two ticks more have |
| `TimerSpec.CapIsHarmless` | timeout.go:194-219 | Ticking more often than there are slots does what ticking once round does, but for the count |
| `TimerSpec.TicksForIsCeiling` | timeout.go:164-184 | The slot offset is the rounded-up quotient of the clamped timeout and there is always a slot for it |
| `TimerSpec.RunIsSound` | timeout.go:137-224 | Over every run every entry is in the bucket of its due tick, and items are purged by due tick and then by arrival |
| `TimerSpec.OperationsConserve` | timeout.go:109-224 | Advance keeps the multiset of entries, Add adds one and Purge removes one |
| `TimerWheel.TimerWheel.constructor` | timeout.go:74-98 | An empty wheel of the right size |
| `TimerWheel.TimerWheel.FindWheel` | timeout.go:164-184 | The slot found is that many ticks ahead of the current one |
| `TimerWheel.TimerWheel.Add` | timeout.go:109-133 | The linked lists and the cache stay disjoint and acyclic with correct tails, and hold one entry more, in its bucket |
| `TimerWheel.TimerWheel.Purge` | timeout.go:137-161 | The first expired entry is returned and its node goes to the cache or is dropped |
| `TimerWheel.TimerWheel.Advance` | timeout.go:188-224 | The heap lists after the capped loop are the buckets after all the ticks |
| `TimerWheel.TimerWheel.Tick` | timeout.go:200-219 | One slot's list joins the end of the expired list |
| `TimerWheel.TimeoutList.Splice` | timeout.go:206-218 | The nodes of one list follow those of the other, and the first list is empty |
| `TimerWheel.TimeoutList.Append` | timeout.go:123-130 | The node is linked in at the tail |
| `FirewallRules.IndexIsRuleList` | firewall.go:271-318 | For every list of rules that loads, the nested index matches a packet exactly when some rule of the list allows it |
| `FirewallRules.AddRuleAdds` | firewall.go:271-318 | Adding a rule adds exactly the packets it allows: protocol and port and CA and local CIDR and (any, all groups, host or remote CIDR) |
| `FirewallRules.AddRangeAdds` | firewall.go:682-731 | The port level, with the any-port, fragment and ICMP conventions |
| `FirewallRules.AddCaAdds` | firewall.go:733-794 | The CA level: no CA, CA sha or CA name |
| `FirewallRules.AddRemoteAdds` | firewall.go:796-918 | The level of any, groups, host and remote CIDR |
| `FirewallRules.AddLocalAdds` | firewall.go:920-957 | The local CIDR level |
| `FirewallRules.AddRuleAccepts` | firewall.go:271-318 | A rule is refused exactly when it is not well formed, whatever the table holds |
| `FirewallRules.LoadedAccepts` | firewall.go:271-318 | A list loads exactly when every rule is well formed |
| `Conntrack.TrackedIsTimed` | firewall.go:532-657 | Over every run with any number of reloads, every tracked connection has a timer in the wheel or among the expired |
| `Conntrack.AdmittedHasPassed` | firewall.go:445-506 | Over every run every admitted packet has passed the very ruleset that was installed when it was admitted, then or at an earlier step since that was installed, past any number of version wraps |
| `ConntrackLife.AdmittedAgain` | firewall.go:445-657 | In every run a packet let through by a firewall is let through again by it up to its protocol's timeout later, whoever the peer and in whatever direction, unless another firewall on the same table deals with the same packet; reloads, wraps and other traffic make no difference |
| `ConntrackLife.LookUpIff` | firewall.go:532-605 | A look-up lets a packet through exactly when it is tracked, has not lapsed, and was let through by these rules or passes them now in the direction it was first let through in; it is then renewed by its protocol's timeout, otherwise it is not tracked any more, and no other connection changes beyond the purge |
| `ConntrackLife.PurgeDropsLapsed` | firewall.go:638-657 | The purge drops a connection exactly when its timer is next and it has lapsed |
| `ConntrackLife.AddConnTracks` | firewall.go:607-634 | The packet is tracked in its direction under the present rules for its protocol's timeout, and the others stay |
| `ConntrackLife.TimedForLife` | firewall.go:607-657 | A new connection is timed for its whole life and one whose timer came too early for the rest of it, rounded up to ticks |
| `ConntrackLife.TimeoutsFit` | firewall.go:142-174 | The wheel of a new table turns at the shortest timeout and spans the longest, so no timeout is changed by it |
| `ConntrackLife.AdmissionsAreRecorded` | firewall.go:445-506 | What is on record as let through is what the events of the run let through |
| `Conntrack.AlwaysReady` | firewall.go:532-634 | Over every run every locked section finds its table and wheel in working order |
| `Conntrack.RunOk` | interface.go:543-593 | Over every run the invariant holds: no connection carries the version of rules it was not checked against |
| `Conntrack.ReloadedOk` | interface.go:543-593 | A reload keeps it, handing the connections over or, at the wrap of the version, dropping them |
| `Conntrack.LookedOk` | firewall.go:532-605 | A look-up keeps it |
| `Conntrack.TestedOk` | firewall.go:491-506 | Testing the rules and adding a connection keeps it |
| `Conntrack.PurgeOneTimed` | firewall.go:638-657 | Purging and evicting leaves every connection still tracked a timer |
| `Conntrack.AddConnTimed` | firewall.go:607-634 | Adding a connection does too |
| `Firewall.MatchTable` | firewall.go:659-680 | The imperative match by protocol is the specification's |
| `Firewall.MatchPorts` | firewall.go:703-731 | The match by port is the specification's |
| `Firewall.MatchCa` | firewall.go:773-794 | The match by CA is the specification's |
| `Firewall.MatchRule` | firewall.go:875-918 | The match by any, groups, host and CIDR is the specification's |
| `Firewall.HasAll` | firewall.go:886-901 | The loop finds whether a non-empty list of groups is held in full |
| `Firewall.MatchSupernets` | firewall.go:911-915 | The loop finds whether some prefix that holds the remote address matches locally, in whatever order they come |
| `Firewall.Firewall.AddToPorts` | firewall.go:682-701 | The loop over a port range is the specification's, error included |
| `Firewall.Firewall.AddRule` | firewall.go:271-318 | The right table gets the rule and the other stays |
| `Firewall.Firewall.InConns` | firewall.go:532-605 | Purge, look-up, re-check against newer rules and renewal, in place, are the specification's |
| `Firewall.Firewall.AddConn` | firewall.go:607-634 | The connection and its timer, in place, are the specification's |
| `Firewall.Firewall.Admit` | firewall.go:486-506 | Look-up, then rules, then tracking, in place, are the specification's |
| `Firewall.CheckRemote` | firewall.go:446-478 | No error exactly when the remote address is the peer's own, or behind it and not claimed as a source from our networks; an unknown address, a peer's network and an overlap each have their own error |
| `Firewall.Firewall.Drop` | firewall.go:445-506 | A packet whose addresses are not in order is refused and leaves no trace in the connection table, with the local address as the reason exactly when only that is wrong; any other is decided as in the specification |
| `Firewall.LetThroughIff` | firewall.go:486-506 | One Drop lets a packet pass exactly when its connection is known and still good or the rules pass it, and it is tracked afterwards exactly then |
| `Firewall.ConntrackTable.Evict` | firewall.go:638-657 | Re-added with the time left, or dropped |
| `Firewall.Interface.ReloadFirewall` | interface.go:543-593 | A new firewall is installed exactly when the new one loads and differs; the version goes up with wrap and the connections are handed over unless it came to zero |
| `HandshakeRuns.HonestExchange` | handshake/machine.go:167-454 | Two machines that accept each other's certificates both complete with crossed indexes and keys, each with the other's certificate as it verified it, its own certificate in the version settled on and the time the other sent, with any finite number of rejected packets in between |
| `HandshakeRuns.ResultsCross` | handshake/machine.go:278-283 | Any two results that share a key in one direction share both keys and have crossed indexes |
| `HandshakeRuns.EveryResultIsOk` | handshake/machine.go:203-283 | Over every sequence of calls a result carries the verified certificate from the peer's message for the peer's static key, the certificate this side sent, by a responder in the version agreed on, the peer's time, and non-zero indexes as exchanged |
| `HandshakeRuns.FailureIsPermanent` | handshake/machine.go:203-206 | A failed machine never changes again |
| `HandshakeRuns.RejectedLeavesNoTrace` | handshake/machine.go:203-276 | A packet rejected without failing leaves the machine exactly as it was |
| `HandshakeRuns.RejectedIff` | handshake/machine.go:203-276 | A packet is rejected without failing the machine exactly when it is too short, of another subtype, or not readable; every later error is fatal |
| `HandshakeRuns.ResponderCompletesIff` | handshake/machine.go:203-380 | A responder completes on a first message exactly when it carries an index and a certificate that recombines, fits the key and verifies, and there is an index to give |
| `HandshakeRuns.InitiatorCompletesIff` | handshake/machine.go:203-380 | An initiator completes on a readable second message exactly when that passes the same |
| `HandshakeRuns.MarshalShows` | handshake/machine.go:382-417 | A message built carries both indexes and the bytes of the credential whose certificate is then on record as one's own |
| `HandshakeRuns.InitiateIff` | handshake/machine.go:167-188 | The first message is built exactly once, by an initiator with an index and a credential; every other call fails the machine |
| `HandshakeRuns.FinishIff` | handshake/machine.go:130-138 | A result is handed out exactly when payload and certificate are in; otherwise the machine fails |
| `HandshakeRuns.RejectedRun` | handshake/machine.go:203-276 | So does any finite number of them |
| `HandshakeRuns.AllocatesOnce` | handshake/machine.go:382-417 | A call allocates an index only if none was allocated before, and never changes one |
| `HandshakeRuns.OneIndexPerRun` | handshake/machine.go:382-417 | Over every sequence of calls the index stays once allocated |
| `HandshakeRuns.InitiateNeedsIndex` | handshake/machine.go:167-188 | The first message cannot be built exactly when no index is to be had |
| `HandshakeRuns.ProcessOk` | handshake/machine.go:203-276 | One packet keeps the machine in order, and a result is only handed out by a machine that has not failed |
| `HandshakeRuns.ProcessPayloadOk` | handshake/machine.go:285-340 | An accepted payload sets the peer's index, not zero, the peer's time, a verified certificate and the version agreed on |
| `HandshakeRuns.ValidateCertOk` | handshake/machine.go:342-380 | An accepted certificate verifies and is for the static key of the exchange, and its version is taken over if there is a credential for it |
| `HandshakeMachine.Machine.constructor` | handshake/machine.go:76-112 | The machine of the specification, in order |
| `HandshakeMachine.Machine.ValidateCert` | handshake/machine.go:342-380 | Fields and error, in place, as in the specification |
| `HandshakeMachine.Machine.ProcessPayload` | handshake/machine.go:285-340 | Fields and error, in place, as in the specification |
| `HandshakeMachine.Machine.MarshalOutgoing` | handshake/machine.go:382-417 | Fields, content and error, in place, as in the specification |
| `HandshakeMachine.Machine.BuildResponse` | handshake/machine.go:419-454 | Fields, packet, keys and error, in place, as in the specification |
| `HandshakeMachine.Machine.Initiate` | handshake/machine.go:167-188 | Fields, packet and error, in place, as in the specification; a machine in order stays so, a failed one does not change |
| `HandshakeMachine.Machine.ProcessPacket` | handshake/machine.go:203-276 | Fields, packet, result and error, in place, as in the specification; a machine in order stays so and hands out only results with a verified certificate and a non-zero remote index, a packet rejected without failing changes nothing, and neither does any packet after a failure |
| `PendingRuns.OneIndexSpace` | handshake_manager.go:513-643 | In every run no local index is both pending and in use, and no hostinfo in use is named by a pending table |
| `PendingRuns.PendingIsTimed` | handshake_manager.go:281-494 | In every run every pending address has a timer in the wheel or among the expired, or its attempt is next |
| `PendingRuns.AttemptsEnd` | handshake_manager.go:292-416 | In every run of ticks and lighthouse triggers no entry sees more than retries + 1 attempts, and the last removes it |
| `PendingEffects.HandshakesEnd` | handshake_manager.go:292-416 | In every run the attempts made on an entry, counted by the events, are at most retries + 1, and once they are that many it is pending no more |
| `PendingEffects.AttemptDoes` | handshake_manager.go:292-416 | Every attempt on a pending address is counted; the one after the last retry ends it, every other keeps it, gets it an index exactly when it has none and the draw is free, and sets the next attempt, later each time, unless it was triggered and the packet is built |
| `PendingEffects.StartDoes` | handshake_manager.go:437-494 | After StartHandshake the address is pending: as before, or under a new entry without an index, no attempts made and the first one set |
| `PendingEffects.AnswerDoes` | handshake_manager.go:909-1099 | The second message moves the index to the main table exactly when the certificate has the address asked for; another peer's starts the handshake anew, a fatal error ends it, anything else leaves it |
| `PendingEffects.RespondComesUp` | handshake_manager.go:786-905 | In every run a responder's tunnel is live at its index exactly when it is not refused and the index is free, and then nothing else changes but the evicted |
| `PendingEffects.DelaysFit` | handshake_manager.go:730-732 | The wheel made for the retries spans every delay exactly when there is more than one retry |
| `PendingRuns.RunKeeps` | handshake_manager.go:281-643 | In every run the invariant over tables, timers and counts holds |
| `PendingRuns.HandleOutboundKeeps` | handshake_manager.go:292-416 | One attempt keeps it, and leaves the address timed or removed unless it was triggered |
| `PendingRuns.ContinueKeeps` | handshake_manager.go:909-1099 | Every outcome of the second message keeps it: failure, the wrong host, completion |
| `PendingRuns.StartKeeps` | handshake_manager.go:437-494 | Starting a handshake keeps it |
| `PendingSpec.CompleteOk` | handshake_manager.go:566-585 | Completing moves the index to the main table, from which exactly the evicted go; it never overwrites a main entry and leaves the hostinfo under no pending key, because its old address is among the new ones |
| `PendingSpec.CheckAndCompleteOk` | handshake_manager.go:513-561 | Exactly when it is not refused and nobody holds the index, the main table afterwards holds the old entries without the evicted and the tunnel at its index; nothing else changes, and otherwise nothing does |
| `PendingSpec.DeleteOk` | handshake_manager.go:615-643 | A pending entry leaves both tables and nothing else does |
| `PendingSpec.RecvErrorOk` | outside.go:525-559 | A receive error for a live tunnel closes it and leaves the pending tables alone |
| `PendingSpec.AllocatedOk` | handshake_manager.go:590-613 | Allocating a free index keeps the tables disjoint |
| `MainTable.AddShows` | hostmap.go:659-682 | Adding to the host map is an addition to the main table of the pending runs, with only hostinfos that share an address evicted |
| `MainTable.CompleteShows` | handshake_manager.go:566-585 | Complete on the host map is Complete on those tables |
| `MainTable.CheckAndCompleteShows` | handshake_manager.go:513-561 | CheckAndComplete that is not refused adds to the host map exactly when neither it nor another pending handshake holds the index, as on those tables |
| `Responding.CheckIff` | handshake_manager.go:519-545 | A tunnel is refused as seen exactly when a live tunnel with its first address was made from the same packet, as existing exactly when the primary was made by answering a handshake no older, and comes in exactly when neither holds and its index is free |
| `Responding.RepeatsMakeNoTunnel` | handshake_manager.go:519-529 | In every run no two live tunnels with the same first address were made by answering the same handshake packet |
| `Responding.CheckedShows` | handshake_manager.go:513-561 | CheckAndComplete with those refusals on the host map is CheckAndComplete on the tables of the pending handshakes |
| `MainTable.DeleteShows` | hostmap.go:479-543 | Deleting a live hostinfo closes its index there |
| `HandshakeManager.HandshakeManager.AllocateIndex` | handshake_manager.go:590-613 | The first of 32 draws free in both tables is used, or nothing changes |
| `HandshakeManager.HandshakeManager.StartHandshake` | handshake_manager.go:437-494 | A new address gets an entry and a timer, a known one nothing |
| `HandshakeManager.HandshakeManager.Complete` | handshake_manager.go:566-585 | Pending and main tables, in place, as in the specification |
| `HandshakeManager.HandshakeManager.CheckAndComplete` | handshake_manager.go:513-561 | Main table and answer, in place, as in the specification |
| `HandshakeManager.HandshakeManager.DeleteHostInfo` | handshake_manager.go:615-643 | Both pending tables, in place, as in the specification |
| `HandshakeManager.HandshakeManager.HandleOutbound` | handshake_manager.go:292-416 | Counter, tables and timers, in place, as in the specification |
| `HandshakeManager.SettledIsFree` | handshake_manager.go:590-613 | What the draws settle on is free and not zero |
| `LiveTunnels.LiveIsWatched` | connection_manager.go:146-199 | In every run every tunnel in Indexes has its next check on the wheel, or is being checked |
| `LiveTunnels.DeadWasSilent` | connection_manager.go:316-437 | In every run a tunnel deleted as dead had no inbound mark at any time in its last two check intervals |
| `LiveTunnels.DecideOk` | connection_manager.go:316-437 | One decision keeps the marks in order; a tunnel is found dead exactly when nothing came in since the last check and that one found it silent, is marked exactly when it is silent and in use or not the primary, and is unmarked by inbound traffic; only deleting or closing leaves it without a next check |
| `LiveTunnels.DecisionIs` | connection_manager.go:316-453 | Exactly when a tunnel is closed, dropped for its counter, tested, or sorted out with the primary, which of those, and when it is looked at again |
| `TunnelChecks.DeadIff` | connection_manager.go:316-437 | In every run, of two successive checks of a tunnel the second finds it dead exactly when nothing had come in at the first while it was in use or not the primary, and nothing came in between them |
| `TunnelChecks.SilentDiesAtSecondCheck` | connection_manager.go:316-437 | In every run a tunnel by which nothing comes in before one check and until the next is dead at that |
| `TunnelChecks.BetweenChecks` | connection_manager.go:108-144 | In every run nothing but traffic happens to a tunnel between checks, and each mark is up exactly when it was or traffic went that way |
| `TunnelChecks.DeadIsDeleted` | connection_manager.go:173-185 | A tunnel found dead is on record and gone after the next deletion, and no other is |
| `TunnelChecks.DeletionIsExact` | connection_manager.go:173-185 | A deletion takes the doomed tunnel and no other |
| `TunnelChecks.NextCheckIsSet` | connection_manager.go:316-437 | In every run a check that keeps the tunnel sets the next one, after the shorter interval exactly when it is marked |
| `TunnelChecks.AddDoes` | hostmap.go:659-674 | A tunnel comes in unmarked and counted as in use, with its first check set, and no other tunnel changes |
| `LiveTunnels.RunOk` | connection_manager.go:146-437 | The invariant behind both over every run |
| `LiveTunnels.AddedWatched` | hostmap.go:659-674 | Adding a tunnel gives it its first check |
| `LiveTunnels.CheckedWatched` | connection_manager.go:173-199 | A check gives it the next one, or takes the tunnel away |
| `ConnectionManager.ConnectionManager.GetAndResetTrafficCheck` | connection_manager.go:138-144 | Both marks are returned and cleared, the last use noted |
| `ConnectionManager.ConnectionManager.Judge` | connection_manager.go:316-437 | Marks, pending deletion and decision, in place, as in the specification |
| `ConnectionManager.ConnectionManager.MakeTrafficDecision` | connection_manager.go:316-437 | The same with the timer |
| `TrafficWord.PackIsInjective` | hostmap.go:772-783 | Different marks, pending deletion or epoch are different words |
| `TrafficWord.StateWord.MarkIn` | hostmap.go:784-788 | Of the packed word only the inbound mark changes |
| `TrafficWord.StateWord.MarkOut` | hostmap.go:791-803 | Of the packed word the outbound mark and the epoch change; true exactly when the epoch moved |
| `TrafficWord.StateWord.MarkOutOnly` | hostmap.go:806-810 | Of the packed word only the outbound mark changes |
| `TrafficWord.StateWord.TakeTraffic` | hostmap.go:813-816 | Both marks are returned and cleared, the rest of the word stays |
| `TrafficWord.StateWord.SetPendingDeletion` | hostmap.go:818-824 | Of the packed word only pending deletion changes |
| `Messages.ControlRoundTrip` | nebula.pb.go:1951-2167 | Every NebulaControl is read back from its bytes |
| `Messages.MetaRoundTrip` | nebula.pb.go:1173-1277 | Every NebulaMeta is read back from its bytes |
| `Messages.DetailsRoundTrip` | nebula.pb.go:1278-1579 | Every NebulaMetaDetails is read back, packed and repeated fields included |
| `Messages.AddrRoundTrip` | nebula.pb.go:1580-1667 | Every Addr is read back |
| `Messages.V4RoundTrip` | nebula.pb.go:1668-1755 | Every V4AddrPort is read back |
| `Messages.V6RoundTrip` | nebula.pb.go:1756-1862 | Every V6AddrPort is read back |
| `FieldTags.ControlTags` | nebula.pb.go:944-999 | The bytes of every NebulaControl: each field under its tag, in order, zero and absent ones left out |
| `FieldTags.MetaTags` | nebula.pb.go:662-685 | The same for NebulaMeta |
| `FieldTags.DetailsTags` | nebula.pb.go:702-790 | The same for NebulaMetaDetails, repeated and packed fields included |
| `FieldTags.AddrTags` | nebula.pb.go:807-823 | The same for Addr |
| `FieldTags.V4Tags` | nebula.pb.go:840-856 | The same for V4AddrPort |
| `FieldTags.V6Tags` | nebula.pb.go:873-894 | The same for V6AddrPort |
| `FieldTags.PayloadTags` | handshake/payload.go:24-65 | The same for the handshake payload |
| `WireErrors.IntegerReadIff` | nebula.pb.go:1956-1970 | An integer is read exactly when it ends within ten bytes and within the message, and up to there; it is too long exactly when all ten are flagged, and unfinished otherwise |
| `WireErrors.WrongTypeIsRefused` | nebula.pb.go:1979-2160 | A known field with a wire type that is not its own is refused |
| `WireErrors.IllegalTagIsRefused` | nebula.pb.go:1972-1978 | An end of a group that was not begun and field number zero are refused |
| `WireErrors.CutNumberIsRefused` | nebula.pb.go:1951-2167 | A message cut off within a number is refused |
| `WireErrors.CutChunkIsRefused` | nebula.pb.go:1951-2167 | A message cut off within a length-delimited field or its length is refused |
| `Wire.VarintReads` | nebula.pb.go:1001-1011 | Every 64-bit integer is read back from its encoding, wherever it stands |
| `Wire.VarintIsBytes` | nebula.pb.go:1001-1011 | Every number written for a varint fits a byte |
| `Wire.SovIsLength` | nebula.pb.go:1167-1169 | The size computed from the bit length is the number of bytes of the encoding |
| `UnknownFields.ReadsThrough` | nebula.pb.go:2168-2245 | Whatever the parts of a message bring when read, they bring with any number of unknown fields anywhere among them, of every wire type and groups within groups included |
| `UnknownFields.ControlReadsThrough` | nebula.pb.go:1951-2167 | Every NebulaControl is read from its fields with unknown ones anywhere among them |
| `UnknownFields.DetailsReadThrough` | nebula.pb.go:1278-1579 | Every NebulaMetaDetails is |
| `UnknownFields.MetaReadsThrough` | nebula.pb.go:1173-1277 | Every NebulaMeta is, with unknown fields in its details as well |
| `UnknownFields.SkipsField` | nebula.pb.go:2168-2245 | skipNebula gets past every well-formed field, at whatever depth it stands, and ends right after it |
| `Marshal.EncodeVarint` | nebula.pb.go:1001-1011 | The encoding ends up right before the offset and nothing else in the buffer changes |
| `Marshal.MarshalControl` | nebula.pb.go:944-999 | The bytes end up at the end of the buffer, nothing else changes, and their number is returned |
| `Marshal.MarshalDetails` | nebula.pb.go:702-790 | The same for NebulaMetaDetails |
| `Marshal.MarshalMeta` | nebula.pb.go:662-685 | The same for NebulaMeta |
| `Marshal.MarshalAddr` | nebula.pb.go:807-823 | The same for Addr |
| `Marshal.MarshalV4` | nebula.pb.go:840-856 | The same for V4AddrPort |
| `Marshal.MarshalV6` | nebula.pb.go:873-894 | The same for V6AddrPort |
| `Marshal.WritePacked` | nebula.pb.go:733-750 | The packed field, gathered forwards and copied in backwards |
| `Marshal.ControlSize` | nebula.pb.go:1135-1165 | Size is exactly the number of bytes written |
| `Marshal.DetailsSize` | nebula.pb.go:1028-1070 | Size is exactly the number of bytes written |
| `Marshal.MetaSize` | nebula.pb.go:1012-1026 | Size is exactly the number of bytes written |
| `Marshal.AddrSize` | nebula.pb.go:1072-1085 | Size is exactly the number of bytes written |
| `Marshal.V4Size` | nebula.pb.go:1087-1100 | Size is exactly the number of bytes written |
| `Marshal.V6Size` | nebula.pb.go:1102-1118 | Size is exactly the number of bytes written |
| `Marshal.ControlToBytes` | nebula.pb.go:929-942 | A buffer of exactly Size bytes is filled to the first byte |
| `Marshal.ReadVarintLoop` | nebula.pb.go:1956-1970 | The loop with its shift is the specification's reading cut to 64 bits, overflow and end of input included |
| `Marshal.Unmarshal` | nebula.pb.go:1951-2167 | The loop over the fields, with its inner loops for tags, lengths, numbers, packed fields and skipping, is the specification's reading, for each of the message types |
| `Marshal.SkipNebula` | nebula.pb.go:2168-2245 | The loop with its count of groups is the specification's skipping, errors included |
| `Marshal.ReadPackedLoop` | nebula.pb.go:1431-1485 | The loop over packed elements is the specification's reading |
| `Marshal.ControlThereAndBack` | nebula.pb.go:929-999 | Marshal and then Unmarshal gives the NebulaControl back |
| `Marshal.MetaThereAndBack` | nebula.pb.go:662-790 | Marshal and then Unmarshal gives the NebulaMeta back |
| `PayloadWire.PayloadRoundTrip` | handshake/payload.go:37-173 | Every handshake payload is read back from its bytes |
| `PayloadWire.PayloadReadsThrough` | handshake/payload.go:68-173 | Every payload is read from its fields with any number of unknown ones anywhere among the details and beside them, exactly when none is nested deeper than protowire follows; otherwise it is refused |
| `PayloadWire.PiecesRead` | handshake/payload.go:100-173 | The same for the details alone, from any index and into any payload |
| `ProtoWire.ValueConsumed` | handshake/payload.go:165-170 | The value of an unknown field of every wire type is consumed to its end exactly when its groups are not nested too deep |
| `PayloadWire.MarshalPayload` | handshake/payload.go:37-65 | The bytes appended are those of the specification |
| `PayloadWire.UnmarshalPayload` | handshake/payload.go:68-98 | The consuming loop is the specification's reading, errors included |
| `PayloadWire.UnmarshalPayloadDetails` | handshake/payload.go:100-173 | The consuming loop over the details is the specification's reading, errors included |
| `PayloadWire.ThereAndBack` | handshake/payload.go:37-173 | Marshal and then Unmarshal gives the payload back |
| `WireErrors.DetailTypeIsRefused` | handshake/payload.go:100-173 | A known detail with a wrong wire type is refused |
| `WireErrors.WideNumberIsRefused` | handshake/payload.go:124-163 | An index or a version is refused exactly when it does not fit 32 bits; a time never is |
| `WireErrors.BadDetailsAreRefused` | handshake/payload.go:68-98 | Details that cannot be read make the payload unreadable |
| `Checksum.OnesSumIsFolded` | iputil/packet.go:492-510 | End-around carry word by word comes to the plain sum folded at the end, odd lengths included |
| `Checksum.OnlyTheSealVerifies` | iputil/packet.go:492-510 | A word in the place of the checksum verifies at the receiver exactly when it is the checksum, or all ones for zero |
| `Checksum.SealVerifies` | iputil/packet.go:492-510 | Re-summing with the checksum in its place, and the pseudo-header, gives zero |
| `Checksum.FoldStep` | iputil/packet.go:506-508 | A turn of the folding loop lowers the sum and keeps what it folds to |
| `Checksum.NothingWraps` | iputil/packet.go:492-502 | For up to 65536 bytes after a pseudo-header the uint32 sum never wraps |
| `Checksum.TcpipChecksum` | iputil/packet.go:492-510 | The two loops compute the complement of the folded uint32 sum, for any length and any start |
| `Checksum.Ipv4PseudoheaderChecksum` | iputil/packet.go:514-523 | The sum of the IPv4 pseudo-header's bytes, without wrap-around; of a longer length both halves count |
| `Checksum.Ipv6PseudoheaderChecksum` | iputil/packet.go:527-538 | The sum of the IPv6 pseudo-header's bytes, without wrap-around |
| `UpperProtocol.FoundIffChain` | iputil/packet.go:353-399 | The walk finds a result exactly when a chain of headers with at most seven before its end leads to it |
| `UpperProtocol.FoundInside` | iputil/packet.go:353-399 | The offset found lies in the packet after the fixed header, and for a later fragment its header does too |
| `UpperProtocol.EightHeadersAreTooMany` | iputil/packet.go:361-398 | A packet with eight or more extension headers is refused |
| `UpperProtocol.EightHeadersAreRefused` | iputil/packet.go:361-398 | One packet with eight extension headers and a TCP segment behind them that the walk does not find |
| `UpperProtocol.IPv6FindUpperProtocol` | iputil/packet.go:353-399 | The loop is the specification's walk |
| `RejectSpec.AnswersAreGood` | iputil/packet.go:39-346 | Every answer fits the buffer and MaxRejectPacketSize, goes back to the sender, has right lengths and header fields, verifies at the receiver in every checksum, and resets or quotes what it answers |
| `RejectSpec.OnlyResetsAreAnswered` | iputil/packet.go:39-346 | An answer is answered in turn exactly when it is a reset |
| `RejectSpec.ResetIs` | iputil/packet.go:178-204 | The reset follows section 3.4 of RFC 793: ports swapped, numbers and flags by whether the segment had ACK |
| `RejectRules.ResetIsFor` | iputil/packet.go:173-204 | For every segment put together from its fields, the reset is the one put together from the fields section 3.4 of RFC 793 asks for |
| `RejectRules.AnsweredIff` | iputil/packet.go:39-280 | With room, a packet is answered exactly when it is a first fragment of IPv4, or of IPv6 with a chain of at most seven headers, that has its whole TCP header or is no ICMP error |
| `RejectRules.RoomDecides` | iputil/packet.go:87-95 | With less room there is the same answer if it fits, and none otherwise |
| `RejectRules.AnswerLength` | iputil/packet.go:39-346 | How long every answer is |
| `RejectPacket.CreateRejectPacket` | iputil/packet.go:39-68 | The buffer holds the specification's answer at its front and is unchanged behind it, or unchanged; what is written passes the receiver |
| `RejectPacket.Ipv4CreateRejectICMPPacket` | iputil/packet.go:70-135 | The bytes written are the specification's, and no answer exactly in its cases |
| `RejectPacket.Ipv4CreateRejectTCPPacket` | iputil/packet.go:137-211 | The bytes written are the specification's, and no answer exactly in its cases |
| `RejectPacket.Ipv6CreateRejectPacket` | iputil/packet.go:213-224 | The bytes written are the specification's, and no answer exactly in its cases |
| `RejectPacket.Ipv6CreateRejectICMPPacket` | iputil/packet.go:226-280 | The bytes written are the specification's, and no answer exactly in its cases |
| `RejectPacket.Ipv6CreateRejectTCPPacket` | iputil/packet.go:282-346 | The bytes written are the specification's, and no answer exactly in its cases |

## Left out

- Cryptography and the Noise library: signatures, AEAD and Noise messages are abstract functions; honest parties are assumed.
- Deleting a tunnel that has relay entries, relay migration and relayed handshakes are not among the events of the relay runs; they break the pairing. Marking an Established entry Disestablished, as the loss of a tunnel that went by way of it does, and its recovery are; marking one that was never completed is not.
- Relay nodes have one vpn address each and their tunnels stay up; random indexes are draws that may fail but are fresh and not zero when they succeed.
- RelayRoles.DeliveredEndToEnd: stated for senders and addressees that are not relays, which is a matter of configuration; for others see the exact conditions in RelayRuns.
- RelayManager.RelayManager.StartRelay: one candidate with a direct tunnel; the loop over candidates is StartRelays, and forwarding the first handshake packet through an Established relay is left out.
- RelayManager.RelayManager.AddRelay: one draw; the 32 tries and make-primary are in HostMap.HostMap.AddRelay.
- HostMap.HostMap.DeleteHostInfo: the hostinfo must be known and have an address; what a delete of a hostinfo no longer live does when its indexes were reused is not modelled.
- The prefix tables of the firewall and of the hostmap are finite maps with containment, not tries.
- Firewall.Firewall.Drop: how the networks of a hostinfo and the routable networks are built from certificates is not modelled; they are given.
- The routine-local conntrack cache is deliberately stale; the model has none.
- TrafficWord.StateWord.MarkOut: one successful compare-and-swap; the retries of its loop change nothing and are not modelled.
- Bits.Bits.Update: counters near 2^64, where the sum of counter and length wraps, are excluded by a precondition.
- TimerWheel.TimerWheel.Advance: clocks that run backwards are excluded by a precondition, and durations are unbounded integers.
- Inside PendingSpec a hostinfo is a record under an identity, not a heap object shared with the host map; MainTable connects the two.
- PendingSpec.CheckAndCompleteOk: the two refusals that depend on tunnels already there are a flag, either way; they are spelled out on the host map in Responding.
- HandshakeManager.HandshakeManager.CheckAndComplete: the same flag, and the evicted tunnels are a set given with the call; which ones go is in MainTable and HostMapEffects.
- HandshakeManager.HandshakeManager.Complete: the evicted tunnels are a set given with the call; which sets there can be is in MainTable.
- The lighthouse, hole punching, roaming, multiple underlay addresses and packet caching of the handshake manager do not touch the tables modelled and are left out.
- ConnectionManager.ConnectionManager.Judge: certificate validity, the primary tunnel and inactivity are findings given with each check.
- ConnectionManager.ConnectionManager.MakeTrafficDecision: the same findings are given.
- RelayProgress.AttemptSucceedsIff: for one attempt with the draws of indexes free and distinct where an entry is missing, the tunnels up and the relay switched on.
- ConntrackLife.AdmittedAgain: stated for events that leave the packet to the firewall that let it through; another firewall on the same table may drop, renew or re-version it by its own rules, which is what LookUpIff says.
- WireErrors.CutChunkIsRefused: for numbers and length-delimited fields the reader knows; a cut within an unknown field is not stated.
- LiveTunnels.DeletedOk: a doomed tunnel is deleted only if it is still the one at its index; the source deletes whatever is at the index, which differs only for a hostinfo that is no longer live.
- NebulaPing, the header and the certificate messages would only add easy members.
- Messages.ControlRoundTrip: for field values within their Go types and byte strings shorter than 2^63; the same for the other round trips.
- Wire.Skip: which of two errors is reported for a length near 2^63 is not distinguished.
- UnknownFields.ReadsThrough: for messages shorter than 2^63 bytes in all, which every Go slice is.
- PayloadWire.UnmarshalPayload: the functions of protowire it calls are written out from their documented behaviour, as functions.
- RejectPacket.CreateRejectPacket: the packet is a value, so a buffer that overlaps the packet is not modelled.
- Echo responses and the checksum validation of iputil/checksum.go use the same sums and are left out.
- Locks, goroutines and the memory model below atomic steps; logging, metrics other than the window's counts, configuration, I/O.
