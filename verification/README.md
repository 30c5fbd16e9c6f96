# Peer-connection manager of `saved`

`saved` keeps two peers connected over whatever addresses libp2p reports. This project models the
part that decides: the network view (`src/view.rs`), the event handlers that reconcile connections,
switch between active and passive mode and track relays (`src/network/mod.rs`), and the relay
reservations (`src/network/relay_manager.rs`). The libp2p swarm is the environment: it announces
connections as opened and closed, reports addresses, answers a dial at once with yes or no, and
honours a requested close at some later step.

## Layout

| file | what it holds |
|---|---|
| `LexOrder.dfy`, `Multiaddr.dfy`, `Classify.dfy` | byte order, peer ids and addresses, `classify_addr` |
| `Metadata.dfy`, `AddressList.dfy`, `AddressListFacts.dfy` | one peer's best-first address vector as a value, and its abstraction `TableOf`: address to entry, order forgotten |
| `Effects.dfy`, `Reconcile.dfy`, `DialRecursion.dfy` | requests to the swarm; one call of reconcile; when its recursion ends |
| `Views.dfy`, `Relays.dfy`, `Nodes.dfy` | the whole view, the relay reservations and the node, as values and functions |
| `NetworkView.dfy`, `RelayManager.dfy`, `SavedNetwork.dfy` | the same as classes updated in place, each method proved against its function |
| `NodeFacts.dfy`, `NodeRuns.dfy`, `SwarmRuns.dfy`, `Returning.dfy` | what one input does; whole runs of one node; the view against the swarm; which inputs a handler returns from |
| `HandlerLaws.dfy` | each handled input field by field and request by request, in terms of the state before it and the connection record alone |
| `Announcements.dfy` | what the connection events sent, and the entries made in Kademlia, add up to |
| `TwoNodes.dfy`, `Migration.dfy` | two nodes linked to each other, in every interleaving |
| `Witnesses.dfy`, `LinkWitnesses.dfy` | runs in which a condition of a theorem fails, and with it what the theorem says, for one node and for two |

The classes follow the program; the functions say what each method does to the state it finds; the
lemmas are about those functions and about runs of them. An input carries one clock value `now`,
where the program reads the clock again for every key it sorts by: time is taken to stand still
during one event. It also carries the set of addresses the swarm would reject if dialled during that
event. Instants and durations are nanoseconds.

## Main results

- **Connectivity of two nodes** (`TwoNodes.ConnectedForever`). Exactly one of two distinct peers is
  prune leader. Once both share a link that is up and that nobody is closing, they share one at every
  later point of every run: the leader never asks to close the last one, although the view still
  lists links whose close is pending, and although an expiring address makes it forget links. Relay
  eviction must not disconnect the two from each other; it never does when neither registers the
  other as a relay (`TwoNodes.UnrelayedConnectedForever`). The first eviction of a run takes the last
  such link exactly if all of them had been announced to the node that evicts
  (`TwoNodes.EvictionExactly`, `LinkWitnesses.EvictionDisconnects`).
- **The dial recursion** (`DialRecursion.EndsExactlyWhen`, `Returning.HandlerReturnsExactlyWhen`).
  A handler that finds its peer unconnected returns if and only if the swarm accepts some address
  that is not cooling down, or the statically first address of all. Otherwise no number of recursive
  calls is enough; `Returning.RejectedNewPeerNeverReturns` gives the smallest such input: the first
  address of a new peer, rejected.
- **Relay policy** (`NodeRuns.RelayPolicyAlways`, `HandlerLaws.RelayLaw`, `HandlerLaws.UsageLaw`,
  `Relays.PruneMeetsPolicy`). At every event boundary every relay in use is reserved, none is queued
  twice, and at most `max_relays` are reserved without being used. The usage set is always that of the
  connections recorded after the last connection event or accepted reservation. Each of these evicts
  exactly the surplus, slowest relay first by the round-trip times in the view, never a relay in use;
  that policy leaves it no choice (`Relays.PolicyDeterminesSurvivors`).
- **Cooldown and preference** (`NodeRuns.CoolingLaw`, `NodeRuns.ShownHeadIsBest`). In every run a
  listed address cools down exactly until 2, 4, 8, 16, 32 or 64 seconds after its last rejected dial,
  by the number of rejections since its last success; and reconcile always finds the preferred
  address at the head: not cooling down before cooling, then the nearer scope, then the faster
  transport, then the smaller address.
- **Handlers** (`HandlerLaws.FirstDials`, `HandlerLaws.MigrationDial`, `HandlerLaws.SpokenLaw`,
  `HandlerLaws.IdentifyLaw`). Whom a handler dials, what it tells, which behaviours it switches, whom it
  asks for a reservation and on which address, is determined by the state it finds and the connections
  recorded after it.
- **Passive mode** (`SwarmRuns.PassiveMeansLive`, `NodeRuns.PassiveExactly`). A passive node is really
  connected to all its targets, at every event boundary of a run, exactly when no target without a
  live connection is added in passive mode. That its view records these connections needs more:
  exactly that no target unconnected in the view is added in passive mode, and that no address expires
  that carries a target's last recorded connections. An expiry can make the view wrong, but the close
  of the forgotten connection still makes the node active. Runs show that each condition is needed.
- **Migration** (`Migration.BestNeverWorsens`, `Migration.BoundedImprovements`,
  `Migration.PruningSettles`, `Migration.QuiescenceAfterPruning`). Call an address live at the leader
  if it carries a recorded link that nobody is closing. From a fresh start, the rank of the best live
  address never worsens if and only if that address never expires while it is the best; expiries of
  any other address do no harm. Until then it strictly improves at most n - 1 times over n addresses.
  After any pruning with the best address up, and until a new link is announced, the links that nobody
  is closing all lie on the address kept then; with all closes delivered nothing else is recorded, and
  what is recorded are exactly the links left open there, if and only if there were none or that
  address has not expired. The links there were all open if none was being closed already, which is so
  as long as the best live address has not expired. `LinkWitnesses.BestExpiryWorsens` is a run in which
  the best live address expires and the leader ends up on a worse one, `LinkWitnesses.KeptIsClosing`
  one in which a pruning keeps an address whose only link is being closed.
- **The view** (`NodeRuns.ViewRefinesMap`, `SwarmRuns.RecordedEqualLiveExactly`,
  `SwarmRuns.IsConnectedExactly`). The per-peer scans behave as one finite map from connection ids to
  addresses, and that map is what the swarm has live exactly on runs where no address expires with a
  connection recorded on it; so does `is_connected_over` answer exactly. `is_connected` does on more
  runs: exactly on those in which every expiry, and every close, leaves a peer that stays live another
  recorded connection.

## Where the code differs from its comments

The model follows the code.

- Reconcile is documented as keeping at most one connection per peer (`src/network/mod.rs:329`); it
  keeps every connection on the best address.
- The backoff is documented as 1, 2, 4, … seconds (`src/view.rs:288`); the count is raised before it
  is used, so the first cooldown lasts 2 seconds (`Metadata.BackoffSchedule`).
- A relay that is in the view but was never pinged ranks by a round-trip time of zero, the default of
  the field (`src/view.rs:13-22`), not by the largest duration (`src/network/relay_manager.rs:81-85`).
- Removing an address drops the connection ids recorded on it (`src/view.rs:133-135`), so the view can
  lose live connections.

## Model

| member | source | states |
|---|---|---|
| Multiaddrs.ExactlyOnePruneLeader | src/network/mod.rs:324-327 | of two peers, exactly one takes itself for prune leader if and only if they are distinct |
| Multiaddrs.PruneLeaderMeaning | src/network/mod.rs:324-327 | the leader's identity is smaller at the first byte where the two differ, or ends there |
| Multiaddrs.BytesInjective | src/view.rs:316-326 | distinct addresses are never tied in the address order |
| Classify.ClassifyAddr | src/view.rs:329-369 | the classification loop computes the scope and transport folds that the next three rows give meaning to |
| Classify.ScopeStepMeansRanges | src/view.rs:335-355 | the octet patterns and masks pick out exactly the private and link-local ranges of RFC 1918 section 3, RFC 3927 section 2.1, RFC 4193 section 3.1 and RFC 4291 section 2.4 |
| Classify.ScopeIsLastIp | src/view.rs:329-355 | the last IP component alone decides the scope; without one the scope is public |
| Classify.TransportMeaning | src/view.rs:356-364 | an address is classed Relay exactly when no QUIC or TCP component follows its last circuit, QUIC exactly when no circuit follows some QUIC component, Other exactly when it has none of the three |
| Metadata.BackoffSchedule | src/view.rs:94-103 | from the first failure on the cooldown is between 2 and 64 seconds, never shrinks, at least doubles up to the sixth failure and is 64 seconds from there on |
| Metadata.CoolingExactly | src/view.rs:94-103 | an entry is cooling down if and only if it has a failure and less than 2, 4, 8, 16, 32 or 64 seconds have passed since, for 1, 2, 3, 4, 5 or more failures |
| Metadata.BetterMeaning | src/view.rs:27-66 | one address is better than another if and only if its scope comes first in private, link-local, public; or the scopes are equal and its transport comes first in QUIC, TCP, other, relayed; or both are equal and its bytes come first |
| Metadata.BeforeMeaning | src/view.rs:316-326 | the sort key puts cooling entries behind all others and orders by that preference within each group |
| Metadata.BetterTotal | src/view.rs:316-326 | the static priority of two different addresses is never equal |
| AddressList.ResortKeepsTable | src/view.rs:316-326 | re-sorting yields a strictly sorted list with the same entries |
| AddressList.SortedFormIsCanonical | src/view.rs:316-326 | entries and clock determine the sorted list |
| AddressList.ResortIdempotent | src/view.rs:316-326 | sorting twice at one instant is sorting once |
| AddressListFacts.AddAddressFacts | src/view.rs:106-129 | learning an address adds one fresh entry if it was unknown and changes nothing else; the list ends up sorted and well-formed |
| AddressListFacts.RemoveAddressFacts | src/view.rs:131-140 | forgetting an address removes that entry, with the connections on it, and nothing else |
| AddressListFacts.AddConnectionFacts | src/view.rs:142-201 | whether the id is new, moves or is already there: afterwards it is recorded on the endpoint's address and nowhere else, that address has no failure record, everything else is as before |
| AddressListFacts.RemoveConnectionFacts | src/view.rs:203-216 | the id is recorded nowhere afterwards; all other ids, addresses and failure records stay |
| AddressListFacts.MarkFailureFacts | src/view.rs:290-297 | a failure changes the count and time of that one entry and leaves the list sorted |
| AddressListFacts.ConnectionMapRefinement | src/view.rs:142-216 | looking up any id after each edit gives what an update, a deletion or a deletion by value of one map would give |
| AddressListFacts.AddAddressesCommute | src/view.rs:106-129 | learning two addresses at one instant gives the identical vector in either order |
| AddressListFacts.RemoveUndoesAdd | src/view.rs:131-140 | forgetting a freshly learnt address restores the sorted list |
| AddressListFacts.HeadIsBest | src/view.rs:307-315 | the head of a sorted list is statically no worse than any entry not cooling down, hence than any connected address, and then is not cooling down itself |
| AddressListFacts.HeadIsPreferred | src/view.rs:307-326 | the head of a sorted list comes before every other entry: not cooling down while the other is, or alike in that and preferred by scope, transport and bytes |
| AddressListFacts.NewConnectionLast | src/view.rs:187-193 | a new connection is the last one on its address |
| AddressListFacts.LastTakesPlace | src/view.rs:203-213 | where a connection is removed, the last one on its address takes its place |
| NetworkViews.PeerInfoExt.MarkFailure | src/view.rs:290-297 | in place: the saturating count, the error time and the re-sort of the list function |
| NetworkViews.PeerInfoExt.AddConnection | src/view.rs:154-200 | in place: moving an id between entries, creating an entry, clearing the backoff and re-sorting give the list function's result |
| NetworkViews.PeerInfoExt.RemoveConnection | src/view.rs:203-213 | in place: the scan that stops at the first holder removes the id as the list function does |
| NetworkViews.NetworkView.AddAddress | src/view.rs:106-129 | in place: only this peer's record changes, as `LearnAddress` says; answers whether the address was new |
| NetworkViews.NetworkView.RemoveAddress | src/view.rs:131-140 | in place: as `ForgetAddress` says, dropping a peer left without addresses |
| NetworkViews.NetworkView.AddConnection | src/view.rs:142-201 | in place: as `OpenConnection` says, creating the peer if needed, other peers untouched |
| NetworkViews.NetworkView.RemoveConnection | src/view.rs:203-216 | in place: as `DropConnection` says; an unknown peer changes nothing |
| NetworkViews.NetworkView.SetProtocols | src/view.rs:252-274 | in place: stores the protocols and sets the hop flag from them, creating a peer without addresses if it was unknown |
| NetworkViews.NetworkView.IsConnected | src/view.rs:230-235 | in a well-formed view, true exactly if some connection of the peer is recorded on some address |
| NetworkViews.NetworkView.IsConnectedOver | src/view.rs:218-228 | in a well-formed view, true exactly if some connection of the peer is recorded on that address |
| Reconcile.EveryCallSeesSortedList | src/network/mod.rs:340-341 | every call, recursive ones included, sees a list sorted for the current clock, so position 0 holds the true minimum |
| Reconcile.RunKeepsConnections | src/network/mod.rs:330-428 | a call lists, unlists and moves nothing; failures recorded are exactly the rejected dials, each with the current time |
| Reconcile.RunCloses | src/network/mod.rs:344-365 | a connection is asked to close if and only if we lead, the head is up, and it is recorded on an address other than the head |
| Reconcile.FuelMonotone | src/network/mod.rs:370-379 | allowing more recursive calls never changes a result |
| DialRecursion.DialsFirstAcceptedReady | src/network/mod.rs:370-379 | the first accepted address not cooling down is dialled, after exactly one rejected dial for each better one, in rank order, with that many recursive calls |
| DialRecursion.ThenDialsStaticallyFirst | src/network/mod.rs:370-379 | with every address not cooling down rejected, the statically first address is dialled next, cooling down or not, and ends the recursion if accepted |
| DialRecursion.ElseNeverEnds | src/network/mod.rs:370-379 | rejected too, it is dialled for ever: no number of recursive calls suffices |
| DialRecursion.EndsExactlyWhen | src/network/mod.rs:370-379 | the recursion for an unconnected peer ends if and only if some address not cooling down is accepted or the statically first one is |
| Relays.RelayMeaning | src/network/relay_manager.rs:106-122 | the relay of an address is the last peer id before its first circuit, if there are both; having one implies being a relay address |
| Relays.ListenAddressRoundTrip | src/network/mod.rs:632-636 | the address listened on for a reservation at r names r as its relay exactly when the base address is not relayed, or relayed through r already |
| Relays.RttMeaning | src/network/relay_manager.rs:73-88 | relays are compared by the round-trip times in the view; one the view does not know counts as the longest duration there is |
| Relays.PruneMeetsPolicy | src/network/mod.rs:461-474 | eviction removes max(0, reserved - in use - max) relays, none in use, each slower than every unused survivor, or as slow and later in the queue; the slower go earlier; survivors keep their order |
| Relays.SomeUnused | src/network/relay_manager.rs:73-88 | pigeonhole: while eviction is due there is an unused relay, so the loop never stops early |
| Relays.PolicyDeterminesSurvivors | src/network/mod.rs:461-474 | that policy determines the survivors, and who goes in which order |
| Relays.AdmissionMeansNoEviction | src/network/relay_manager.rs:32-71 | from a state within bounds, registering a relay makes eviction do nothing if and only if admission had said yes |
| RelayManagers.RelayManager.CanReserve | src/network/relay_manager.rs:32-40 | from a duplicate-free queue within bounds, says yes exactly if taking the relay in would leave the eviction loop nothing to do, whatever the round-trip times |
| RelayManagers.RelayManager.Register | src/network/relay_manager.rs:43-47 | appends a relay unless it is queued |
| RelayManagers.RelayManager.RecomputeInUse | src/network/relay_manager.rs:50-63 | the scan over all peers and entries leaves exactly the relays under connections recorded in the view |
| RelayManagers.RelayManager.Remove | src/network/relay_manager.rs:91-98 | removes the relay if it is queued and says whether it was |
| RelayManagers.ExtractRelayPeer | src/network/relay_manager.rs:112-122 | the scanning loop computes the relay that `Relays.RelayMeaning` describes |
| RelayManagers.AddrIsRelay | src/network/relay_manager.rs:106-108 | true exactly if some component is a circuit |
| SavedNetworks.SavedNetwork.constructor | src/network/mod.rs:156-168 | a new node has an empty view, no relays, no targets, is active, with mDNS on and Kademlia off |
| SavedNetworks.SavedNetwork.ReconcilePeerConnections | src/network/mod.rs:330-428 | the recursive method leaves the state and makes the requests that `Nodes.ReconcilePeer` says, or has not returned within the given number of calls |
| SavedNetworks.SavedNetwork.PruneRelays | src/network/mod.rs:461-474 | the while loop leaves the queue and disconnects the relays that the policy rows describe |
| SavedNetworks.SavedNetwork.SwitchModeAfterOpen | src/network/mod.rs:302-316 | the loop over the targets, in any order, makes the node passive exactly if all are connected |
| SavedNetworks.SavedNetwork.SetActiveMode | src/network/mod.rs:430-446 | sets the mode; going active switches Kademlia on as a client and mDNS on, and looks up all targets; going passive switches Kademlia off |
| SavedNetworks.SavedNetwork.SetKadEnabled | src/network/mod.rs:724-750 | creates Kademlia only if it is off, hands it the mode whenever it is switched on, drops it only if it is on |
| SavedNetworks.SavedNetwork.SetMdnsEnabled | src/network/mod.rs:701-722 | creates mDNS only if it is off, drops it only if it is on |
| SavedNetworks.SavedNetwork.ShouldSkip | src/network/mod.rs:86-98 | true exactly for a link-local IPv6 address without a zone |
| SavedNetworks.SavedNetwork.OnAddAddress | src/network/mod.rs:234-255 | mirrors the address into Kademlia, while that is on, and reconciles, only for a new address that can be dialled |
| SavedNetworks.SavedNetwork.OnRemoveAddress | src/network/mod.rs:257-263 | forgets the address, takes it out of Kademlia while that is on, then reconciles |
| SavedNetworks.SavedNetwork.OnPeerConnectionClosed | src/network/mod.rs:265-288 | drops the connection, tells subscribers, goes active if a target is lost, reconciles, refreshes the relay state, in this order; the `HandlerLaws` rows say what that leaves and requests |
| SavedNetworks.SavedNetwork.OnPeerConnectionOpened | src/network/mod.rs:290-322 | records the connection, tells subscribers, switches mode, reconciles, refreshes the relay state, in this order |
| SavedNetworks.SavedNetwork.OnConnectionEstablished | src/network/mod.rs:526-556 | as above; only then registers the relay used and refreshes again |
| SavedNetworks.SavedNetwork.TrackRelay | src/network/mod.rs:652-662 | registers a relay and refreshes the relay state |
| SavedNetworks.SavedNetwork.OnIdentify | src/network/mod.rs:596-651 | handles protocols, each listen address and the reservation request one after the other; stops where one of them does not return |
| SavedNetworks.SavedNetwork.RequestReservation | src/network/mod.rs:607-650 | asks a hop-capable peer with an address for a reservation exactly if admission says yes, on the address that `HandlerLaws.RequestLaw` describes |
| SavedNetworks.SavedNetwork.OnPing | src/network/mod.rs:487-510 | records the round-trip time of an answered ping on a recorded connection, otherwise changes nothing |
| SavedNetworks.SavedNetwork.AddTargetPeer | src/network/mod.rs:780-782 | adds the target and says whether it was new; mode and connections stay |
| SavedNetworks.SavedNetwork.RemoveTargetPeer | src/network/mod.rs:784-786 | removes the target and says whether it was there |
| SavedNetworks.SavedNetwork.OnInput | src/network/mod.rs:476-698 | every input, from the swarm or the user, leaves the state and makes the requests that `Nodes.Handle` says |
| NodeFacts.HandleFacts | src/network/mod.rs:234-322 | beyond its own edit, a handler moves no connection, records exactly its rejected dials, and closes exactly what lies off an up head when it leads |
| NodeFacts.HandleRecords | src/network/mod.rs:234-322 | connections recorded after an input: one added, one removed, or those on one address removed |
| HandlerLaws.ReconcilesWhen | src/network/mod.rs:234-322 | an input leads to a reconcile exactly if it opens or closes a connection, expires an address, or brings an unlisted address that is not link-local IPv6 (fe80::/10) without a zone |
| HandlerLaws.RelayLaw | src/network/mod.rs:453-474 | after an opened or closed connection or an accepted reservation the usage set is exactly the relays under recorded connections, and the queue, with the registered relay at its end, has lost exactly the surplus by the eviction policy, which is who is disconnected; other inputs touch no relay |
| HandlerLaws.CloseEvictsExactly | src/network/mod.rs:284-285 | a closed connection disconnects max(0, queued - in use - max) relays |
| HandlerLaws.UsageLaw | src/network/relay_manager.rs:50-63 | over every run, the usage set is that of the view after the last such input, and empty before the first |
| HandlerLaws.EvictionsLast | src/network/mod.rs:284-319 | within one event, relays are disconnected after all dials and closes |
| HandlerLaws.RequestLaw | src/network/mod.rs:607-650 | a reservation is asked for if and only if the peer is known, hop-capable, admitted and has an address; on the head extended by the peer and a circuit, which names the peer as relay exactly when the head is not relayed or relayed through it |
| HandlerLaws.RequestedHead | src/network/mod.rs:620-636 | while the list is sorted, that head is preferred to every other address |
| HandlerLaws.FirstDials | src/network/mod.rs:366-380 | for an unconnected peer a handler dials the addresses not cooling down, in list order, up to the first accepted one; with all of them rejected, next the statically first of all |
| HandlerLaws.MigrationDial | src/network/mod.rs:380-427 | for a connected peer a handler dials the head, once, if and only if we lead and the head has no connection; otherwise nobody |
| HandlerLaws.ListedLaw | src/view.rs:106-201 | an address is listed by being learnt or by carrying a new connection and unlisted by expiring; a new connection is recorded on the address dialled, or on the one a listener would dial back |
| HandlerLaws.KnownLaw | src/view.rs:236-250 | a peer becomes known by a connection, an address or its protocols, and is dropped when a close or an expiry finds it without addresses |
| HandlerLaws.InfoLaw | src/view.rs:252-274 | protocols and hop flag are those last announced, the round-trip time that of the last answered ping on a recorded connection; a new peer starts with none, no and zero |
| HandlerLaws.SpokenLaw | src/network/mod.rs:234-322 | before anything else a handler tells of the connection, then switches mode with Kademlia, mDNS and the lookup of all targets, and mirrors addresses into Kademlia while it is on, exactly as the connections recorded afterwards demand; mode, targets and behaviours end up accordingly |
| HandlerLaws.IdentifyLaw | src/network/mod.rs:596-651 | an Identify event stores the protocols, lists the addresses that can be dialled, and asks for a reservation exactly if the protocols include a hop protocol, the relay is admitted and it then has an address |
| NodeRuns.ReachableIsGood | src/view.rs:105-216 | in every reachable state each peer's addresses are unique, a connection id is on one address, and entries are classified correctly |
| NodeRuns.ConnectedNeverCooling | src/network/mod.rs:344-416 | in every reachable state an address with a connection has no recorded failure and is not cooling down at any time |
| NodeRuns.ShownHeadIsBest | src/network/mod.rs:340-342 | in every run the list reconcile is shown is sorted for that moment, and for a connected peer its head is not cooling down and is, or is preferred by scope, transport and bytes to, every connected address |
| NodeRuns.ViewRefinesMap | src/view.rs:142-216 | over every run the view's lookups equal those of one finite map updated by the inputs |
| NodeRuns.RelayPolicyAlways | src/network/mod.rs:526-566 | at every event boundary of every run the relay policy holds, despite the update before registering and despite stale usage after an expiry |
| NodeRuns.AcceptanceEvictsNobodyExactly | src/network/mod.rs:652-662 | over every run, accepting a reservation evicts nobody if and only if the queue with that relay in it is no longer than the relays in use then plus the spare ones; otherwise exactly the surplus |
| NodeRuns.GrantedReservationEvictsNobody | src/network/mod.rs:607-662 | a reservation admitted when asked for evicts nobody when accepted later, if no relay was queued in between that was not queued before and no fewer relays are in use |
| Witnesses.RequestsInFlight | src/network/mod.rs:607-662 | a run showing that admission when asking is not enough: two requests admitted with room for one, and the second acceptance evicts, with view and usage unchanged |
| NodeRuns.HandleEvicts | src/network/mod.rs:461-474 | an input can disconnect only relays that were reserved or that it registers itself |
| NodeRuns.PassiveStep | src/network/mod.rs:265-322 | one input keeps passive mode honest if and only if it is no unconnected target added in passive mode and no expiry of a target's last connected address |
| NodeRuns.PassiveExactly | src/network/mod.rs:265-322 | over whole runs: passive implies all targets connected at every boundary if and only if every input is of that kind |
| NodeRuns.BackoffLaw | src/view.rs:286-305 | at every boundary a listed address has as count the rejected dials since its last success (saturating at 4294967295), as error time that of the last of them, and an unlisted one has none |
| NodeRuns.CoolingLaw | src/view.rs:94-103 | at every boundary a listed address is cooling down at any given time exactly until 2, 4, 8, 16, 32 or 64 seconds after its last rejected dial, by the rejections since its last success |
| SwarmRuns.RecordedAreLive | src/view.rs:131-235 | over every run what the view records is live, for that peer and over that address |
| SwarmRuns.RecordedEqualLiveExactly | src/view.rs:131-140 | recorded and live coincide throughout a run if and only if no address expires with a connection recorded on it |
| Witnesses.ExpiryForgetsLive | src/view.rs:131-140 | a run in which an address expires with a connection on it: the connection stays live and the view has no connection to the peer |
| SwarmRuns.ConnectivityAnswers | src/view.rs:218-235 | on all runs a yes of the two connectivity queries is right; on runs that meet the previous condition they answer exactly |
| SwarmRuns.IsConnectedExactly | src/view.rs:230-235 | `is_connected` is right for every peer throughout a run if and only if every expiry leaves a peer with a live connection another recorded one off the address, and every close leaves another recorded one if another one is live |
| SwarmRuns.IsConnectedOverExactly | src/view.rs:218-228 | `is_connected_over` is right for every peer and address throughout a run if and only if no address expires with a connection recorded on it |
| SwarmRuns.PassiveMeansLive | src/network/mod.rs:265-322 | over whole runs: passive implies a live connection to every target at every boundary if and only if no target without a live connection is added in passive mode |
| Witnesses.UnconnectedTargetAdded | src/network/mod.rs:780-782 | a run in which only the last input, adding a target without a live connection, breaks that condition, and passive mode is wrong afterwards |
| Returning.HandlerReturnsExactlyWhen | src/network/mod.rs:330-380 | a handler returns if and only if it reconciles nobody, a peer without addresses, a connected peer, or a peer with an acceptable dial in the sense above |
| Returning.RejectedNewPeerNeverReturns | src/network/mod.rs:234-255 | learning the first address of an unknown peer never returns when the swarm rejects that address |
| Announcements.ConnectionEventsAddUp | src/network/mod.rs:265-300 | over every run, the connection events sent add up to exactly the live connections, even where the view has forgotten some |
| Announcements.RoutesAreListed | src/network/mod.rs:234-263 | over every run, what was put into Kademlia's table and not taken out is listed in the view, and nothing is in it while Kademlia is off |
| Announcements.KadOnlyWhileActive | src/network/mod.rs:430-446 | over whole runs: Kademlia is off in passive mode at every boundary if and only if the user never switches it on in passive mode |
| Witnesses.TargetConditionNeeded | src/network/mod.rs:780-782 | a run in which only the last input, adding an unconnected target, breaks the condition, and passive mode is wrong afterwards |
| Witnesses.AddressConditionNeeded | src/network/mod.rs:257-263 | the same for the expiry of a target's only connected address |
| TwoNodes.InvStep | src/network/mod.rs:324-365 | every step of either node or of the links keeps: some link nobody closes has dropped out of the leader's view, or every link being closed sits on an address strictly worse than one with a link nobody closes |
| TwoNodes.LinkStep | src/network/mod.rs:344-365 | no step takes away the last link that is up and that nobody is closing |
| TwoNodes.ConnectedForever | src/network/mod.rs:324-365 | over every run, once there is such a link there is one ever after |
| TwoNodes.UnrelayedConnectedForever | src/network/mod.rs:324-474 | the same with relay eviction left free, for nodes that never register each other as a relay |
| TwoNodes.EvictionExactly | src/network/mod.rs:461-474 | with eviction requesting the close of every link announced to the evicting node: the first eviction of a run, and nothing before it, takes the last link that nobody is closing, if and only if every such link had been announced |
| LinkWitnesses.EvictionDisconnects | src/network/mod.rs:461-474 | a run in which the leader evicts the follower as a relay, and their only link with it |
| Migration.BestStep | src/network/mod.rs:340-427 | from a state in which every link being closed sits on an address strictly worse than one with a link nobody closes, one step keeps or improves the rank of the leader's best live address if and only if that address does not expire in it |
| Migration.BestNeverWorsens | src/network/mod.rs:340-427 | over every run from a fresh start, that rank never worsens if and only if the best live address never expires while it is the best |
| Migration.LaterIsNoWorse | src/network/mod.rs:340-427 | until then, every later state matches or beats the best live address of every earlier one |
| Migration.BoundedImprovements | src/network/mod.rs:380-427 | until it does, the best live address strictly improves at most n - 1 times over n addresses |
| Migration.PruningSettles | src/network/mod.rs:344-365 | in every reachable state, a pruning leaves exactly the links off the kept address being closed if and only if none on it was; so it is until the best live address expires |
| Migration.OpenLinksOnKept | src/network/mod.rs:344-365 | in every run, after a pruning with the best address up and until a new link is announced to the leader, every recorded link that nobody is closing lies on the kept address and is up |
| Migration.QuiescenceAfterPruning | src/network/mod.rs:344-365 | with all closes delivered besides, everything recorded lies on the kept address and is up; it is exactly the links there that nobody was closing after the pruning, if and only if there were none or the address has not expired |
| Migration.QuiescenceKeepsAll | src/network/mod.rs:344-365 | if no link on the kept address was being closed and it does not expire, all links there remain, and there are some |
| LinkWitnesses.KeptIsClosing | src/network/mod.rs:344-365 | a run in which a pruning keeps an address whose only link is already being closed |
| LinkWitnesses.BestExpiryWorsens | src/network/mod.rs:257-263 | a run in which exactly one input makes the best live address expire: that step loses its rank, the old link stays up with nobody closing it, and the best live address at the end is worse |

## Left out

- SavedNetworks.SavedNetwork.ReconcilePeerConnections: the recursion is cut off after a given number of calls, because it need not end; every result is stated for all numbers of calls, and a handler that never returns ends a run.
- TwoNodes.ConnectedForever: assumes that links go down only after a requested close and that relay eviction does not disconnect the two nodes from each other, which `TwoNodes.UnrelayedConnectedForever` derives from the inputs and `TwoNodes.EvictionExactly` does without for one step; link ids are shared by both ends, a renaming of the ids of two swarms.
- Clock: one value per event; the program reads the clock per sort key. Drift inside one sort is not modelled.
- Dial answers: fixed per address during one event, arbitrary between events.
- Failing `?` steps: event sends and Kademlia or mDNS toggles are taken to succeed, so no handler stops half-way for that reason.
- Order on addresses: lexicographic on a self-delimiting encoding of the components, standing for the byte order of the multiaddr library, which is not part of this model; the results use only that it is a strict total order.
- The library sort behind `resort` is a stable insertion sort; with unique addresses any sort gives the same list.
- mDNS and Kademlia results with several addresses are several inputs; what those two protocols, ping, AutoNAT, identify and DCUtR do inside is environment.
- Kademlia: what its modes mean, and what it does to its routing table by itself; looking up the targets is one request instead of one per target.
- The answer of `listen_on` is only logged; the request is recorded, its outcome arrives as a later input.
- Subscriber events other than those about connections: they pass on what libp2p reports. What is stated is about events sent; the channel keeps 64 of them, and a slow or late subscriber misses some.
- Remote-call plumbing, `dial` and lookups offered to the user, key generation, printing, heartbeat and statistics: thin wiring without decisions.
- Lengths and counts are unbounded except the failure count, whose u32 saturation is modelled.
