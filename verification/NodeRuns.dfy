/** Properties of whole runs of one node: relay policy, passive mode, failure counts, and the view
    against the swarm. */
module NodeRuns {
  import opened Options
  import opened Multiaddrs
  import opened Metadata
  import opened AddressList
  import opened AddressListFacts
  import opened Effects
  import opened Views
  import opened Relays
  import opened Nodes
  import opened NodeFacts
  import Reconcile

  /** `states` are the states at the event boundaries of a run in which every handler returned. */
  ghost predicate IsRun(states: seq<Node>, ticks: seq<Tick>) {
    && |states| == |ticks| + 1
    && forall i | 0 <= i < |ticks| :: Handle(states[i], ticks[i]).Some? && Handle(states[i], ticks[i]).value.node == states[i + 1]
  }

  ghost predicate StartsFresh(states: seq<Node>) {
    states != [] && exists local, max :: states[0] == Fresh(local, max)
  }

  lemma FreshIsGood(local: PeerId, max: nat)
    ensures GoodView(Fresh(local, max).view)
    ensures forall p, cid, a :: !Records(Fresh(local, max).view, p, cid, a)
    ensures forall p :: TableAt(Fresh(local, max).view, p) == map[]
  {
    assert TableOf([]) == map[];
  }

  /** Every reachable view is well-formed: addresses unique, connection ids on one address each,
      connected addresses without a failure record. */
  lemma {:induction false} ReachableIsGood(states: seq<Node>, ticks: seq<Tick>, i: nat)
    requires IsRun(states, ticks) && StartsFresh(states) && i < |states|
    ensures GoodView(states[i].view)
  {
    hide Handle, GoodView, Fresh;
    if i == 0 {
      var local, max :| states[0] == Fresh(local, max);
      FreshIsGood(local, max);
    } else {
      ReachableIsGood(states, ticks, i - 1);
      HandleRecords(states[i - 1], ticks[i - 1]);
    }
  }

  /** In every reachable state a connected address is not cooling down, whatever the time. */
  lemma ConnectedNeverCooling(states: seq<Node>, ticks: seq<Tick>, i: nat, p: PeerId, m: AddressMetadata, now: Instant)
    requires IsRun(states, ticks) && StartsFresh(states) && i < |states|
    requires m in AddressesAt(states[i].view, p) && m.activeConnections != []
    ensures m.lastErr == None && m.errCount == 0 && !InCooldown(m, now)
  {
    ReachableIsGood(states, ticks, i);
    GoodAt(states[i].view, p);
    hide GoodView, IsRun, StartsFresh, AddressesAt;
    EntryInTable(AddressesAt(states[i].view, p), m);
    GoodIsGoodTable(AddressesAt(states[i].view, p));
  }

  /** Every list reconcile is shown is sorted for that moment; with a connection recorded, its head is
      not cooling down and statically no worse than any connected address. */
  lemma ShownHeadIsBest(states: seq<Node>, ticks: seq<Tick>, i: nat, p: PeerId)
    requires IsRun(states, ticks) && StartsFresh(states) && i < |ticks| && Reconciles(states[i], ticks[i])
    requires p == ticks[i].input.peer
    ensures var l := Shown(states[i], ticks[i]);
            && Sorted(l, ticks[i].now)
            && forall cid, a | Records(Edited(states[i], ticks[i]), p, cid, a) ::
                 l != [] && !InCooldown(l[0], ticks[i].now) && BetterOrSame(l[0].address, a)
                 && (l[0].address == a || Preferred(l[0].address, a))
  {
    ReachableIsGood(states, ticks, i);
    EditGood(states[i], ticks[i]);
    GoodAt(Edited(states[i], ticks[i]), p);
    hide GoodView, IsRun, StartsFresh, Edited, Reconciles, Good, Sorted;
    var l := Shown(states[i], ticks[i]);
    hide Preferred, Better;
    if l != [] {
      HeadIsBest(l, ticks[i].now);
    }
    forall a
      ensures l != [] ==> (Better(l[0].address, a) <==> Preferred(l[0].address, a))
    {
      if l != [] {
        BetterMeaning(l[0].address, a);
      }
    }
  }

  // ----- the connection record as one map -----

  type ConnectionMap = map<(PeerId, ConnId), Multiaddr>

  /** What each input does to an abstract map from a peer's connection ids to addresses. */
  function MapAfter(m: ConnectionMap, input: Input): ConnectionMap {
    match input
    case Established(p, cid, endpoint) => m[(p, cid) := endpoint.Remote()]
    case Closed(p, cid) => m - {(p, cid)}
    case AddressExpired(p, addr) => map k | k in m && !(k.0 == p && m[k] == addr) :: m[k]
    case _ => m
  }

  function MapOf(ticks: seq<Tick>): ConnectionMap {
    if ticks == [] then map[] else MapAfter(MapOf(ticks[..|ticks| - 1]), ticks[|ticks| - 1].input)
  }

  ghost predicate Represents(v: View, m: ConnectionMap) {
    forall p: PeerId, cid: ConnId, a: Multiaddr :: Records(v, p, cid, a) <==> (p, cid) in m && m[(p, cid)] == a
  }

  /** Over every run the scans of the per-peer address lists behave as one finite map: looking up a
      connection id gives what the map gives. */
  lemma ViewRefinesMap(states: seq<Node>, ticks: seq<Tick>, i: nat, p: PeerId, cid: ConnId)
    requires IsRun(states, ticks) && StartsFresh(states) && i < |states|
    ensures GetConnectionAddress(AddressesAt(states[i].view, p), cid)
            == if (p, cid) in MapOf(ticks[..i]) then Some(MapOf(ticks[..i])[(p, cid)]) else None
  {
    hide Handle, GoodView, Represents, MapOf, StartsFresh, AddressesAt, GetConnectionAddress;
    ReachableIsGood(states, ticks, i);
    MapOverRun(states, ticks, i);
    LookupInMap(states[i].view, MapOf(ticks[..i]), p, cid);
  }

  /** The records of the view, over a run, are the points of the map. */
  lemma {:induction false} MapOverRun(states: seq<Node>, ticks: seq<Tick>, i: nat)
    requires IsRun(states, ticks) && StartsFresh(states) && i < |states|
    ensures Represents(states[i].view, MapOf(ticks[..i]))
  {
    if i == 0 {
      hide Handle, GoodView, Records, Fresh;
      var local, max :| states[0] == Fresh(local, max);
      FreshIsGood(local, max);
    } else {
      hide Handle, GoodView, Represents, MapAfter, RecordedAfter, Records, StartsFresh;
      MapOverRun(states, ticks, i - 1);
      ReachableIsGood(states, ticks, i - 1);
      assert ticks[..i][..i - 1] == ticks[..i - 1];
      HandleRecords(states[i - 1], ticks[i - 1]);
      MapStep(states[i - 1].view, MapOf(ticks[..i - 1]), ticks[i - 1].input, states[i].view);
    }
  }

  lemma MapStep(v: View, m: ConnectionMap, input: Input, w: View)
    requires Represents(v, m)
    requires forall p, cid, a :: Records(w, p, cid, a) <==> RecordedAfter(v, input, p, cid, a)
    ensures Represents(w, MapAfter(m, input))
  {
    hide Records;
    forall p: PeerId, cid: ConnId, a: Multiaddr
      ensures Records(w, p, cid, a) <==> (p, cid) in MapAfter(m, input) && MapAfter(m, input)[(p, cid)] == a
    {
      assert Records(v, p, cid, a) <==> (p, cid) in m && m[(p, cid)] == a;
      match input
      case Established(q, c, _) => assert (p, cid) == (q, c) <==> p == q && cid == c;
      case Closed(q, c) => assert (p, cid) == (q, c) <==> p == q && cid == c;
      case AddressExpired(q, addr) => assert (p, cid).0 == p;
      case _ =>
    }
  }

  lemma LookupInMap(v: View, m: ConnectionMap, p: PeerId, cid: ConnId)
    requires GoodView(v) && Represents(v, m)
    ensures GetConnectionAddress(AddressesAt(v, p), cid) == if (p, cid) in m then Some(m[(p, cid)]) else None
  {
    GoodAt(v, p);
    hide GoodView, AddressesAt, Good, On, GetConnectionAddress, TableOf;
    SameLookup(AddressesAt(v, p), cid, if (p, cid) in m then Some(m[(p, cid)]) else None) by {
      assert forall a :: On(TableOf(AddressesAt(v, p)), cid, a) <==> Records(v, p, cid, a);
    }
  }

  // ----- relay policy -----

  /** Every relay in use is reserved, no relay is queued twice, at most `maxRelays` reserved relays
      are unused, and every relay under a recorded connection is reserved. */
  ghost predicate RelayPolicy(n: Node) {
    && Distinct(n.relays.reserved)
    && (forall r | r in n.relays.inUse :: r in n.relays.reserved)
    && |set r | r in n.relays.reserved && r !in n.relays.inUse| <= n.relays.maxRelays
    && (forall r | r in InUseIn(n.view) :: r in n.relays.reserved)
  }

  /** The bound on unused relays, said with lengths. */
  lemma UnusedCount(reserved: seq<PeerId>, inUse: set<PeerId>)
    requires Distinct(reserved) && forall r | r in inUse :: r in reserved
    ensures |set r | r in reserved && r !in inUse| == |reserved| - |inUse|
  {
    DistinctCard(reserved);
    var unused := set r | r in reserved && r !in inUse;
    assert SetOf(reserved) == inUse + unused;
  }

  lemma InUseMeaning(v: View, r: PeerId)
    requires GoodView(v)
    ensures r in InUseIn(v) <==> exists p, cid, a :: Records(v, p, cid, a) && ExtractRelayPeer(a) == Some(r)
  {
    hide ExtractRelayPeer, AddrIsRelay;
    if r in InUseIn(v) {
      var p, m :| p in v && m in v[p].addresses && Carrying(m) && ExtractRelayPeer(m.address).value == r;
      GoodAt(v, p);
      EntryInTable(v[p].addresses, m);
      assert Records(v, p, m.activeConnections[0], m.address);
    }
    if p, cid, a :| Records(v, p, cid, a) && ExtractRelayPeer(a) == Some(r) {
      TableAddress(AddressesAt(v, p), a);
      var m := TableAt(v, p)[a];
      RelayMeaning(a, r);
      assert p in v && m in v[p].addresses && Carrying(m);
    }
  }

  /** Updating the relay state bounds the queue by the relays in use plus the spare ones, keeps every
      reserved relay that is in use, and adds none. */
  lemma UpdateBounds(n: Node)
    requires Distinct(n.relays.reserved)
    ensures var r := UpdateRelayState(n).node.relays;
            && Distinct(r.reserved) && r.inUse == InUseIn(n.view) && r.maxRelays == n.relays.maxRelays
            && |r.reserved| <= |r.inUse| + r.maxRelays
            && (forall p | p in r.reserved :: p in n.relays.reserved)
            && (forall p | p in n.relays.reserved && p in r.inUse :: p in r.reserved)
  {
    hide InUseIn;
    PruneMeetsPolicy(n.relays.reserved, InUseIn(n.view), n.relays.maxRelays, n.view);
  }

  lemma PolicyFromBounds(n: Node)
    requires Distinct(n.relays.reserved) && |n.relays.reserved| <= |n.relays.inUse| + n.relays.maxRelays
    requires n.relays.inUse == InUseIn(n.view) && forall r | r in n.relays.inUse :: r in n.relays.reserved
    ensures RelayPolicy(n)
  {
    hide InUseIn;
    UnusedCount(n.relays.reserved, n.relays.inUse);
  }

  /** Relays under recorded connections after an input: those from before, and the new connection's. */
  lemma InUseAfter(n: Node, t: Tick, r: PeerId)
    requires GoodView(n.view) && Handle(n, t).Some?
    requires r in InUseIn(Handle(n, t).value.node.view)
    ensures r in InUseIn(n.view) || (t.input.Established? && ExtractRelayPeer(t.input.endpoint.Remote()) == Some(r))
  {
    hide Handle, GoodView, Records, ExtractRelayPeer, InUseIn;
    HandleRecords(n, t);
    var w := Handle(n, t).value.node.view;
    InUseMeaning(w, r);
    var p, cid, a :| Records(w, p, cid, a) && ExtractRelayPeer(a) == Some(r);
    assert RecordedAfter(n.view, t.input, p, cid, a);
    InUseMeaning(n.view, r);
  }

  /** The state between reconcile and the relay update of a settled handler. */
  lemma SettleParts(s: Step, p: PeerId, t: Tick) returns (m: Node)
    requires Settle(s, p, t).Some?
    ensures m.relays == s.node.relays && Settle(s, p, t).value.node == UpdateRelayState(m).node
  {
    hide Reconcile.Run, UpdateRelayState;
    m := ReconcilePeer(s.node, p, t).value.node;
  }

  lemma UpdateKeepsView(n: Node)
    ensures UpdateRelayState(n).node.view == n.view
  {
  }

  lemma EstablishedKeepsPolicy(n: Node, t: Tick)
    requires GoodView(n.view) && RelayPolicy(n) && t.input.Established? && Handle(n, t).Some?
    ensures RelayPolicy(Handle(n, t).value.node)
  {
    hide UpdateRelayState, InUseIn, ExtractRelayPeer, AllTargetsConnected, Settle, GoodView, OpenConnection;
    var p, remote := t.input.peer, t.input.endpoint.Remote();
    var n' := Handle(n, t).value.node;
    var s := Told(TellConnected(p, t.input.cid), AfterOpen(n.(view := OpenConnection(n.view, p, t.input.cid, remote, t.now)), p));
    var m := SettleParts(s, p, t);
    UpdateBounds(m);
    UpdateKeepsView(m);
    var mid := UpdateRelayState(m).node;
    forall r | r in InUseIn(n'.view)
      ensures r in InUseIn(n.view) || ExtractRelayPeer(remote) == Some(r)
    {
      InUseAfter(n, t, r);
    }
    match ExtractRelayPeer(remote) {
      case None =>
        PolicyFromBounds(n');
      case Some(relay) =>
        var g := RegisterRelay(mid, relay);
        RegisterDistinct(mid.relays, relay);
        UpdateBounds(g);
        UpdateKeepsView(g);
        PolicyFromBounds(n');
    }
  }

  lemma ClosedKeepsPolicy(n: Node, t: Tick)
    requires GoodView(n.view) && RelayPolicy(n) && t.input.Closed? && Handle(n, t).Some?
    ensures RelayPolicy(Handle(n, t).value.node)
  {
    hide UpdateRelayState, InUseIn, Connected, Settle, GoodView, DropConnection;
    var p := t.input.peer;
    var n' := Handle(n, t).value.node;
    var s := Told(TellDisconnected(p, t.input.cid), AfterClose(n.(view := DropConnection(n.view, p, t.input.cid, t.now)), p));
    var m := SettleParts(s, p, t);
    UpdateBounds(m);
    UpdateKeepsView(m);
    forall r | r in InUseIn(n'.view)
      ensures r in InUseIn(n.view)
    {
      InUseAfter(n, t, r);
    }
    PolicyFromBounds(n');
  }

  lemma ReservationKeepsPolicy(n: Node, t: Tick)
    requires GoodView(n.view) && RelayPolicy(n) && t.input.ReservationAccepted?
    ensures RelayPolicy(Handle(n, t).value.node)
  {
    hide UpdateRelayState, InUseIn, GoodView;
    var g := RegisterRelay(n, t.input.relay);
    RegisterDistinct(n.relays, t.input.relay);
    UpdateBounds(g);
    UpdateKeepsView(g);
    PolicyFromBounds(Handle(n, t).value.node);
  }

  /** The policy survives every handled input: also the one that opens a relayed connection, which
      updates the relay state once before the relay is registered, and also the ones that change the
      view and leave the usage set stale. */
  lemma RelayPolicyStep(n: Node, t: Tick)
    requires GoodView(n.view) && RelayPolicy(n) && Handle(n, t).Some?
    ensures RelayPolicy(Handle(n, t).value.node)
  {
    hide GoodView, OnEstablished, OnClosed, UpdateRelayState, InUseIn, LearnAddress, ForgetAddress, ShouldSkipForDial, IsNewAddress;
    if t.input.Established? {
      EstablishedKeepsPolicy(n, t);
    } else if t.input.Closed? {
      ClosedKeepsPolicy(n, t);
    } else if t.input.ReservationAccepted? {
      ReservationKeepsPolicy(n, t);
    } else {
      var n' := Handle(n, t).value.node;
      SameRelays(n, t);
      forall r | r in InUseIn(n'.view)
        ensures r in InUseIn(n.view)
      {
        InUseAfter(n, t, r);
      }
    }
  }

  lemma SameRelays(n: Node, t: Tick)
    requires Handle(n, t).Some? && !t.input.Established? && !t.input.Closed? && !t.input.ReservationAccepted?
    ensures Handle(n, t).value.node.relays == n.relays
  {
    hide Reconcile.Run, LearnAddress, ForgetAddress, ShouldSkipForDial, IsNewAddress;
  }

  /** At every event boundary of every run the relay policy holds. */
  lemma {:induction false} RelayPolicyAlways(states: seq<Node>, ticks: seq<Tick>, i: nat)
    requires IsRun(states, ticks) && StartsFresh(states) && i < |states|
    ensures RelayPolicy(states[i])
  {
    hide Handle, GoodView, RelayPolicy;
    if i == 0 {
      assert RelayPolicy(states[0]) by {
        var local, max :| states[0] == Fresh(local, max);
        FreshPolicy(local, max);
      }
    } else {
      RelayPolicyAlways(states, ticks, i - 1);
      ReachableIsGood(states, ticks, i - 1);
      RelayPolicyStep(states[i - 1], ticks[i - 1]);
    }
  }

  lemma FreshPolicy(local: PeerId, max: nat)
    ensures RelayPolicy(Fresh(local, max))
  {
    UnusedCount([], {});
  }

  /** How many relays the eviction loop disconnects. */
  lemma EvictedCount(n: Node)
    requires Distinct(n.relays.reserved)
    ensures var queued, room := |n.relays.reserved|, |InUseIn(n.view)| + n.relays.maxRelays;
            |UpdateRelayState(n).effects| == if queued > room then queued - room else 0
  {
    hide InUseIn;
    PruneMeetsPolicy(n.relays.reserved, InUseIn(n.view), n.relays.maxRelays, n.view);
  }

  lemma AcceptedEvicts(n: Node, t: Tick)
    requires t.input.ReservationAccepted? && Distinct(n.relays.reserved)
    ensures var queued, room := |Register(n.relays, t.input.relay).reserved|, |InUseIn(n.view)| + n.relays.maxRelays;
            Handle(n, t).Some? && |Handle(n, t).value.effects| == if queued > room then queued - room else 0
  {
    var m := RegisterRelay(n, t.input.relay);
    assert Handle(n, t) == Some(UpdateRelayState(m)) && m.view == n.view && m.relays.maxRelays == n.relays.maxRelays;
    hide InUseIn, UpdateRelayState, Handle;
    RegisterDistinct(n.relays, t.input.relay);
    EvictedCount(m);
  }

  /** Accepting a reservation evicts nobody if and only if the queue, with the new relay in it, is no
      longer than the relays in use at that moment and the spare ones; otherwise exactly the surplus. */
  lemma AcceptanceEvictsNobodyExactly(states: seq<Node>, ticks: seq<Tick>, i: nat)
    requires IsRun(states, ticks) && StartsFresh(states) && i < |ticks| && ticks[i].input.ReservationAccepted?
    ensures var n := states[i];
            var queued, room := |Register(n.relays, ticks[i].input.relay).reserved|, |InUseIn(n.view)| + n.relays.maxRelays;
            var e := Handle(n, ticks[i]).value.effects;
            && |e| == (if queued > room then queued - room else 0)
            && (e == [] <==> queued <= room)
  {
    hide Handle, InUseIn, Register, StartsFresh;
    RelayPolicyAlways(states, ticks, i);
    AcceptedEvicts(states[i], ticks[i]);
  }

  /** Admission when asking carries over to the answer as long as no relay has been queued in between
      and no fewer relays are in use: then accepting the reservation evicts nobody. */
  lemma GrantedReservationEvictsNobody(states: seq<Node>, ticks: seq<Tick>, i: nat, j: nat, p: PeerId)
    requires IsRun(states, ticks) && StartsFresh(states) && i < j < |ticks|
    requires ticks[i].input == RelayOffered(p) && Handle(states[i], ticks[i]).value.effects != []
    requires ticks[j].input == ReservationAccepted(p)
    requires forall r | r in states[j].relays.reserved :: r in states[i].relays.reserved
    requires |InUseIn(states[j].view)| >= |states[i].relays.inUse|
    ensures Handle(states[j], ticks[j]).value.effects == []
  {
    AcceptanceEvictsNobodyExactly(states, ticks, j);
    RelayPolicyAlways(states, ticks, i);
    RelayPolicyAlways(states, ticks, j);
    SameMaximum(states, ticks, i, j);
    hide InUseIn, IsRun, StartsFresh;
    var r, s := states[i].relays, states[j].relays;
    assert CanReserve(r, p);
    UnusedCount(r.reserved, r.inUse);
    DistinctCard(r.reserved);
    DistinctCard(s.reserved);
    SubsetCard(SetOf(s.reserved), SetOf(r.reserved));
    if p in r.reserved && p !in s.reserved {
      SubsetCard(SetOf(s.reserved), SetOf(r.reserved) - {p});
    }
  }

  lemma {:induction false} SameMaximum(states: seq<Node>, ticks: seq<Tick>, i: nat, j: nat)
    requires IsRun(states, ticks) && StartsFresh(states) && i <= j < |states|
    ensures states[j].relays.maxRelays == states[i].relays.maxRelays
    decreases j
  {
    hide Handle, GoodView, StartsFresh, Edited, Reconciles, Reconciled, DialsListed;
    if i < j {
      SameMaximum(states, ticks, i, j - 1);
      ReachableIsGood(states, ticks, j - 1);
      HandleFacts(states[j - 1], ticks[j - 1]);
    }
  }

  // ----- who can be evicted -----

  /** The relay an input registers. */
  function Registers(input: Input): Option<PeerId> {
    match input
    case Established(_, _, endpoint) => ExtractRelayPeer(endpoint.Remote())
    case ReservationAccepted(relay) => Some(relay)
    case _ => None
  }

  lemma {:induction false} PruneMembers(s: seq<PeerId>, inUse: set<PeerId>, max: nat, v: View)
    ensures var r := PruneQueue(s, inUse, max, v);
            && (forall p | p in r.reserved :: p in s)
            && (forall p | p in r.removed :: p in s)
    decreases |s|
  {
    WorstIsReserved(s, inUse, v);
    if |s| > |inUse| + max && WorstUnused(s, inUse, v).Some? {
      var w := WorstUnused(s, inUse, v).value;
      PruneMembers(RemoveFirst(s, w), inUse, max, v);
      RemoveFirstMembers(s, w);
    }
  }

  lemma {:induction false} RemoveFirstMembers(s: seq<PeerId>, p: PeerId)
    ensures forall q | q in RemoveFirst(s, p) :: q in s
  {
    if s != [] {
      RemoveFirstMembers(s[1..], p);
      assert forall q | q in s[1..] :: q in s;
    }
  }

  /** From node `n`, a step leaves in the queue and disconnects none but relays of `known`. */
  ghost predicate EvictsAmong(s: Step, known: set<PeerId>) {
    && (forall r | r in s.node.relays.reserved :: r in known)
    && (forall r | DisconnectPeer(r) in s.effects :: r in known)
  }

  lemma UpdateEvicts(n: Node, known: set<PeerId>)
    requires forall r | r in n.relays.reserved :: r in known
    ensures EvictsAmong(UpdateRelayState(n), known)
  {
    hide PruneQueue, InUseIn;
    PruneMembers(n.relays.reserved, InUseIn(n.view), n.relays.maxRelays, n.view);
  }

  lemma SettleEvicts(s: Step, p: PeerId, t: Tick, known: set<PeerId>)
    requires GoodView(s.node.view) && Sorted(AddressesAt(s.node.view, p), t.now) && Settle(s, p, t).Some?
    requires EvictsAmong(s, known)
    ensures EvictsAmong(Settle(s, p, t).value, known)
  {
    hide GoodView, Sorted, AddressesAt, ReconcilePeer, UpdateRelayState, Reconciled, Records;
    ReconcilePeerFacts(s.node, p, t);
    var r := ReconcilePeer(s.node, p, t).value;
    UpdateEvicts(r.node, known);
  }

  /** Only relays that were reserved, or that this very input registers, can be evicted. */
  lemma HandleEvicts(n: Node, t: Tick, known: set<PeerId>)
    requires GoodView(n.view) && Handle(n, t).Some?
    requires forall r | r in n.relays.reserved || Registers(t.input) == Some(r) :: r in known
    ensures EvictsAmong(Handle(n, t).value, known)
  {
    hide GoodView, Sorted, AddressesAt, ReconcilePeer, UpdateRelayState, Reconciled, Records, Settle, OpenConnection, DropConnection,
      LearnAddress, ForgetAddress, AllTargetsConnected, Connected, ExtractRelayPeer, ShouldSkipForDial, IsNewAddress, SwitchKad, SwitchMdns;
    EditGood(n, t);
    match t.input {
      case Established(p, cid, endpoint) =>
        var s := Told(TellConnected(p, cid), AfterOpen(n.(view := Edited(n, t)), p));
        SettleEvicts(s, p, t, known);
        var r := Settle(s, p, t).value.node;
        if Registers(t.input).Some? {
          UpdateEvicts(RegisterRelay(r, Registers(t.input).value), known);
        }
      case Closed(p, cid) =>
        SettleEvicts(Told(TellDisconnected(p, cid), AfterClose(n.(view := Edited(n, t)), p)), p, t, known);
      case ReservationAccepted(relay) =>
        UpdateEvicts(RegisterRelay(n, relay), known);
      case AddressSeen(p, addr) =>
        if Reconciles(n, t) {
          ReconcilePeerFacts(n.(view := Edited(n, t)), p, t);
        }
      case AddressExpired(p, addr) =>
        ReconcilePeerFacts(n.(view := Edited(n, t)), p, t);
      case _ =>
    }
  }

  // ----- passive mode -----

  /** In passive mode every target has a recorded connection. */
  ghost predicate PassiveMeansConnected(n: Node) {
    !n.active ==> AllTargetsConnected(n)
  }

  /** The two inputs that can break it, and when they do: a target added in passive mode that is not
      connected, and an expired address that takes a target's last recorded connections with it. */
  ghost predicate KeepsPassive(n: Node, input: Input) {
    n.active ||
    match input
    case TargetAdded(p) => Connected(n.view, p)
    case AddressExpired(p, addr) => p in n.targets ==> exists cid, b :: b != addr && Records(n.view, p, cid, b)
    case _ => true
  }

  /** Mode and targets after an input. */
  lemma ModeAfter(n: Node, t: Tick)
    requires Handle(n, t).Some?
    ensures var n' := Handle(n, t).value.node;
            match t.input
            case Established(p, _, _) =>
              && n'.targets == n.targets
              && n'.active == if p in n.targets then !AllTargetsConnected(n.(view := Edited(n, t))) else n.active
            case Closed(p, _) =>
              && n'.targets == n.targets
              && n'.active == (n.active || (p in n.targets && !Connected(Edited(n, t), p)))
            case TargetAdded(p) => n' == n.(targets := n.targets + {p})
            case TargetRemoved(p) => n' == n.(targets := n.targets - {p})
            case _ => n'.active == n.active && n'.targets == n.targets
  {
    hide OnEstablished, OnClosed, UpdateRelayState, ReconcilePeer, LearnAddress, ForgetAddress, OpenConnection, DropConnection,
      ShouldSkipForDial, IsNewAddress, Connected, SwitchKad, SwitchMdns;
    match t.input {
      case Established(p, cid, endpoint) => ModeAfterOpened(n, t);
      case Closed(p, cid) => ModeAfterClosed(n, t);
      case AddressSeen(p, addr) => ReconcileKeepsMode(n.(view := LearnAddress(n.view, p, addr, t.now)), p, t);
      case AddressExpired(p, addr) => ReconcileKeepsMode(n.(view := ForgetAddress(n.view, p, addr, t.now)), p, t);
      case ReservationAccepted(relay) => UpdateKeepsMode(RegisterRelay(n, relay));
      case _ =>
    }
  }

  lemma ReconcileKeepsMode(n: Node, p: PeerId, t: Tick)
    ensures ReconcilePeer(n, p, t).Some? ==>
              var m := ReconcilePeer(n, p, t).value.node;
              m.active == n.active && m.targets == n.targets
  {
    hide Reconcile.Run;
  }

  lemma UpdateKeepsMode(n: Node)
    ensures var m := UpdateRelayState(n).node;
            m.active == n.active && m.targets == n.targets
  {
    hide InUseIn, PruneQueue;
  }

  lemma SettleKeepsMode(s: Step, p: PeerId, t: Tick)
    requires Settle(s, p, t).Some?
    ensures var m := Settle(s, p, t).value.node;
            m.active == s.node.active && m.targets == s.node.targets
  {
    hide ReconcilePeer, UpdateRelayState;
    ReconcileKeepsMode(s.node, p, t);
    UpdateKeepsMode(ReconcilePeer(s.node, p, t).value.node);
  }

  lemma ModeAfterOpened(n: Node, t: Tick)
    requires t.input.Established? && Handle(n, t).Some?
    ensures var n' := Handle(n, t).value.node;
            && n'.targets == n.targets
            && n'.active == if t.input.peer in n.targets then !AllTargetsConnected(n.(view := Edited(n, t))) else n.active
  {
    hide Settle, UpdateRelayState, OpenConnection, AllTargetsConnected, ExtractRelayPeer, SwitchKad, SwitchMdns;
    var p, cid, remote := t.input.peer, t.input.cid, t.input.endpoint.Remote();
    var s := Told(TellConnected(p, cid), AfterOpen(n.(view := Edited(n, t)), p));
    SettleKeepsMode(s, p, t);
    if ExtractRelayPeer(remote).Some? {
      UpdateKeepsMode(RegisterRelay(Settle(s, p, t).value.node, ExtractRelayPeer(remote).value));
    }
  }

  lemma ModeAfterClosed(n: Node, t: Tick)
    requires t.input.Closed? && Handle(n, t).Some?
    ensures var n' := Handle(n, t).value.node;
            && n'.targets == n.targets
            && n'.active == (n.active || (t.input.peer in n.targets && !Connected(Edited(n, t), t.input.peer)))
  {
    hide Settle, DropConnection, Connected, SwitchKad, SwitchMdns;
    var p, cid := t.input.peer, t.input.cid;
    SettleKeepsMode(Told(TellDisconnected(p, cid), AfterClose(n.(view := Edited(n, t)), p)), p, t);
  }

  /** Who is connected in the view after an input. */
  lemma ConnectedAfter(n: Node, t: Tick, q: PeerId)
    requires GoodView(n.view) && Handle(n, t).Some?
    ensures var w := Handle(n, t).value.node.view;
            && (Connected(w, q) <==> Connected(Edited(n, t), q))
            && (Connected(w, q) <==> exists cid, a :: RecordedAfter(n.view, t.input, q, cid, a))
  {
    hide Handle, Edited, GoodView, Records, RecordedAfter, Connected;
    HandleRecords(n, t);
    EditGood(n, t);
    ConnectedMeansRecorded(Handle(n, t).value.node.view, q);
    ConnectedMeansRecorded(Edited(n, t), q);
    forall cid, a
      ensures Records(Edited(n, t), q, cid, a) <==> RecordedAfter(n.view, t.input, q, cid, a)
    {
      EditedRecords(n, t, q, cid, a);
    }
  }

  /** A handled input keeps passive mode honest exactly when it meets `KeepsPassive`. */
  lemma PassiveStep(n: Node, t: Tick)
    requires GoodView(n.view) && PassiveMeansConnected(n) && Handle(n, t).Some?
    ensures PassiveMeansConnected(Handle(n, t).value.node) <==> KeepsPassive(n, t.input)
  {
    hide Handle, Edited, GoodView, Records, Connected;
    var n' := Handle(n, t).value.node;
    ModeAfter(n, t);
    forall q
      ensures Connected(n.view, q) <==> exists cid, a :: Records(n.view, q, cid, a)
      ensures Connected(n'.view, q) <==> Connected(Edited(n, t), q)
      ensures Connected(n'.view, q) <==> exists cid, a :: RecordedAfter(n.view, t.input, q, cid, a)
    {
      ConnectedMeansRecorded(n.view, q);
      ConnectedAfter(n, t, q);
    }
    match t.input {
      case Established(p, cid, endpoint) =>
        assert RecordedAfter(n.view, t.input, p, cid, endpoint.Remote());
        forall q | Connected(n.view, q)
          ensures Connected(n'.view, q)
        {
          if q != p {
            var c, a :| Records(n.view, q, c, a);
            assert RecordedAfter(n.view, t.input, q, c, a);
          }
        }
      case Closed(p, cid) =>
        OthersStay(n, t, p);
      case AddressExpired(p, addr) =>
        OthersStay(n, t, p);
        assert Connected(n'.view, p) <==> exists cid, b :: b != addr && Records(n.view, p, cid, b) by {
          if cid, b :| b != addr && Records(n.view, p, cid, b) {
            assert RecordedAfter(n.view, t.input, p, cid, b);
          }
        }
      case _ =>
        SameConnected(n, t);
    }
  }

  /** Inputs about `p` leave the connectedness of others as it was. */
  lemma OthersStay(n: Node, t: Tick, p: PeerId)
    requires GoodView(n.view) && Handle(n, t).Some?
    requires (t.input.Closed? || t.input.AddressExpired?) && t.input.peer == p
    ensures forall q | q != p :: Connected(Handle(n, t).value.node.view, q) <==> Connected(n.view, q)
  {
    hide Handle, Edited, GoodView, Records, Connected;
    forall q | q != p
      ensures Connected(Handle(n, t).value.node.view, q) <==> Connected(n.view, q)
    {
      ConnectedMeansRecorded(n.view, q);
      ConnectedAfter(n, t, q);
      assert forall cid, a :: RecordedAfter(n.view, t.input, q, cid, a) <==> Records(n.view, q, cid, a);
    }
  }

  lemma SameConnected(n: Node, t: Tick)
    requires GoodView(n.view) && Handle(n, t).Some?
    requires !t.input.Established? && !t.input.Closed? && !t.input.AddressExpired?
    ensures forall q :: Connected(Handle(n, t).value.node.view, q) <==> Connected(n.view, q)
  {
    hide Handle, Edited, GoodView, Records, Connected;
    forall q
      ensures Connected(Handle(n, t).value.node.view, q) <==> Connected(n.view, q)
    {
      ConnectedMeansRecorded(n.view, q);
      ConnectedAfter(n, t, q);
      assert forall cid, a :: RecordedAfter(n.view, t.input, q, cid, a) <==> Records(n.view, q, cid, a);
    }
  }

  /** Passive mode is honest at every event boundary of a run exactly when every input meets
      `KeepsPassive` in the state it finds. */
  lemma {:induction false} PassiveExactly(states: seq<Node>, ticks: seq<Tick>, n: nat)
    requires IsRun(states, ticks) && StartsFresh(states) && n < |states|
    ensures (forall i | 0 <= i <= n :: PassiveMeansConnected(states[i])) <==>
            (forall i | 0 <= i < n :: KeepsPassive(states[i], ticks[i].input))
  {
    hide Handle, GoodView, KeepsPassive;
    if n == 0 {
      var local, max :| states[0] == Fresh(local, max);
      assert PassiveMeansConnected(states[0]);
    } else {
      hide PassiveMeansConnected;
      PassiveExactly(states, ticks, n - 1);
      ReachableIsGood(states, ticks, n - 1);
      if PassiveMeansConnected(states[n - 1]) {
        PassiveStep(states[n - 1], ticks[n - 1]);
      }
      assert (forall i | 0 <= i <= n :: PassiveMeansConnected(states[i])) <==>
             (forall i | 0 <= i <= n - 1 :: PassiveMeansConnected(states[i])) && PassiveMeansConnected(states[n]);
      assert (forall i | 0 <= i < n :: KeepsPassive(states[i], ticks[i].input)) <==>
             (forall i | 0 <= i < n - 1 :: KeepsPassive(states[i], ticks[i].input)) && KeepsPassive(states[n - 1], ticks[n - 1].input);
    }
  }

  // ----- failure counts -----

  datatype Entry = Entry(input: Input, now: Instant, effects: seq<Effect>)

  /** The inputs after which an address starts without failures: a success, or being forgotten. */
  predicate ResetsCount(input: Input, p: PeerId, a: Multiaddr) {
    EditsList(input) && input.peer == p && Restarts(input, a)
  }

  /** Rejected dials of an address since its last success or since it was last forgotten. */
  function FailuresSince(h: seq<Entry>, p: PeerId, a: Multiaddr): nat {
    if h == [] then 0
    else
      var last := h[|h| - 1];
      (if ResetsCount(last.input, p, a) then 0 else FailuresSince(h[..|h| - 1], p, a))
      + Rejections(last.effects, p, a)
  }

  /** When the last of these rejections happened. */
  function LastFailure(h: seq<Entry>, p: PeerId, a: Multiaddr): Option<Instant> {
    if h == [] then None
    else
      var last := h[|h| - 1];
      if Rejections(last.effects, p, a) > 0 then Some(last.now)
      else if ResetsCount(last.input, p, a) then None
      else LastFailure(h[..|h| - 1], p, a)
  }

  /** The counter is 32 bits wide and stays at its largest value. */
  function Saturated(count: nat): nat {
    if count < 4_294_967_295 then count else 4_294_967_295
  }

  /** Recorded failures are the failures that happened, up to the width of the counter. */
  ghost predicate CountsFailures(v: View, h: seq<Entry>) {
    forall p, a ::
      if a in TableAt(v, p) then
        && TableAt(v, p)[a].errCount == Saturated(FailuresSince(h, p, a))
        && TableAt(v, p)[a].lastErr == LastFailure(h, p, a)
        && (FailuresSince(h, p, a) > 0 <==> LastFailure(h, p, a).Some?)
      else FailuresSince(h, p, a) == 0 && LastFailure(h, p, a) == None
  }

  ghost predicate IsHistory(states: seq<Node>, ticks: seq<Tick>, h: seq<Entry>) {
    && IsRun(states, ticks) && |h| == |ticks|
    && forall i | 0 <= i < |h| :: h[i] == Entry(ticks[i].input, ticks[i].now, Handle(states[i], ticks[i]).value.effects)
  }

  /** The failure counts right after the edit. */
  lemma EditedCounts(n: Node, t: Tick, p: PeerId, a: Multiaddr)
    requires GoodView(n.view)
    ensures var u, v := TableAt(Edited(n, t), p), TableAt(n.view, p);
            && (a in u && ResetsCount(t.input, p, a) ==> u[a].errCount == 0)
            && (a in u && !ResetsCount(t.input, p, a) ==>
                  u[a].errCount == (if a in v then v[a].errCount else 0) && (a in v ==> u[a].lastErr == v[a].lastErr))
            && (a !in u ==> a !in v || ResetsCount(t.input, p, a))
  {
    GoodAt(n.view, p);
    hide Good, GoodView, AddressesAt, Edited, EditedList, Sorted, TableOf, On, ShouldSkipForDial;
    EditIsLocal(n, t, p);
    EditedListFacts(AddressesAt(n.view, p), t.input, t.now, 0, a);
  }

  lemma CountsStep(n: Node, t: Tick, h: seq<Entry>)
    requires GoodView(n.view) && CountsFailures(n.view, h) && Handle(n, t).Some?
    ensures CountsFailures(Handle(n, t).value.node.view, h + [Entry(t.input, t.now, Handle(n, t).value.effects)])
  {
    hide Handle, GoodView, TableAt, Edited, AddressesAt, Records;
    var s := Handle(n, t).value;
    HandleFacts(n, t);
    EditGood(n, t);
    var h' := h + [Entry(t.input, t.now, s.effects)];
    forall p, a
      ensures if a in TableAt(s.node.view, p) then
                && TableAt(s.node.view, p)[a].errCount == Saturated(FailuresSince(h', p, a))
                && TableAt(s.node.view, p)[a].lastErr == LastFailure(h', p, a)
                && (FailuresSince(h', p, a) > 0 <==> LastFailure(h', p, a).Some?)
              else FailuresSince(h', p, a) == 0 && LastFailure(h', p, a) == None
    {
      EditedCounts(n, t, p, a);
      assert h'[..|h|] == h;
      var before := if ResetsCount(t.input, p, a) then 0 else FailuresSince(h, p, a);
      assert FailuresSince(h', p, a) == before + Rejections(s.effects, p, a);
      if a in TableAt(Edited(n, t), p) {
        EntryErr(s.node.view, p, a);
        EntryErr(Edited(n, t), p, a);
      } else {
        NoRejections(s.effects, p, a);
      }
    }
  }

  lemma EntryErr(v: View, p: PeerId, a: Multiaddr)
    requires GoodView(v) && a in TableAt(v, p)
    ensures TableAt(v, p)[a].lastErr.Some? <==> TableAt(v, p)[a].errCount > 0
    ensures TableAt(v, p)[a].address == a
  {
    GoodAt(v, p);
    GoodIsGoodTable(AddressesAt(v, p));
  }

  /** At every event boundary, while an address is listed, its recorded error count is the number of
      rejected dials since its last success (saturating), its recorded error time is that of the last
      of them, and an unlisted address has nothing to its name. */
  lemma {:induction false} BackoffLaw(states: seq<Node>, ticks: seq<Tick>, h: seq<Entry>, i: nat)
    requires IsHistory(states, ticks, h) && StartsFresh(states) && i < |states|
    ensures CountsFailures(states[i].view, h[..i])
  {
    hide Handle, GoodView, CountsFailures;
    if i == 0 {
      var local, max :| states[0] == Fresh(local, max);
      FreshIsGood(local, max);
      assert h[..0] == [];
      FreshCounts(local, max);
    } else {
      BackoffLaw(states, ticks, h, i - 1);
      ReachableIsGood(states, ticks, i - 1);
      CountsStep(states[i - 1], ticks[i - 1], h[..i - 1]);
      assert h[..i] == h[..i - 1] + [h[i - 1]];
    }
  }

  lemma FreshCounts(local: PeerId, max: nat)
    ensures CountsFailures(Fresh(local, max).view, [])
  {
    FreshIsGood(local, max);
  }

  lemma SaturatedCooldown(count: nat)
    ensures Cooldown(Saturated(count)) == Cooldown(count)
  {
  }

  lemma CountedCooling(v: View, h: seq<Entry>, p: PeerId, a: Multiaddr, now: Instant)
    requires CountsFailures(v, h) && a in TableAt(v, p)
    ensures InCooldown(TableAt(v, p)[a], now) <==>
            LastFailure(h, p, a).Some? && now < LastFailure(h, p, a).value + Cooldown(FailuresSince(h, p, a))
    ensures LastFailure(h, p, a).Some? <==> FailuresSince(h, p, a) >= 1
  {
    hide TableAt, FailuresSince, LastFailure, InCooldown, Cooldown, Saturated;
    CoolingExactly(TableAt(v, p)[a], now);
    SaturatedCooldown(FailuresSince(h, p, a));
  }

  /** At every event boundary a listed address is cooling down at time `now` exactly until 2, 4, 8, 16, 32
      or 64 seconds after its last rejected dial, by the number of rejections since its last success. */
  lemma CoolingLaw(states: seq<Node>, ticks: seq<Tick>, h: seq<Entry>, i: nat, p: PeerId, a: Multiaddr, now: Instant)
    requires IsHistory(states, ticks, h) && StartsFresh(states) && i < |states| && a in TableAt(states[i].view, p)
    ensures InCooldown(TableAt(states[i].view, p)[a], now) <==>
            && LastFailure(h[..i], p, a).Some?
            && now < LastFailure(h[..i], p, a).value + Cooldown(FailuresSince(h[..i], p, a))
    ensures LastFailure(h[..i], p, a).Some? <==> FailuresSince(h[..i], p, a) >= 1
  {
    assert |h| == |ticks| && |states| == |ticks| + 1;
    hide *;
    BackoffLaw(states, ticks, h, i);
    CountedCooling(states[i].view, h[..i], p, a, now);
  }
}
