/** What a handled input leaves behind and asks for, field by field and request by request, said in
    terms of the state before it and of the connection record alone. */
module HandlerLaws {
  import opened Options
  import opened Multiaddrs
  import opened Metadata
  import opened AddressList
  import opened AddressListFacts
  import opened Effects
  import opened Views
  import opened Relays
  import opened Nodes
  import opened NodeFacts
  import opened NodeRuns
  import opened Announcements
  import DialRecursion
  import Reconcile
  import Returning

  // ----- the requests of a handler, in order -----

  /** The relays disconnected, in order. */
  function Evicted(e: seq<Effect>): seq<PeerId> {
    if e == [] then [] else (if e[0].DisconnectPeer? then [e[0].who] else []) + Evicted(e[1..])
  }

  /** The dials made, in order. */
  function Dialled(e: seq<Effect>): seq<Effect> {
    if e == [] then [] else (if e[0].Dial? then [e[0]] else []) + Dialled(e[1..])
  }

  lemma {:induction false} EvictedConcat(e: seq<Effect>, f: seq<Effect>)
    ensures Evicted(e + f) == Evicted(e) + Evicted(f)
    decreases |e|
  {
    if e == [] {
      assert e + f == f;
    } else {
      var h := if e[0].DisconnectPeer? then [e[0].who] else [];
      assert (e + f)[0] == e[0] && (e + f)[1..] == e[1..] + f;
      EvictedConcat(e[1..], f);
      assert h + (Evicted(e[1..]) + Evicted(f)) == h + Evicted(e[1..]) + Evicted(f);
    }
  }

  lemma {:induction false} DialledConcat(e: seq<Effect>, f: seq<Effect>)
    ensures Dialled(e + f) == Dialled(e) + Dialled(f)
    decreases |e|
  {
    if e == [] {
      assert e + f == f;
    } else {
      var h := if e[0].Dial? then [e[0]] else [];
      assert (e + f)[0] == e[0] && (e + f)[1..] == e[1..] + f;
      DialledConcat(e[1..], f);
      assert h + (Dialled(e[1..]) + Dialled(f)) == h + Dialled(e[1..]) + Dialled(f);
    }
  }

  lemma {:induction false} NoneEvicted(e: seq<Effect>)
    requires forall x | x in e :: !x.DisconnectPeer?
    ensures Evicted(e) == []
  {
    if e != [] {
      assert e[0] in e && forall x | x in e[1..] :: x in e;
      NoneEvicted(e[1..]);
    }
  }

  lemma {:induction false} NoneDialled(e: seq<Effect>)
    requires forall x | x in e :: !x.Dial?
    ensures Dialled(e) == []
  {
    if e != [] {
      assert e[0] in e && forall x | x in e[1..] :: x in e;
      NoneDialled(e[1..]);
    }
  }

  lemma {:induction false} DisconnectsEvict(s: seq<PeerId>)
    ensures Evicted(Disconnects(s)) == s && Dialled(Disconnects(s)) == []
  {
    if s == [] {
      assert Disconnects(s) == [];
    } else {
      DisconnectsEvict(s[1..]);
      assert Disconnects(s)[1..] == Disconnects(s[1..]);
      assert s == [s[0]] + s[1..];
    }
  }

  lemma DisconnectsConcat(s: seq<PeerId>, t: seq<PeerId>)
    ensures Disconnects(s) + Disconnects(t) == Disconnects(s + t)
  {
  }

  /** Requests about relays are made last, and all others are of these kinds. */
  ghost predicate Ordered(e: seq<Effect>, opening: seq<Effect>, middle: seq<Effect>, removed: seq<PeerId>) {
    && e == opening + middle + Disconnects(removed)
    && forall x | x in middle :: x.Dial? || x.CloseConnection?
  }

  lemma OrderedFilters(e: seq<Effect>, opening: seq<Effect>, middle: seq<Effect>, removed: seq<PeerId>)
    requires Ordered(e, opening, middle, removed)
    requires forall x | x in opening :: !x.Dial? && !x.DisconnectPeer?
    ensures Evicted(e) == removed && Dialled(e) == Dialled(middle)
  {
    EvictedConcat(opening + middle, Disconnects(removed));
    EvictedConcat(opening, middle);
    DialledConcat(opening + middle, Disconnects(removed));
    DialledConcat(opening, middle);
    NoneEvicted(opening);
    NoneEvicted(middle);
    NoneDialled(opening);
    DisconnectsEvict(removed);
    assert [] + [] + removed == removed && [] + Dialled(middle) + [] == Dialled(middle);
  }

  // ----- the shape of each handler -----

  /** What reconcile does on the list it is shown. */
  ghost predicate IsReconciled(s: Addresses, c: Reconcile.Call, fuel: nat, e: seq<Effect>) {
    Reconcile.Run(s, c, fuel).Some? && e == Reconcile.Run(s, c, fuel).value.effects
  }

  lemma ReconcileShape(n: Node, p: PeerId, t: Tick)
    requires GoodView(n.view) && Sorted(AddressesAt(n.view, p), t.now) && ReconcilePeer(n, p, t).Some?
    ensures var r := ReconcilePeer(n, p, t).value;
            && IsReconciled(AddressesAt(n.view, p), CallFor(n, p, t), t.fuel, r.effects)
            && (forall x | x in r.effects :: x.Dial? || x.CloseConnection?)
            && r.node == n.(view := r.node.view)
  {
    ReconcilePeerFacts(n, p, t);
    hide GoodView, Sorted, Reconciled, Records, IsPruneLeader;
    if p !in n.view {
      Returning.EmptyReturns(CallFor(n, p, t), t.fuel);
    }
  }

  /** The relay update after reconcile. */
  lemma UpdateShape(n: Node) returns (removed: seq<PeerId>)
    ensures UpdateRelayState(n).effects == Disconnects(removed)
    ensures var r := UpdateRelayState(n).node;
            && r == n.(relays := r.relays) && r.relays.maxRelays == n.relays.maxRelays
            && PruneQueue(n.relays.reserved, InUseIn(n.view), n.relays.maxRelays, n.view) == Pruned(r.relays.reserved, removed)
            && r.relays.inUse == InUseIn(n.view)
  {
    hide PruneQueue, InUseIn;
    removed := PruneQueue(n.relays.reserved, InUseIn(n.view), n.relays.maxRelays, n.view).removed;
  }

  /** The queue `q`, evicted by the relays in use in the node's own view, is the node's queue. */
  ghost predicate PrunedTo(q: seq<PeerId>, n: Node, removed: seq<PeerId>) {
    && n.relays.inUse == InUseIn(n.view)
    && PruneQueue(q, n.relays.inUse, n.relays.maxRelays, n.view) == Pruned(n.relays.reserved, removed)
  }

  lemma SettleShape(s: Step, p: PeerId, t: Tick) returns (middle: seq<Effect>, removed: seq<PeerId>)
    requires GoodView(s.node.view) && Sorted(AddressesAt(s.node.view, p), t.now) && Settle(s, p, t).Some?
    ensures Ordered(Settle(s, p, t).value.effects, s.effects, middle, removed)
    ensures IsReconciled(AddressesAt(s.node.view, p), CallFor(s.node, p, t), t.fuel, middle)
    ensures PrunedTo(s.node.relays.reserved, Settle(s, p, t).value.node, removed)
    ensures Settle(s, p, t).value.node.relays.maxRelays == s.node.relays.maxRelays
  {
    hide GoodView, Sorted, AddressesAt, ReconcilePeer, UpdateRelayState, PruneQueue, InUseIn, IsReconciled;
    ReconcileShape(s.node, p, t);
    var r := ReconcilePeer(s.node, p, t).value;
    middle := r.effects;
    removed := UpdateShape(r.node);
  }

  /** The queue with the relay an input registers, at the end unless it is there already. */
  function Queued(n: Node, input: Input): seq<PeerId> {
    match Registers(input)
    case None => n.relays.reserved
    case Some(r) => if r in n.relays.reserved then n.relays.reserved else n.relays.reserved + [r]
  }

  /** After one of these inputs the relay state is brought up to date with the view. */
  predicate Refreshes(input: Input) {
    input.Established? || input.Closed? || input.ReservationAccepted?
  }

  lemma ClosedShape(n: Node, t: Tick) returns (middle: seq<Effect>, removed: seq<PeerId>)
    requires GoodView(n.view) && Handle(n, t).Some? && t.input.Closed?
    ensures Ordered(Handle(n, t).value.effects, Opening(n, t), middle, removed)
    ensures IsReconciled(Shown(n, t), CallFor(n, t.input.peer, t), t.fuel, middle)
    ensures PrunedTo(n.relays.reserved, Handle(n, t).value.node, removed)
  {
    EditGood(n, t);
    hide GoodView, Sorted, AddressesAt, DropConnection, AfterClose, Settle, PruneQueue, InUseIn, IsReconciled, IsPruneLeader, Ordered;
    var p := t.input.peer;
    var s := Told(TellDisconnected(p, t.input.cid), AfterClose(n.(view := Edited(n, t)), p));
    ModeKeeps(n.(view := Edited(n, t)), p);
    middle, removed := SettleShape(s, p, t);
  }

  lemma ModeKeeps(n: Node, p: PeerId)
    ensures forall s | s == AfterOpen(n, p) || s == AfterClose(n, p) ::
              s.node.view == n.view && s.node.relays == n.relays && s.node.local == n.local && s.node.targets == n.targets
  {
    hide AllTargetsConnected, Connected;
  }

  lemma OpenedShape(n: Node, t: Tick) returns (middle: seq<Effect>, removed: seq<PeerId>)
    requires GoodView(n.view) && t.input.Established?
    requires OnOpened(n, t.input.peer, t.input.cid, t.input.endpoint.Remote(), t).Some?
    ensures var r := OnOpened(n, t.input.peer, t.input.cid, t.input.endpoint.Remote(), t).value;
            && Ordered(r.effects, Opening(n, t), middle, removed)
            && PrunedTo(n.relays.reserved, r.node, removed) && r.node.relays.maxRelays == n.relays.maxRelays
    ensures IsReconciled(Shown(n, t), CallFor(n, t.input.peer, t), t.fuel, middle)
  {
    EditGood(n, t);
    hide GoodView, Sorted, AddressesAt, OpenConnection, AfterOpen, Settle, PruneQueue, InUseIn, IsReconciled, IsPruneLeader, Ordered;
    var p := t.input.peer;
    var s := Told(TellConnected(p, t.input.cid), AfterOpen(n.(view := Edited(n, t)), p));
    ModeKeeps(n.(view := Edited(n, t)), p);
    middle, removed := SettleShape(s, p, t);
  }

  /** Registering after an update and updating again is one update of the longer queue. */
  lemma RegisteredShape(n: Node, q: seq<PeerId>, removed: seq<PeerId>, relay: PeerId) returns (all: seq<PeerId>)
    requires Distinct(q) && PrunedTo(q, n, removed) && relay in InUseIn(n.view)
    ensures var u := UpdateRelayState(RegisterRelay(n, relay));
            && Disconnects(removed) + u.effects == Disconnects(all) && u.node.view == n.view
            && PrunedTo(if relay in q then q else q + [relay], u.node, all)
  {
    hide InUseIn;
    var inUse, max, v := n.relays.inUse, n.relays.maxRelays, n.view;
    PruneMeetsPolicy(q, inUse, max, v);
    PruneTwiceOrAgain(q, inUse, max, v, relay);
    var more := UpdateShape(RegisterRelay(n, relay));
    all := removed + more;
    DisconnectsConcat(removed, more);
    hide PruneQueue;
  }

  lemma PruneTwiceOrAgain(q: seq<PeerId>, inUse: set<PeerId>, max: nat, v: View, relay: PeerId)
    requires Distinct(q) && relay in inUse
    ensures var first := PruneQueue(q, inUse, max, v);
            var second := PruneQueue(Register(Relays(first.reserved, inUse, max), relay).reserved, inUse, max, v);
            PruneQueue(if relay in q then q else q + [relay], inUse, max, v)
            == Pruned(second.reserved, first.removed + second.removed)
  {
    PruneMeetsPolicy(q, inUse, max, v);
    hide PruneQueue;
    var first := PruneQueue(q, inUse, max, v);
    if relay in q {
      PruneAgain(q, inUse, max, v);
      assert first.removed + [] == first.removed;
    } else {
      PruneTwice(q, inUse, max, v, relay);
    }
  }

  /** The ConnectionEstablished arm, in two parts. */
  lemma EstablishedParts(n: Node, t: Tick)
    requires Handle(n, t).Some? && t.input.Established?
    ensures var r := OnOpened(n, t.input.peer, t.input.cid, t.input.endpoint.Remote(), t);
            && r.Some?
            && match Registers(t.input)
               case None => Handle(n, t) == r
               case Some(relay) =>
                 var u := UpdateRelayState(RegisterRelay(r.value.node, relay));
                 Handle(n, t) == Some(Step(u.node, r.value.effects + u.effects))
  {
    hide OnOpened, UpdateRelayState, ExtractRelayPeer;
  }

  lemma EstablishedShape(n: Node, t: Tick) returns (middle: seq<Effect>, removed: seq<PeerId>)
    requires GoodView(n.view) && Distinct(n.relays.reserved) && Handle(n, t).Some? && t.input.Established?
    ensures Ordered(Handle(n, t).value.effects, Opening(n, t), middle, removed)
    ensures IsReconciled(Shown(n, t), CallFor(n, t.input.peer, t), t.fuel, middle)
    ensures PrunedTo(Queued(n, t.input), Handle(n, t).value.node, removed)
  {
    EstablishedParts(n, t);
    middle, removed := OpenedShape(n, t);
    if Registers(t.input).Some? {
      RegisteredInUse(n, t);
      removed := LongerShape(n, t, middle, removed);
    } else {
      hide Handle, OnOpened, Opening, IsReconciled, PrunedTo, Shown, Ordered;
    }
  }

  lemma LongerShape(n: Node, t: Tick, middle: seq<Effect>, first: seq<PeerId>) returns (removed: seq<PeerId>)
    requires GoodView(n.view) && Distinct(n.relays.reserved) && Handle(n, t).Some? && t.input.Established? && Registers(t.input).Some?
    requires var r := OnOpened(n, t.input.peer, t.input.cid, t.input.endpoint.Remote(), t);
             && r.Some? && Ordered(r.value.effects, Opening(n, t), middle, first) && PrunedTo(n.relays.reserved, r.value.node, first)
             && Registers(t.input).value in InUseIn(r.value.node.view)
    ensures Ordered(Handle(n, t).value.effects, Opening(n, t), middle, removed)
    ensures PrunedTo(Queued(n, t.input), Handle(n, t).value.node, removed)
  {
    EstablishedParts(n, t);
    hide Handle, OnOpened, Opening, PrunedTo, UpdateRelayState, Registers, InUseIn, GoodView, RegisterRelay, Ordered, Disconnects;
    var r := OnOpened(n, t.input.peer, t.input.cid, t.input.endpoint.Remote(), t).value;
    var relay := Registers(t.input).value;
    removed := RegisteredShape(r.node, n.relays.reserved, first, relay);
    var u := UpdateRelayState(RegisterRelay(r.node, relay)).effects;
    OrderedLonger(r.effects, Opening(n, t), middle, first, u, removed);
  }

  lemma OrderedLonger(e: seq<Effect>, opening: seq<Effect>, middle: seq<Effect>, first: seq<PeerId>, u: seq<Effect>, removed: seq<PeerId>)
    requires Ordered(e, opening, middle, first) && Disconnects(first) + u == Disconnects(removed)
    ensures Ordered(e + u, opening, middle, removed)
  {
    hide Disconnects;
    assert opening + middle + Disconnects(first) + u == opening + middle + (Disconnects(first) + u);
  }

  /** The relay of the new connection is in use by then. */
  lemma RegisteredInUse(n: Node, t: Tick)
    requires GoodView(n.view) && Handle(n, t).Some? && t.input.Established? && Registers(t.input).Some?
    ensures Registers(t.input).value in InUseIn(OnOpened(n, t.input.peer, t.input.cid, t.input.endpoint.Remote(), t).value.node.view)
  {
    EstablishedNeedsOpened(n, t);
    SameViewAfterOpened(n, t);
    hide Handle, OnOpened, InUseIn, GoodView, Records, ExtractRelayPeer;
    HandleRecords(n, t);
    var w := Handle(n, t).value.node.view;
    assert Records(w, t.input.peer, t.input.cid, t.input.endpoint.Remote());
    InUseMeaning(w, Registers(t.input).value);
  }

  lemma SameViewAfterOpened(n: Node, t: Tick)
    requires Handle(n, t).Some? && t.input.Established?
    ensures OnOpened(n, t.input.peer, t.input.cid, t.input.endpoint.Remote(), t).Some?
    ensures Handle(n, t).value.node.view == OnOpened(n, t.input.peer, t.input.cid, t.input.endpoint.Remote(), t).value.node.view
  {
    hide OnOpened, InUseIn, PruneQueue;
  }

  lemma AcceptedShape(n: Node, t: Tick) returns (removed: seq<PeerId>)
    requires t.input.ReservationAccepted?
    ensures Handle(n, t).Some? && Handle(n, t).value.effects == Disconnects(removed)
    ensures PrunedTo(Queued(n, t.input), Handle(n, t).value.node, removed)
    ensures Handle(n, t).value.node == n.(relays := Handle(n, t).value.node.relays)
  {
    var m := RegisterRelay(n, t.input.relay);
    assert Handle(n, t) == Some(UpdateRelayState(m)) && m.relays.reserved == Queued(n, t.input);
    hide UpdateRelayState, Handle, InUseIn, PruneQueue;
    removed := UpdateShape(m);
  }

  // ----- relays: who is in use, who is queued, who is evicted -----

  /** Exactly the relays of the addresses that carry a recorded connection. */
  ghost predicate InUseExactly(inUse: set<PeerId>, v: View) {
    forall r :: r in inUse <==> exists p, cid, a :: Records(v, p, cid, a) && ExtractRelayPeer(a) == Some(r)
  }

  lemma InUseIsExact(v: View)
    requires GoodView(v)
    ensures InUseExactly(InUseIn(v), v)
  {
    hide GoodView, Records, ExtractRelayPeer, InUseIn;
    forall r
      ensures r in InUseIn(v) <==> exists p, cid, a :: Records(v, p, cid, a) && ExtractRelayPeer(a) == Some(r)
    {
      InUseMeaning(v, r);
    }
  }

  lemma OpeningIsSpoken(n: Node, t: Tick)
    ensures forall x | x in Opening(n, t) :: !x.Dial? && !x.DisconnectPeer? && !x.CloseConnection? && !x.ListenOn?
  {
    hide Edited, AllTargetsConnected, Connected, SwitchKad, SwitchMdns, Reconciles;
  }

  lemma RefreshedShape(n: Node, t: Tick) returns (removed: seq<PeerId>)
    requires GoodView(n.view) && Distinct(n.relays.reserved) && Handle(n, t).Some? && Refreshes(t.input)
    ensures Evicted(Handle(n, t).value.effects) == removed && PrunedTo(Queued(n, t.input), Handle(n, t).value.node, removed)
  {
    OpeningIsSpoken(n, t);
    hide Handle, Opening, GoodView, PrunedTo, IsReconciled, Shown, Registers;
    if t.input.ReservationAccepted? {
      removed := AcceptedShape(n, t);
      DisconnectsEvict(removed);
    } else {
      var middle;
      if t.input.Closed? {
        assert Queued(n, t.input) == n.relays.reserved by {
          ClosedQueue(n, t.input);
        }
        middle, removed := ClosedShape(n, t);
      } else {
        middle, removed := EstablishedShape(n, t);
      }
      OrderedFilters(Handle(n, t).value.effects, Opening(n, t), middle, removed);
    }
  }

  lemma ClosedQueue(n: Node, input: Input)
    requires input.Closed?
    ensures Queued(n, input) == n.relays.reserved
  {
  }

  lemma QueuedDistinct(n: Node, input: Input)
    requires Distinct(n.relays.reserved)
    ensures Distinct(Queued(n, input))
  {
    hide Registers;
  }

  /** An opened or closed connection, or an accepted reservation, leaves as used exactly the relays under
      recorded connections. The queue, lengthened at its end by the relay the input registers, loses
      exactly the surplus over those and the spare ones, the slowest first, and that is who is
      disconnected. No other input touches relays. */
  lemma RelayLaw(n: Node, t: Tick)
    requires GoodView(n.view) && Distinct(n.relays.reserved) && Handle(n, t).Some?
    ensures var n', evicted := Handle(n, t).value.node, Evicted(Handle(n, t).value.effects);
            && n'.relays.maxRelays == n.relays.maxRelays
            && if Refreshes(t.input) then
                 && InUseExactly(n'.relays.inUse, n'.view)
                 && PolicyMet(Queued(n, t.input), n'.relays.inUse, n.relays.maxRelays, n'.view, Pruned(n'.relays.reserved, evicted))
               else n'.relays == n.relays && evicted == []
  {
    HandleFacts(n, t);
    var n' := Handle(n, t).value.node;
    ReconciledGood(Edited(n, t), n'.view, Handle(n, t).value.effects, t.now);
    if Refreshes(t.input) {
      hide Handle, GoodView, Registers, InUseIn, PruneQueue, PolicyMet;
      var removed := RefreshedShape(n, t);
      InUseIsExact(n'.view);
      QueuedDistinct(n, t.input);
      PruneMeetsPolicy(Queued(n, t.input), n'.relays.inUse, n.relays.maxRelays, n'.view);
    } else {
      SameRelays(n, t);
      assert forall x | x in Handle(n, t).value.effects :: !x.DisconnectPeer? by {
        OthersEvictNobody(n, t);
      }
      NoneEvicted(Handle(n, t).value.effects);
    }
  }

  lemma OthersEvictNobody(n: Node, t: Tick)
    requires GoodView(n.view) && Handle(n, t).Some? && !Refreshes(t.input)
    ensures forall x | x in Handle(n, t).value.effects :: !x.DisconnectPeer?
  {
    EditGood(n, t);
    hide GoodView, Sorted, AddressesAt, LearnAddress, ForgetAddress, ReconcilePeer, ShouldSkipForDial, IsNewAddress, SwitchKad, SwitchMdns;
    if Reconciles(n, t) {
      ReconcileShape(n.(view := Edited(n, t)), t.input.peer, t);
    }
  }

  /** Dials and closes come first, disconnects last. */
  lemma EvictionsLast(n: Node, t: Tick, i: nat, j: nat)
    requires GoodView(n.view) && Handle(n, t).Some? && i < j < |Handle(n, t).value.effects|
    ensures Handle(n, t).value.effects[i].DisconnectPeer? ==> Handle(n, t).value.effects[j].DisconnectPeer?
  {
    if Refreshes(t.input) {
      OpeningIsSpoken(n, t);
      hide Handle, Opening, GoodView, IsReconciled, Shown, PrunedTo, Registers;
      var middle, removed;
      if t.input.ReservationAccepted? {
        removed := AcceptedShape(n, t);
      } else {
        if t.input.Closed? {
          middle, removed := ClosedShape(n, t);
        } else {
          middle, removed := LooseEstablishedShape(n, t);
        }
        LastInOrder(Handle(n, t).value.effects, Opening(n, t), middle, removed, i, j);
      }
    } else {
      OthersEvictNobody(n, t);
      hide Handle, GoodView;
      assert Handle(n, t).value.effects[i] in Handle(n, t).value.effects;
    }
  }

  lemma LastInOrder(e: seq<Effect>, opening: seq<Effect>, middle: seq<Effect>, removed: seq<PeerId>, i: nat, j: nat)
    requires Ordered(e, opening, middle, removed) && i < j < |e| && forall x | x in opening :: !x.DisconnectPeer?
    ensures e[i].DisconnectPeer? ==> e[j].DisconnectPeer?
  {
    var front := opening + middle;
    if i < |front| {
      assert e[i] == front[i] && front[i] in front;
    } else {
      assert e[j] == Disconnects(removed)[j - |front|];
    }
  }

  /** A closed connection disconnects exactly max(0, queued - in use - max) relays. */
  lemma CloseEvictsExactly(n: Node, t: Tick)
    requires GoodView(n.view) && Distinct(n.relays.reserved) && Handle(n, t).Some? && t.input.Closed?
    ensures var queued, room := |n.relays.reserved|, |Handle(n, t).value.node.relays.inUse| + n.relays.maxRelays;
            |Evicted(Handle(n, t).value.effects)| == if queued > room then queued - room else 0
  {
    RelayLaw(n, t);
    ClosedQueue(n, t.input);
    hide Handle, InUseExactly, GoodView, Registers;
  }

  /** Over runs: the stored usage set is the one of the last input that brought it up to date; before
      the first of them it is empty. */
  lemma {:induction false} UsageLaw(states: seq<Node>, ticks: seq<Tick>, j: nat, i: nat)
    requires IsRun(states, ticks) && StartsFresh(states) && j <= i < |states|
    requires forall k | j <= k < i :: !Refreshes(ticks[k].input)
    ensures j == 0 ==> states[i].relays.inUse == {}
    ensures j > 0 && Refreshes(ticks[j - 1].input) ==> InUseExactly(states[i].relays.inUse, states[j].view)
    decreases i
  {
    hide Handle, GoodView, InUseExactly, Fresh, Refreshes;
    if i == 0 {
      var local, max :| states[0] == Fresh(local, max);
      FreshRelays(local, max);
    } else {
      ReachableIsGood(states, ticks, i - 1);
      ReachableDistinct(states, ticks, i - 1);
      RelayLaw(states[i - 1], ticks[i - 1]);
      if j < i {
        UsageLaw(states, ticks, j, i - 1);
      }
    }
  }

  lemma FreshRelays(local: PeerId, max: nat)
    ensures Fresh(local, max).relays == Relays([], {}, max)
  {
  }

  lemma ReachableDistinct(states: seq<Node>, ticks: seq<Tick>, i: nat)
    requires IsRun(states, ticks) && StartsFresh(states) && i < |states|
    ensures Distinct(states[i].relays.reserved)
  {
    hide IsRun, StartsFresh, InUseIn;
    RelayPolicyAlways(states, ticks, i);
  }

  // ----- reservation requests -----

  /** A reservation is asked for exactly from a peer that is known, speaks a hop protocol, is admitted
      and has an address: on its head, extended by the peer and a circuit. That address names the peer as
      its relay exactly when the head is not relayed, or is relayed through it. */
  lemma RequestLaw(n: Node, t: Tick, x: Multiaddr)
    requires GoodView(n.view) && Handle(n, t).Some?
    ensures ListenOn(x) in Handle(n, t).value.effects <==>
            && t.input.RelayOffered? && t.input.peer in n.view
            && var p, info := t.input.peer, n.view[t.input.peer];
            && info.supportsRelayHopV2 && info.addresses != []
            && (p in n.relays.reserved || |n.relays.reserved| < |n.relays.inUse| + n.relays.maxRelays)
            && x == info.addresses[0].address + [P2p(p), P2pCircuit]
    ensures ListenOn(x) in Handle(n, t).value.effects ==>
            var p, head := t.input.peer, n.view[t.input.peer].addresses[0].address;
            ExtractRelayPeer(x) == Some(p) <==> !AddrIsRelay(head) || ExtractRelayPeer(head) == Some(p)
  {
    if t.input.RelayOffered? {
      hide ExtractRelayPeer, AddrIsRelay;
      if ListenOn(x) in Handle(n, t).value.effects {
        ListenAddressRoundTrip(n.view[t.input.peer].addresses[0].address, t.input.peer);
      }
    } else {
      OthersAskNobody(n, t);
    }
  }

  /** While the list is sorted for this moment, that head is the most preferred address. */
  lemma RequestedHead(n: Node, t: Tick, x: Multiaddr, m: AddressMetadata)
    requires GoodView(n.view) && Handle(n, t).Some? && ListenOn(x) in Handle(n, t).value.effects
    requires t.input.RelayOffered? && m in AddressesAt(n.view, t.input.peer) && Sorted(AddressesAt(n.view, t.input.peer), t.now)
    ensures var head := AddressesAt(n.view, t.input.peer)[0];
            && x == head.address + [P2p(t.input.peer), P2pCircuit]
            && (m == head || (!InCooldown(head, t.now) && InCooldown(m, t.now))
                || (InCooldown(head, t.now) == InCooldown(m, t.now) && Preferred(head.address, m.address)))
  {
    RequestLaw(n, t, x);
    GoodAt(n.view, t.input.peer);
    hide Handle, GoodView, Good, Sorted, Preferred, InCooldown;
    HeadIsPreferred(AddressesAt(n.view, t.input.peer), t.now);
  }

  lemma OthersAskNobody(n: Node, t: Tick)
    requires GoodView(n.view) && Handle(n, t).Some? && !t.input.RelayOffered?
    ensures forall x | x in Handle(n, t).value.effects :: !x.ListenOn?
  {
    OpeningIsSpoken(n, t);
    if Reconciles(n, t) {
      hide Handle, Opening, GoodView, IsReconciled, Shown, PrunedTo, Registers;
      if t.input.Closed? {
        var middle, removed := ClosedShape(n, t);
      } else if t.input.Established? {
        var middle, removed := LooseEstablishedShape(n, t);
      } else {
        var middle := AddressShape(n, t);
      }
    } else {
      QuietAsksNobody(n, t);
    }
  }

  lemma QuietAsksNobody(n: Node, t: Tick)
    requires Handle(n, t).Some? && !t.input.RelayOffered? && !Reconciles(n, t)
    ensures forall x | x in Handle(n, t).value.effects :: !x.ListenOn?
  {
    hide LearnAddress, ForgetAddress, ReconcilePeer, ShouldSkipForDial, IsNewAddress, SwitchKad, SwitchMdns, PruneQueue, InUseIn;
  }

  /** The shape of the requests alone, whatever the queue. */
  lemma LooseEstablishedShape(n: Node, t: Tick) returns (middle: seq<Effect>, removed: seq<PeerId>)
    requires GoodView(n.view) && Handle(n, t).Some? && t.input.Established?
    ensures Ordered(Handle(n, t).value.effects, Opening(n, t), middle, removed)
    ensures IsReconciled(Shown(n, t), CallFor(n, t.input.peer, t), t.fuel, middle)
  {
    EstablishedParts(n, t);
    middle, removed := OpenedShape(n, t);
    hide Handle, OnOpened, Opening, IsReconciled, PrunedTo, Shown, UpdateRelayState, Ordered, Registers, Disconnects, GoodView;
    if Registers(t.input).Some? {
      var r := OnOpened(n, t.input.peer, t.input.cid, t.input.endpoint.Remote(), t).value;
      var more := UpdateShape(RegisterRelay(r.node, Registers(t.input).value));
      DisconnectsConcat(removed, more);
      OrderedLonger(r.effects, Opening(n, t), middle, removed, Disconnects(more), removed + more);
      removed := removed + more;
    }
  }

  // ----- dials -----

  /** With a connection to the peer recorded, its handler dials nobody if the head is up or we do not
      lead; a leader off the head dials exactly the head, once. */
  lemma MigrationDial(n: Node, t: Tick)
    requires GoodView(n.view) && Handle(n, t).Some? && Reconciles(n, t)
    requires exists cid, a :: Records(Edited(n, t), t.input.peer, cid, a)
    ensures var p := t.input.peer;
            && Shown(n, t) != []
            && var head := Shown(n, t)[0].address;
            && Dialled(Handle(n, t).value.effects) ==
               if (forall cid :: !Records(Edited(n, t), p, cid, head)) && IsPruneLeader(n.local, p)
               then [Dial(p, head, head !in t.refused)] else []
  {
    var middle := DialsOfReconcile(n, t);
    EditGood(n, t);
    GoodAt(Edited(n, t), t.input.peer);
    hide Handle, Edited, GoodView, Records, Connected, ConnectedOver, Reconciles, IsPruneLeader, Dialled, Good, Sorted;
    ConnectedMeansRecorded(Edited(n, t), t.input.peer);
    ConnectedDials(Shown(n, t), CallFor(n, t.input.peer, t), t.fuel, middle);
    ShownConnectivity(n, t);
  }

  lemma ShownConnectivity(n: Node, t: Tick)
    requires Reconciles(n, t)
    ensures IsConnected(Shown(n, t)) <==> Connected(Edited(n, t), t.input.peer)
    ensures forall a :: IsConnectedOver(Shown(n, t), a) <==> ConnectedOver(Edited(n, t), t.input.peer, a)
  {
    hide Edited, IsConnected, IsConnectedOver;
  }

  lemma ConnectedDials(s: Addresses, c: Reconcile.Call, fuel: nat, e: seq<Effect>)
    requires IsReconciled(s, c, fuel, e)
    ensures IsConnected(s) ==>
              && s != []
              && Dialled(e) == if !IsConnectedOver(s, s[0].address) && c.leader
                               then [Dial(c.peer, s[0].address, s[0].address !in c.refused)] else []
  {
    hide MarkFailure, IsConnectedOver;
    if IsConnected(s) {
      var closes := CloseEach(Reconcile.ConnectionsOf(s[1..]));
      NoneDialled(closes);
      var d := [Dial(c.peer, s[0].address, s[0].address !in c.refused)];
      assert d[1..] == [] && Dialled(d) == d;
    }
  }

  /** The dials of a handler are those of its reconcile. */
  lemma DialsOfReconcile(n: Node, t: Tick) returns (middle: seq<Effect>)
    requires GoodView(n.view) && Handle(n, t).Some? && Reconciles(n, t)
    ensures IsReconciled(Shown(n, t), CallFor(n, t.input.peer, t), t.fuel, middle)
    ensures Dialled(Handle(n, t).value.effects) == Dialled(middle)
  {
    OpeningIsSpoken(n, t);
    var removed;
    if t.input.Established? || t.input.Closed? {
      hide Handle, Opening, GoodView, IsReconciled, Shown, PrunedTo, Registers;
      if t.input.Closed? {
        middle, removed := ClosedShape(n, t);
      } else {
        middle, removed := LooseEstablishedShape(n, t);
      }
      OrderedFilters(Handle(n, t).value.effects, Opening(n, t), middle, removed);
    } else {
      middle := AddressShape(n, t);
      hide Handle, Opening, GoodView, IsReconciled, Shown;
      DialledConcat(Opening(n, t), middle);
      NoneDialled(Opening(n, t));
    }
  }

  lemma AddressShape(n: Node, t: Tick) returns (middle: seq<Effect>)
    requires GoodView(n.view) && Handle(n, t).Some? && Reconciles(n, t) && !t.input.Established? && !t.input.Closed?
    ensures Handle(n, t).value.effects == Opening(n, t) + middle
    ensures IsReconciled(Shown(n, t), CallFor(n, t.input.peer, t), t.fuel, middle)
    ensures forall x | x in middle :: x.Dial? || x.CloseConnection?
  {
    EditGood(n, t);
    hide GoodView, Sorted, AddressesAt, LearnAddress, ForgetAddress, ReconcilePeer, ShouldSkipForDial, IsNewAddress, IsReconciled, IsPruneLeader;
    ReconcileShape(n.(view := Edited(n, t)), t.input.peer, t);
    middle := ReconcilePeer(n.(view := Edited(n, t)), t.input.peer, t).value.effects;
  }

  /** Entry `k` is the first one not cooling down that the swarm accepts. */
  ghost predicate FirstAccepted(s: Addresses, t: Tick, k: int) {
    && 0 <= k < |s| && !InCooldown(s[k], t.now) && s[k].address !in t.refused
    && forall j | 0 <= j < k :: s[j].address in t.refused && !InCooldown(s[j], t.now)
  }

  /** Without a connection to the peer, its handler dials the addresses not cooling down in list order up
      to the first one accepted; if all of them are rejected, the most preferred address of all comes
      next, and must be accepted, for the handler has returned. */
  lemma FirstDials(n: Node, t: Tick)
    requires GoodView(n.view) && Handle(n, t).Some? && Reconciles(n, t) && Shown(n, t) != []
    requires forall cid, a :: !Records(Edited(n, t), t.input.peer, cid, a)
    ensures var s, p, e := Shown(n, t), t.input.peer, Dialled(Handle(n, t).value.effects);
            && (forall k | FirstAccepted(s, t, k) :: e == DialRecursion.FailedDials(s[..k], p) + [Dial(p, s[k].address, true)])
            && ((forall m | m in s && !InCooldown(m, t.now) :: m.address in t.refused) ==>
                  forall f | DialRecursion.StaticallyFirst(s, f) ::
                    f !in t.refused && e == DialRecursion.FailedDials(s[..DialRecursion.Ready(s, t.now)], p) + [Dial(p, f, true)])
  {
    var middle := DialsOfReconcile(n, t);
    EditGood(n, t);
    GoodAt(Edited(n, t), t.input.peer);
    var s, c := Shown(n, t), CallFor(n, t.input.peer, t);
    assert !IsConnected(s) by {
      hide Edited, GoodView, Records, Good, Sorted;
      ConnectedMeansRecorded(Edited(n, t), t.input.peer);
      ShownConnectivity(n, t);
    }
    assert c.now == t.now && c.refused == t.refused && c.peer == t.input.peer;
    hide Handle, Edited, GoodView, Records, Reconciles, Good, Sorted, IsConnected, InCooldown, IsPruneLeader, Shown, Dialled, CallFor;
    UnconnectedDials(s, c, t.fuel, middle, t);
  }

  lemma UnconnectedDials(s: Addresses, c: Reconcile.Call, fuel: nat, e: seq<Effect>, t: Tick)
    requires Good(s) && Sorted(s, c.now) && !IsConnected(s) && s != [] && IsReconciled(s, c, fuel, e)
    requires c.now == t.now && c.refused == t.refused
    ensures forall k | FirstAccepted(s, t, k) :: Dialled(e) == DialRecursion.FailedDials(s[..k], c.peer) + [Dial(c.peer, s[k].address, true)]
    ensures (forall m | m in s && !InCooldown(m, t.now) :: m.address in t.refused) ==>
              forall f | DialRecursion.StaticallyFirst(s, f) ::
                f !in t.refused
                && Dialled(e) == DialRecursion.FailedDials(s[..DialRecursion.Ready(s, t.now)], c.peer) + [Dial(c.peer, f, true)]
  {
    hide Reconcile.Run, Good, Sorted, IsConnected, InCooldown, DialRecursion.StaticallyFirst, Dialled, DialRecursion.FailedDials;
    forall k | FirstAccepted(s, t, k)
      ensures Dialled(e) == DialRecursion.FailedDials(s[..k], c.peer) + [Dial(c.peer, s[k].address, true)]
    {
      ReadyBeyond(s, t.now, k);
      DialRecursion.DialsFirstAcceptedReady(s, c, k, fuel);
      OnlyDials(s[..k], c.peer, s[k].address);
    }
    var r := DialRecursion.Ready(s, t.now);
    if forall m | m in s && !InCooldown(m, t.now) :: m.address in t.refused {
      assert forall j | 0 <= j < r :: s[j] in s && s[j].address in c.refused;
      forall f | DialRecursion.StaticallyFirst(s, f)
        ensures f !in t.refused && Dialled(e) == DialRecursion.FailedDials(s[..r], c.peer) + [Dial(c.peer, f, true)]
      {
        if f in c.refused {
          DialRecursion.ElseNeverEnds(s, c, f, fuel);
          assert false;
        }
        DialRecursion.ThenDialsStaticallyFirst(s, c, f, fuel);
        OnlyDials(s[..r], c.peer, f);
      }
    }
  }

  lemma ReadyBeyond(s: Addresses, now: Instant, k: int)
    requires 0 <= k < |s| && forall j | 0 <= j <= k :: !InCooldown(s[j], now)
    ensures k < DialRecursion.Ready(s, now)
  {
    hide InCooldown;
    if DialRecursion.Ready(s, now) <= k {
      assert false;
    }
  }

  lemma {:induction false} AllDialled(e: seq<Effect>)
    requires forall x | x in e :: x.Dial?
    ensures Dialled(e) == e
  {
    if e != [] {
      assert e[0] in e && forall x | x in e[1..] :: x in e;
      AllDialled(e[1..]);
      assert e == [e[0]] + e[1..];
    }
  }

  lemma OnlyDials(s: Addresses, p: PeerId, a: Multiaddr)
    ensures var e := DialRecursion.FailedDials(s, p) + [Dial(p, a, true)];
            Dialled(e) == e
  {
    AllDialled(DialRecursion.FailedDials(s, p) + [Dial(p, a, true)]);
  }

  // ----- which addresses are listed -----

  /** A link-local IPv6 component (fe80::/10), and no zone to go with it. */
  predicate Undialable(a: Multiaddr) {
    && (exists k | 0 <= k < |a| :: a[k].Ip6? && 0xFE80 <= a[k].first <= 0xFEBF)
    && !(exists k | 0 <= k < |a| :: a[k].Ip6Zone?)
  }

  lemma SkipMeaning(a: Multiaddr)
    ensures ShouldSkipForDial(a) <==> Undialable(a)
  {
    forall k | 0 <= k < |a|
      ensures IsLinkLocal6(a[k]) <==> a[k].Ip6? && 0xFE80 <= a[k].first <= 0xFEBF
    {
      if a[k].Ip6? {
        var f := a[k].first;
        assert (f & 0xffc0) == 0xfe80 <==> 0xfe80 <= f <= 0xfebf;
      }
    }
  }

  lemma NewMeaning(v: View, p: PeerId, a: Multiaddr)
    ensures IsNewAddress(v, p, a) <==> a !in TableAt(v, p)
  {
    ListedAt(AddressesAt(v, p), a);
  }

  /** Exactly these inputs reconcile. */
  lemma ReconcilesWhen(n: Node, t: Tick)
    ensures Reconciles(n, t) <==>
            match t.input
            case Established(_, _, _) => true
            case Closed(_, _) => true
            case AddressExpired(_, _) => true
            case AddressSeen(p, a) => !Undialable(a) && a !in TableAt(n.view, p)
            case _ => false
  {
    if t.input.AddressSeen? {
      SkipMeaning(t.input.addr);
      NewMeaning(n.view, t.input.peer, t.input.addr);
    }
  }

  /** The address a connection is reported on: the one dialled, or the one a listener would dial back. */
  ghost predicate ReportedOn(endpoint: ConnectedPoint, a: Multiaddr) {
    match endpoint
    case Dialer(address) => a == address
    case Listener(_, back) => a == back
  }

  /** Addresses are listed by being learnt or by carrying a new connection, and unlisted by expiring,
      nothing else; a new connection is recorded where it is reported. */
  lemma ListedLaw(n: Node, t: Tick, q: PeerId, a: Multiaddr)
    requires GoodView(n.view) && Handle(n, t).Some?
    ensures var v, w := n.view, Handle(n, t).value.node.view;
            a in TableAt(w, q) <==>
            match t.input
            case Established(p, _, endpoint) => a in TableAt(v, q) || (q == p && ReportedOn(endpoint, a))
            case AddressSeen(p, b) => a in TableAt(v, q) || (q == p && a == b && !Undialable(b))
            case AddressExpired(p, b) => a in TableAt(v, q) && !(q == p && a == b)
            case _ => a in TableAt(v, q)
    ensures t.input.Established? ==>
              (Records(Handle(n, t).value.node.view, t.input.peer, t.input.cid, a) <==> ReportedOn(t.input.endpoint, a))
  {
    SameListing(n, t, q);
    assert t.input.Established? ==> (t.input.endpoint.Remote() == a <==> ReportedOn(t.input.endpoint, a));
    hide Handle, AddressesAt, GoodView, TableAt, Edited, EditedList, Undialable, Records, ReportedOn;
    HandleRecords(n, t);
    EditedListing(n, t, q, a);
  }

  lemma SameListing(n: Node, t: Tick, q: PeerId)
    requires GoodView(n.view) && Handle(n, t).Some?
    ensures TableAt(Handle(n, t).value.node.view, q).Keys == TableAt(Edited(n, t), q).Keys
  {
    hide Handle, GoodView, TableAt, Edited, Reconciles, DialsListed, ClosesOffHead, Records;
    HandleFacts(n, t);
  }

  lemma EditedListing(n: Node, t: Tick, q: PeerId, a: Multiaddr)
    requires GoodView(n.view)
    ensures a in TableAt(Edited(n, t), q) <==>
            match t.input
            case Established(p, _, endpoint) => a in TableAt(n.view, q) || (q == p && a == endpoint.Remote())
            case AddressSeen(p, b) => a in TableAt(n.view, q) || (q == p && a == b && !Undialable(b))
            case AddressExpired(p, b) => a in TableAt(n.view, q) && !(q == p && a == b)
            case _ => a in TableAt(n.view, q)
  {
    GoodAt(n.view, q);
    hide AddressesAt, Good, GoodView, TableOf, Edited, EditedList, Undialable;
    EditIsLocal(n, t, q);
    if EditsList(t.input) && t.input.peer == q {
      ListEdited(AddressesAt(n.view, q), t.input, t.now, a);
    }
  }

  lemma ListEdited(s: Addresses, input: Input, now: Instant, a: Multiaddr)
    requires Good(s) && EditsList(input)
    ensures a in TableOf(EditedList(s, input, now)) <==>
            match input
            case Established(_, _, endpoint) => a in TableOf(s) || a == endpoint.Remote()
            case AddressSeen(_, b) => a in TableOf(s) || (a == b && !Undialable(b))
            case AddressExpired(_, b) => a in TableOf(s) && a != b
            case _ => a in TableOf(s)
  {
    hide Good, TableOf, Sorted, On, AddAddress, AddConnection, RemoveAddress, RemoveConnection, ShouldSkipForDial, Undialable, SameFailures;
    match input
    case Established(_, c, endpoint) => AddConnectionFacts(s, c, endpoint.Remote(), now);
    case Closed(_, c) => RemoveConnectionFacts(s, c, now);
    case AddressSeen(_, addr) =>
      SkipMeaning(addr);
      AddAddressFacts(s, addr, now);
    case AddressExpired(_, addr) => RemoveAddressFacts(s, addr, now);
    case _ =>
  }

  // ----- who is known, and what is kept about a peer besides its addresses -----

  /** Same peers, with the same protocols, hop flag and round-trip time. */
  ghost predicate SameInfo(v: View, w: View) {
    w.Keys == v.Keys && forall q | q in v :: w[q] == v[q].(addresses := w[q].addresses)
  }

  lemma ReconcileSameInfo(n: Node, p: PeerId, t: Tick)
    requires ReconcilePeer(n, p, t).Some?
    ensures SameInfo(n.view, ReconcilePeer(n, p, t).value.node.view)
  {
    hide Reconcile.Run;
  }

  lemma SettleSameInfo(s: Step, p: PeerId, t: Tick)
    requires Settle(s, p, t).Some?
    ensures SameInfo(s.node.view, Settle(s, p, t).value.node.view)
  {
    hide ReconcilePeer, UpdateRelayState;
    ReconcileSameInfo(s.node, p, t);
    UpdateKeepsView(ReconcilePeer(s.node, p, t).value.node);
  }

  lemma HandleSameInfo(n: Node, t: Tick)
    requires Handle(n, t).Some?
    ensures SameInfo(Edited(n, t), Handle(n, t).value.node.view)
  {
    var edited := n.(view := Edited(n, t));
    if t.input.Established? {
      SameViewAfterOpened(n, t);
      ModeKeeps(edited, t.input.peer);
      hide Handle, Edited, AfterOpen, Settle, SameInfo, OpenConnection;
      SettleSameInfo(Told(TellConnected(t.input.peer, t.input.cid), AfterOpen(edited, t.input.peer)), t.input.peer, t);
      OpenedIsSettled(n, t);
    } else if t.input.Closed? {
      ModeKeeps(edited, t.input.peer);
      hide AfterClose, Settle, SameInfo, DropConnection;
      SettleSameInfo(Told(TellDisconnected(t.input.peer, t.input.cid), AfterClose(edited, t.input.peer)), t.input.peer, t);
    } else {
      hide ReconcilePeer, UpdateRelayState, LearnAddress, ForgetAddress, Views.SetProtocols, ShouldSkipForDial, IsNewAddress, SwitchKad, SwitchMdns;
      if Reconciles(n, t) {
        ReconcileSameInfo(edited, t.input.peer, t);
      } else if t.input.ReservationAccepted? {
        UpdateKeepsView(RegisterRelay(n, t.input.relay));
      }
    }
  }

  lemma OpenedIsSettled(n: Node, t: Tick)
    requires t.input.Established?
    ensures OnOpened(n, t.input.peer, t.input.cid, t.input.endpoint.Remote(), t)
         == Settle(Told(TellConnected(t.input.peer, t.input.cid), AfterOpen(n.(view := Edited(n, t)), t.input.peer)), t.input.peer, t)
  {
    hide AfterOpen, Settle, OpenConnection;
  }

  ghost predicate SpeaksHop(protocols: set<string>) {
    "/libp2p/circuit/relay/0.2.0/hop" in protocols || "/libp2p/circuit/relay/0.2.0" in protocols
  }

  lemma HopMeaning(protocols: set<string>)
    ensures HopSupported(protocols) <==> SpeaksHop(protocols)
  {
  }

  /** Who is known afterwards: a peer becomes known by a connection, an address or its protocols; it is
      forgotten when a closed connection or an expiry finds it without addresses. */
  lemma KnownLaw(n: Node, t: Tick, q: PeerId)
    requires GoodView(n.view) && Handle(n, t).Some?
    ensures var v, w := n.view, Handle(n, t).value.node.view;
            q in w <==>
            match t.input
            case Established(p, _, _) => q in v || q == p
            case AddressSeen(p, a) => q in v || (q == p && !Undialable(a))
            case ProtocolsSeen(p, _) => q in v || q == p
            case Closed(p, _) => q in v && (q == p ==> TableAt(w, q) != map[])
            case AddressExpired(p, _) => q in v && (q == p ==> TableAt(w, q) != map[])
            case _ => q in v
  {
    HandleSameInfo(n, t);
    SameListing(n, t, q);
    EmptyTable(AddressesAt(Edited(n, t), q));
    hide Handle, Edited, Undialable, TableOf, AddressesAt, GoodView;
    assert TableAt(Handle(n, t).value.node.view, q) == map[] <==> TableAt(Edited(n, t), q) == map[];
    EditedKnown(n, t, q);
  }

  lemma EditedKnown(n: Node, t: Tick, q: PeerId)
    ensures var v, w := n.view, Edited(n, t);
            q in w <==>
            match t.input
            case Established(p, _, _) => q in v || q == p
            case AddressSeen(p, a) => q in v || (q == p && !Undialable(a))
            case ProtocolsSeen(p, _) => q in v || q == p
            case Closed(p, _) => q in v && (q == p ==> AddressesAt(w, q) != [])
            case AddressExpired(p, _) => q in v && (q == p ==> AddressesAt(w, q) != [])
            case _ => q in v
  {
    hide AddAddress, RemoveAddress, AddConnection, RemoveConnection, Undialable, ShouldSkipForDial, GetConnectionAddress, HopSupported;
    if t.input.AddressSeen? {
      SkipMeaning(t.input.addr);
    }
  }

  lemma EmptyTable(s: Addresses)
    ensures TableOf(s) == map[] <==> s == []
  {
    if s != [] {
      assert s[0] in s && s[0].address in TableOf(s);
    }
  }

  /** What is kept about a known peer: protocols and hop flag as last announced, the round-trip time of
      the last answered ping on a connection recorded for it; none, no, and zero for a new peer. */
  lemma InfoLaw(n: Node, t: Tick, q: PeerId)
    requires GoodView(n.view) && Handle(n, t).Some? && q in Handle(n, t).value.node.view
    ensures var v, w := n.view, Handle(n, t).value.node.view;
            && w[q].protocols == (if t.input.ProtocolsSeen? && t.input.peer == q then t.input.protocols
                                  else if q in v then v[q].protocols else {})
            && (w[q].supportsRelayHopV2 <==> if t.input.ProtocolsSeen? && t.input.peer == q then SpeaksHop(t.input.protocols)
                                             else q in v && v[q].supportsRelayHopV2)
            && w[q].rtt == (if t.input.Pinged? && t.input.peer == q && t.input.answer.Some?
                               && (exists a :: Records(v, q, t.input.cid, a))
                            then t.input.answer.value
                            else if q in v then v[q].rtt else 0)
  {
    HandleSameInfo(n, t);
    if t.input.ProtocolsSeen? {
      HopMeaning(t.input.protocols);
    }
    if t.input.Pinged? {
      LookupRecorded(n.view, q, t.input.cid);
    }
    hide Handle, GoodView, GetConnectionAddress, Records, HopSupported, SpeaksHop;
    EditedInfo(n, t, q);
  }

  lemma LookupRecorded(v: View, p: PeerId, cid: ConnId)
    requires GoodView(v)
    ensures GetConnectionAddress(AddressesAt(v, p), cid).Some? <==> exists a :: Records(v, p, cid, a)
  {
    GoodAt(v, p);
    hide GoodView, Good, GetConnectionAddress, TableOf, On, AddressesAt;
    var s := AddressesAt(v, p);
    LookupFacts(s, cid);
    var g := GetConnectionAddress(s, cid);
    assert g.Some? ==> Records(v, p, cid, g.value);
    if a :| Records(v, p, cid, a) {
      assert On(TableOf(s), cid, a);
    }
  }

  lemma EditedInfo(n: Node, t: Tick, q: PeerId)
    requires q in Edited(n, t)
    ensures var v, w := n.view, Edited(n, t);
            && w[q].protocols == (if t.input.ProtocolsSeen? && t.input.peer == q then t.input.protocols
                                  else if q in v then v[q].protocols else {})
            && w[q].supportsRelayHopV2 == (if t.input.ProtocolsSeen? && t.input.peer == q then HopSupported(t.input.protocols)
                                           else q in v && v[q].supportsRelayHopV2)
            && w[q].rtt == (if t.input.Pinged? && t.input.peer == q && t.input.answer.Some?
                               && GetConnectionAddress(AddressesAt(v, q), t.input.cid).Some?
                            then t.input.answer.value
                            else if q in v then v[q].rtt else 0)
  {
    hide AddAddress, RemoveAddress, AddConnection, RemoveConnection, ShouldSkipForDial, GetConnectionAddress, HopSupported;
  }

  // ----- modes, announcements and discovery -----

  ghost predicate Linked(v: View, p: PeerId) {
    exists cid, a :: Records(v, p, cid, a)
  }

  /** A connection opens or closes for a target, and afterwards a target is without a connection: for a
      close the target itself. */
  ghost predicate GoesActive(n: Node, input: Input, w: View) {
    match input
    case Established(p, _, _) => p in n.targets && exists q | q in n.targets :: !Linked(w, q)
    case Closed(p, _) => p in n.targets && !Linked(w, p)
    case _ => false
  }

  ghost predicate GoesPassive(n: Node, input: Input, w: View) {
    input.Established? && input.peer in n.targets && forall q | q in n.targets :: Linked(w, q)
  }

  /** Discovery switched on: Kademlia, created if need be, as a client; mDNS if need be; then a lookup of
      the targets. */
  function DiscoveryOn(n: Node): seq<Effect> {
    (if n.kad then [SetKadMode(Client)] else [CreateKad, SetKadMode(Client)])
    + (if n.mdns then [KadLookup(n.targets)] else [CreateMdns, KadLookup(n.targets)])
  }

  /** All that an input makes a node say before it turns to its connections. */
  ghost function Spoken(n: Node, input: Input, w: View): seq<Effect> {
    (match input
     case Established(p, cid, _) => [TellConnected(p, cid)]
     case Closed(p, cid) => [TellDisconnected(p, cid)]
     case AddressSeen(p, a) => if n.kad && !Undialable(a) && a !in TableAt(n.view, p) then [KadAdd(p, a)] else []
     case AddressExpired(p, a) => if n.kad then [KadRemove(p, a)] else []
     case KadSwitched(on, mode) =>
       if on then if n.kad then [SetKadMode(mode)] else [CreateKad, SetKadMode(mode)]
       else if n.kad then [DropKad]
       else []
     case MdnsSwitched(on) => if on && !n.mdns then [CreateMdns] else if !on && n.mdns then [DropMdns] else []
     case _ => [])
    + (if GoesActive(n, input, w) then DiscoveryOn(n) else if GoesPassive(n, input, w) && n.kad then [DropKad] else [])
  }

  lemma EditedLinks(n: Node, t: Tick, q: PeerId)
    requires GoodView(n.view) && Handle(n, t).Some?
    ensures Connected(Edited(n, t), q) <==> Linked(Handle(n, t).value.node.view, q)
  {
    HandleRecords(n, t);
    hide Handle, GoodView, Edited, Connected, ConnectedOver, Records, RecordedAfter;
    ConnectedMeansRecorded(Handle(n, t).value.node.view, q);
    ConnectedAfter(n, t, q);
  }

  lemma OpeningIs(n: Node, t: Tick)
    requires GoodView(n.view) && Handle(n, t).Some?
    ensures Opening(n, t) == Spoken(n, t.input, Handle(n, t).value.node.view)
  {
    forall q
      ensures Connected(Edited(n, t), q) <==> Linked(Handle(n, t).value.node.view, q)
    {
      EditedLinks(n, t, q);
    }
    hide Handle, GoodView, Linked, Connected;
    OpeningWith(n, t, Handle(n, t).value.node.view);
  }

  lemma OpeningWith(n: Node, t: Tick, w: View)
    requires forall q :: Connected(Edited(n, t), q) <==> Linked(w, q)
    ensures Opening(n, t) == Spoken(n, t.input, w)
  {
    ReconcilesWhen(n, t);
    hide Edited, Linked, Connected, TableAt, Undialable, Reconciles;
    match t.input
    case Established(p, cid, _) => OpeningWhenOpened(n, t, w);
    case Closed(p, cid) => OpeningWhenClosed(n, t, w);
    case KadSwitched(on, mode) => SwitchLiteral(n, mode);
    case _ =>
  }

  lemma SwitchLiteral(n: Node, mode: KadMode)
    ensures SwitchKad(n.kad, true, mode) == if n.kad then [SetKadMode(mode)] else [CreateKad, SetKadMode(mode)]
    ensures SetActiveMode(n, true).effects == DiscoveryOn(n)
    ensures SetActiveMode(n, false).effects == if n.kad then [DropKad] else []
  {
    assert [CreateKad] + [SetKadMode(mode)] == [CreateKad, SetKadMode(mode)];
    assert [] + [SetKadMode(mode)] == [SetKadMode(mode)];
    assert [CreateKad] + [SetKadMode(Client)] == [CreateKad, SetKadMode(Client)];
    assert SwitchKad(n.kad, true, Client) == if n.kad then [SetKadMode(Client)] else [CreateKad, SetKadMode(Client)];
    assert SwitchMdns(n.mdns, true) + [KadLookup(n.targets)] == if n.mdns then [KadLookup(n.targets)] else [CreateMdns, KadLookup(n.targets)];
    assert SwitchKad(n.kad, true, Client) + SwitchMdns(n.mdns, true) + [KadLookup(n.targets)]
        == SwitchKad(n.kad, true, Client) + (SwitchMdns(n.mdns, true) + [KadLookup(n.targets)]);
  }

  lemma OpeningWhenOpened(n: Node, t: Tick, w: View)
    requires t.input.Established? && forall q :: Connected(Edited(n, t), q) <==> Linked(w, q)
    ensures Opening(n, t) == Spoken(n, t.input, w)
  {
    var edited := n.(view := Edited(n, t));
    SwitchLiteral(edited, Client);
    hide Edited, Linked, Connected, SetActiveMode;
  }

  lemma OpeningWhenClosed(n: Node, t: Tick, w: View)
    requires t.input.Closed? && forall q :: Connected(Edited(n, t), q) <==> Linked(w, q)
    ensures Opening(n, t) == Spoken(n, t.input, w)
  {
    var edited := n.(view := Edited(n, t));
    SwitchLiteral(edited, Client);
    hide Edited, Linked, Connected, SetActiveMode;
  }

  /** Mode, targets and the two discovery behaviours after an input. */
  ghost predicate Settings(n: Node, input: Input, n': Node) {
    var up, down := GoesActive(n, input, n'.view), GoesPassive(n, input, n'.view);
    && n'.local == n.local
    && n'.active == (up || (n.active && !down))
    && n'.kad == (up || (if input.KadSwitched? then input.on else n.kad && !down))
    && n'.mdns == (up || (if input.MdnsSwitched? then input.on else n.mdns))
    && n'.targets == if input.TargetAdded? then n.targets + {input.peer}
                     else if input.TargetRemoved? then n.targets - {input.peer}
                     else n.targets
  }

  /** First a node tells of the connection, then it switches its mode, with all that this entails, and
      mirrors addresses into Kademlia while that is on; everything else it asks for comes after. */
  lemma SpokenLaw(n: Node, t: Tick) returns (rest: seq<Effect>)
    requires GoodView(n.view) && Handle(n, t).Some?
    ensures Handle(n, t).value.effects == Spoken(n, t.input, Handle(n, t).value.node.view) + rest && Plain(rest)
    ensures Settings(n, t.input, Handle(n, t).value.node)
  {
    rest := HandleOpening(n, t);
    OpeningIs(n, t);
    SettingsAfter(n, t);
  }

  lemma SettingsAfter(n: Node, t: Tick)
    requires GoodView(n.view) && Handle(n, t).Some?
    ensures Settings(n, t.input, Handle(n, t).value.node)
  {
    forall q
      ensures Connected(Edited(n, t), q) <==> Linked(Handle(n, t).value.node.view, q)
    {
      EditedLinks(n, t, q);
    }
    hide Handle, GoodView, Edited, Linked, Connected, Settings, KadAfter;
    var rest := HandleOpening(n, t);
    ModeAfter(n, t);
    LocalAndMdns(n, t);
    SettingsFrom(n, t, Handle(n, t).value.node);
  }

  lemma SettingsFrom(n: Node, t: Tick, n': Node)
    requires forall q :: Connected(Edited(n, t), q) <==> Linked(n'.view, q)
    requires n'.local == n.local && n'.kad == KadAfter(n, t) && n'.mdns == MdnsAfter(n, t)
    requires match t.input
             case Established(p, _, _) =>
               && n'.targets == n.targets
               && n'.active == if p in n.targets then !AllTargetsConnected(n.(view := Edited(n, t))) else n.active
             case Closed(p, _) =>
               && n'.targets == n.targets
               && n'.active == (n.active || (p in n.targets && !Connected(Edited(n, t), p)))
             case TargetAdded(p) => n' == n.(targets := n.targets + {p})
             case TargetRemoved(p) => n' == n.(targets := n.targets - {p})
             case _ => n'.active == n.active && n'.targets == n.targets
    ensures Settings(n, t.input, n')
  {
    hide Edited, Linked, Connected, SwitchKad, SwitchMdns;
  }

  function MdnsAfter(n: Node, t: Tick): bool {
    var edited := n.(view := Edited(n, t));
    match t.input
    case Established(p, _, _) => AfterOpen(edited, p).node.mdns
    case Closed(p, _) => AfterClose(edited, p).node.mdns
    case MdnsSwitched(on) => on
    case _ => n.mdns
  }

  lemma LocalAndMdns(n: Node, t: Tick)
    requires GoodView(n.view) && Handle(n, t).Some?
    ensures Handle(n, t).value.node.local == n.local
    ensures Handle(n, t).value.node.mdns == MdnsAfter(n, t)
  {
    HandleFacts(n, t);
    var edited := n.(view := Edited(n, t));
    if t.input.Established? {
      EstablishedParts(n, t);
      OpenedIsSettled(n, t);
      hide Handle, Edited, AfterOpen, Settle, OnOpened, UpdateRelayState, RegisterRelay;
      var s := Told(TellConnected(t.input.peer, t.input.cid), AfterOpen(edited, t.input.peer));
      SettleKeepsMdns(s, t.input.peer, t);
      if Registers(t.input).Some? {
        var m := OnOpened(n, t.input.peer, t.input.cid, t.input.endpoint.Remote(), t).value.node;
        RegisterKeepsMdns(m, Registers(t.input).value);
      }
    } else if t.input.Closed? {
      hide Edited, AfterClose, Settle, GoodView, Reconciled;
      SettleKeepsMdns(Told(TellDisconnected(t.input.peer, t.input.cid), AfterClose(edited, t.input.peer)), t.input.peer, t);
      ClosedIsSettled(n, t);
    } else {
      hide Reconcile.Run, UpdateRelayState, LearnAddress, ForgetAddress, Views.SetProtocols, ShouldSkipForDial, IsNewAddress, SwitchKad, SwitchMdns,
        GoodView, Reconciled;
      if t.input.ReservationAccepted? {
        RegisterKeepsMdns(n, t.input.relay);
      }
    }
  }

  lemma ClosedIsSettled(n: Node, t: Tick)
    requires t.input.Closed?
    ensures Handle(n, t)
         == Settle(Told(TellDisconnected(t.input.peer, t.input.cid), AfterClose(n.(view := Edited(n, t)), t.input.peer)), t.input.peer, t)
  {
    hide AfterClose, Settle, DropConnection;
  }

  lemma SettleKeepsMdns(s: Step, p: PeerId, t: Tick)
    requires Settle(s, p, t).Some?
    ensures Settle(s, p, t).value.node.mdns == s.node.mdns
  {
    hide Reconcile.Run, InUseIn, PruneQueue;
  }

  lemma RegisterKeepsMdns(n: Node, r: PeerId)
    ensures UpdateRelayState(RegisterRelay(n, r)).node.mdns == n.mdns
  {
    hide InUseIn, PruneQueue;
  }

  // ----- the Identify handler as a whole -----

  /** Learning addresses changes neither relays nor what is known of a peer's protocols, and asks for no
      reservation. */
  lemma {:induction false} SeenAll(n: Node, p: PeerId, addrs: seq<Multiaddr>, t: Tick)
    requires GoodView(n.view) && HandleAll(n, SeenInputs(p, addrs, t)).Some? && p in n.view
    ensures var s := HandleAll(n, SeenInputs(p, addrs, t)).value;
            && GoodView(s.node.view) && s.node.relays == n.relays
            && p in s.node.view && s.node.view[p].supportsRelayHopV2 == n.view[p].supportsRelayHopV2
            && s.node.view[p].protocols == n.view[p].protocols
            && (forall x | x in s.effects :: !x.ListenOn?)
            && forall a :: a in TableAt(s.node.view, p) <==> a in TableAt(n.view, p) || (a in addrs && !Undialable(a))
    decreases |addrs|
  {
    hide Handle, GoodView, TableAt, Undialable;
    var ts := SeenInputs(p, addrs, t);
    if addrs != [] {
      assert ts[1..] == SeenInputs(p, addrs[1..], t);
      var first := Handle(n, ts[0]).value;
      OneSeen(n, p, ts[0]);
      SeenAll(first.node, p, addrs[1..], t);
      assert forall a :: a in addrs <==> a == addrs[0] || a in addrs[1..];
    }
  }

  lemma OneSeen(n: Node, p: PeerId, t: Tick)
    requires GoodView(n.view) && Handle(n, t).Some? && t.input.AddressSeen? && p in n.view
    ensures var s := Handle(n, t).value;
            && GoodView(s.node.view) && s.node.relays == n.relays
            && p in s.node.view && s.node.view[p].supportsRelayHopV2 == n.view[p].supportsRelayHopV2
            && s.node.view[p].protocols == n.view[p].protocols
            && (forall x | x in s.effects :: !x.ListenOn?)
            && forall a :: a in TableAt(s.node.view, p) <==>
                 a in TableAt(n.view, p) || (t.input.peer == p && a == t.input.addr && !Undialable(a))
  {
    SameRelays(n, t);
    hide Handle, GoodView, TableAt, Undialable, SpeaksHop, Records, Edited;
    KnownLaw(n, t, p);
    InfoLaw(n, t, p);
    HandleRecords(n, t);
    OthersAskNobody(n, t);
    forall a
      ensures a in TableAt(Handle(n, t).value.node.view, p) <==>
              a in TableAt(n.view, p) || (t.input.peer == p && a == t.input.addr && !Undialable(a))
    {
      ListedLaw(n, t, p, a);
    }
  }

  /** An Identify event stores the protocols it brings and lists the addresses that can be dialled. It asks
      for a reservation exactly if the protocols it brings include a hop protocol,
      the relay is admitted, and after its addresses have been learnt there is one: on the head of the
      list as it is then. */
  lemma IdentifyLaw(n: Node, p: PeerId, protocols: set<string>, addrs: seq<Multiaddr>, t: Tick, x: Multiaddr)
    requires GoodView(n.view) && HandleAll(n, IdentifyInputs(p, protocols, addrs, t)).Some?
    ensures var s := HandleAll(n, IdentifyInputs(p, protocols, addrs, t)).value;
            && p in s.node.view && s.node.view[p].protocols == protocols
            && (forall a :: a in TableAt(s.node.view, p) <==> a in TableAt(n.view, p) || (a in addrs && !Undialable(a)))
            && (ListenOn(x) in s.effects <==>
                && SpeaksHop(protocols)
                && (p in n.relays.reserved || |n.relays.reserved| < |n.relays.inUse| + n.relays.maxRelays)
                && s.node.view[p].addresses != []
                && x == s.node.view[p].addresses[0].address + [P2p(p), P2pCircuit])
  {
    var t0, tn := t.(input := ProtocolsSeen(p, protocols)), t.(input := RelayOffered(p));
    var middle := SeenInputs(p, addrs, t);
    var ts := IdentifyInputs(p, protocols, addrs, t);
    assert ts[0] == t0 && ts[1..] == middle + [tn];
    ProtocolsFirst(n, p, protocols, t0);
    var n1 := Handle(n, t0).value.node;
    HandleAllSnoc(n1, middle, tn);
    hide Handle, GoodView, SpeaksHop, TableAt, Undialable;
    SeenAll(n1, p, addrs, t);
    var n2 := HandleAll(n1, middle).value.node;
    OfferKeeps(n2, tn);
    RequestLaw(n2, tn, x);
  }

  lemma ProtocolsFirst(n: Node, p: PeerId, protocols: set<string>, t: Tick)
    requires GoodView(n.view) && t.input == ProtocolsSeen(p, protocols)
    ensures Handle(n, t).Some? && Handle(n, t).value.effects == []
    ensures var m := Handle(n, t).value.node;
            && GoodView(m.view) && m.relays == n.relays && p in m.view && (m.view[p].supportsRelayHopV2 <==> SpeaksHop(protocols))
            && m.view[p].protocols == protocols && TableAt(m.view, p) == TableAt(n.view, p)
  {
    HandleRecords(n, t);
    HopMeaning(protocols);
  }

  lemma OfferKeeps(n: Node, t: Tick)
    requires t.input.RelayOffered?
    ensures Handle(n, t).Some? && Handle(n, t).value.node == n
  {
    hide CanReserve;
  }
}
