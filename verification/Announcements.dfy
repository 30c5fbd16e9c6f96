/** What a node tells others: connection events for subscribers, addresses for Kademlia; and what the
    events sent, and the entries made, add up to. */
module Announcements {
  import opened Multiaddrs
  import opened Metadata
  import opened AddressList
  import opened AddressListFacts
  import opened Effects
  import opened Views
  import opened Nodes
  import opened NodeFacts
  import opened SwarmRuns
  import NodeRuns

  // ----- the pictures -----

  type Heard = set<(PeerId, ConnId)>

  function Hear(h: Heard, e: Effect): Heard {
    match e
    case TellConnected(p, cid) => h + {(p, cid)}
    case TellDisconnected(p, cid) => h - {(p, cid)}
    case _ => h
  }

  function HearAll(h: Heard, e: seq<Effect>): Heard
    decreases |e|
  {
    if e == [] then h else HearAll(Hear(h, e[0]), e[1..])
  }

  type Routing = set<(PeerId, Multiaddr)>

  /** The entries this node has put into Kademlia's routing table. Switching Kademlia off drops it. */
  function Route(k: Routing, e: Effect): Routing {
    match e
    case CreateKad => {}
    case DropKad => {}
    case KadAdd(p, a) => k + {(p, a)}
    case KadRemove(p, a) => k - {(p, a)}
    case _ => k
  }

  function RouteAll(k: Routing, e: seq<Effect>): Routing
    decreases |e|
  {
    if e == [] then k else RouteAll(Route(k, e[0]), e[1..])
  }

  /** Requests that go to the swarm alone. */
  predicate Plain(e: seq<Effect>) {
    forall x | x in e :: x.Dial? || x.CloseConnection? || x.DisconnectPeer? || x.ListenOn?
  }

  lemma {:induction false} PlainAfter(h: Heard, k: Routing, e: seq<Effect>, rest: seq<Effect>)
    requires Plain(rest)
    ensures HearAll(h, e + rest) == HearAll(h, e) && RouteAll(k, e + rest) == RouteAll(k, e)
    decreases |e| + |rest|
  {
    if e != [] {
      assert (e + rest)[1..] == e[1..] + rest;
      PlainAfter(Hear(h, e[0]), Route(k, e[0]), e[1..], rest);
    } else if rest != [] {
      assert e + rest == [] + rest == rest && rest[0] in rest;
      assert [] + rest[1..] == rest[1..];
      PlainAfter(h, k, [], rest[1..]);
    }
  }

  lemma {:induction false} InTurn(h: Heard, k: Routing, e: seq<Effect>, f: seq<Effect>)
    ensures HearAll(h, e + f) == HearAll(HearAll(h, e), f)
    ensures RouteAll(k, e + f) == RouteAll(RouteAll(k, e), f)
    decreases |e|
  {
    if e == [] {
      assert e + f == f;
    } else {
      assert (e + f)[1..] == e[1..] + f;
      InTurn(Hear(h, e[0]), Route(k, e[0]), e[1..], f);
    }
  }

  // ----- what one input makes a node say -----

  /** What is said before reconcile and the relay update. */
  function Opening(n: Node, t: Tick): seq<Effect> {
    var edited := n.(view := Edited(n, t));
    match t.input
    case Established(p, cid, _) => Told(TellConnected(p, cid), AfterOpen(edited, p)).effects
    case Closed(p, cid) => Told(TellDisconnected(p, cid), AfterClose(edited, p)).effects
    case AddressSeen(p, addr) => if Reconciles(n, t) then Mirrored(n.kad, KadAdd(p, addr)) else []
    case AddressExpired(p, addr) => Mirrored(n.kad, KadRemove(p, addr))
    case KadSwitched(on, mode) => SwitchKad(n.kad, on, mode)
    case MdnsSwitched(on) => SwitchMdns(n.mdns, on)
    case _ => []
  }

  function KadAfter(n: Node, t: Tick): bool {
    var edited := n.(view := Edited(n, t));
    match t.input
    case Established(p, _, _) => AfterOpen(edited, p).node.kad
    case Closed(p, _) => AfterClose(edited, p).node.kad
    case KadSwitched(on, _) => on
    case _ => n.kad
  }

  lemma ReconcilePlain(n: Node, p: PeerId, t: Tick)
    requires GoodView(n.view) && Sorted(AddressesAt(n.view, p), t.now) && ReconcilePeer(n, p, t).Some?
    ensures Plain(ReconcilePeer(n, p, t).value.effects) && ReconcilePeer(n, p, t).value.node.kad == n.kad
  {
    hide ReconcilePeer, GoodView, Sorted, AddressesAt, Reconciled, Records;
    ReconcilePeerFacts(n, p, t);
  }

  lemma UpdatePlain(n: Node)
    ensures Plain(UpdateRelayState(n).effects) && UpdateRelayState(n).node.kad == n.kad
  {
    hide Relays.PruneQueue, Relays.InUseIn;
  }

  lemma SettlePlain(s: Step, p: PeerId, t: Tick) returns (rest: seq<Effect>)
    requires GoodView(s.node.view) && Sorted(AddressesAt(s.node.view, p), t.now) && Settle(s, p, t).Some?
    ensures Plain(rest) && Settle(s, p, t).value.effects == s.effects + rest
    ensures Settle(s, p, t).value.node.kad == s.node.kad
  {
    hide GoodView, Sorted, AddressesAt, ReconcilePeer, UpdateRelayState, Plain;
    ReconcilePlain(s.node, p, t);
    var r := ReconcilePeer(s.node, p, t).value;
    UpdatePlain(r.node);
    var u := UpdateRelayState(r.node);
    rest := r.effects + u.effects;
    PlainPlus(r.effects, u.effects);
    assert s.effects + r.effects + u.effects == s.effects + rest;
  }

  lemma PlainPlus(e: seq<Effect>, f: seq<Effect>)
    requires Plain(e) && Plain(f)
    ensures Plain(e + f)
  {
  }

  /** The relay update at the end of the ConnectionEstablished arm says nothing more. */
  lemma RegisteredPlain(n: Node, p: PeerId, cid: ConnId, remote: Multiaddr, t: Tick, said: seq<Effect>, rest: seq<Effect>)
    returns (more: seq<Effect>)
    requires OnOpened(n, p, cid, remote, t).Some? && OnOpened(n, p, cid, remote, t).value.effects == said + rest && Plain(rest)
    ensures var r := OnEstablished(n, p, cid, remote, t);
            && r.Some? && Plain(more) && r.value.effects == said + more
            && r.value.node.kad == OnOpened(n, p, cid, remote, t).value.node.kad
  {
    hide OnOpened, UpdateRelayState, Plain, Relays.ExtractRelayPeer;
    var r := OnOpened(n, p, cid, remote, t).value;
    var relay := Relays.ExtractRelayPeer(remote);
    more := rest;
    if relay.Some? {
      var registered := RegisterRelay(r.node, relay.value);
      UpdatePlain(registered);
      var u := UpdateRelayState(registered).effects;
      PlainPlus(rest, u);
      assert said + rest + u == said + (rest + u);
      more := rest + u;
    }
  }

  lemma EstablishedOpening(n: Node, t: Tick) returns (rest: seq<Effect>)
    requires GoodView(n.view) && t.input.Established? && Handle(n, t).Some?
    ensures Plain(rest) && Handle(n, t).value.effects == Opening(n, t) + rest
    ensures Handle(n, t).value.node.kad == KadAfter(n, t)
  {
    EditGood(n, t);
    hide GoodView, Sorted, AddressesAt, OpenConnection, AfterOpen, Settle, OnEstablished, Plain;
    var p := t.input.peer;
    var s := Told(TellConnected(p, t.input.cid), AfterOpen(n.(view := Edited(n, t)), p));
    assert s.node.view == Edited(n, t) by {
      ModeKeepsView(n.(view := Edited(n, t)), p);
    }
    assert OnOpened(n, p, t.input.cid, t.input.endpoint.Remote(), t).Some? by {
      EstablishedNeedsOpened(n, t);
    }
    rest := SettlePlain(s, p, t);
    rest := RegisteredPlain(n, p, t.input.cid, t.input.endpoint.Remote(), t, s.effects, rest);
  }

  lemma EstablishedNeedsOpened(n: Node, t: Tick)
    requires t.input.Established? && Handle(n, t).Some?
    ensures OnOpened(n, t.input.peer, t.input.cid, t.input.endpoint.Remote(), t).Some?
  {
    hide OnOpened, UpdateRelayState;
  }

  lemma ModeKeepsView(n: Node, p: PeerId)
    ensures AfterOpen(n, p).node.view == n.view && AfterClose(n, p).node.view == n.view
  {
  }

  lemma ClosedOpening(n: Node, t: Tick) returns (rest: seq<Effect>)
    requires GoodView(n.view) && t.input.Closed? && Handle(n, t).Some?
    ensures Plain(rest) && Handle(n, t).value.effects == Opening(n, t) + rest
    ensures Handle(n, t).value.node.kad == KadAfter(n, t)
  {
    EditGood(n, t);
    hide GoodView, Sorted, AddressesAt, DropConnection, AfterClose, Settle, Plain;
    var p := t.input.peer;
    var s := Told(TellDisconnected(p, t.input.cid), AfterClose(n.(view := Edited(n, t)), p));
    assert s.node.view == Edited(n, t) by {
      ModeKeepsView(n.(view := Edited(n, t)), p);
    }
    rest := SettlePlain(s, p, t);
  }

  /** Whatever follows the opening is addressed to the swarm alone. */
  lemma HandleOpening(n: Node, t: Tick) returns (rest: seq<Effect>)
    requires GoodView(n.view) && Handle(n, t).Some?
    ensures Plain(rest) && Handle(n, t).value.effects == Opening(n, t) + rest
    ensures Handle(n, t).value.node.kad == KadAfter(n, t)
  {
    rest := [];
    if t.input.Established? {
      rest := EstablishedOpening(n, t);
    } else if t.input.Closed? {
      rest := ClosedOpening(n, t);
    } else if Reconciles(n, t) {
      EditGood(n, t);
      hide GoodView, Sorted, AddressesAt, LearnAddress, ForgetAddress, ReconcilePeer, ShouldSkipForDial, IsNewAddress;
      ReconcilePlain(n.(view := Edited(n, t)), t.input.peer, t);
      rest := ReconcilePeer(n.(view := Edited(n, t)), t.input.peer, t).value.effects;
    } else {
      hide GoodView, LearnAddress, UpdateRelayState, ShouldSkipForDial, IsNewAddress;
      if t.input.ReservationAccepted? {
        UpdatePlain(RegisterRelay(n, t.input.relay));
      }
      rest := Handle(n, t).value.effects;
      assert [] + rest == rest;
      if t.input.KadSwitched? || t.input.MdnsSwitched? {
        rest := [];
      }
    }
  }

  // ----- subscribers -----

  /** What has been said over the first `i` inputs of a run. */
  ghost function Said(states: seq<Node>, ticks: seq<Tick>, i: nat): seq<Effect>
    requires NodeRuns.IsRun(states, ticks) && i < |states|
  {
    if i == 0 then [] else Said(states, ticks, i - 1) + Handle(states[i - 1], ticks[i - 1]).value.effects
  }

  function Connections(live: map<ConnId, Link>): Heard {
    set cid | cid in live :: (live[cid].peer, cid)
  }

  lemma ConnectionsChange(live: map<ConnId, Link>, cid: ConnId, link: Link)
    ensures cid !in live ==> Connections(live[cid := link]) == Connections(live) + {(link.peer, cid)}
    ensures cid in live ==> Connections(live - {cid}) == Connections(live) - {(live[cid].peer, cid)}
    ensures Connections(map[]) == {}
  {
    if cid !in live {
      var w := live[cid := link];
      assert forall c | c in live :: w[c] == live[c];
      forall x
        ensures x in Connections(w) <==> x in Connections(live) + {(link.peer, cid)}
      {
        assert x in Connections(w) <==> x.1 in w && w[x.1].peer == x.0;
        assert x in Connections(live) <==> x.1 in live && live[x.1].peer == x.0;
      }
    } else {
      var w := live - {cid};
      forall x
        ensures x in Connections(w) <==> x in Connections(live) - {(live[cid].peer, cid)}
      {
        assert x in Connections(w) <==> x.1 in w && w[x.1].peer == x.0;
        assert x in Connections(live) <==> x.1 in live && live[x.1].peer == x.0;
      }
    }
  }

  lemma HearMode(h: Heard, n: Node, p: PeerId)
    ensures HearAll(h, AfterOpen(n, p).effects) == h && HearAll(h, AfterClose(n, p).effects) == h
  {
    hide AllTargetsConnected, Connected;
    HearNothing(h, AfterOpen(n, p).effects);
    HearNothing(h, AfterClose(n, p).effects);
  }

  lemma {:induction false} HearNothing(h: Heard, e: seq<Effect>)
    requires forall x | x in e :: !x.TellConnected? && !x.TellDisconnected?
    ensures HearAll(h, e) == h
  {
    if e != [] {
      assert e[0] in e && forall x | x in e[1..] :: x in e;
      HearNothing(h, e[1..]);
    }
  }

  lemma HearStep(w: World, t: Tick, w': World)
    requires Sound(w) && WorldStep(w, t, w')
    ensures HearAll(Connections(w.live), Handle(w.node, t).value.effects) == Connections(w'.live)
  {
    hide Handle, GoodView, Records, Edited, Reconciles, AfterOpen, AfterClose;
    var rest := HandleOpening(w.node, t);
    var h := Connections(w.live);
    PlainAfter(h, {}, Opening(w.node, t), rest);
    var edited := w.node.(view := Edited(w.node, t));
    match t.input
    case Established(p, cid, _) =>
      var e := AfterOpen(edited, p).effects;
      assert ([TellConnected(p, cid)] + e)[1..] == e;
      HearMode(h + {(p, cid)}, edited, p);
      ConnectionsChange(w.live, cid, w'.live[cid]);
    case Closed(p, cid) =>
      var e := AfterClose(edited, p).effects;
      assert ([TellDisconnected(p, cid)] + e)[1..] == e;
      HearMode(h - {(p, cid)}, edited, p);
      ConnectionsChange(w.live, cid, w.live[cid]);
    case _ => HearNothing(h, Opening(w.node, t));
  }

  lemma {:induction false} HeardOverRun(ws: seq<World>, states: seq<Node>, ticks: seq<Tick>, i: nat)
    requires IsWorldRun(ws, ticks) && NodeRuns.IsRun(states, ticks) && i < |ws|
    requires forall k | 0 <= k < |ws| :: states[k] == ws[k].node
    ensures HearAll({}, Said(states, ticks, i)) == Connections(ws[i].live)
  {
    hide Handle, WorldStep, Sound, Connections, Fresh;
    if i == 0 {
      ConnectionsChange(map[], 0, Link(ws[0].node.local, []));
    } else {
      HeardOverRun(ws, states, ticks, i - 1);
      RecordedAreLive(ws, ticks, i - 1);
      HearStep(ws[i - 1], ticks[i - 1], ws[i]);
      InTurn({}, {}, Said(states, ticks, i - 1), Handle(states[i - 1], ticks[i - 1]).value.effects);
    }
  }

  /** The connection events sent up to any event boundary add up to the connections live there, even
      where the view itself has forgotten some. */
  lemma ConnectionEventsAddUp(ws: seq<World>, ticks: seq<Tick>, i: nat) returns (states: seq<Node>)
    requires IsWorldRun(ws, ticks) && i < |ws|
    ensures NodeRuns.IsRun(states, ticks) && |states| == |ws| && forall k | 0 <= k < |ws| :: states[k] == ws[k].node
    ensures HearAll({}, Said(states, ticks, i)) == Connections(ws[i].live)
  {
    hide WorldStep, Connections, Handle;
    states := NodesOfWorldRun(ws, ticks);
    HeardOverRun(ws, states, ticks, i);
  }

  // ----- Kademlia -----

  /** While Kademlia is off its table is empty; all it has from us is still listed. */
  ghost predicate RoutesListed(n: Node, k: Routing) {
    && (!n.kad ==> k == {})
    && forall p, a | (p, a) in k :: a in TableAt(n.view, p)
  }

  lemma {:induction false} RouteNothing(k: Routing, e: seq<Effect>)
    requires forall x | x in e :: !x.CreateKad? && !x.DropKad? && !x.KadAdd? && !x.KadRemove?
    ensures RouteAll(k, e) == k
  {
    if e != [] {
      assert e[0] in e && forall x | x in e[1..] :: x in e;
      RouteNothing(k, e[1..]);
    }
  }

  lemma RouteMode(k: Routing, n: Node, active: bool)
    requires !n.kad ==> k == {}
    ensures RouteAll(k, SetActiveMode(n, active).effects) == if active then k else {}
  {
    if active {
      var more := SwitchMdns(n.mdns, true) + [KadLookup(n.targets)];
      assert SetActiveMode(n, active).effects == SwitchKad(n.kad, true, Client) + more;
      InTurn({}, k, SwitchKad(n.kad, true, Client), more);
      RouteSwitch(k, n.kad, true, Client);
      RouteNothing(k, more);
    } else {
      RouteSwitch(k, n.kad, false, Auto);
    }
  }

  lemma RouteSwitch(k: Routing, was: bool, on: bool, mode: KadMode)
    requires !was ==> k == {}
    ensures RouteAll(k, SwitchKad(was, on, mode)) == if on then k else {}
  {
    RouteNothing(k, [SetKadMode(mode)]);
    if on && !was {
      assert ([CreateKad] + [SetKadMode(mode)])[1..] == [SetKadMode(mode)];
    } else if on {
      assert [] + [SetKadMode(mode)] == [SetKadMode(mode)];
    } else if was {
      assert [DropKad][1..] == [];
    }
  }

  /** What the opening does to the table. */
  lemma RouteOpening(n: Node, t: Tick, k: Routing)
    requires !n.kad ==> k == {}
    ensures var r := RouteAll(k, Opening(n, t));
            && (!KadAfter(n, t) ==> r == {})
            && (forall p, a | (p, a) in r ::
                  (p, a) in k || (t.input == AddressSeen(p, a) && Reconciles(n, t)))
            && (forall p, a | (p, a) in r :: t.input != AddressExpired(p, a))
  {
    hide Edited, Reconciles, AllTargetsConnected, Connected, SetActiveMode;
    var edited := n.(view := Edited(n, t));
    match t.input
    case Established(p, cid, _) =>
      var e := AfterOpen(edited, p).effects;
      assert ([TellConnected(p, cid)] + e)[1..] == e;
      RouteMode(k, edited, !AllTargetsConnected(edited));
      ModeSetsKad(edited, !AllTargetsConnected(edited));
    case Closed(p, cid) =>
      var e := AfterClose(edited, p).effects;
      assert ([TellDisconnected(p, cid)] + e)[1..] == e;
      RouteMode(k, edited, true);
      ModeSetsKad(edited, true);
    case AddressSeen(p, addr) =>
      if n.kad && Reconciles(n, t) {
        assert [KadAdd(p, addr)][1..] == [];
      }
    case AddressExpired(p, addr) =>
      if n.kad {
        assert [KadRemove(p, addr)][1..] == [];
      }
    case KadSwitched(on, mode) => RouteSwitch(k, n.kad, on, mode);
    case MdnsSwitched(on) => RouteNothing(k, SwitchMdns(n.mdns, on));
    case _ =>
  }

  lemma ModeSetsKad(n: Node, active: bool)
    ensures SetActiveMode(n, active).node.kad == active
  {
  }

  lemma ListKeeps(s: Addresses, input: Input, now: Instant, a: Multiaddr)
    requires Good(s) && !(input.AddressExpired? && input.addr == a)
    requires a in TableOf(s) || (input.AddressSeen? && input.addr == a && !ShouldSkipForDial(a))
    ensures a in TableOf(EditedList(s, input, now))
  {
    hide Good, TableOf, Sorted, On, AddAddress, AddConnection, RemoveAddress, RemoveConnection, ShouldSkipForDial;
    match input
    case Established(_, c, endpoint) => AddConnectionFacts(s, c, endpoint.Remote(), now);
    case Closed(_, c) => RemoveConnectionFacts(s, c, now);
    case AddressSeen(_, addr) => AddAddressFacts(s, addr, now);
    case AddressExpired(_, addr) => RemoveAddressFacts(s, addr, now);
    case _ =>
  }

  /** An input unlists no address but the one that expires, and lists the one that is seen. */
  lemma StaysListed(n: Node, t: Tick, p: PeerId, a: Multiaddr)
    requires GoodView(n.view) && Handle(n, t).Some? && t.input != AddressExpired(p, a)
    requires a in TableAt(n.view, p) || (t.input == AddressSeen(p, a) && Reconciles(n, t))
    ensures a in TableAt(Handle(n, t).value.node.view, p)
  {
    HandleFacts(n, t);
    GoodAt(n.view, p);
    hide Handle, AddressesAt, Good, GoodView, TableOf, Edited, EditedList, IsNewAddress, ShouldSkipForDial, DialsListed, ClosesOffHead;
    assert a in TableAt(Edited(n, t), p) by {
      EditIsLocal(n, t, p);
      if EditsList(t.input) && t.input.peer == p {
        ListKeeps(AddressesAt(n.view, p), t.input, t.now, a);
      }
    }
  }

  lemma NoRoutes(states: seq<Node>)
    requires NodeRuns.StartsFresh(states)
    ensures RoutesListed(states[0], {})
  {
  }

  lemma RoutesStep(n: Node, t: Tick, k: Routing)
    requires GoodView(n.view) && RoutesListed(n, k) && Handle(n, t).Some?
    ensures RoutesListed(Handle(n, t).value.node, RouteAll(k, Handle(n, t).value.effects))
  {
    hide Handle, GoodView, TableAt, Reconciles, Opening, KadAfter;
    var rest := HandleOpening(n, t);
    PlainAfter({}, k, Opening(n, t), rest);
    RouteOpening(n, t, k);
    forall p, a | (p, a) in RouteAll(k, Opening(n, t))
      ensures a in TableAt(Handle(n, t).value.node.view, p)
    {
      StaysListed(n, t, p, a);
    }
  }

  /** At every event boundary, whatever this node has Kademlia route to is an address the view still
      lists, through expiries and through Kademlia being switched off and on. */
  lemma {:induction false} RoutesAreListed(states: seq<Node>, ticks: seq<Tick>, i: nat)
    requires NodeRuns.IsRun(states, ticks) && NodeRuns.StartsFresh(states) && i < |states|
    ensures RoutesListed(states[i], RouteAll({}, Said(states, ticks, i)))
  {
    hide Handle, GoodView, RoutesListed;
    if i == 0 {
      NoRoutes(states);
    } else {
      RoutesAreListed(states, ticks, i - 1);
      NodeRuns.ReachableIsGood(states, ticks, i - 1);
      RoutesStep(states[i - 1], ticks[i - 1], RouteAll({}, Said(states, ticks, i - 1)));
      InTurn({}, {}, Said(states, ticks, i - 1), Handle(states[i - 1], ticks[i - 1]).value.effects);
    }
  }

  /** In passive mode Kademlia is off. */
  ghost predicate PassiveMeansKadOff(n: Node) {
    n.kad ==> n.active
  }

  /** Only the user can break that, by switching Kademlia on in passive mode. */
  predicate KeepsKadOff(n: Node, input: Input) {
    input.KadSwitched? && input.on ==> n.active
  }

  lemma KadStep(n: Node, t: Tick)
    requires GoodView(n.view) && Handle(n, t).Some? && PassiveMeansKadOff(n)
    ensures PassiveMeansKadOff(Handle(n, t).value.node) <==> KeepsKadOff(n, t.input)
  {
    hide Handle, GoodView, Edited, Connected, Opening, AllTargetsConnected;
    var rest := HandleOpening(n, t);
    NodeRuns.ModeAfter(n, t);
  }

  /** Over whole runs: Kademlia is off in passive mode at every event boundary exactly when the user
      never switches it on in passive mode. */
  lemma {:induction false} KadOnlyWhileActive(states: seq<Node>, ticks: seq<Tick>, n: nat)
    requires NodeRuns.IsRun(states, ticks) && NodeRuns.StartsFresh(states) && n < |states|
    ensures (forall i | 0 <= i <= n :: PassiveMeansKadOff(states[i])) <==>
            (forall i | 0 <= i < n :: KeepsKadOff(states[i], ticks[i].input))
  {
    hide Handle, GoodView, KeepsKadOff;
    if n == 0 {
      assert PassiveMeansKadOff(states[0]);
    } else {
      hide PassiveMeansKadOff;
      KadOnlyWhileActive(states, ticks, n - 1);
      NodeRuns.ReachableIsGood(states, ticks, n - 1);
      if PassiveMeansKadOff(states[n - 1]) {
        KadStep(states[n - 1], ticks[n - 1]);
      }
      assert (forall i | 0 <= i <= n :: PassiveMeansKadOff(states[i])) <==>
             (forall i | 0 <= i <= n - 1 :: PassiveMeansKadOff(states[i])) && PassiveMeansKadOff(states[n]);
      assert (forall i | 0 <= i < n :: KeepsKadOff(states[i], ticks[i].input)) <==>
             (forall i | 0 <= i < n - 1 :: KeepsKadOff(states[i], ticks[i].input)) && KeepsKadOff(states[n - 1], ticks[n - 1].input);
    }
  }
}
