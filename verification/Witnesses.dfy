/** Runs that show the limits of what the node promises: where a condition of a theorem fails, what
    the theorem says does fail too. */
module Witnesses {
  import opened Options
  import opened Multiaddrs
  import opened Metadata
  import opened AddressList
  import opened Effects
  import opened Views
  import opened Relays
  import opened Nodes
  import opened NodeFacts
  import opened NodeRuns
  import opened DialRecursion
  import opened Returning
  import Reconcile
  import Announcements
  import SwarmRuns

  // ----- two steps every witness takes -----

  /** The first connection to a peer: the handler returns and closes nothing. */
  lemma OnlyConnection(n: Node, p: PeerId, cid: ConnId, a: Multiaddr, t: Tick)
    requires GoodView(n.view) && t.input == Established(p, cid, Dialer(a))
    requires forall c, b :: !Records(n.view, p, c, b)
    ensures Handle(n, t).Some?
    ensures var s := Handle(n, t).value;
            && GoodView(s.node.view)
            && (forall q, c, b :: Records(s.node.view, q, c, b) <==> if q == p then c == cid && b == a else Records(n.view, q, c, b))
            && forall c :: CloseConnection(c) !in s.effects
  {
    hide Handle, Edited, GoodView, Records, Connected, IsConnected, Reconcile.Run, Reconciled, Sorted, Good;
    EditedRecords(n, t, p, cid, a);
    EditGood(n, t);
    ConnectedMeansRecorded(Edited(n, t), p);
    ShownIsConnected(n, t);
    HandlerReturns(n, t);
    ConnectedReturns(Shown(n, t), CallAt(n, t), t.fuel);
    HandleRecords(n, t);
    NothingOffHead(n, t, a);
  }

  /** With all connections of the peer on one address, none is closed. */
  lemma NothingOffHead(n: Node, t: Tick, a: Multiaddr)
    requires GoodView(n.view) && Handle(n, t).Some? && Reconciles(n, t)
    requires forall c, b | RecordedAfter(n.view, t.input, t.input.peer, c, b) :: b == a
    ensures forall c :: CloseConnection(c) !in Handle(n, t).value.effects
  {
    hide Handle, Edited, GoodView, Records, Reconciled, Sorted, RecordedAfter, DialsListed, IsPruneLeader, AddressesAt;
    HandleFacts(n, t);
    EditGood(n, t);
    var p, e := t.input.peer, Edited(n, t);
    GoodAt(e, p);
    forall c, b | Records(e, p, c, b)
      ensures b == a
    {
      EditedRecords(n, t, p, c, b);
    }
    var l := AddressesAt(e, p);
    if l != [] && l[0].activeConnections != [] {
      Reconcile.HeadEntry(l);
      assert Records(e, p, l[0].activeConnections[0], l[0].address) by {
        HeadRecorded(e, p);
      }
    }
  }

  lemma HeadRecorded(v: View, p: PeerId)
    requires GoodView(v) && AddressesAt(v, p) != [] && AddressesAt(v, p)[0].activeConnections != []
    ensures Records(v, p, AddressesAt(v, p)[0].activeConnections[0], AddressesAt(v, p)[0].address)
  {
    GoodAt(v, p);
    hide GoodView, Good, TableOf;
    Reconcile.HeadEntry(AddressesAt(v, p));
  }

  /** The address that carries all connections to a peer expires, and every dial is accepted. */
  lemma OnlyAddressExpires(n: Node, p: PeerId, a: Multiaddr, t: Tick) returns (u: Tick)
    requires GoodView(n.view) && t.input == AddressExpired(p, a) && t.refused == {}
    requires forall c, b | Records(n.view, p, c, b) :: b == a
    ensures u.input == t.input && Handle(n, u).Some?
    ensures var s := Handle(n, u).value;
            && GoodView(s.node.view)
            && (forall q, c, b :: Records(s.node.view, q, c, b) <==> q != p && Records(n.view, q, c, b))
            && forall c :: CloseConnection(c) !in s.effects
  {
    hide Handle, Edited, GoodView, Records, IsConnected;
    u := AcceptedReturns(n, t);
    HandleRecords(n, u);
    NothingOffHead(n, u, a);
  }

  /** If the swarm accepts every dial, the handler returns. */
  lemma AcceptedReturns(n: Node, t: Tick) returns (u: Tick)
    requires GoodView(n.view) && t.refused == {}
    ensures u.input == t.input && u.now == t.now && u.refused == {} && Handle(n, u).Some?
  {
    hide Handle, Edited, GoodView, Records, IsConnected, Reconciles;
    HandlerReturnsExactlyWhen(n, t);
    if Reconciles(n, t) && Shown(n, t) != [] {
      var f := SomeoneIsFirst(Shown(n, t));
      assert f !in t.refused;
    }
    var fuel :| Handle(n, t.(fuel := fuel)).Some?;
    u := t.(fuel := fuel);
  }

  // ----- passive mode: both conditions are needed -----

  lemma StartRun(local: PeerId, max: nat)
    ensures IsRun([Fresh(local, max)], []) && StartsFresh([Fresh(local, max)])
  {
  }

  /** One more input that returns. */
  lemma RunSnoc(states: seq<Node>, ticks: seq<Tick>, t: Tick)
    requires IsRun(states, ticks) && StartsFresh(states) && Handle(states[|ticks|], t).Some?
    ensures IsRun(states + [Handle(states[|ticks|], t).value.node], ticks + [t])
    ensures StartsFresh(states + [Handle(states[|ticks|], t).value.node])
  {
    hide Handle, Fresh;
  }

  lemma AddTarget(n: Node, p: PeerId, t: Tick)
    requires t.input == TargetAdded(p)
    ensures Handle(n, t) == Some(Step(n.(targets := n.targets + {p}), []))
  {
  }

  /** Opening the first connection to the only target makes a node passive. */
  lemma FirstConnection(n: Node, p: PeerId, a: Multiaddr, t: Tick)
    requires GoodView(n.view) && n.targets == {p} && t.input == Established(p, 0, Dialer(a))
    requires forall q, cid, b :: !Records(n.view, q, cid, b)
    ensures Handle(n, t).Some?
    ensures var m := Handle(n, t).value.node;
            && !m.active && m.targets == {p} && GoodView(m.view)
            && forall q, cid, b :: Records(m.view, q, cid, b) <==> q == p && cid == 0 && b == a
  {
    hide Handle, Edited, GoodView, Records, Connected;
    OnlyConnection(n, p, 0, a, t);
    EditedRecords(n, t, p, 0, a);
    EditGood(n, t);
    ConnectedMeansRecorded(Edited(n, t), p);
    ModeAfter(n, t);
  }

  /** A fresh node, made passive: its only target `p` is connected over `a`. */
  lemma PassiveNode(local: PeerId, max: nat, p: PeerId, a: Multiaddr) returns (states: seq<Node>, ticks: seq<Tick>)
    ensures IsRun(states, ticks) && StartsFresh(states) && |ticks| == 2
    ensures forall i | 0 <= i < |ticks| :: KeepsPassive(states[i], ticks[i].input)
    ensures !states[2].active && states[2].targets == {p} && GoodView(states[2].view)
    ensures forall q, cid, b :: Records(states[2].view, q, cid, b) <==> q == p && cid == 0 && b == a
  {
    var n0 := Fresh(local, max);
    FreshIsGood(local, max);
    StartRun(local, max);
    assert n0.targets + {p} == {p} && n0.active;
    hide Handle, GoodView, Records, IsRun, StartsFresh, Fresh;
    var t0 := Tick(TargetAdded(p), 0, {}, 0);
    AddTarget(n0, p, t0);
    RunSnoc([n0], [], t0);
    var n1 := n0.(targets := {p});
    var t1 := Tick(Established(p, 0, Dialer(a)), 0, {}, 0);
    FirstConnection(n1, p, a, t1);
    RunSnoc([n0] + [n1], [] + [t0], t1);
    states, ticks := [n0] + [n1] + [Handle(n1, t1).value.node], [] + [t0] + [t1];
  }

  lemma ShownIsConnected(n: Node, t: Tick)
    requires Reconciles(n, t) && Connected(Edited(n, t), t.input.peer)
    ensures IsConnected(Shown(n, t))
  {
  }

  /** Adding an unconnected target in passive mode leaves the node passive without a connection to it. */
  lemma TargetConditionNeeded(local: PeerId, max: nat, p: PeerId, q: PeerId, a: Multiaddr)
    returns (states: seq<Node>, ticks: seq<Tick>)
    requires p != q
    ensures IsRun(states, ticks) && StartsFresh(states) && |ticks| == 3 && ticks[2].input == TargetAdded(q)
    ensures forall i | 0 <= i < 2 :: KeepsPassive(states[i], ticks[i].input)
    ensures !PassiveMeansConnected(states[3])
  {
    states, ticks := PassiveNode(local, max, p, a);
    var n2 := states[2];
    var t := Tick(TargetAdded(q), 0, {}, 0);
    hide Handle, GoodView, Records, Connected, KeepsPassive, IsRun, StartsFresh;
    assert |states| == 3 by {
      RunLength(states, ticks);
    }
    AddTarget(n2, q, t);
    ConnectedMeansRecorded(n2.view, q);
    assert !Connected(n2.view, q) && q in n2.targets + {q};
    RunSnoc(states, ticks, t);
    states, ticks := states + [n2.(targets := n2.targets + {q})], ticks + [t];
  }

  lemma RunLength(states: seq<Node>, ticks: seq<Tick>)
    requires IsRun(states, ticks)
    ensures |states| == |ticks| + 1
  {
    hide Handle;
  }

  /** So does the expiry of the address that carries a target's only recorded connection. */
  lemma AddressConditionNeeded(local: PeerId, max: nat, p: PeerId, a: Multiaddr)
    returns (states: seq<Node>, ticks: seq<Tick>)
    ensures IsRun(states, ticks) && StartsFresh(states) && |ticks| == 3 && ticks[2].input == AddressExpired(p, a)
    ensures forall i | 0 <= i < 2 :: KeepsPassive(states[i], ticks[i].input)
    ensures !PassiveMeansConnected(states[3])
  {
    states, ticks := PassiveNode(local, max, p, a);
    var n2 := states[2];
    RunLength(states, ticks);
    hide Handle, GoodView, Records, Connected, KeepsPassive, IsRun, StartsFresh;
    var t := OnlyAddressExpires(n2, p, a, Tick(AddressExpired(p, a), 0, {}, 0));
    var n3 := Handle(n2, t).value.node;
    ModeAfter(n2, t);
    ConnectedMeansRecorded(n3.view, p);
    RunSnoc(states, ticks, t);
    states, ticks := states + [n3], ticks + [t];
  }

  // ----- the view forgets what is live -----

  /** The expiry of an address with a connection on it: the connection stays live, and the view does
      not know. */
  lemma ExpiryForgetsLive(local: PeerId, max: nat, p: PeerId, a: Multiaddr)
    returns (ws: seq<SwarmRuns.World>, ticks: seq<Tick>)
    ensures SwarmRuns.IsWorldRun(ws, ticks) && |ticks| == 2 && ticks[1].input == AddressExpired(p, a)
    ensures SwarmRuns.KeepsExact(ws[0], ticks[0].input) && !SwarmRuns.KeepsExact(ws[1], ticks[1].input)
    ensures ws[2].live == map[0 := SwarmRuns.Link(p, a)] && !Connected(ws[2].node.view, p) && !SwarmRuns.Exact(ws[2])
  {
    var n0 := Fresh(local, max);
    FreshIsGood(local, max);
    hide Handle, GoodView, Records, Connected, ConnectedOver, Fresh;
    var t0 := Tick(Established(p, 0, Dialer(a)), 0, {}, 0);
    OnlyConnection(n0, p, 0, a, t0);
    var n1 := Handle(n0, t0).value.node;
    ConnectedMeansRecorded(n1.view, p);
    assert Records(n1.view, p, 0, a);
    var t1 := OnlyAddressExpires(n1, p, a, Tick(AddressExpired(p, a), 0, {}, 0));
    var n2 := Handle(n1, t1).value.node;
    ConnectedMeansRecorded(n2.view, p);
    var live := map[0 := SwarmRuns.Link(p, a)];
    ws := [SwarmRuns.World(n0, map[], {}), SwarmRuns.World(n1, live, {0}), SwarmRuns.World(n2, live, {0})];
    ticks := [t0, t1];
    assert SwarmRuns.WorldStep(ws[0], ticks[0], ws[1]);
    assert SwarmRuns.WorldStep(ws[1], ticks[1], ws[2]);
    assert !SwarmRuns.Exact(ws[2]) by {
      assert !Records(n2.view, p, 0, a);
    }
  }

  /** Nodes on the way: a target is added, then connected, which makes the node passive. */
  lemma TargetConnected(local: PeerId, max: nat, p: PeerId, a: Multiaddr, t0: Tick, t1: Tick) returns (n1: Node, n2: Node)
    requires t0.input == TargetAdded(p) && t1.input == Established(p, 0, Dialer(a))
    ensures Handle(Fresh(local, max), t0) == Some(Step(n1, [])) && n1.active && n1.targets == {p}
    ensures Handle(n1, t1).Some? && Handle(n1, t1).value.node == n2 && !n2.active && n2.targets == {p}
  {
    var n0 := Fresh(local, max);
    FreshIsGood(local, max);
    assert n0.targets + {p} == {p} && n0.active;
    hide Handle, GoodView, Records, Fresh;
    AddTarget(n0, p, t0);
    n1 := n0.(targets := {p});
    FirstConnection(n1, p, a, t1);
    n2 := Handle(n1, t1).value.node;
  }

  /** A passive node gets a target it has no connection to: it stays passive, without one. */
  ghost predicate AddsUnconnected(ws: seq<SwarmRuns.World>, ticks: seq<Tick>, q: PeerId) {
    && SwarmRuns.IsWorldRun(ws, ticks) && |ticks| == 3 && ticks[2].input == TargetAdded(q)
    && (forall i | 0 <= i < 3 :: SwarmRuns.PassiveLive(ws[i]) && (SwarmRuns.AddsLive(ws[i], ticks[i].input) <==> i < 2))
    && !SwarmRuns.PassiveLive(ws[3])
  }

  lemma PassiveWorld(local: PeerId, max: nat, p: PeerId, a: Multiaddr, t0: Tick, t1: Tick)
    returns (w0: SwarmRuns.World, w1: SwarmRuns.World, w2: SwarmRuns.World)
    requires t0.input == TargetAdded(p) && t1.input == Established(p, 0, Dialer(a))
    ensures w0 == SwarmRuns.World(Fresh(local, max), map[], {}) && SwarmRuns.WorldStep(w0, t0, w1) && SwarmRuns.WorldStep(w1, t1, w2)
    ensures w1.node.active && !w2.node.active && w2.node.targets == {p} && w2.live == map[0 := SwarmRuns.Link(p, a)] && w2.used == {0}
  {
    hide Handle, Fresh;
    var n1, n2 := TargetConnected(local, max, p, a, t0, t1);
    w0, w1 := SwarmRuns.World(Fresh(local, max), map[], {}), SwarmRuns.World(n1, map[], {});
    w2 := SwarmRuns.World(n2, map[0 := SwarmRuns.Link(p, a)], {0});
  }

  lemma UnconnectedTargetAdded(local: PeerId, max: nat, p: PeerId, q: PeerId, a: Multiaddr)
    returns (ws: seq<SwarmRuns.World>, ticks: seq<Tick>)
    requires p != q
    ensures AddsUnconnected(ws, ticks, q)
  {
    var t0 := Tick(TargetAdded(p), 0, {}, 0);
    var t1 := Tick(Established(p, 0, Dialer(a)), 0, {}, 0);
    var t2 := Tick(TargetAdded(q), 0, {}, 0);
    hide *;
    var w0, w1, w2 := PassiveWorld(local, max, p, a, t0, t1);
    var w3 := TargetWithoutLink(w2, q, t2);
    OnlyLive(w2, p, q, a);
    ws, ticks := [w0, w1, w2, w3], [t0, t1, t2];
    ThreeWorldSteps(local, max, ws, ticks);
    ShowsUnconnected(ws, ticks, p, q);
  }

  lemma OnlyLive(w: SwarmRuns.World, p: PeerId, q: PeerId, a: Multiaddr)
    requires p != q && w.live == map[0 := SwarmRuns.Link(p, a)]
    ensures SwarmRuns.HasLive(w, p) && !SwarmRuns.HasLive(w, q)
  {
    assert w.live[0].peer == p;
  }

  lemma ThreeWorldSteps(local: PeerId, max: nat, ws: seq<SwarmRuns.World>, ticks: seq<Tick>)
    requires |ws| == 4 && |ticks| == 3 && ws[0] == SwarmRuns.World(Fresh(local, max), map[], {})
    requires SwarmRuns.WorldStep(ws[0], ticks[0], ws[1]) && SwarmRuns.WorldStep(ws[1], ticks[1], ws[2])
    requires SwarmRuns.WorldStep(ws[2], ticks[2], ws[3])
    ensures SwarmRuns.IsWorldRun(ws, ticks) && ws[0].node.active
  {
    assert ws[0].node.active;
    hide SwarmRuns.WorldStep, Fresh;
    forall i | 0 <= i < 3
      ensures SwarmRuns.WorldStep(ws[i], ticks[i], ws[i + 1])
    {
      assert i == 0 || i == 1 || i == 2;
    }
  }

  lemma ShowsUnconnected(ws: seq<SwarmRuns.World>, ticks: seq<Tick>, p: PeerId, q: PeerId)
    requires |ws| == 4 && |ticks| == 3 && ws[0].node.active && ws[1].node.active
    requires ticks[0].input == TargetAdded(p) && ticks[1].input.Established? && ticks[2].input == TargetAdded(q)
    requires !ws[2].node.active && ws[2].node.targets == {p} && SwarmRuns.HasLive(ws[2], p) && !SwarmRuns.HasLive(ws[2], q)
    requires !ws[3].node.active && q in ws[3].node.targets && !SwarmRuns.HasLive(ws[3], q)
    requires SwarmRuns.IsWorldRun(ws, ticks)
    ensures AddsUnconnected(ws, ticks, q)
  {
    hide SwarmRuns.IsWorldRun, SwarmRuns.HasLive;
    assert SwarmRuns.PassiveLive(ws[2]);
    forall i | 0 <= i < 3
      ensures SwarmRuns.PassiveLive(ws[i]) && (SwarmRuns.AddsLive(ws[i], ticks[i].input) <==> i < 2)
    {
      assert i == 0 || i == 1 || i == 2;
    }
  }

  lemma TargetWithoutLink(w: SwarmRuns.World, q: PeerId, t: Tick) returns (w': SwarmRuns.World)
    requires t.input == TargetAdded(q)
    ensures SwarmRuns.WorldStep(w, t, w') && w'.node.active == w.node.active && q in w'.node.targets
    ensures SwarmRuns.HasLive(w', q) == SwarmRuns.HasLive(w, q)
  {
    AddTarget(w.node, q, t);
    hide Handle;
    w' := w.(node := w.node.(targets := w.node.targets + {q}));
  }

  // ----- two requests in flight -----

  const HOP: set<string> := {"/libp2p/circuit/relay/0.2.0/hop"}

  ghost predicate NothingRecorded(n: Node) {
    GoodView(n.view) && forall q, c, b :: !Records(n.view, q, c, b)
  }

  /** Without connections no relay is in use. */
  lemma NothingInUse(n: Node)
    requires NothingRecorded(n)
    ensures InUseIn(n.view) == {}
  {
    hide InUseIn, GoodView, Records, ExtractRelayPeer;
    forall r
      ensures r !in InUseIn(n.view)
    {
      InUseMeaning(n.view, r);
    }
  }

  lemma StillNothing(n: Node, t: Tick)
    requires NothingRecorded(n) && Handle(n, t).Some? && !t.input.Established?
    ensures NothingRecorded(Handle(n, t).value.node)
  {
    hide Handle, GoodView, Records;
    HandleRecords(n, t);
  }

  /** An address is learnt, every dial being accepted. */
  lemma AddressLearnt(n: Node, p: PeerId, a: Multiaddr) returns (t: Tick)
    requires NothingRecorded(n) && !ShouldSkipForDial(a)
    ensures t.input == AddressSeen(p, a) && Handle(n, t).Some?
    ensures var m := Handle(n, t).value.node;
            && NothingRecorded(m) && m.relays == n.relays
            && a in TableAt(m.view, p) && forall q | TableAt(n.view, q) != map[] :: TableAt(m.view, q) != map[]
  {
    hide Handle, GoodView, Records, ShouldSkipForDial, TableAt, AddressesAt, NothingRecorded, IsNewAddress;
    assert GoodView(n.view) by {
      GoodOf(n);
    }
    t := AcceptedReturns(n, Tick(AddressSeen(p, a), 0, {}, 0));
    StillNothing(n, t);
    SameRelays(n, t);
    NewOrListed(n.view, p, a);
    Announcements.StaysListed(n, t, p, a);
    forall q | TableAt(n.view, q) != map[]
      ensures TableAt(Handle(n, t).value.node.view, q) != map[]
    {
      var b :| b in TableAt(n.view, q);
      Announcements.StaysListed(n, t, q, b);
    }
  }

  lemma GoodOf(n: Node)
    requires NothingRecorded(n)
    ensures GoodView(n.view)
  {
  }

  lemma NewOrListed(v: View, p: PeerId, a: Multiaddr)
    ensures IsNewAddress(v, p, a) || a in TableAt(v, p)
  {
    ListedAt(AddressesAt(v, p), a);
  }

  ghost predicate Askable(n: Node, p: PeerId) {
    p in n.view && n.view[p].supportsRelayHopV2 && n.view[p].addresses != []
  }

  lemma HopLearnt(n: Node, p: PeerId)
    requires TableAt(n.view, p) != map[]
    ensures var m := n.(view := Views.SetProtocols(n.view, p, HOP));
            && Askable(m, p)
            && forall q | q != p :: (Askable(n, q) ==> Askable(m, q)) && TableAt(m.view, q) == TableAt(n.view, q)
  {
    assert "/libp2p/circuit/relay/0.2.0/hop" in HOP && HopSupported(HOP);
    assert TableOf([]) == map[];
    hide TableOf;
  }

  lemma ProtocolsLearnt(n: Node, p: PeerId, t: Tick)
    requires NothingRecorded(n) && TableAt(n.view, p) != map[] && t.input == ProtocolsSeen(p, HOP)
    ensures Handle(n, t) == Some(Step(n.(view := Views.SetProtocols(n.view, p, HOP)), []))
    ensures var m := n.(view := Views.SetProtocols(n.view, p, HOP));
            && NothingRecorded(m) && Askable(m, p)
            && forall q | q != p :: (Askable(n, q) ==> Askable(m, q)) && TableAt(m.view, q) == TableAt(n.view, q)
  {
    assert Handle(n, t) == Some(Step(n.(view := Views.SetProtocols(n.view, p, HOP)), []));
    hide *;
    StillNothing(n, t);
    HopLearnt(n, p);
  }

  /** A run that has come to `n`. */
  ghost predicate RunTo(states: seq<Node>, ticks: seq<Tick>, n: Node) {
    IsRun(states, ticks) && StartsFresh(states) && states[|ticks|] == n
  }

  lemma RunOn(states: seq<Node>, ticks: seq<Tick>, n: Node, t: Tick)
    requires RunTo(states, ticks, n) && Handle(n, t).Some?
    ensures RunTo(states + [Handle(n, t).value.node], ticks + [t], Handle(n, t).value.node)
  {
    RunSnoc(states, ticks, t);
    RunLength(states, ticks);
  }

  lemma RunStarts(local: PeerId, max: nat)
    ensures RunTo([Fresh(local, max)], [], Fresh(local, max))
  {
    StartRun(local, max);
  }

  ghost predicate BothKnown(n: Node, p: PeerId, q: PeerId) {
    && NothingRecorded(n) && n.relays == Relays([], {}, 1)
    && TableAt(n.view, p) != map[] && TableAt(n.view, q) != map[]
  }

  /** A node that can spare one relay has learnt two addresses. */
  lemma TwoPeersKnown(local: PeerId, p: PeerId, q: PeerId, a: Multiaddr, b: Multiaddr)
    returns (states: seq<Node>, ticks: seq<Tick>, n: Node)
    requires !ShouldSkipForDial(a) && !ShouldSkipForDial(b)
    ensures RunTo(states, ticks, n) && |ticks| == 2 && BothKnown(n, p, q)
  {
    var n0 := Fresh(local, 1);
    FreshNothing(local, 1);
    RunStarts(local, 1);
    hide Handle, NothingRecorded, RunTo, Fresh, TableAt, ShouldSkipForDial;
    var t0 := AddressLearnt(n0, p, a);
    RunOn([n0], [], n0, t0);
    var n1 := Handle(n0, t0).value.node;
    var t1 := AddressLearnt(n1, q, b);
    RunOn([n0] + [n1], [] + [t0], n1, t1);
    n := Handle(n1, t1).value.node;
    states := [n0] + [n1] + [n];
    ticks := [] + [t0] + [t1];
  }

  ghost predicate CanAskBoth(n: Node, p: PeerId, q: PeerId) {
    NothingRecorded(n) && Askable(n, p) && Askable(n, q) && n.relays == Relays([], {}, 1)
  }

  /** And that both peers offer to relay. */
  lemma TwoRelaysKnown(local: PeerId, p: PeerId, q: PeerId, a: Multiaddr, b: Multiaddr)
    returns (states: seq<Node>, ticks: seq<Tick>, n: Node)
    requires p != q && !ShouldSkipForDial(a) && !ShouldSkipForDial(b)
    ensures RunTo(states, ticks, n) && |ticks| == 4 && CanAskBoth(n, p, q)
  {
    var n2;
    states, ticks, n2 := TwoPeersKnown(local, p, q, a, b);
    hide Handle, NothingRecorded, RunTo, Askable, TableAt, ShouldSkipForDial, Views.SetProtocols;
    var t2 := Tick(ProtocolsSeen(p, HOP), 0, {}, 0);
    ProtocolsLearnt(n2, p, t2);
    RunOn(states, ticks, n2, t2);
    var n3 := n2.(view := Views.SetProtocols(n2.view, p, HOP));
    var t3 := Tick(ProtocolsSeen(q, HOP), 0, {}, 0);
    ProtocolsLearnt(n3, q, t3);
    RunOn(states + [n3], ticks + [t2], n3, t3);
    n := n3.(view := Views.SetProtocols(n3.view, q, HOP));
    states := states + [n3] + [n];
    ticks := ticks + [t2] + [t3];
  }

  lemma FreshNothing(local: PeerId, max: nat)
    ensures NothingRecorded(Fresh(local, max)) && Fresh(local, max).relays == Relays([], {}, max)
  {
    FreshIsGood(local, max);
  }

  /** Asking an admitted relay changes nothing here. */
  lemma RelayAsked(n: Node, p: PeerId, t: Tick)
    requires Askable(n, p) && CanReserve(n.relays, p) && t.input == RelayOffered(p)
    ensures Handle(n, t).Some? && Handle(n, t).value.node == n && Handle(n, t).value.effects != []
  {
  }

  lemma RelayAccepted(n: Node, p: PeerId, t: Tick)
    requires NothingRecorded(n) && n.relays == Relays([], {}, 1) && t.input == ReservationAccepted(p)
    ensures Handle(n, t).Some? && Handle(n, t).value == Step(n.(relays := Relays([p], {}, 1)), [])
  {
    NothingInUse(n);
    hide InUseIn, GoodView, Records;
    assert [] + [p] == [p];
    assert PruneQueue([p], {}, 1, n.view) == Pruned([p], []);
  }

  /** Two relays are asked and admitted, with nobody queued and nobody in use. The first to accept is
      taken in; when the second accepts, one of them is evicted, although neither the view nor the
      relays in use have changed. */
  ghost predicate InFlight(states: seq<Node>, ticks: seq<Tick>, p: PeerId, q: PeerId) {
    && IsRun(states, ticks) && StartsFresh(states) && |ticks| == 8
    && ticks[4].input == RelayOffered(p) && Handle(states[4], ticks[4]).value.effects != []
    && ticks[5].input == RelayOffered(q) && Handle(states[5], ticks[5]).value.effects != []
    && ticks[6].input == ReservationAccepted(p) && Handle(states[6], ticks[6]).value.effects == []
    && ticks[7].input == ReservationAccepted(q) && |Handle(states[7], ticks[7]).value.effects| == 1
    && states[7].view == states[4].view && states[7].relays.inUse == InUseIn(states[4].view)
  }

  /** The four inputs on their own. */
  lemma AskBothThenAccept(n: Node, p: PeerId, q: PeerId, t4: Tick, t5: Tick, t6: Tick, t7: Tick)
    requires p != q && CanAskBoth(n, p, q)
    requires t4.input == RelayOffered(p) && t5.input == RelayOffered(q)
    requires t6.input == ReservationAccepted(p) && t7.input == ReservationAccepted(q)
    ensures Handle(n, t4).Some? && Handle(n, t4).value.node == n && Handle(n, t4).value.effects != []
    ensures Handle(n, t5).Some? && Handle(n, t5).value.node == n && Handle(n, t5).value.effects != []
    ensures var m := n.(relays := Relays([p], {}, 1));
            && Handle(n, t6) == Some(Step(m, [])) && InUseIn(m.view) == {}
            && Handle(m, t7).Some? && |Handle(m, t7).value.effects| == 1
  {
    hide Handle, GoodView, Records, NothingRecorded, Askable, InUseIn;
    NothingInUse(n);
    RelayAsked(n, p, t4);
    RelayAsked(n, q, t5);
    RelayAccepted(n, p, t6);
    AcceptedEvicts(n.(relays := Relays([p], {}, 1)), t7);
  }

  /** Admission when asking is not enough. */
  lemma RequestsInFlight(local: PeerId, p: PeerId, q: PeerId, a: Multiaddr, b: Multiaddr)
    returns (states: seq<Node>, ticks: seq<Tick>)
    requires p != q && !ShouldSkipForDial(a) && !ShouldSkipForDial(b)
    ensures InFlight(states, ticks, p, q)
  {
    var n;
    states, ticks, n := TwoRelaysKnown(local, p, q, a, b);
    hide Handle, NothingRecorded, StartsFresh, IsRun, Askable, InUseIn, ShouldSkipForDial, CanAskBoth;
    assert |states| == 5 by {
      RunLength(states, ticks);
    }
    var t4 := Tick(RelayOffered(p), 0, {}, 0);
    var t5 := Tick(RelayOffered(q), 0, {}, 0);
    var t6 := Tick(ReservationAccepted(p), 0, {}, 0);
    var t7 := Tick(ReservationAccepted(q), 0, {}, 0);
    AskBothThenAccept(n, p, q, t4, t5, t6, t7);
    var m := n.(relays := Relays([p], {}, 1));
    states, ticks := FourMore(states, ticks, n, n, n, m, t4, t5, t6, t7);
  }

  lemma FourMore(states: seq<Node>, ticks: seq<Tick>, n: Node, n1: Node, n2: Node, n3: Node, t0: Tick, t1: Tick, t2: Tick, t3: Tick)
    returns (states': seq<Node>, ticks': seq<Tick>)
    requires RunTo(states, ticks, n)
    requires Handle(n, t0).Some? && Handle(n, t0).value.node == n1 && Handle(n1, t1).Some? && Handle(n1, t1).value.node == n2
    requires Handle(n2, t2).Some? && Handle(n2, t2).value.node == n3 && Handle(n3, t3).Some?
    ensures states' == states + [n1, n2, n3, Handle(n3, t3).value.node] && ticks' == ticks + [t0, t1, t2, t3]
    ensures RunTo(states', ticks', Handle(n3, t3).value.node)
  {
    hide *;
    RunOn(states, ticks, n, t0);
    RunOn(states + [n1], ticks + [t0], n1, t1);
    RunOn(states + [n1] + [n2], ticks + [t0] + [t1], n2, t2);
    RunOn(states + [n1] + [n2] + [n3], ticks + [t0] + [t1] + [t2], n3, t3);
    states' := states + [n1] + [n2] + [n3] + [Handle(n3, t3).value.node];
    ticks' := ticks + [t0] + [t1] + [t2] + [t3];
  }
}
