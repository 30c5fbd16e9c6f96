/** Runs of two linked nodes that show the limits of what holds between them. */
module LinkWitnesses {
  import opened Options
  import opened Multiaddrs
  import opened Metadata
  import opened AddressList
  import opened AddressListFacts
  import opened Effects
  import opened Views
  import opened Relays
  import opened Nodes
  import opened NodeFacts
  import opened NodeRuns
  import opened Returning
  import opened Witnesses
  import Reconcile
  import TwoNodes
  import Migration

  // ----- the best live address expires -----

  /** Nothing is being closed, nobody relays, and the leader records at most one link: `on`. */
  ghost predicate AtRest(s: TwoNodes.Sys, lead: PeerId, follow: PeerId, on: Option<(ConnId, Multiaddr)>) {
    && TwoNodes.Inv(s) && TwoNodes.Unreserved(s) && s.lead.local == lead && s.follow.local == follow && s.pending == {}
    && forall c: ConnId, x: Multiaddr :: TwoNodes.OnLead(s, c, x) <==> on == Some((c, x))
  }

  lemma StartAtRest(lead: PeerId, follow: PeerId, m: nat, n: nat)
    requires IsPruneLeader(lead, follow)
    ensures var s := TwoNodes.Start(lead, follow, m, n);
            AtRest(s, lead, follow, None) && s.links == {} && s.openedLead == {} && s.used == {}
  {
    TwoNodes.StartInv(lead, follow, m, n);
    FreshIsGood(lead, m);
  }

  lemma BestAtRest(s: TwoNodes.Sys, lead: PeerId, follow: PeerId, on: Option<(ConnId, Multiaddr)>)
    requires AtRest(s, lead, follow, on)
    ensures forall x :: Migration.BestLive(s, x) <==> on.Some? && on.value.1 == x
  {
    hide TwoNodes.Inv, TwoNodes.OnLead, Better;
    forall x
      ensures Migration.Live(s, x) <==> on.Some? && on.value.1 == x
    {
      if on.Some? && on.value.1 == x {
        assert TwoNodes.OnLead(s, on.value.0, x);
      }
    }
  }

  lemma LinkComesUp(s: TwoNodes.Sys, cid: ConnId, lead: PeerId, follow: PeerId, on: Option<(ConnId, Multiaddr)>)
    returns (s': TwoNodes.Sys)
    requires AtRest(s, lead, follow, on) && cid !in s.used
    ensures TwoNodes.SysStep(s, TwoNodes.Connect(cid), s') && AtRest(s', lead, follow, on)
    ensures s' == s.(links := s.links + {cid}, up := s.up + {cid}, used := s.used + {cid})
  {
    hide TwoNodes.Inv, Records;
    s' := s.(links := s.links + {cid}, up := s.up + {cid}, used := s.used + {cid});
    TwoNodes.InvStep(s, TwoNodes.Connect(cid), s');
    assert forall c, x :: TwoNodes.OnLead(s', c, x) <==> TwoNodes.OnLead(s, c, x);
  }

  /** One handled input at the leader, with no relaying between the two. */
  lemma LeaderActs(s: TwoNodes.Sys, t: Tick) returns (s': TwoNodes.Sys)
    requires TwoNodes.Inv(s) && TwoNodes.Unreserved(s) && Handle(s.lead, t).Some?
    requires TwoNodes.Announced(s, s.follow.local, s.openedLead, t.input) && Registers(t.input) != Some(s.follow.local)
    ensures TwoNodes.SysStep(s, TwoNodes.AtLead(t), s') && TwoNodes.Inv(s') && TwoNodes.Unreserved(s') && s'.lead.local == s.lead.local
    ensures s' == s.(lead := Handle(s.lead, t).value.node, pending := s.pending + TwoNodes.Closes(Handle(s.lead, t).value.effects),
                     openedLead := TwoNodes.OpenedAfter(s.openedLead, s.follow.local, t.input),
                     used := TwoNodes.UsedAfter(s.used, t.input))
  {
    GoodLeader(s);
    var f := s.follow.local;
    var r := Handle(s.lead, t).value;
    s' := s.(lead := r.node, pending := s.pending + TwoNodes.Closes(r.effects),
             openedLead := TwoNodes.OpenedAfter(s.openedLead, f, t.input), used := TwoNodes.UsedAfter(s.used, t.input));
    hide Handle, GoodView, TwoNodes.Inv, TwoNodes.Announced, Registers;
    TwoNodes.HandledUnreserved(s.lead, t, f);
    assert TwoNodes.FreeStep(s, TwoNodes.AtLead(t), s');
    TwoNodes.UnrelayedStep(s, TwoNodes.AtLead(t), s');
    TwoNodes.InvStep(s, TwoNodes.AtLead(t), s');
  }

  /** One that closes nothing. */
  lemma LeaderRests(s: TwoNodes.Sys, t: Tick, lead: PeerId, follow: PeerId, on: Option<(ConnId, Multiaddr)>)
    returns (s': TwoNodes.Sys)
    requires TwoNodes.Inv(s) && TwoNodes.Unreserved(s) && s.lead.local == lead && s.follow.local == follow && s.pending == {}
    requires TwoNodes.Announced(s, follow, s.openedLead, t.input) && Registers(t.input) != Some(follow)
    requires GoodView(s.lead.view) && Handle(s.lead, t).Some?
    requires forall c :: CloseConnection(c) !in Handle(s.lead, t).value.effects
    requires forall c: ConnId, x: Multiaddr :: Records(Handle(s.lead, t).value.node.view, follow, c, x) <==> on == Some((c, x))
    ensures TwoNodes.SysStep(s, TwoNodes.AtLead(t), s') && AtRest(s', lead, follow, on)
    ensures s' == s.(lead := s'.lead, openedLead := TwoNodes.OpenedAfter(s.openedLead, follow, t.input),
                     used := TwoNodes.UsedAfter(s.used, t.input))
  {
    hide Handle, GoodView, Records, TwoNodes.Inv, TwoNodes.Announced, Registers, TwoNodes.SysStep, TwoNodes.Unreserved;
    s' := LeaderActs(s, t);
    TwoNodes.ClosesMembers(Handle(s.lead, t).value.effects);
    assert s.pending + TwoNodes.Closes(Handle(s.lead, t).value.effects) == {};
  }

  lemma GoodLeader(s: TwoNodes.Sys)
    requires TwoNodes.Inv(s)
    ensures GoodView(s.lead.view)
  {
  }

  lemma LinkAnnounced(s: TwoNodes.Sys, cid: ConnId, x: Multiaddr, t: Tick, lead: PeerId, follow: PeerId)
    returns (s': TwoNodes.Sys)
    requires AtRest(s, lead, follow, None) && cid in s.links && cid !in s.openedLead
    requires t.input == Established(follow, cid, Dialer(x)) && ExtractRelayPeer(x) != Some(follow)
    ensures TwoNodes.SysStep(s, TwoNodes.AtLead(t), s') && AtRest(s', lead, follow, Some((cid, x)))
    ensures s'.links == s.links && s'.up == s.up && s'.openedLead == s.openedLead + {cid} && s'.used == s.used + {cid}
  {
    GoodLeader(s);
    hide Handle, GoodView, Records, TwoNodes.Inv, ExtractRelayPeer;
    assert forall c, b :: Records(s.lead.view, follow, c, b) <==> TwoNodes.OnLead(s, c, b);
    OnlyConnection(s.lead, follow, cid, x, t);
    s' := LeaderRests(s, t, lead, follow, Some((cid, x)));
  }

  lemma LinkForgotten(s: TwoNodes.Sys, cid: ConnId, x: Multiaddr, lead: PeerId, follow: PeerId)
    returns (t: Tick, s': TwoNodes.Sys)
    requires AtRest(s, lead, follow, Some((cid, x)))
    ensures t.input == AddressExpired(follow, x)
    ensures TwoNodes.SysStep(s, TwoNodes.AtLead(t), s') && AtRest(s', lead, follow, None)
    ensures s' == s.(lead := s'.lead)
  {
    GoodLeader(s);
    hide Handle, GoodView, Records, TwoNodes.Inv;
    assert forall c, b :: Records(s.lead.view, follow, c, b) <==> TwoNodes.OnLead(s, c, b);
    t := OnlyAddressExpires(s.lead, follow, x, Tick(AddressExpired(follow, x), 0, {}, 0));
    s' := LeaderRests(s, t, lead, follow, None);
  }

  /** A link comes up on `x` and is announced to the leader. */
  lemma NewLink(s: TwoNodes.Sys, cid: ConnId, x: Multiaddr, lead: PeerId, follow: PeerId)
    returns (s1: TwoNodes.Sys, t: Tick, s2: TwoNodes.Sys)
    requires AtRest(s, lead, follow, None) && cid !in s.used && cid !in s.openedLead
    requires ExtractRelayPeer(x) != Some(follow)
    ensures t.input.Established?
    ensures TwoNodes.SysStep(s, TwoNodes.Connect(cid), s1) && TwoNodes.SysStep(s1, TwoNodes.AtLead(t), s2)
    ensures AtRest(s2, lead, follow, Some((cid, x)))
    ensures s2.up == s.up + {cid} && s2.openedLead == s.openedLead + {cid} && s2.used == s.used + {cid}
  {
    hide *;
    s1 := LinkComesUp(s, cid, lead, follow, None);
    t := Tick(Established(follow, cid, Dialer(x)), 0, {}, 0);
    s2 := LinkAnnounced(s1, cid, x, t, lead, follow);
    assert s.used + {cid} + {cid} == s.used + {cid};
  }

  /** Two links one after the other, and between them the address of the first expires. */
  ghost predicate Backwards(ss: seq<TwoNodes.Sys>, acts: seq<TwoNodes.Action>, lead: PeerId, follow: PeerId, a: Multiaddr, b: Multiaddr) {
    && TwoNodes.IsSysRun(ss, acts) && |acts| == 5
    && (forall i | 0 <= i < 5 && acts[i].AtLead? :: acts[i].tick.input.AddressExpired? <==> i == 2)
    && acts[2].AtLead? && acts[2].tick.input == AddressExpired(follow, a)
    && AtRest(ss[2], lead, follow, Some((0, a))) && AtRest(ss[3], lead, follow, None)
    && AtRest(ss[5], lead, follow, Some((1, b))) && 0 in ss[5].up
  }

  lemma TwoLinks(s0: TwoNodes.Sys, lead: PeerId, follow: PeerId, a: Multiaddr, b: Multiaddr)
    returns (ss: seq<TwoNodes.Sys>, acts: seq<TwoNodes.Action>)
    requires AtRest(s0, lead, follow, None) && s0.used == {} && s0.openedLead == {}
    requires ExtractRelayPeer(a) != Some(follow) && ExtractRelayPeer(b) != Some(follow)
    ensures Backwards(ss, acts, lead, follow, a, b) && ss[0] == s0
  {
    hide *;
    var s1, t1, s2 := NewLink(s0, 0, a, lead, follow);
    var t2, s3 := LinkForgotten(s2, 0, a, lead, follow);
    var s4, t4, s5 := NewLink(s3, 1, b, lead, follow);
    ss := [s0, s1, s2, s3, s4, s5];
    acts := [TwoNodes.Connect(0), TwoNodes.AtLead(t1), TwoNodes.AtLead(t2), TwoNodes.Connect(1), TwoNodes.AtLead(t4)];
    FiveSteps(ss, acts, lead, follow, a, b);
  }

  lemma FiveSteps(ss: seq<TwoNodes.Sys>, acts: seq<TwoNodes.Action>, lead: PeerId, follow: PeerId, a: Multiaddr, b: Multiaddr)
    requires |ss| == 6 && |acts| == 5
    requires forall i | 0 <= i < 5 && acts[i].AtLead? :: acts[i].tick.input.AddressExpired? <==> i == 2
    requires acts[2].AtLead? && acts[2].tick.input == AddressExpired(follow, a)
    requires AtRest(ss[2], lead, follow, Some((0, a))) && AtRest(ss[3], lead, follow, None)
    requires AtRest(ss[5], lead, follow, Some((1, b))) && 0 in ss[5].up
    requires TwoNodes.SysStep(ss[0], acts[0], ss[1]) && TwoNodes.SysStep(ss[1], acts[1], ss[2])
    requires TwoNodes.SysStep(ss[2], acts[2], ss[3]) && TwoNodes.SysStep(ss[3], acts[3], ss[4])
    requires TwoNodes.SysStep(ss[4], acts[4], ss[5])
    ensures Backwards(ss, acts, lead, follow, a, b)
  {
    hide TwoNodes.SysStep, AtRest;
    forall i | 0 <= i < |acts|
      ensures TwoNodes.SysStep(ss[i], acts[i], ss[i + 1])
    {
      assert i == 0 || i == 1 || i == 2 || i == 3 || i == 4;
    }
  }

  /** A leader migrates backwards: the address of its only link expires, and the next link comes up on
      a worse one, while the first link is still up and nobody closes it. */
  lemma BestExpiryWorsens(lead: PeerId, follow: PeerId, m: nat, n: nat, a: Multiaddr, b: Multiaddr)
    returns (ss: seq<TwoNodes.Sys>, acts: seq<TwoNodes.Action>)
    requires IsPruneLeader(lead, follow) && Better(a, b)
    requires ExtractRelayPeer(a) != Some(follow) && ExtractRelayPeer(b) != Some(follow)
    ensures TwoNodes.IsSysRun(ss, acts) && TwoNodes.StartsFresh(ss) && |acts| == 5
    ensures forall i | 0 <= i < |acts| :: Migration.BestExpires(ss[i], acts[i]) <==> i == 2
    ensures Migration.BestLive(ss[2], a) && Migration.BestLive(ss[5], b) && 0 in ss[5].up && 0 !in ss[5].pending
    ensures !Migration.KeepsBest(ss[2], ss[3])
  {
    hide IsPruneLeader, Better, TwoNodes.SysStep, TwoNodes.Start, Migration.BestLive, ExtractRelayPeer, TwoNodes.Inv,
      TwoNodes.OnLead, TwoNodes.Unreserved;
    var s0 := TwoNodes.Start(lead, follow, m, n);
    StartAtRest(lead, follow, m, n);
    ss, acts := TwoLinks(s0, lead, follow, a, b);
    BestAtRest(ss[2], lead, follow, Some((0, a)));
    BestAtRest(ss[3], lead, follow, None);
    BestAtRest(ss[5], lead, follow, Some((1, b)));
  }

  // ----- a head that is being closed -----

  /** Addresses listed after a connection opens. */
  lemma ListedAfterOpen(n: Node, p: PeerId, cid: ConnId, a: Multiaddr, t: Tick)
    requires GoodView(n.view) && t.input == Established(p, cid, Dialer(a))
    ensures TableAt(Edited(n, t), p).Keys == TableAt(n.view, p).Keys + {a}
    ensures Handle(n, t).Some? ==> TableAt(Handle(n, t).value.node.view, p).Keys == TableAt(n.view, p).Keys + {a}
  {
    GoodAt(n.view, p);
    hide Handle, AddressesAt, Good, GoodView, TableOf, Edited, AddConnection, DialsListed, ClosesOffHead, Sorted, On;
    EditIsLocal(n, t, p);
    AddConnectionFacts(AddressesAt(n.view, p), cid, a, t.now);
    if Handle(n, t).Some? {
      HandleFacts(n, t);
    }
  }

  lemma ListedAfterExpiry(n: Node, p: PeerId, a: Multiaddr, t: Tick)
    requires GoodView(n.view) && t.input == AddressExpired(p, a)
    ensures TableAt(Edited(n, t), p).Keys == TableAt(n.view, p).Keys - {a}
  {
    GoodAt(n.view, p);
    hide AddressesAt, Good, GoodView, TableOf, Edited, RemoveAddress, Sorted;
    EditIsLocal(n, t, p);
    RemoveAddressFacts(AddressesAt(n.view, p), a, t.now);
  }

  /** Reconcile finds `h` at the head, and up. */
  ghost predicate SeesHead(n: Node, t: Tick, h: Multiaddr) {
    BestIsUp(n, t) && Shown(n, t)[0].address == h
  }

  /** It does if `h` is connected and no listed address is better. */
  lemma HeadIs(n: Node, t: Tick, cid: ConnId, h: Multiaddr)
    requires GoodView(n.view) && Reconciles(n, t) && Records(Edited(n, t), t.input.peer, cid, h)
    requires forall x | x in TableAt(Edited(n, t), t.input.peer).Keys :: x == h || Better(h, x)
    ensures SeesHead(n, t, h) && Connected(Edited(n, t), t.input.peer)
  {
    EditGood(n, t);
    var p, e := t.input.peer, Edited(n, t);
    GoodAt(e, p);
    ConnectedMeansRecorded(e, p);
    hide Edited, Reconciles, GoodView, Good, Sorted, Better, TableOf, AddressesAt, Connected, ConnectedOver;
    var l := Shown(n, t);
    TableAddress(l, h);
    HeadIsBest(l, t.now);
    Reconcile.HeadEntry(l);
    Migration.NotBothBetter(l[0].address, h);
  }

  lemma UpReturns(n: Node, t: Tick)
    requires GoodView(n.view) && Reconciles(n, t) && Connected(Edited(n, t), t.input.peer)
    ensures Handle(n, t).Some?
  {
    hide Handle, Edited, GoodView, Connected, IsConnected, Reconcile.Run, Reconciles;
    ShownIsConnected(n, t);
    HandlerReturns(n, t);
    ConnectedReturns(Shown(n, t), CallAt(n, t), t.fuel);
  }

  /** The view lists `a`, with link 0 on it, and nothing else for `p`. */
  ghost predicate OnlyFirst(n: Node, p: PeerId, a: Multiaddr) {
    && GoodView(n.view) && TableAt(n.view, p).Keys == {a}
    && forall c, x :: Records(n.view, p, c, x) <==> c == 0 && x == a
  }

  /** Link 0 on `a` and link 1 on `b`. */
  ghost predicate BothLinks(n: Node, p: PeerId, a: Multiaddr, b: Multiaddr) {
    && GoodView(n.view) && TableAt(n.view, p).Keys == {a, b}
    && forall c, x :: Records(n.view, p, c, x) <==> (c == 0 && x == a) || (c == 1 && x == b)
  }

  lemma FirstLink(lead: PeerId, m: nat, p: PeerId, a: Multiaddr, t: Tick)
    requires t.input == Established(p, 0, Dialer(a))
    ensures Handle(Fresh(lead, m), t).Some? && OnlyFirst(Handle(Fresh(lead, m), t).value.node, p, a)
  {
    FreshIsGood(lead, m);
    hide Handle, GoodView, Records, TableAt, Fresh;
    OnlyConnection(Fresh(lead, m), p, 0, a, t);
    ListedAfterOpen(Fresh(lead, m), p, 0, a, t);
  }

  lemma SecondLinkEdits(n: Node, p: PeerId, a: Multiaddr, b: Multiaddr, t: Tick)
    requires OnlyFirst(n, p, a) && t.input == Established(p, 1, Dialer(b))
    ensures GoodView(n.view) && Reconciles(n, t) && t.input.peer == p
    ensures TableAt(Edited(n, t), p).Keys == {a, b} && Records(Edited(n, t), p, 0, a) && Records(Edited(n, t), p, 1, b)
  {
    hide GoodView, Records, TableAt, Edited, Handle;
    ListedAfterOpen(n, p, 1, b, t);
    EditedRecords(n, t, p, 0, a);
    EditedRecords(n, t, p, 1, b);
  }

  /** With a second link on a worse address, reconcile finds the first one's address at the head. */
  lemma SecondLinkSeen(n: Node, p: PeerId, a: Multiaddr, b: Multiaddr, t: Tick)
    requires OnlyFirst(n, p, a) && Better(a, b) && t.input == Established(p, 1, Dialer(b))
    ensures Reconciles(n, t) && SeesHead(n, t, a)
    ensures Connected(Edited(n, t), p) && Records(Edited(n, t), p, 1, b)
  {
    hide *;
    SecondLinkEdits(n, p, a, b, t);
    HeadIs(n, t, 0, a);
  }

  lemma SecondLinkRecorded(n: Node, p: PeerId, a: Multiaddr, b: Multiaddr, t: Tick)
    requires OnlyFirst(n, p, a) && t.input == Established(p, 1, Dialer(b)) && Handle(n, t).Some?
    ensures BothLinks(Handle(n, t).value.node, p, a, b)
  {
    hide GoodView, Records, TableAt, Handle, Edited;
    ListedAfterOpen(n, p, 1, b, t);
    HandleRecords(n, t);
  }

  /** So the leader asks to close the second link. */
  lemma SecondLink(n: Node, p: PeerId, a: Multiaddr, b: Multiaddr, t: Tick)
    requires OnlyFirst(n, p, a) && IsPruneLeader(n.local, p) && Better(a, b) && t.input == Established(p, 1, Dialer(b))
    ensures Handle(n, t).Some? && BothLinks(Handle(n, t).value.node, p, a, b)
    ensures CloseConnection(1) in Handle(n, t).value.effects
  {
    BetterIrreflexive(a);
    assert GoodView(n.view);
    hide *;
    SecondLinkSeen(n, p, a, b, t);
    UpReturns(n, t);
    SecondLinkRecorded(n, p, a, b, t);
    ClosedOffHead(n, t, 1, a, b);
  }

  lemma ClosedOffHead(n: Node, t: Tick, cid: ConnId, a: Multiaddr, b: Multiaddr)
    requires GoodView(n.view) && Handle(n, t).Some? && SeesHead(n, t, a) && IsPruneLeader(n.local, t.input.peer)
    requires Records(Edited(n, t), t.input.peer, cid, b) && a != b
    ensures CloseConnection(cid) in Handle(n, t).value.effects
  {
    hide Handle, GoodView, Records, Edited, IsPruneLeader, Reconciled, DialsListed, Reconciles;
    HandleFacts(n, t);
  }

  /** Then `a` expires: the head is `b`, with link 1. */
  lemma FirstExpires(n: Node, p: PeerId, a: Multiaddr, b: Multiaddr, t: Tick)
    requires BothLinks(n, p, a, b) && a != b && t.input == AddressExpired(p, a)
    ensures Handle(n, t).Some? && SeesHead(n, t, b) && Records(Edited(n, t), p, 1, b)
  {
    assert Reconciles(n, t);
    hide Handle, GoodView, Records, TableAt, Edited, Better, Reconciles, Connected, SeesHead;
    ListedAfterExpiry(n, p, a, t);
    EditedRecords(n, t, p, 1, b);
    HeadIs(n, t, 1, b);
    UpReturns(n, t);
  }

  lemma ConnectActs(s: TwoNodes.Sys, cid: ConnId) returns (s': TwoNodes.Sys)
    requires TwoNodes.Inv(s) && TwoNodes.Unreserved(s) && cid !in s.used
    ensures TwoNodes.SysStep(s, TwoNodes.Connect(cid), s') && TwoNodes.Inv(s') && TwoNodes.Unreserved(s')
    ensures s' == s.(links := s.links + {cid}, up := s.up + {cid}, used := s.used + {cid})
  {
    hide TwoNodes.Inv;
    s' := s.(links := s.links + {cid}, up := s.up + {cid}, used := s.used + {cid});
    TwoNodes.InvStep(s, TwoNodes.Connect(cid), s');
  }

  /** A new link, announced to the leader. */
  lemma LinkActs(s: TwoNodes.Sys, cid: ConnId, x: Multiaddr, t: Tick) returns (s1: TwoNodes.Sys, s2: TwoNodes.Sys)
    requires TwoNodes.Inv(s) && TwoNodes.Unreserved(s) && cid !in s.used && cid !in s.openedLead
    requires t.input == Established(s.follow.local, cid, Dialer(x)) && ExtractRelayPeer(x) != Some(s.follow.local)
    requires Handle(s.lead, t).Some?
    ensures TwoNodes.SysStep(s, TwoNodes.Connect(cid), s1) && TwoNodes.SysStep(s1, TwoNodes.AtLead(t), s2)
    ensures TwoNodes.Inv(s2) && TwoNodes.Unreserved(s2) && s2.follow == s.follow
    ensures s2.lead == Handle(s.lead, t).value.node && s2.lead.local == s.lead.local
    ensures s2.used == s.used + {cid} && s2.openedLead == s.openedLead + {cid} && s2.up == s.up + {cid}
    ensures s2.pending == s.pending + TwoNodes.Closes(Handle(s.lead, t).value.effects)
  {
    hide Handle, TwoNodes.Inv, TwoNodes.Unreserved, TwoNodes.SysStep, ExtractRelayPeer, TwoNodes.Closes;
    s1 := ConnectActs(s, cid);
    s2 := LeaderActs(s1, t);
    assert s.used + {cid} + {cid} == s.used + {cid};
  }

  lemma StartFacts(lead: PeerId, follow: PeerId, m: nat, n: nat)
    requires IsPruneLeader(lead, follow)
    ensures var s := TwoNodes.Start(lead, follow, m, n);
            && TwoNodes.Inv(s) && TwoNodes.Unreserved(s) && s.lead == Fresh(lead, m) && s.lead.local == lead && s.follow.local == follow
            && s.used == {} && s.openedLead == {} && s.up == {} && s.pending == {} && TwoNodes.StartsFresh([s])
  {
    TwoNodes.StartInv(lead, follow, m, n);
    var ss := [TwoNodes.Start(lead, follow, m, n)];
    assert ss[0] == TwoNodes.Start(lead, follow, m, n);
  }

  /** The head that a pruning keeps can be closing already: the leader asks to close a second link on a
      worse address, then the better address expires, and the next pruning keeps the worse one. */
  ghost predicate KeepsClosing(ss: seq<TwoNodes.Sys>, acts: seq<TwoNodes.Action>, b: Multiaddr) {
    && TwoNodes.IsSysRun(ss, acts) && |acts| == 5 && Migration.PrunesAt(ss, acts, 4)
    && Migration.KeptAt(ss, acts, 4) == b && !Migration.HeadStays(ss[4], acts[4].tick)
  }

  /** One more step of a run. */
  lemma RunStep(ss: seq<TwoNodes.Sys>, acts: seq<TwoNodes.Action>, act: TwoNodes.Action, s': TwoNodes.Sys)
    requires TwoNodes.IsSysRun(ss, acts) && TwoNodes.StartsFresh(ss) && TwoNodes.SysStep(ss[|acts|], act, s')
    ensures TwoNodes.IsSysRun(ss + [s'], acts + [act]) && TwoNodes.StartsFresh(ss + [s'])
  {
    hide TwoNodes.SysStep, TwoNodes.Start;
  }

  /** A run that has come to `s`, with no relaying between the two so far. */
  ghost predicate LinksRun(ss: seq<TwoNodes.Sys>, acts: seq<TwoNodes.Action>, s: TwoNodes.Sys, lead: PeerId, follow: PeerId) {
    && TwoNodes.IsSysRun(ss, acts) && TwoNodes.StartsFresh(ss) && ss[|acts|] == s
    && TwoNodes.Inv(s) && TwoNodes.Unreserved(s) && s.lead.local == lead && s.follow.local == follow
  }

  lemma LinksRunStarts(lead: PeerId, follow: PeerId, m: nat, n: nat)
    requires IsPruneLeader(lead, follow)
    ensures var s := TwoNodes.Start(lead, follow, m, n);
            && LinksRun([s], [], s, lead, follow) && s.lead == Fresh(lead, m)
            && s.used == {} && s.openedLead == {} && s.up == {} && s.pending == {}
  {
    hide TwoNodes.Inv, TwoNodes.Unreserved, IsPruneLeader, Fresh, TwoNodes.SysStep;
    StartFacts(lead, follow, m, n);
  }

  /** A new link, as two more steps. */
  lemma LinksRunLink(ss: seq<TwoNodes.Sys>, acts: seq<TwoNodes.Action>, s: TwoNodes.Sys, lead: PeerId, follow: PeerId,
      cid: ConnId, x: Multiaddr, t: Tick)
    returns (ss': seq<TwoNodes.Sys>, acts': seq<TwoNodes.Action>, s': TwoNodes.Sys)
    requires LinksRun(ss, acts, s, lead, follow) && cid !in s.used && cid !in s.openedLead
    requires t.input == Established(follow, cid, Dialer(x)) && ExtractRelayPeer(x) != Some(follow) && Handle(s.lead, t).Some?
    ensures LinksRun(ss', acts', s', lead, follow) && |acts'| == |acts| + 2 && ss' == ss + ss'[|ss|..]
    ensures s'.lead == Handle(s.lead, t).value.node
    ensures s'.used == s.used + {cid} && s'.openedLead == s.openedLead + {cid} && s'.up == s.up + {cid}
    ensures s'.pending == s.pending + TwoNodes.Closes(Handle(s.lead, t).value.effects)
  {
    hide TwoNodes.Inv, TwoNodes.Unreserved, TwoNodes.SysStep, TwoNodes.StartsFresh, Handle, ExtractRelayPeer, TwoNodes.Closes;
    var s1, s2 := LinkActs(s, cid, x, t);
    RunStep(ss, acts, TwoNodes.Connect(cid), s1);
    RunStep(ss + [s1], acts + [TwoNodes.Connect(cid)], TwoNodes.AtLead(t), s2);
    ss', acts', s' := ss + [s1] + [s2], acts + [TwoNodes.Connect(cid)] + [TwoNodes.AtLead(t)], s2;
  }

  lemma FirstLinkRun(lead: PeerId, follow: PeerId, m: nat, n: nat, a: Multiaddr)
    returns (ss: seq<TwoNodes.Sys>, acts: seq<TwoNodes.Action>, s: TwoNodes.Sys)
    requires IsPruneLeader(lead, follow) && ExtractRelayPeer(a) != Some(follow)
    ensures LinksRun(ss, acts, s, lead, follow) && |acts| == 2
    ensures OnlyFirst(s.lead, follow, a) && s.used == {0} && s.openedLead == {0}
  {
    LinksRunStarts(lead, follow, m, n);
    hide *;
    var s0 := TwoNodes.Start(lead, follow, m, n);
    var t := Tick(Established(follow, 0, Dialer(a)), 0, {}, 0);
    FirstLink(lead, m, follow, a, t);
    ss, acts, s := LinksRunLink([s0], [], s0, lead, follow, 0, a, t);
  }

  lemma SecondLinkRun(ss: seq<TwoNodes.Sys>, acts: seq<TwoNodes.Action>, s: TwoNodes.Sys, lead: PeerId, follow: PeerId,
      a: Multiaddr, b: Multiaddr)
    returns (ss': seq<TwoNodes.Sys>, acts': seq<TwoNodes.Action>, s': TwoNodes.Sys)
    requires LinksRun(ss, acts, s, lead, follow) && OnlyFirst(s.lead, follow, a) && s.used == {0} && s.openedLead == {0}
    requires IsPruneLeader(lead, follow) && Better(a, b) && ExtractRelayPeer(b) != Some(follow)
    ensures LinksRun(ss', acts', s', lead, follow) && |acts'| == |acts| + 2
    ensures BothLinks(s'.lead, follow, a, b) && 1 in s'.pending
  {
    hide *;
    var t := Tick(Established(follow, 1, Dialer(b)), 0, {}, 0);
    RunLeads(ss, acts, s, lead, follow);
    SecondLink(s.lead, follow, a, b, t);
    ss', acts', s' := LinksRunLink(ss, acts, s, lead, follow, 1, b, t);
    TwoNodes.ClosesMembers(Handle(s.lead, t).value.effects);
  }

  lemma KeptIsClosing(lead: PeerId, follow: PeerId, m: nat, n: nat, a: Multiaddr, b: Multiaddr)
    returns (ss: seq<TwoNodes.Sys>, acts: seq<TwoNodes.Action>)
    requires IsPruneLeader(lead, follow) && Better(a, b)
    requires ExtractRelayPeer(a) != Some(follow) && ExtractRelayPeer(b) != Some(follow)
    ensures TwoNodes.StartsFresh(ss) && KeepsClosing(ss, acts, b)
  {
    BetterIrreflexive(a);
    hide *;
    var s2, s4;
    ss, acts, s2 := FirstLinkRun(lead, follow, m, n, a);
    ss, acts, s4 := SecondLinkRun(ss, acts, s2, lead, follow, a, b);
    ss, acts := ExpiryKeepsClosing(ss, acts, s4, lead, follow, a, b);
  }

  lemma RunLeads(ss: seq<TwoNodes.Sys>, acts: seq<TwoNodes.Action>, s: TwoNodes.Sys, lead: PeerId, follow: PeerId)
    requires LinksRun(ss, acts, s, lead, follow)
    ensures s.lead.local == lead && s.follow.local == follow && GoodView(s.lead.view)
    ensures TwoNodes.IsSysRun(ss, acts) && TwoNodes.StartsFresh(ss) && |ss| == |acts| + 1 && ss[|acts|] == s
    ensures TwoNodes.Inv(s) && TwoNodes.Unreserved(s)
  {
    hide TwoNodes.SysStep, TwoNodes.StartsFresh;
    GoodLeader(s);
  }

  lemma ExpiryKeepsClosing(ss: seq<TwoNodes.Sys>, acts: seq<TwoNodes.Action>, s: TwoNodes.Sys, lead: PeerId, follow: PeerId,
      a: Multiaddr, b: Multiaddr)
    returns (ss': seq<TwoNodes.Sys>, acts': seq<TwoNodes.Action>)
    requires LinksRun(ss, acts, s, lead, follow) && |acts| == 4 && BothLinks(s.lead, follow, a, b) && a != b && 1 in s.pending
    ensures TwoNodes.StartsFresh(ss') && KeepsClosing(ss', acts', b)
  {
    RunLeads(ss, acts, s, lead, follow);
    var t := Tick(AddressExpired(follow, a), 0, {}, 0);
    assert TwoNodes.Announced(s, follow, s.openedLead, t.input) && Registers(t.input) == None && Reconciles(s.lead, t);
    hide *;
    FirstExpires(s.lead, follow, a, b, t);
    var s' := LeaderActs(s, t);
    RunStep(ss, acts, TwoNodes.AtLead(t), s');
    ss', acts' := ss + [s'], acts + [TwoNodes.AtLead(t)];
    ShowsClosing(ss', acts', t, b);
  }

  lemma ShowsClosing(ss: seq<TwoNodes.Sys>, acts: seq<TwoNodes.Action>, t: Tick, b: Multiaddr)
    requires TwoNodes.IsSysRun(ss, acts) && |acts| == 5 && |ss| == 6 && acts[4] == TwoNodes.AtLead(t)
    requires SeesHead(ss[4].lead, t, b) && t.input.AddressExpired? && t.input.peer == ss[4].follow.local
    requires Records(Edited(ss[4].lead, t), ss[4].follow.local, 1, b) && 1 in ss[4].pending
    ensures KeepsClosing(ss, acts, b)
  {
    hide TwoNodes.SysStep, BestIsUp, Shown, Edited, Records, Reconciles;
  }

  // ----- eviction disconnects -----

  /** The leader registers the follower as a relay it has no room for. */
  lemma NoRoom(n: Node, p: PeerId, a: Multiaddr, t: Tick)
    requires GoodView(n.view) && n.relays == Relays([], {}, 0) && t.input == ReservationAccepted(p)
    requires forall q, c, x | Records(n.view, q, c, x) :: ExtractRelayPeer(x) == None
    ensures Handle(n, t).Some? && DisconnectPeer(p) in Handle(n, t).value.effects
  {
    assert InUseIn(n.view) == {} by {
      hide InUseIn, GoodView, Records, ExtractRelayPeer;
      forall r
        ensures r !in InUseIn(n.view)
      {
        InUseMeaning(n.view, r);
      }
    }
    assert [] + [p] == [p];
    OneEvicted(p, n.view);
  }

  lemma OneEvicted(p: PeerId, v: View)
    ensures PruneQueue([p], {}, 0, v).removed == [p] && Disconnects([p]) == [DisconnectPeer(p)]
  {
    assert [p][1..] == [];
    assert WorstUnused([p], {}, v) == Some(p);
    assert RemoveFirst([p], p) == [];
    assert PruneQueue([], {}, 0, v) == Pruned([], []);
  }

  /** After a first, unrelayed connection no relay is queued. */
  lemma FirstUnrelayed(lead: PeerId, p: PeerId, a: Multiaddr, t: Tick)
    requires t.input == Established(p, 0, Dialer(a)) && ExtractRelayPeer(a) == None
    ensures Handle(Fresh(lead, 0), t).Some?
    ensures var n := Handle(Fresh(lead, 0), t).value.node;
            && GoodView(n.view) && n.relays == Relays([], {}, 0)
            && forall q, c, x | Records(n.view, q, c, x) :: ExtractRelayPeer(x) == None
  {
    var n0 := Fresh(lead, 0);
    FreshIsGood(lead, 0);
    FreshPolicy(lead, 0);
    hide Handle, GoodView, Records, ExtractRelayPeer, Fresh, InUseIn, Reconciled, DialsListed, ClosesOffHead;
    OnlyConnection(n0, p, 0, a, t);
    HandleFacts(n0, t);
    HandleEvicts(n0, t, {});
    RelayPolicyStep(n0, t);
    var r := Handle(n0, t).value.node.relays;
    if r.reserved != [] {
      HasElement(r.reserved);
      assert false;
    }
  }

  lemma HasElement(s: seq<PeerId>)
    requires s != []
    ensures exists p :: p in s
  {
    assert s[0] in s;
  }

  /** Eviction at step 2 of a run, and none before, takes the only link. */
  ghost predicate Disconnected(ss: seq<TwoNodes.Sys>, acts: seq<TwoNodes.Action>) {
    && |acts| == 3 && |ss| == 4
    && (forall i | 0 <= i < 3 :: TwoNodes.FreeStep(ss[i], acts[i], ss[i + 1]) && (TwoNodes.Evicts(ss[i], acts[i]) <==> i == 2))
    && TwoNodes.HasLink(ss[2]) && !TwoNodes.HasLink(ss[3])
  }

  /** Two nodes share one link; the leader evicts the follower as a relay, and no link is left that
      nobody is closing. */
  lemma EvictionDisconnects(lead: PeerId, follow: PeerId, n: nat, a: Multiaddr)
    returns (ss: seq<TwoNodes.Sys>, acts: seq<TwoNodes.Action>)
    requires IsPruneLeader(lead, follow) && ExtractRelayPeer(a) == None
    ensures TwoNodes.StartsFresh(ss) && Disconnected(ss, acts)
  {
    LinksRunStarts(lead, follow, 0, n);
    hide *;
    var s0 := TwoNodes.Start(lead, follow, 0, n);
    var t1 := Tick(Established(follow, 0, Dialer(a)), 0, {}, 0);
    FirstUnrelayed(lead, follow, a, t1);
    OnlyConnectionCloses(lead, follow, a, t1);
    var s2;
    ss, acts, s2 := LinksRunLink([s0], [], s0, lead, follow, 0, a, t1);
    TwoNodes.ClosesMembers(Handle(s0.lead, t1).value.effects);
    RunLeads(ss, acts, s2, lead, follow);
    var t2 := Tick(ReservationAccepted(follow), 0, {}, 0);
    NoRoom(s2.lead, follow, a, t2);
    var s3 := EvictingStep(s2, t2);
    ThenEvicted(ss, acts, s2, lead, follow, t2, s3);
    ss, acts := ss + [s3], acts + [TwoNodes.AtLead(t2)];
  }

  lemma ThenEvicted(ss: seq<TwoNodes.Sys>, acts: seq<TwoNodes.Action>, s: TwoNodes.Sys, lead: PeerId, follow: PeerId, t: Tick, s': TwoNodes.Sys)
    requires LinksRun(ss, acts, s, lead, follow) && |acts| == 2 && s.up == {0} && s.openedLead == {0} && 0 !in s.pending
    requires TwoNodes.FreeStep(s, TwoNodes.AtLead(t), s') && TwoNodes.Evicts(s, TwoNodes.AtLead(t))
    requires TwoNodes.AnnouncedTo(s, TwoNodes.AtLead(t)) == s.openedLead
    ensures TwoNodes.StartsFresh(ss + [s']) && Disconnected(ss + [s'], acts + [TwoNodes.AtLead(t)])
  {
    hide TwoNodes.Inv, TwoNodes.Unreserved, TwoNodes.FreeStep, TwoNodes.Evicts, TwoNodes.AnnouncedTo, TwoNodes.Start;
    assert TwoNodes.HasLink(s);
    TwoNodes.EvictionStep(s, TwoNodes.AtLead(t), s');
    var ss', acts' := ss + [s'], acts + [TwoNodes.AtLead(t)];
    assert |ss| == 3 && ss[2] == s && ss'[2] == s && ss'[3] == s';
    forall i | 0 <= i < 3
      ensures TwoNodes.FreeStep(ss'[i], acts'[i], ss'[i + 1]) && (TwoNodes.Evicts(ss'[i], acts'[i]) <==> i == 2)
    {
      if i < 2 {
        assert TwoNodes.SysStep(ss[i], acts[i], ss[i + 1]);
      }
    }
  }

  lemma OnlyConnectionCloses(lead: PeerId, p: PeerId, a: Multiaddr, t: Tick)
    requires t.input == Established(p, 0, Dialer(a))
    ensures Handle(Fresh(lead, 0), t).Some? && forall c :: CloseConnection(c) !in Handle(Fresh(lead, 0), t).value.effects
  {
    FreshIsGood(lead, 0);
    hide Handle, GoodView, Records, Fresh;
    OnlyConnection(Fresh(lead, 0), p, 0, a, t);
  }

  lemma EvictingStep(s: TwoNodes.Sys, t: Tick) returns (s': TwoNodes.Sys)
    requires t.input == ReservationAccepted(s.follow.local) && Handle(s.lead, t).Some?
    requires DisconnectPeer(s.follow.local) in Handle(s.lead, t).value.effects
    ensures TwoNodes.FreeStep(s, TwoNodes.AtLead(t), s') && TwoNodes.Evicts(s, TwoNodes.AtLead(t))
    ensures TwoNodes.AnnouncedTo(s, TwoNodes.AtLead(t)) == s.openedLead && s'.up == s.up
  {
    hide Handle, TwoNodes.Closes;
    var r := Handle(s.lead, t).value;
    s' := s.(lead := r.node, pending := s.pending + TwoNodes.Requested(r.effects, s.follow.local, s.openedLead * s.up));
  }
}
