/** Two nodes connected to each other: the prune leader, which alone closes and migrates links, and
    the follower. Each handles its own inputs in any order; closes are honoured later. */
module TwoNodes {
  import opened Options
  import opened Multiaddrs
  import opened Metadata
  import opened AddressList
  import opened AddressListFacts
  import opened Effects
  import opened Views
  import opened Nodes
  import opened NodeFacts
  import LexOrder
  import NodeRuns
  import Reconcile

  /** `links`: all link ids between the two so far; `up`: those not torn down; `pending`: ids whose
      close somebody has requested; `openedLead`, `openedFollow`: links announced to either side;
      `used`: every connection id used so far, links or not. */
  datatype Sys = Sys(
    lead: Node, follow: Node,
    links: set<ConnId>, up: set<ConnId>, pending: set<ConnId>,
    openedLead: set<ConnId>, openedFollow: set<ConnId>,
    used: set<ConnId>)

  datatype Action =
    | Connect(cid: ConnId)
    | TearDown(cid: ConnId)
    | AtLead(tick: Tick)
    | AtFollow(tick: Tick)

  /** What the swarm may announce to a node whose counterpart is `other`. */
  predicate Announced(s: Sys, other: PeerId, known: set<ConnId>, input: Input) {
    match input
    case Established(p, cid, _) => if p == other then cid in s.links && cid !in known else cid !in s.used
    case Closed(p, cid) => if p == other then cid in known && cid !in s.up else cid !in s.links
    case _ => true
  }

  function Closes(e: seq<Effect>): set<ConnId> {
    set x | x in e && x.CloseConnection? :: x.cid
  }

  /** The links a node asks to close: one by one, or, evicting the other node as a relay, all it knows. */
  function Requested(e: seq<Effect>, other: PeerId, announced: set<ConnId>): set<ConnId> {
    if DisconnectPeer(other) in e then Closes(e) + announced else Closes(e)
  }

  function OpenedAfter(known: set<ConnId>, other: PeerId, input: Input): set<ConnId> {
    if input.Established? && input.peer == other then known + {input.cid} else known
  }

  function UsedAfter(used: set<ConnId>, input: Input): set<ConnId> {
    if input.Established? then used + {input.cid} else used
  }

  /** The links announced so far, this step's included, to the node that acts. */
  function AnnouncedTo(s: Sys, act: Action): set<ConnId> {
    match act
    case AtLead(t) => OpenedAfter(s.openedLead, s.follow.local, t.input)
    case AtFollow(t) => OpenedAfter(s.openedFollow, s.lead.local, t.input)
    case _ => {}
  }

  /** One step. Links go down only after a requested close. */
  ghost predicate FreeStep(s: Sys, act: Action, s': Sys) {
    match act
    case Connect(cid) =>
      && cid !in s.used
      && s' == s.(links := s.links + {cid}, up := s.up + {cid}, used := s.used + {cid})
    case TearDown(cid) =>
      && cid in s.up && cid in s.pending
      && s' == s.(up := s.up - {cid})
    case AtLead(t) =>
      && Announced(s, s.follow.local, s.openedLead, t.input)
      && Handle(s.lead, t).Some?
      && var r := Handle(s.lead, t).value;
      && s' == s.(lead := r.node, pending := s.pending + Requested(r.effects, s.follow.local, AnnouncedTo(s, act) * s.up),
                  openedLead := OpenedAfter(s.openedLead, s.follow.local, t.input),
                  used := UsedAfter(s.used, t.input))
    case AtFollow(t) =>
      && Announced(s, s.lead.local, s.openedFollow, t.input)
      && Handle(s.follow, t).Some?
      && var r := Handle(s.follow, t).value;
      && s' == s.(follow := r.node, pending := s.pending + Requested(r.effects, s.lead.local, AnnouncedTo(s, act) * s.up),
                  openedFollow := OpenedAfter(s.openedFollow, s.lead.local, t.input),
                  used := UsedAfter(s.used, t.input))
  }

  /** Relay eviction disconnects one node from the other. */
  ghost predicate Evicts(s: Sys, act: Action) {
    match act
    case AtLead(t) => Handle(s.lead, t).Some? && DisconnectPeer(s.follow.local) in Handle(s.lead, t).value.effects
    case AtFollow(t) => Handle(s.follow, t).Some? && DisconnectPeer(s.lead.local) in Handle(s.follow, t).value.effects
    case _ => false
  }

  ghost predicate SysStep(s: Sys, act: Action, s': Sys) {
    FreeStep(s, act, s') && !Evicts(s, act)
  }

  function Start(lead: PeerId, follow: PeerId, maxLead: nat, maxFollow: nat): Sys {
    Sys(Fresh(lead, maxLead), Fresh(follow, maxFollow), {}, {}, {}, {}, {}, {})
  }

  ghost predicate IsSysRun(ss: seq<Sys>, acts: seq<Action>) {
    && |ss| == |acts| + 1
    && forall i | 0 <= i < |acts| :: SysStep(ss[i], acts[i], ss[i + 1])
  }

  ghost predicate StartsFresh(ss: seq<Sys>) {
    ss != [] && exists lead, follow, m, n :: IsPruneLeader(lead, follow) && ss[0] == Start(lead, follow, m, n)
  }

  // ----- the invariant -----

  /** The leader's view of the follower, and the peer it is filed under. */
  ghost predicate OnLead(s: Sys, cid: ConnId, a: Multiaddr) {
    Records(s.lead.view, s.follow.local, cid, a)
  }

  /** A link announced to the leader, that nobody closes, has dropped out of its view. */
  ghost predicate Orphaned(v: View, f: PeerId, known: set<ConnId>, pending: set<ConnId>) {
    exists cid :: cid in known && cid !in pending && forall a :: !Records(v, f, cid, a)
  }

  /** Every link in the view with a pending close sits on an address strictly worse than one that
      carries a link without. */
  ghost predicate PendingAreWorse(v: View, f: PeerId, pending: set<ConnId>) {
    forall cid, a | Records(v, f, cid, a) && cid in pending ::
      exists c, b :: Records(v, f, c, b) && c !in pending && Better(b, a)
  }

  ghost predicate Safe(v: View, f: PeerId, known: set<ConnId>, pending: set<ConnId>) {
    Orphaned(v, f, known, pending) || PendingAreWorse(v, f, pending)
  }

  /** Connections to third parties are not links. */
  ghost predicate Apart(v: View, other: PeerId, links: set<ConnId>, used: set<ConnId>) {
    forall q, cid, a | q != other && Records(v, q, cid, a) :: cid in used && cid !in links
  }

  ghost predicate Bookkeeping(s: Sys) {
    && IsPruneLeader(s.lead.local, s.follow.local)
    && GoodView(s.lead.view) && GoodView(s.follow.view)
    && s.up <= s.links <= s.used && s.openedLead <= s.links && s.pending <= s.used
    && (forall cid | cid in s.links && cid !in s.up :: cid in s.pending)
    && (forall cid | cid in s.links && cid in s.pending :: cid in s.openedLead)
    && (forall cid, a | OnLead(s, cid, a) :: cid in s.openedLead)
    && Apart(s.lead.view, s.follow.local, s.links, s.used)
    && Apart(s.follow.view, s.lead.local, s.links, s.used)
  }

  ghost predicate Inv(s: Sys) {
    Bookkeeping(s) && Safe(s.lead.view, s.follow.local, s.openedLead, s.pending)
  }

  /** There is a link that is up and that nobody has asked to close. */
  ghost predicate HasLink(s: Sys) {
    exists cid :: cid in s.up && cid !in s.pending
  }

  // ----- closes -----

  lemma ClosesMembers(e: seq<Effect>)
    ensures forall cid :: cid in Closes(e) <==> CloseConnection(cid) in e
  {
    forall cid
      ensures cid in Closes(e) <==> CloseConnection(cid) in e
    {
      if CloseConnection(cid) in e {
        var x := CloseConnection(cid);
        assert x in e && x.CloseConnection?;
      }
    }
  }

  /** Closes requested for a third party, or by somebody who is not leader, hit no link. */
  lemma ClosesNoLink(n: Node, t: Tick, other: PeerId, s: Sys, known: set<ConnId>)
    requires GoodView(n.view) && Handle(n, t).Some? && Announced(s, other, known, t.input)
    requires s.links <= s.used && Apart(n.view, other, s.links, s.used)
    requires !Reconciles(n, t) || t.input.peer != other || !IsPruneLeader(n.local, other)
    ensures Closes(Handle(n, t).value.effects) !! s.links
    ensures Closes(Handle(n, t).value.effects) <= UsedAfter(s.used, t.input)
  {
    hide Handle, GoodView, Records, Edited, Reconciles, IsPruneLeader;
    HandleFacts(n, t);
    var e := Handle(n, t).value.effects;
    ClosesMembers(e);
    forall cid | cid in Closes(e)
      ensures cid !in s.links && cid in UsedAfter(s.used, t.input)
    {
      assert CloseConnection(cid) in e;
      assert Reconciles(n, t);
      var p := t.input.peer;
      var l := AddressesAt(Edited(n, t), p);
      var a :| a != l[0].address && Records(Edited(n, t), p, cid, a);
      EditedRecords(n, t, p, cid, a);
    }
  }

  /** Views stay apart from the links. */
  lemma ApartStep(n: Node, t: Tick, other: PeerId, s: Sys, known: set<ConnId>)
    requires GoodView(n.view) && Handle(n, t).Some? && Announced(s, other, known, t.input)
    requires s.links <= s.used && Apart(n.view, other, s.links, s.used)
    ensures GoodView(Handle(n, t).value.node.view)
    ensures Apart(Handle(n, t).value.node.view, other, s.links, UsedAfter(s.used, t.input))
  {
    hide Handle, GoodView, Records;
    HandleRecords(n, t);
  }

  // ----- the leader's edit -----

  /** A link nobody closes, on an address better than `a`. */
  ghost predicate Beaten(s: Sys, a: Multiaddr) {
    exists c, b :: OnLead(s, c, b) && c !in s.pending && Better(b, a)
  }

  /** Unless an address expires that is the best to carry a link nobody closes. */
  lemma EditKeepsWorse(s: Sys, t: Tick)
    requires Bookkeeping(s) && Announced(s, s.follow.local, s.openedLead, t.input)
    requires PendingAreWorse(s.lead.view, s.follow.local, s.pending)
    requires t.input.AddressExpired? && t.input.peer == s.follow.local ==>
               forall cid | OnLead(s, cid, t.input.addr) && cid !in s.pending :: Beaten(s, t.input.addr)
    ensures PendingAreWorse(Edited(s.lead, t), s.follow.local, s.pending)
  {
    hide Edited, GoodView, Records, Apart, IsPruneLeader, Better;
    var v, e, f := s.lead.view, Edited(s.lead, t), s.follow.local;
    forall cid, a | Records(e, f, cid, a) && cid in s.pending
      ensures exists c, b :: Records(e, f, c, b) && c !in s.pending && Better(b, a)
    {
      EditedRecords(s.lead, t, f, cid, a);
      assert Records(v, f, cid, a);
      var c, b :| Records(v, f, c, b) && c !in s.pending && Better(b, a);
      assert OnLead(s, c, b);
      EditedRecords(s.lead, t, f, c, b);
      if !Records(e, f, c, b) {
        assert t.input == AddressExpired(f, b);
        var c', b' :| OnLead(s, c', b') && c' !in s.pending && Better(b', b);
        BetterIrreflexive(b);
        BetterTransitive(b', b, a);
        EditedRecords(s.lead, t, f, c', b');
      }
    }
  }

  lemma EditKeepsOrphan(s: Sys, t: Tick)
    requires Bookkeeping(s) && Announced(s, s.follow.local, s.openedLead, t.input)
    requires Orphaned(s.lead.view, s.follow.local, s.openedLead, s.pending)
    ensures Orphaned(Edited(s.lead, t), s.follow.local, OpenedAfter(s.openedLead, s.follow.local, t.input), s.pending)
  {
    hide Edited, GoodView, Records, Apart, IsPruneLeader;
    var v, e, f := s.lead.view, Edited(s.lead, t), s.follow.local;
    var cid :| cid in s.openedLead && cid !in s.pending && forall a :: !Records(v, f, cid, a);
    forall a
      ensures !Records(e, f, cid, a)
    {
      EditedRecords(s.lead, t, f, cid, a);
    }
  }

  lemma ExpiryOrphans(s: Sys, t: Tick, cid: ConnId)
    requires Bookkeeping(s) && t.input.AddressExpired? && t.input.peer == s.follow.local
    requires OnLead(s, cid, t.input.addr) && cid !in s.pending
    ensures Orphaned(Edited(s.lead, t), s.follow.local, s.openedLead, s.pending)
  {
    hide Edited, GoodView, Records, Apart, IsPruneLeader;
    var e, f := Edited(s.lead, t), s.follow.local;
    forall a
      ensures !Records(e, f, cid, a)
    {
      EditedRecords(s.lead, t, f, cid, a);
      if Records(s.lead.view, f, cid, a) {
        OneAddressPerConnection(s.lead.view, f, cid, a, t.input.addr);
      }
    }
  }

  lemma EditKeepsSafe(s: Sys, t: Tick)
    requires Inv(s) && Announced(s, s.follow.local, s.openedLead, t.input)
    ensures Safe(Edited(s.lead, t), s.follow.local, OpenedAfter(s.openedLead, s.follow.local, t.input), s.pending)
  {
    hide Edited, Orphaned, PendingAreWorse, Bookkeeping, Announced, OnLead;
    if Orphaned(s.lead.view, s.follow.local, s.openedLead, s.pending) {
      EditKeepsOrphan(s, t);
    } else if t.input.AddressExpired? && t.input.peer == s.follow.local
           && exists cid :: OnLead(s, cid, t.input.addr) && cid !in s.pending {
      var cid :| OnLead(s, cid, t.input.addr) && cid !in s.pending;
      ExpiryOrphans(s, t, cid);
    } else {
      EditKeepsWorse(s, t);
    }
  }

  // ----- the leader's reconcile -----

  /** `h` carries a connection and no connected address is better. */
  ghost predicate TopUp(v: View, p: PeerId, h: Multiaddr) {
    && (exists cid :: Records(v, p, cid, h))
    && forall cid, a | Records(v, p, cid, a) :: BetterOrSame(h, a)
  }

  /** If reconcile finds the head up, the head is the best connected address. */
  lemma HeadIsTopUp(n: Node, t: Tick)
    requires GoodView(n.view) && BestIsUp(n, t)
    ensures TopUp(Edited(n, t), t.input.peer, Shown(n, t)[0].address)
  {
    EditGood(n, t);
    var e, p := Edited(n, t), t.input.peer;
    GoodAt(e, p);
    hide Edited, Reconciles, GoodView, Good, Sorted, BetterOrSame;
    var l := Shown(n, t);
    HeadIsBest(l, t.now);
    Reconcile.HeadEntry(l);
    assert Records(e, p, l[0].activeConnections[0], l[0].address);
  }

  /** Where pending closes lie below open links, no link on the best connected address has one. */
  lemma TopIsNotPending(v: View, f: PeerId, pending: set<ConnId>, h: Multiaddr, cid: ConnId)
    requires TopUp(v, f, h) && PendingAreWorse(v, f, pending) && Records(v, f, cid, h)
    ensures cid !in pending
  {
    hide Records, Better;
    if cid in pending {
      var c, b :| Records(v, f, c, b) && c !in pending && Better(b, h);
      BetterAsymmetric(b, h);
    }
  }

  /** Closing everything off the best connected address keeps what is pending strictly worse. */
  lemma CloseKeepsWorse(v: View, f: PeerId, pending: set<ConnId>, h: Multiaddr, closed: set<ConnId>)
    requires GoodView(v) && TopUp(v, f, h) && PendingAreWorse(v, f, pending)
    requires forall cid :: cid in closed <==> exists a :: a != h && Records(v, f, cid, a)
    ensures PendingAreWorse(v, f, pending + closed)
    ensures forall cid | Records(v, f, cid, h) :: cid !in pending + closed
  {
    hide Records, Better, GoodView;
    forall cid | Records(v, f, cid, h)
      ensures cid !in pending + closed
    {
      TopIsNotPending(v, f, pending, h, cid);
      if a :| a != h && Records(v, f, cid, a) {
        OneAddressPerConnection(v, f, cid, a, h);
      }
    }
    var top :| Records(v, f, top, h);
    forall cid, a | Records(v, f, cid, a) && cid in pending + closed
      ensures exists c, b :: Records(v, f, c, b) && c !in pending + closed && Better(b, a)
    {
      assert a != h;
      assert Better(h, a);
    }
  }

  /** What the leader closes, in terms of the edited view. */
  lemma LeaderCloses(s: Sys, t: Tick)
    requires Bookkeeping(s) && Announced(s, s.follow.local, s.openedLead, t.input) && Handle(s.lead, t).Some?
    ensures var closed := Closes(Handle(s.lead, t).value.effects);
            var e, f := Edited(s.lead, t), s.follow.local;
            if BestIsUp(s.lead, t) && t.input.peer == f then
              && TopUp(e, f, Shown(s.lead, t)[0].address)
              && forall cid :: cid in closed <==> exists a :: a != Shown(s.lead, t)[0].address && Records(e, f, cid, a)
            else closed !! s.links && closed <= UsedAfter(s.used, t.input)
  {
    hide Handle, GoodView, Records, Edited, Reconciles, Apart, IsPruneLeader;
    HandleFacts(s.lead, t);
    var r := Handle(s.lead, t).value;
    ClosesMembers(r.effects);
    if BestIsUp(s.lead, t) && t.input.peer == s.follow.local {
      HeadIsTopUp(s.lead, t);
    } else if Reconciles(s.lead, t) && t.input.peer == s.follow.local {
      assert Closes(r.effects) == {};
    } else {
      ClosesNoLink(s.lead, t, s.follow.local, s, s.openedLead);
    }
  }

  /** The records after the handler are those of the edited view. */
  lemma SameAfterReconcile(s: Sys, t: Tick)
    requires GoodView(s.lead.view) && Handle(s.lead, t).Some?
    ensures GoodView(Edited(s.lead, t)) && Handle(s.lead, t).value.node.local == s.lead.local
    ensures forall cid, a :: Records(Handle(s.lead, t).value.node.view, s.follow.local, cid, a)
                             <==> Records(Edited(s.lead, t), s.follow.local, cid, a)
  {
    hide Handle, GoodView, Edited, Records, Reconciles;
    EditGood(s.lead, t);
    HandleFacts(s.lead, t);
  }

  lemma SafeDependsOnRecords(v: View, w: View, f: PeerId, known: set<ConnId>, pending: set<ConnId>, pending': set<ConnId>, links: set<ConnId>)
    requires forall cid, a :: Records(w, f, cid, a) <==> Records(v, f, cid, a)
    requires forall cid, a | Records(v, f, cid, a) :: cid in known
    requires known <= links && forall cid | cid in links :: cid in pending' <==> cid in pending
    ensures PendingAreWorse(w, f, pending') <==> PendingAreWorse(v, f, pending)
    ensures Orphaned(w, f, known, pending') <==> Orphaned(v, f, known, pending)
  {
    hide Records, Better;
    assert forall cid, a :: Records(w, f, cid, a) ==> (cid in pending' <==> cid in pending);
  }

  /** The records of an edited view are links the leader knows of. */
  lemma EditedOpened(s: Sys, t: Tick)
    requires Bookkeeping(s) && Announced(s, s.follow.local, s.openedLead, t.input)
    ensures forall cid, a | Records(Edited(s.lead, t), s.follow.local, cid, a) ::
              cid in OpenedAfter(s.openedLead, s.follow.local, t.input)
    ensures OpenedAfter(s.openedLead, s.follow.local, t.input) <= s.links
  {
    hide Edited, GoodView, Records, Apart, IsPruneLeader;
    forall cid, a | Records(Edited(s.lead, t), s.follow.local, cid, a)
      ensures cid in OpenedAfter(s.openedLead, s.follow.local, t.input)
    {
      EditedRecords(s.lead, t, s.follow.local, cid, a);
      assert Records(s.lead.view, s.follow.local, cid, a) ==> OnLead(s, cid, a);
    }
  }

  // ----- the steps keep the invariant -----

  lemma LeaderKeepsBooks(s: Sys, t: Tick, s': Sys)
    requires Bookkeeping(s) && SysStep(s, AtLead(t), s')
    ensures Bookkeeping(s')
  {
    hide Handle, GoodView, Edited, Records, Apart, IsPruneLeader, TopUp, Shown, Reconciles;
    var f := s.follow.local;
    ApartStep(s.lead, t, f, s, s.openedLead);
    ApartGrows(s.follow.view, s.lead.local, s.links, s.used, s'.used);
    SameAfterReconcile(s, t);
    EditedOpened(s, t);
    LeaderCloses(s, t);
    var closed := Closes(Handle(s.lead, t).value.effects);
    forall cid | cid in s'.links && cid in s'.pending
      ensures cid in s'.openedLead
    {
      if cid in closed {
        var a :| Records(Edited(s.lead, t), f, cid, a);
      }
    }
    UsedGrows(s, t.input, f, s.openedLead);
  }

  lemma UsedGrows(s: Sys, input: Input, other: PeerId, known: set<ConnId>)
    requires s.links <= s.used && Announced(s, other, known, input)
    ensures s.links <= UsedAfter(s.used, input)
  {
  }

  lemma ApartGrows(v: View, other: PeerId, links: set<ConnId>, used: set<ConnId>, used': set<ConnId>)
    requires Apart(v, other, links, used) && used <= used'
    ensures Apart(v, other, links, used')
  {
  }

  lemma LeaderKeepsSafe(s: Sys, t: Tick, s': Sys)
    requires Inv(s) && SysStep(s, AtLead(t), s')
    ensures Safe(s'.lead.view, s'.follow.local, s'.openedLead, s'.pending)
    ensures PendingAreWorse(Edited(s.lead, t), s.follow.local, s.pending) ==>
              PendingAreWorse(s'.lead.view, s'.follow.local, s'.pending)
  {
    hide Handle, GoodView, Edited, Records, Apart, IsPruneLeader, TopUp, Shown, Orphaned, Reconciles, PendingAreWorse;
    var e, f := Edited(s.lead, t), s.follow.local;
    EditKeepsSafe(s, t);
    SameAfterReconcile(s, t);
    EditedOpened(s, t);
    LeaderCloses(s, t);
    var closed := Closes(Handle(s.lead, t).value.effects);
    SafeDependsOnRecords(e, s'.lead.view, f, s'.openedLead, s'.pending, s'.pending, s.links);
    if BestIsUp(s.lead, t) && t.input.peer == f {
      var h := Shown(s.lead, t)[0].address;
      if PendingAreWorse(e, f, s.pending) {
        CloseKeepsWorse(e, f, s.pending, h, closed);
      } else {
        OrphanSurvives(e, f, s'.openedLead, s.pending, h, closed);
      }
    } else {
      SafeDependsOnRecords(e, e, f, s'.openedLead, s.pending, s'.pending, s.links);
    }
  }

  lemma OrphanSurvives(v: View, f: PeerId, known: set<ConnId>, pending: set<ConnId>, h: Multiaddr, closed: set<ConnId>)
    requires Orphaned(v, f, known, pending)
    requires forall cid :: cid in closed <==> exists a :: a != h && Records(v, f, cid, a)
    ensures Orphaned(v, f, known, pending + closed)
  {
    hide Records;
  }

  lemma FollowerStep(s: Sys, t: Tick, s': Sys)
    requires Inv(s) && SysStep(s, AtFollow(t), s')
    ensures Inv(s')
    ensures forall cid | cid in s.links :: cid in s'.pending <==> cid in s.pending
    ensures PendingAreWorse(s.lead.view, s.follow.local, s.pending) ==>
              PendingAreWorse(s'.lead.view, s'.follow.local, s'.pending)
  {
    hide Handle, GoodView, Records, Apart, IsPruneLeader, Orphaned, PendingAreWorse, Reconciles;
    var l := s.lead.local;
    assert !IsPruneLeader(s.follow.local, l) by {
      NotBothLead(l, s.follow.local);
    }
    ClosesNoLink(s.follow, t, l, s, s.openedFollow);
    ApartStep(s.follow, t, l, s, s.openedFollow);
    ApartGrows(s.lead.view, s.follow.local, s.links, s.used, s'.used);
    UsedGrows(s, t.input, l, s.openedFollow);
    LocalKept(s.follow, t);
    assert forall cid, a | Records(s.lead.view, s.follow.local, cid, a) :: OnLead(s, cid, a);
    SafeDependsOnRecords(s.lead.view, s'.lead.view, s.follow.local, s.openedLead, s.pending, s'.pending, s.links);
  }

  lemma NotBothLead(x: PeerId, y: PeerId)
    requires IsPruneLeader(x, y)
    ensures !IsPruneLeader(y, x)
  {
    LexOrder.Asymmetric(x.bytes, y.bytes);
  }

  lemma LocalKept(n: Node, t: Tick)
    requires GoodView(n.view) && Handle(n, t).Some?
    ensures Handle(n, t).value.node.local == n.local
  {
    hide Handle, GoodView, Edited, Reconciles;
    HandleFacts(n, t);
  }

  lemma EnvironmentStep(s: Sys, act: Action, s': Sys)
    requires Inv(s) && SysStep(s, act, s') && (act.Connect? || act.TearDown?)
    ensures Inv(s')
  {
    hide GoodView, Records, IsPruneLeader, Better, Orphaned, PendingAreWorse;
    assert s'.lead == s.lead && s'.follow == s.follow && s'.pending == s.pending && s'.openedLead == s.openedLead;
    assert Safe(s'.lead.view, s'.follow.local, s'.openedLead, s'.pending);
    assert Apart(s'.lead.view, s'.follow.local, s'.links, s'.used);
    assert Apart(s'.follow.view, s'.lead.local, s'.links, s'.used);
    assert forall cid, a | OnLead(s', cid, a) :: OnLead(s, cid, a);
  }

  lemma InvStep(s: Sys, act: Action, s': Sys)
    requires Inv(s) && SysStep(s, act, s')
    ensures Inv(s')
  {
    hide Bookkeeping, Safe, SysStep;
    match act
    case AtLead(t) =>
      LeaderKeepsBooks(s, t, s');
      LeaderKeepsSafe(s, t, s');
      assert s'.follow == s.follow by {
        LeaderOnly(s, t, s');
      }
    case AtFollow(t) => FollowerStep(s, t, s');
    case _ => EnvironmentStep(s, act, s');
  }

  lemma LeaderOnly(s: Sys, t: Tick, s': Sys)
    requires SysStep(s, AtLead(t), s')
    ensures s'.follow == s.follow && s'.up == s.up && s'.links == s.links
  {
    hide Handle;
  }

  lemma StartInv(lead: PeerId, follow: PeerId, m: nat, n: nat)
    requires IsPruneLeader(lead, follow)
    ensures Inv(Start(lead, follow, m, n))
    ensures PendingAreWorse(Start(lead, follow, m, n).lead.view, follow, {})
  {
    hide Records, GoodView, IsPruneLeader, Fresh;
    NodeRuns.FreshIsGood(lead, m);
    NodeRuns.FreshIsGood(follow, n);
    assert Fresh(lead, m).local == lead && Fresh(follow, n).local == follow by {
      FreshLocal(lead, m);
      FreshLocal(follow, n);
    }
  }

  lemma FreshLocal(p: PeerId, m: nat)
    ensures Fresh(p, m).local == p
  {
  }

  // ----- connectivity -----

  /** No step takes the last link that nobody is closing: if there was one, there still is. */
  lemma LinkStep(s: Sys, act: Action, s': Sys)
    requires Inv(s) && SysStep(s, act, s') && HasLink(s)
    ensures HasLink(s')
  {
    var cid :| cid in s.up && cid !in s.pending;
    hide Handle, Safe, Apart, GoodView, Records, IsPruneLeader;
    match act
    case AtLead(t) => LeaderKeepsLink(s, t, s', cid);
    case AtFollow(t) =>
      FollowerStep(s, t, s');
      assert cid in s'.up && cid !in s'.pending;
    case _ => assert cid in s'.up && cid !in s'.pending;
  }

  lemma LeaderKeepsLink(s: Sys, t: Tick, s': Sys, cid: ConnId)
    requires Inv(s) && SysStep(s, AtLead(t), s') && cid in s.up && cid !in s.pending
    ensures HasLink(s')
  {
    LeaderKeepsBooks(s, t, s');
    EditKeepsSafe(s, t);
    LeaderCloses(s, t);
    EditedOpened(s, t);
    SameAfterReconcile(s, t);
    hide Handle, GoodView, Edited, Records, Apart, IsPruneLeader, Shown, PendingAreWorse, Reconciles;
    var e, f := Edited(s.lead, t), s.follow.local;
    var closed := Closes(Handle(s.lead, t).value.effects);
    if cid in closed {
      assert BestIsUp(s.lead, t) && t.input.peer == f;
      var h := Shown(s.lead, t)[0].address;
      if PendingAreWorse(e, f, s.pending) {
        CloseKeepsWorse(e, f, s.pending, h, closed);
        var top :| Records(e, f, top, h);
        assert top in s'.openedLead && top !in s'.pending;
      } else {
        OrphanSurvives(e, f, s'.openedLead, s.pending, h, closed);
        var c :| c in s'.openedLead && c !in s'.pending && forall a :: !Records(e, f, c, a);
      }
    } else {
      assert cid in s'.up && cid !in s'.pending;
    }
  }

  lemma {:induction false} ReachableInv(ss: seq<Sys>, acts: seq<Action>, i: nat)
    requires IsSysRun(ss, acts) && StartsFresh(ss) && i < |ss|
    ensures Inv(ss[i])
  {
    hide SysStep, Inv, Start;
    if i == 0 {
      var lead, follow, m, n :| IsPruneLeader(lead, follow) && ss[0] == Start(lead, follow, m, n);
      StartInv(lead, follow, m, n);
    } else {
      ReachableInv(ss, acts, i - 1);
      InvStep(ss[i - 1], acts[i - 1], ss[i]);
    }
  }

  /** Two-node connectivity: over every interleaving of opens, asynchronous closes and address changes,
      once the two nodes share a link that nobody is closing, they share one ever after. */
  lemma {:induction false} ConnectedForever(ss: seq<Sys>, acts: seq<Action>, i: nat, j: nat)
    requires IsSysRun(ss, acts) && StartsFresh(ss) && i <= j < |ss| && HasLink(ss[i])
    ensures HasLink(ss[j])
    decreases j
  {
    hide SysStep, Inv, HasLink, StartsFresh;
    if i < j {
      ConnectedForever(ss, acts, i, j - 1);
      ReachableInv(ss, acts, j - 1);
      LinkStep(ss[j - 1], acts[j - 1], ss[j]);
    }
  }

  // ----- when relay eviction stays out of it -----

  /** Neither node takes the other for a relay. */
  ghost predicate Unrelayed(s: Sys, act: Action) {
    match act
    case AtLead(t) => NodeRuns.Registers(t.input) != Some(s.follow.local)
    case AtFollow(t) => NodeRuns.Registers(t.input) != Some(s.lead.local)
    case _ => true
  }

  ghost predicate Unreserved(s: Sys) {
    s.follow.local !in s.lead.relays.reserved && s.lead.local !in s.follow.relays.reserved
  }

  lemma HandledUnreserved(n: Node, t: Tick, other: PeerId)
    requires GoodView(n.view) && Handle(n, t).Some?
    requires other !in n.relays.reserved && NodeRuns.Registers(t.input) != Some(other)
    ensures other !in Handle(n, t).value.node.relays.reserved
    ensures DisconnectPeer(other) !in Handle(n, t).value.effects
    ensures Handle(n, t).value.node.local == n.local
  {
    hide Handle, GoodView, NodeRuns.Registers;
    var registered := NodeRuns.Registers(t.input);
    var known := (set r | r in n.relays.reserved) + if registered.Some? then {registered.value} else {};
    NodeRuns.HandleEvicts(n, t, known);
    LocalKept(n, t);
  }

  lemma UnrelayedStep(s: Sys, act: Action, s': Sys)
    requires Inv(s) && FreeStep(s, act, s') && Unreserved(s) && Unrelayed(s, act)
    ensures SysStep(s, act, s') && Unreserved(s')
  {
    hide Handle, GoodView, Safe, Apart, Announced, NodeRuns.Registers;
    match act
    case AtLead(t) => HandledUnreserved(s.lead, t, s.follow.local);
    case AtFollow(t) => HandledUnreserved(s.follow, t, s.lead.local);
    case _ =>
  }

  lemma {:induction false} UnrelayedRun(ss: seq<Sys>, acts: seq<Action>, n: nat)
    requires |ss| == |acts| + 1 && StartsFresh(ss) && n < |ss|
    requires forall i | 0 <= i < |acts| :: FreeStep(ss[i], acts[i], ss[i + 1]) && Unrelayed(ss[i], acts[i])
    ensures forall i | 0 <= i < n :: SysStep(ss[i], acts[i], ss[i + 1])
    ensures Inv(ss[n]) && Unreserved(ss[n])
  {
    hide FreeStep, SysStep, Inv, Unrelayed;
    if n == 0 {
      var lead, follow, k, m :| IsPruneLeader(lead, follow) && ss[0] == Start(lead, follow, k, m);
      StartInv(lead, follow, k, m);
    } else {
      hide Unreserved, StartsFresh;
      UnrelayedRun(ss, acts, n - 1);
      UnrelayedStep(ss[n - 1], acts[n - 1], ss[n]);
      InvStep(ss[n - 1], acts[n - 1], ss[n]);
    }
  }

  /** Two nodes that never take each other for a relay stay connected, in every interleaving. */
  lemma UnrelayedConnectedForever(ss: seq<Sys>, acts: seq<Action>, i: nat, j: nat)
    requires |ss| == |acts| + 1 && StartsFresh(ss) && i <= j < |ss| && HasLink(ss[i])
    requires forall k | 0 <= k < |acts| :: FreeStep(ss[k], acts[k], ss[k + 1]) && Unrelayed(ss[k], acts[k])
    ensures IsSysRun(ss, acts) && HasLink(ss[j])
  {
    hide FreeStep, SysStep, Unrelayed, StartsFresh, HasLink;
    UnrelayedRun(ss, acts, |acts|);
    ConnectedForever(ss, acts, i, j);
  }

  // ----- what relay eviction does to connectivity -----

  /** Whatever the acting node asks to close one by one has been announced to it. */
  lemma ClosesAnnounced(s: Sys, act: Action, s': Sys)
    requires Inv(s) && FreeStep(s, act, s') && Evicts(s, act)
    ensures s'.up == s.up
    ensures forall cid | cid in s.up :: cid in s'.pending <==> cid in s.pending || cid in AnnouncedTo(s, act)
  {
    hide Handle, GoodView, Records, Edited, Apart, IsPruneLeader, TopUp, Shown, Orphaned, Reconciles, PendingAreWorse, Safe;
    match act
    case AtLead(t) =>
      LeaderCloses(s, t);
      EditedOpened(s, t);
    case AtFollow(t) =>
      NotBothLead(s.lead.local, s.follow.local);
      ClosesNoLink(s.follow, t, s.lead.local, s, s.openedFollow);
    case _ =>
  }

  /** With eviction let loose: a step takes the last link that nobody is closing if and only if a node
      evicts the other as a relay and every such link has been announced to it. */
  lemma EvictionStep(s: Sys, act: Action, s': Sys)
    requires Inv(s) && FreeStep(s, act, s') && HasLink(s)
    ensures HasLink(s') <==>
            (Evicts(s, act) ==> exists cid :: cid in s.up && cid !in s.pending && cid !in AnnouncedTo(s, act))
  {
    hide FreeStep, Inv, Evicts, AnnouncedTo;
    if Evicts(s, act) {
      ClosesAnnounced(s, act, s');
    } else {
      LinkStep(s, act, s');
    }
  }

  /** So the first eviction in a run is exactly where connectivity can end, and when it does. */
  lemma EvictionExactly(ss: seq<Sys>, acts: seq<Action>, i: nat)
    requires |ss| == |acts| + 1 && StartsFresh(ss) && i < |acts| && HasLink(ss[i])
    requires forall k | 0 <= k <= i :: FreeStep(ss[k], acts[k], ss[k + 1])
    requires forall k | 0 <= k < i :: !Evicts(ss[k], acts[k])
    ensures HasLink(ss[i + 1]) <==>
            (Evicts(ss[i], acts[i]) ==>
               exists cid :: cid in ss[i].up && cid !in ss[i].pending && cid !in AnnouncedTo(ss[i], acts[i]))
  {
    hide FreeStep, Evicts, HasLink, AnnouncedTo, StartsFresh, Inv;
    assert StartsFresh(ss[..i + 1]) by {
      SameStart(ss, i);
    }
    assert IsSysRun(ss[..i + 1], acts[..i]);
    ReachableInv(ss[..i + 1], acts[..i], i);
    EvictionStep(ss[i], acts[i], ss[i + 1]);
  }

  lemma SameStart(ss: seq<Sys>, i: nat)
    requires StartsFresh(ss) && i < |ss|
    ensures StartsFresh(ss[..i + 1])
  {
    hide Start;
  }
}
