/** What one handled input does to the connections, failures and requests of a node. */
module NodeFacts {
  import opened Multiaddrs
  import opened Metadata
  import opened AddressList
  import opened AddressListFacts
  import opened Effects
  import opened Views
  import opened Relays
  import opened Nodes
  import Reconcile

  /** The view after the handler's own edit, before reconciling. */
  function Edited(n: Node, t: Tick): View {
    match t.input
    case Established(p, cid, endpoint) => OpenConnection(n.view, p, cid, endpoint.Remote(), t.now)
    case Closed(p, cid) => DropConnection(n.view, p, cid, t.now)
    case AddressSeen(p, addr) => if ShouldSkipForDial(addr) then n.view else LearnAddress(n.view, p, addr, t.now)
    case AddressExpired(p, addr) => ForgetAddress(n.view, p, addr, t.now)
    case ProtocolsSeen(p, protocols) => SetProtocols(n.view, p, protocols)
    case Pinged(p, cid, answer) => OnPing(n, p, cid, answer).view
    case _ => n.view
  }

  /** The inputs that lead to a call of reconcile. */
  predicate Reconciles(n: Node, t: Tick): (r: bool)
    ensures r ==> t.input.Established? || t.input.Closed? || t.input.AddressSeen? || t.input.AddressExpired?
  {
    match t.input
    case Established(_, _, _) => true
    case Closed(_, _) => true
    case AddressSeen(p, addr) => !ShouldSkipForDial(addr) && IsNewAddress(n.view, p, addr)
    case AddressExpired(_, _) => true
    case _ => false
  }

  /** The address list that reconcile is shown. */
  function Shown(n: Node, t: Tick): Addresses
    requires Reconciles(n, t)
  {
    AddressesAt(Edited(n, t), t.input.peer)
  }

  /** Reconcile found a connection on the best address. */
  predicate BestIsUp(n: Node, t: Tick) {
    Reconciles(n, t) && Shown(n, t) != [] && Shown(n, t)[0].activeConnections != []
  }

  // ----- reconcile and relay update inside a node -----

  /** From view `v` to view `w`, no address is listed or unlisted, no connection moves, and the
      failures recorded grow by the rejected dials in `e`. */
  ghost predicate Reconciled(v: View, w: View, e: seq<Effect>, now: Instant) {
    && GoodView(w)
    && (forall q :: TableAt(w, q).Keys == TableAt(v, q).Keys)
    && (forall q, cid, a :: Records(w, q, cid, a) <==> Records(v, q, cid, a))
    && (forall q :: Reconcile.FailuresCounted(TableAt(v, q), TableAt(w, q), e, q, now))
  }

  lemma NothingReconciled(v: View, w: View, e: seq<Effect>, now: Instant)
    requires GoodView(v) && (forall q :: AddressesAt(w, q) == AddressesAt(v, q))
    requires forall x | x in e :: !x.Dial?
    ensures Reconciled(v, w, e, now)
  {
    hide AddressesAt, TableOf, On, Rejections;
    forall q
      ensures Reconcile.FailuresCounted(TableAt(v, q), TableAt(w, q), e, q, now)
    {
      GoodIsGoodTable(AddressesAt(v, q));
      forall a | a in TableAt(v, q)
        ensures Reconcile.CountedEntry(TableAt(v, q)[a], TableAt(w, q)[a], e, q, now)
      {
        NoRejections(e, q, a);
      }
    }
  }

  lemma ReconcilePeerFacts(n: Node, p: PeerId, t: Tick)
    requires GoodView(n.view) && Sorted(AddressesAt(n.view, p), t.now) && ReconcilePeer(n, p, t).Some?
    ensures var s := ReconcilePeer(n, p, t).value;
            && s.node == n.(view := s.node.view)
            && Reconciled(n.view, s.node.view, s.effects, t.now)
            && SameElsewhere(n.view, s.node.view, p)
            && (forall e | e in s.effects :: e.CloseConnection? || (e.Dial? && e.peer == p && e.addr in TableAt(n.view, p)))
            && forall cid :: CloseConnection(cid) in s.effects <==>
                 var l := AddressesAt(n.view, p);
                 && IsPruneLeader(n.local, p) && l != [] && l[0].activeConnections != []
                 && exists a :: a != l[0].address && Records(n.view, p, cid, a)
  {
    hide Reconcile.Run, GoodView, Good, Sorted, TableOf, On, Rejections, IsPruneLeader;
    var c := CallFor(n, p, t);
    var l := AddressesAt(n.view, p);
    GoodAt(n.view, p);
    if p !in n.view {
      NothingReconciled(n.view, n.view, [], t.now);
    } else {
      var o := Reconcile.Run(l, c, t.fuel).value;
      Reconcile.RunKeepsConnections(l, c, t.fuel);
      assert forall cid, a :: Records(n.view, p, cid, a) <==> On(TableOf(l), cid, a);
      forall cid
        ensures CloseConnection(cid) in o.effects <==>
                && c.leader && l != [] && l[0].activeConnections != []
                && exists a :: a != l[0].address && Records(n.view, p, cid, a)
      {
        Reconcile.RunCloses(l, c, t.fuel, cid);
      }
      assert ReconcilePeer(n, p, t).value.effects == o.effects;
      WithAddressesFacts(n.view, p, o.addresses);
      LocalReconciled(n.view, p, o, c);
    }
  }

  lemma LocalReconciled(v: View, p: PeerId, o: Reconcile.Outcome, c: Reconcile.Call)
    requires GoodView(v) && c.peer == p && Reconcile.KeepsConnections(AddressesAt(v, p), o, c)
    ensures Reconciled(v, WithAddresses(v, p, o.addresses), o.effects, c.now)
  {
    var w := WithAddresses(v, p, o.addresses);
    WithAddressesFacts(v, p, o.addresses);
    hide WithAddresses, AddressesAt, TableOf, On, Rejections, Good, Sorted, GoodEntry;
    forall q
      ensures TableAt(w, q).Keys == TableAt(v, q).Keys
      ensures forall cid, a :: Records(w, q, cid, a) <==> Records(v, q, cid, a)
      ensures Reconcile.FailuresCounted(TableAt(v, q), TableAt(w, q), o.effects, q, c.now)
    {
      if q != p {
        GoodIsGoodTable(AddressesAt(v, q));
        assert Dial(q, [], false) !in o.effects;
        forall a | a in TableAt(v, q)
          ensures Reconcile.CountedEntry(TableAt(v, q)[a], TableAt(w, q)[a], o.effects, q, c.now)
        {
          CountBounded(TableAt(v, q), a);
          NoRejections(o.effects, q, a);
        }
      }
    }
    assert GoodView(w) by {
      assert Good(o.addresses);
    }
  }

  lemma CountBounded(t: Table, a: Multiaddr)
    requires GoodTable(t) && a in t
    ensures t[a].errCount <= U32_MAX && t[a].address == a
  {
  }

  /** Whatever happens to relays afterwards does not touch the view. */
  lemma UpdateRelayFacts(n: Node)
    requires GoodView(n.view)
    ensures var s := UpdateRelayState(n);
            && s.node == n.(relays := s.node.relays)
            && (forall e | e in s.effects :: e.DisconnectPeer?)
  {
  }

  lemma ReconciledPlus(v: View, w: View, before: seq<Effect>, e: seq<Effect>, after: seq<Effect>, now: Instant)
    requires Reconciled(v, w, e, now)
    requires forall x | x in before || x in after :: !x.Dial?
    ensures Reconciled(v, w, before + e + after, now)
  {
    hide TableAt, Records, Rejections, GoodView;
    forall q
      ensures Reconcile.FailuresCounted(TableAt(v, q), TableAt(w, q), before + e + after, q, now)
    {
      forall a | a in TableAt(v, q) && a in TableAt(w, q)
        ensures Reconcile.CountedEntry(TableAt(v, q)[a], TableAt(w, q)[a], before + e + after, q, now)
      {
        var addr := TableAt(v, q)[a].address;
        RejectionsConcat(before + e, after, q, addr);
        RejectionsConcat(before, e, q, addr);
        NoRejections(before, q, addr);
        NoRejections(after, q, addr);
      }
    }
  }

  // ----- the edit -----

  /** The inputs that edit an address list, and the edit. */
  predicate EditsList(input: Input) {
    input.Established? || input.Closed? || input.AddressSeen? || input.AddressExpired?
  }

  function EditedList(s: Addresses, input: Input, now: Instant): Addresses {
    match input
    case Established(_, cid, endpoint) => AddConnection(s, cid, endpoint.Remote(), now)
    case Closed(_, cid) => RemoveConnection(s, cid, now)
    case AddressSeen(_, addr) => if ShouldSkipForDial(addr) then s else AddAddress(s, addr, now)
    case AddressExpired(_, addr) => RemoveAddress(s, addr, now)
    case _ => s
  }

  lemma EditIsLocal(n: Node, t: Tick, q: PeerId)
    ensures AddressesAt(Edited(n, t), q) ==
            if EditsList(t.input) && q == t.input.peer then EditedList(AddressesAt(n.view, q), t.input, t.now)
            else AddressesAt(n.view, q)
  {
    hide AddAddress, RemoveAddress, AddConnection, RemoveConnection, GetConnectionAddress, IndexOfAddr, ShouldSkipForDial,
      AddressesAt, LearnAddress, ForgetAddress, OpenConnection, DropConnection;
    match t.input
    case Established(p, cid, endpoint) => EditsAreLocal(n.view, p, cid, endpoint.Remote(), t.now);
    case Closed(p, cid) => EditsAreLocal(n.view, p, cid, [], t.now);
    case AddressSeen(p, addr) => EditsAreLocal(n.view, p, 0, addr, t.now);
    case AddressExpired(p, addr) => EditsAreLocal(n.view, p, 0, addr, t.now);
    case _ => OtherInputs(n, t, q);
  }

  lemma OtherInputs(n: Node, t: Tick, q: PeerId)
    requires !EditsList(t.input)
    ensures AddressesAt(Edited(n, t), q) == AddressesAt(n.view, q)
  {
    hide GetConnectionAddress;
  }

  /** What an input does to the table of the peer it is about. */
  lemma EditedListFacts(s: Addresses, input: Input, now: Instant, cid: ConnId, a: Multiaddr)
    requires Good(s)
    ensures var r := EditedList(s, input, now);
            var t, u := TableOf(s), TableOf(r);
            && Good(r)
            && (EditsList(input) && !(input.AddressSeen? && ShouldSkipForDial(input.addr)) ==> Sorted(r, now))
            && (On(u, cid, a) <==>
                match input
                case Established(_, c, endpoint) => if cid == c then a == endpoint.Remote() else On(t, cid, a)
                case Closed(_, c) => cid != c && On(t, cid, a)
                case AddressExpired(_, addr) => a != addr && On(t, cid, a)
                case _ => On(t, cid, a))
            && (a in u && Restarts(input, a) ==> u[a].errCount == 0)
            && (a in u && !Restarts(input, a) ==>
                  u[a].errCount == (if a in t then t[a].errCount else 0) && (a in t ==> u[a].lastErr == t[a].lastErr))
            && (a !in u ==> a !in t || Restarts(input, a))
  {
    hide Good, AddAddress, RemoveAddress, AddConnection, RemoveConnection, Sorted, TableOf, On, ShouldSkipForDial;
    match input
    case Established(_, c, endpoint) => AddConnectionFacts(s, c, endpoint.Remote(), now);
    case Closed(_, c) => RemoveConnectionFacts(s, c, now);
    case AddressSeen(_, addr) => AddAddressConns(s, addr, now);
    case AddressExpired(_, addr) => RemoveAddressConns(s, addr, now);
    case _ =>
  }

  /** A success on `a`, or forgetting it: its failure count starts over. */
  predicate Restarts(input: Input, a: Multiaddr) {
    (input.Established? && input.endpoint.Remote() == a) || (input.AddressExpired? && input.addr == a)
  }

  lemma EditGood(n: Node, t: Tick)
    requires GoodView(n.view)
    ensures GoodView(Edited(n, t))
    ensures Reconciles(n, t) ==> Sorted(Shown(n, t), t.now)
  {
    hide Good, AddressesAt, Edited, EditedList, Sorted, TableOf, On, ShouldSkipForDial, IsNewAddress;
    forall q
      ensures Good(AddressesAt(Edited(n, t), q))
      ensures Reconciles(n, t) && q == t.input.peer ==> Sorted(AddressesAt(Edited(n, t), q), t.now)
    {
      EditIsLocal(n, t, q);
      EditedListFacts(AddressesAt(n.view, q), t.input, t.now, 0, []);
    }
  }

  // ----- the whole handler -----

  /** Requests beside dials and closes. */
  ghost predicate Quiet(e: seq<Effect>) {
    forall x | x in e :: !x.Dial? && !x.CloseConnection?
  }

  /** `e` closes exactly the connections of `p` recorded off the head of the list reconcile saw. */
  ghost predicate ClosesOffHead(local: PeerId, v: View, p: PeerId, e: seq<Effect>) {
    forall cid :: CloseConnection(cid) in e <==>
                  var l := AddressesAt(v, p);
                  && IsPruneLeader(local, p) && l != [] && l[0].activeConnections != []
                  && exists a :: a != l[0].address && Records(v, p, cid, a)
  }

  ghost predicate DialsListed(v: View, e: seq<Effect>) {
    forall x | x in e && x.Dial? :: x.addr in TableAt(v, x.peer)
  }

  /** The part common to all handlers that reconcile `p`. */
  ghost predicate SettledFrom(n: Node, p: PeerId, s: Step, now: Instant) {
    && Reconciled(n.view, s.node.view, s.effects, now)
    && ClosesOffHead(n.local, n.view, p, s.effects)
    && DialsListed(n.view, s.effects)
    && s.node == n.(view := s.node.view, relays := s.node.relays)
  }

  lemma SurroundedByQuiet(local: PeerId, v: View, w: View, p: PeerId, before: seq<Effect>, e: seq<Effect>, after: seq<Effect>,
      now: Instant)
    requires Quiet(before) && Quiet(after)
    requires Reconciled(v, w, e, now) && ClosesOffHead(local, v, p, e) && DialsListed(v, e)
    ensures Reconciled(v, w, before + e + after, now)
    ensures ClosesOffHead(local, v, p, before + e + after)
    ensures DialsListed(v, before + e + after)
  {
    ReconciledPlus(v, w, before, e, after, now);
    hide Records, IsPruneLeader, AddressesAt, TableAt;
    var all := before + e + after;
    assert forall x :: x in all <==> x in before || x in e || x in after;
    forall cid
      ensures CloseConnection(cid) in all <==> CloseConnection(cid) in e
    {
    }
  }

  lemma SettleFacts(s: Step, p: PeerId, t: Tick)
    requires GoodView(s.node.view) && Sorted(AddressesAt(s.node.view, p), t.now) && Quiet(s.effects)
    requires Settle(s, p, t).Some?
    ensures SettledFrom(s.node, p, Settle(s, p, t).value, t.now)
  {
    hide Records, IsPruneLeader, AddressesAt, TableAt, GoodView, Sorted, ReconcilePeer, UpdateRelayState, Reconciled;
    ReconcilePeerFacts(s.node, p, t);
    var r := ReconcilePeer(s.node, p, t).value;
    ReconciledGood(s.node.view, r.node.view, r.effects, t.now);
    UpdateRelayFacts(r.node);
    SurroundedByQuiet(s.node.local, s.node.view, r.node.view, p, s.effects, r.effects, UpdateRelayState(r.node).effects, t.now);
  }

  lemma ReconciledGood(v: View, w: View, e: seq<Effect>, now: Instant)
    requires Reconciled(v, w, e, now)
    ensures GoodView(w)
  {
  }

  /** What every handled input does, seen from the view as edited. */
  ghost predicate HandledAs(n: Node, t: Tick, s: Step) {
    && Reconciled(Edited(n, t), s.node.view, s.effects, t.now)
    && DialsListed(Edited(n, t), s.effects)
    && s.node.local == n.local && s.node.relays.maxRelays == n.relays.maxRelays
    && if Reconciles(n, t) then ClosesOffHead(n.local, Edited(n, t), t.input.peer, s.effects)
       else Quiet(s.effects)
  }

  lemma NothingToReconcile(n: Node, t: Tick, s: Step)
    requires GoodView(n.view) && !Reconciles(n, t) && Quiet(s.effects)
    requires s.node.view == Edited(n, t) && s.node.local == n.local && s.node.relays.maxRelays == n.relays.maxRelays
    ensures HandledAs(n, t, s)
  {
    hide Edited, AddressesAt, TableAt, GoodView;
    EditGood(n, t);
    NothingReconciled(Edited(n, t), s.node.view, s.effects, t.now);
  }

  lemma EstablishedFacts(n: Node, t: Tick)
    requires GoodView(n.view) && t.input.Established? && Handle(n, t).Some?
    ensures HandledAs(n, t, Handle(n, t).value)
  {
    hide Records, IsPruneLeader, AddressesAt, TableAt, GoodView, Sorted, ReconcilePeer, UpdateRelayState, Reconciled,
      OpenConnection, AllTargetsConnected, Settle, ExtractRelayPeer;
    var p := t.input.peer;
    EditGood(n, t);
    var s := Told(TellConnected(p, t.input.cid), AfterOpen(n.(view := Edited(n, t)), p));
    SettleFacts(s, p, t);
    var r := Settle(s, p, t).value;
    ReconciledGood(Edited(n, t), r.node.view, r.effects, t.now);
    var relay := ExtractRelayPeer(t.input.endpoint.Remote());
    if relay.Some? {
      UpdateRelayFacts(RegisterRelay(r.node, relay.value));
      var u := UpdateRelayState(RegisterRelay(r.node, relay.value));
      RelayBound(RegisterRelay(r.node, relay.value));
      SurroundedByQuiet(n.local, Edited(n, t), r.node.view, p, [], r.effects, u.effects, t.now);
      assert [] + r.effects + u.effects == r.effects + u.effects;
    }
    SettleBound(s, p, t);
  }

  lemma RelayBound(n: Node)
    ensures UpdateRelayState(n).node.relays.maxRelays == n.relays.maxRelays
  {
  }

  lemma SettleBound(s: Step, p: PeerId, t: Tick)
    requires Settle(s, p, t).Some?
    ensures Settle(s, p, t).value.node.relays.maxRelays == s.node.relays.maxRelays
  {
    hide Reconcile.Run, InUseIn, PruneQueue;
  }

  lemma ClosedFacts(n: Node, t: Tick)
    requires GoodView(n.view) && t.input.Closed? && Handle(n, t).Some?
    ensures HandledAs(n, t, Handle(n, t).value)
  {
    hide Records, IsPruneLeader, AddressesAt, TableAt, GoodView, Sorted, ReconcilePeer, UpdateRelayState, Reconciled,
      DropConnection, Connected, Settle;
    EditGood(n, t);
    var s := Told(TellDisconnected(t.input.peer, t.input.cid), AfterClose(n.(view := Edited(n, t)), t.input.peer));
    SettleFacts(s, t.input.peer, t);
    SettleBound(s, t.input.peer, t);
  }

  lemma AddressFacts(n: Node, t: Tick)
    requires GoodView(n.view) && (t.input.AddressSeen? || t.input.AddressExpired?) && Handle(n, t).Some?
    requires Reconciles(n, t)
    ensures HandledAs(n, t, Handle(n, t).value)
  {
    hide Records, IsPruneLeader, AddressesAt, TableAt, GoodView, Sorted, ReconcilePeer, Reconciled,
      LearnAddress, ForgetAddress, IsNewAddress, ShouldSkipForDial;
    EditGood(n, t);
    var p := t.input.peer;
    var edited := n.(view := Edited(n, t));
    ReconcilePeerFacts(edited, p, t);
    var r := ReconcilePeer(edited, p, t).value;
    var mirrored := Mirrored(n.kad, if t.input.AddressSeen? then KadAdd(p, t.input.addr) else KadRemove(p, t.input.addr));
    SurroundedByQuiet(n.local, edited.view, r.node.view, p, mirrored, r.effects, [], t.now);
    assert mirrored + r.effects + [] == mirrored + r.effects;
  }

  lemma HandleFacts(n: Node, t: Tick)
    requires GoodView(n.view) && Handle(n, t).Some?
    ensures HandledAs(n, t, Handle(n, t).value)
  {
    hide HandledAs, GoodView, OnEstablished, OnClosed, PruneQueue, InUseIn, IsNewAddress, ShouldSkipForDial, LearnAddress,
      SwitchKad, SwitchMdns;
    if t.input.Established? {
      EstablishedFacts(n, t);
    } else if t.input.Closed? {
      ClosedFacts(n, t);
    } else if Reconciles(n, t) {
      AddressFacts(n, t);
    } else {
      NothingToReconcile(n, t, Handle(n, t).value);
    }
  }

  // ----- which connections are recorded afterwards -----

  /** The connections recorded after an input, from those before: one point added, one point removed,
      or all points on one address removed. */
  ghost predicate RecordedAfter(v: View, input: Input, q: PeerId, cid: ConnId, a: Multiaddr) {
    match input
    case Established(p, c, endpoint) => if q == p && cid == c then a == endpoint.Remote() else Records(v, q, cid, a)
    case Closed(p, c) => !(q == p && cid == c) && Records(v, q, cid, a)
    case AddressExpired(p, addr) => !(q == p && a == addr) && Records(v, q, cid, a)
    case _ => Records(v, q, cid, a)
  }

  lemma EditedRecords(n: Node, t: Tick, q: PeerId, cid: ConnId, a: Multiaddr)
    requires GoodView(n.view)
    ensures Records(Edited(n, t), q, cid, a) <==> RecordedAfter(n.view, t.input, q, cid, a)
  {
    GoodAt(n.view, q);
    hide Good, GoodView, AddressesAt, Edited, EditedList, Sorted, TableOf, On, ShouldSkipForDial;
    EditIsLocal(n, t, q);
    EditedListFacts(AddressesAt(n.view, q), t.input, t.now, cid, a);
  }

  /** The connection record of a node, as a map, over one handled input. */
  lemma HandleRecords(n: Node, t: Tick)
    requires GoodView(n.view) && Handle(n, t).Some?
    ensures GoodView(Handle(n, t).value.node.view)
    ensures forall q, cid, a :: Records(Handle(n, t).value.node.view, q, cid, a) <==> RecordedAfter(n.view, t.input, q, cid, a)
  {
    hide Handle, Edited, GoodView, Records, RecordedAfter, Reconciles;
    HandleFacts(n, t);
    var w := Handle(n, t).value.node.view;
    forall q, cid, a
      ensures Records(w, q, cid, a) <==> RecordedAfter(n.view, t.input, q, cid, a)
    {
      EditedRecords(n, t, q, cid, a);
    }
  }

  lemma OneAddressPerConnection(v: View, p: PeerId, cid: ConnId, a: Multiaddr, b: Multiaddr)
    requires GoodView(v) && Records(v, p, cid, a) && Records(v, p, cid, b)
    ensures a == b
  {
    GoodAt(v, p);
  }
}
