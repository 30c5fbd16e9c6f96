/** The view of one node against the connections its swarm has announced. */
module SwarmRuns {
  import opened Multiaddrs
  import opened Metadata
  import opened Views
  import opened Nodes
  import opened NodeFacts
  import NodeRuns

  /** A connection is live from the delivery of its open event to that of its close event. */
  datatype Link = Link(peer: PeerId, remote: Multiaddr)

  datatype World = World(node: Node, live: map<ConnId, Link>, used: set<ConnId>)

  /** The swarm never reuses a connection id, and closes only what it has opened. */
  predicate Possible(w: World, input: Input) {
    match input
    case Established(_, cid, _) => cid !in w.used
    case Closed(p, cid) => cid in w.live && w.live[cid].peer == p
    case _ => true
  }

  function LiveAfter(w: World, input: Input): map<ConnId, Link> {
    match input
    case Established(p, cid, endpoint) => w.live[cid := Link(p, endpoint.Remote())]
    case Closed(_, cid) => w.live - {cid}
    case _ => w.live
  }

  ghost predicate WorldStep(w: World, t: Tick, w': World) {
    && Possible(w, t.input) && Handle(w.node, t).Some?
    && w'.node == Handle(w.node, t).value.node
    && w'.live == LiveAfter(w, t.input)
    && w'.used == if t.input.Established? then w.used + {t.input.cid} else w.used
  }

  ghost predicate IsWorldRun(ws: seq<World>, ticks: seq<Tick>) {
    && |ws| == |ticks| + 1
    && (exists local, max :: ws[0] == World(Fresh(local, max), map[], {}))
    && forall i | 0 <= i < |ticks| :: WorldStep(ws[i], ticks[i], ws[i + 1])
  }

  /** Whatever the view records is live, for that peer and over that address. */
  ghost predicate Sound(w: World) {
    && GoodView(w.node.view)
    && (forall cid | cid in w.live :: cid in w.used)
    && forall p, cid, a | Records(w.node.view, p, cid, a) :: cid in w.live && w.live[cid] == Link(p, a)
  }

  /** The view records exactly what is live. */
  ghost predicate Exact(w: World) {
    forall p, cid, a :: Records(w.node.view, p, cid, a) <==> cid in w.live && w.live[cid] == Link(p, a)
  }

  /** An expiring address must not carry a recorded connection. */
  predicate KeepsExact(w: World, input: Input) {
    input.AddressExpired? ==> !ConnectedOver(w.node.view, input.peer, input.addr)
  }

  lemma SoundStep(w: World, t: Tick, w': World)
    requires Sound(w) && WorldStep(w, t, w')
    ensures Sound(w')
  {
    hide Handle, GoodView, Records;
    HandleRecords(w.node, t);
  }

  lemma ExactStep(w: World, t: Tick, w': World)
    requires Sound(w) && Exact(w) && WorldStep(w, t, w')
    ensures Exact(w') <==> KeepsExact(w, t.input)
  {
    hide Handle, GoodView, Records, ConnectedOver;
    HandleRecords(w.node, t);
    if t.input.AddressExpired? {
      var p, addr := t.input.peer, t.input.addr;
      ConnectedMeansRecorded(w.node.view, p);
      if cid :| Records(w.node.view, p, cid, addr) {
        assert !RecordedAfter(w.node.view, t.input, p, cid, addr);
        assert !Records(w'.node.view, p, cid, addr);
      }
    }
  }

  /** Over every run the recorded connections are among the live ones. */
  lemma {:induction false} RecordedAreLive(ws: seq<World>, ticks: seq<Tick>, i: nat)
    requires IsWorldRun(ws, ticks) && i < |ws|
    ensures Sound(ws[i])
  {
    hide WorldStep, Sound, Fresh;
    if i == 0 {
      var local, max :| ws[0] == World(Fresh(local, max), map[], {});
      FreshWorld(local, max);
    } else {
      RecordedAreLive(ws, ticks, i - 1);
      SoundStep(ws[i - 1], ticks[i - 1], ws[i]);
    }
  }

  lemma FreshWorld(local: PeerId, max: nat)
    ensures Sound(World(Fresh(local, max), map[], {})) && Exact(World(Fresh(local, max), map[], {}))
  {
    NodeRuns.FreshIsGood(local, max);
  }

  /** Recorded and live connections coincide throughout a run exactly when no address expires while a
      connection is recorded on it. */
  lemma {:induction false} RecordedEqualLiveExactly(ws: seq<World>, ticks: seq<Tick>, n: nat)
    requires IsWorldRun(ws, ticks) && n < |ws|
    ensures (forall i | 0 <= i <= n :: Exact(ws[i])) <==> (forall i | 0 <= i < n :: KeepsExact(ws[i], ticks[i].input))
  {
    hide WorldStep, Sound, Exact, KeepsExact, Fresh;
    if n == 0 {
      var local, max :| ws[0] == World(Fresh(local, max), map[], {});
      FreshWorld(local, max);
    } else {
      RecordedEqualLiveExactly(ws, ticks, n - 1);
      RecordedAreLive(ws, ticks, n - 1);
      if Exact(ws[n - 1]) {
        ExactStep(ws[n - 1], ticks[n - 1], ws[n]);
      }
      assert (forall i | 0 <= i <= n :: Exact(ws[i])) <==> (forall i | 0 <= i <= n - 1 :: Exact(ws[i])) && Exact(ws[n]);
      assert (forall i | 0 <= i < n :: KeepsExact(ws[i], ticks[i].input)) <==>
             (forall i | 0 <= i < n - 1 :: KeepsExact(ws[i], ticks[i].input)) && KeepsExact(ws[n - 1], ticks[n - 1].input);
    }
  }

  /** Then `is_connected` and `is_connected_over` answer exactly; in general a yes can be trusted. */
  lemma ConnectivityAnswers(ws: seq<World>, ticks: seq<Tick>, n: nat, p: PeerId, addr: Multiaddr)
    requires IsWorldRun(ws, ticks) && n < |ws|
    ensures var live := ws[n].live;
            && (Connected(ws[n].node.view, p) ==> exists cid :: cid in live && live[cid].peer == p)
            && (ConnectedOver(ws[n].node.view, p, addr) ==> exists cid :: cid in live && live[cid] == Link(p, addr))
    ensures (forall i | 0 <= i < n :: KeepsExact(ws[i], ticks[i].input)) ==>
            var live := ws[n].live;
            && (Connected(ws[n].node.view, p) <==> exists cid :: cid in live && live[cid].peer == p)
            && (ConnectedOver(ws[n].node.view, p, addr) <==> exists cid :: cid in live && live[cid] == Link(p, addr))
  {
    hide WorldStep, KeepsExact, IsWorldRun, Records, GoodView;
    RecordedAreLive(ws, ticks, n);
    RecordedEqualLiveExactly(ws, ticks, n);
    ConnectedMeansRecorded(ws[n].node.view, p);
    var v, live := ws[n].node.view, ws[n].live;
    if Exact(ws[n]) {
      if cid :| cid in live && live[cid].peer == p {
        assert Records(v, p, cid, live[cid].remote);
      }
    }
  }

  lemma {:induction false} NodesOfWorldRun(ws: seq<World>, ticks: seq<Tick>) returns (states: seq<Node>)
    requires IsWorldRun(ws, ticks)
    ensures NodeRuns.IsRun(states, ticks) && NodeRuns.StartsFresh(states) && |states| == |ws|
    ensures forall i | 0 <= i < |ws| :: states[i] == ws[i].node
  {
    hide Handle;
    states := seq(|ws|, i requires 0 <= i < |ws| => ws[i].node);
    var local, max :| ws[0] == World(Fresh(local, max), map[], {});
    assert states[0] == Fresh(local, max);
    forall i | 0 <= i < |ticks|
      ensures Handle(states[i], ticks[i]).Some? && Handle(states[i], ticks[i]).value.node == states[i + 1]
    {
      assert WorldStep(ws[i], ticks[i], ws[i + 1]);
    }
  }

  // ----- what the two connectivity queries are worth -----

  ghost predicate HasLive(w: World, p: PeerId) {
    exists cid :: cid in w.live && w.live[cid].peer == p
  }

  /** `is_connected` says yes exactly for the peers with a live connection. */
  ghost predicate AnswersRight(w: World) {
    forall p :: Connected(w.node.view, p) <==> HasLive(w, p)
  }

  /** An expiry must leave a peer with a live connection some recorded connection on another address,
      and a close must leave another one recorded if another one is live. */
  ghost predicate KeepsAnswers(w: World, input: Input) {
    match input
    case AddressExpired(p, addr) =>
      HasLive(w, p) ==> exists cid, b :: b != addr && Records(w.node.view, p, cid, b)
    case Closed(p, cid) =>
      (exists c :: c != cid && c in w.live && w.live[c].peer == p) ==> exists c, b :: c != cid && Records(w.node.view, p, c, b)
    case _ => true
  }

  /** Who has a live connection after an input. */
  lemma LiveStep(w: World, t: Tick, w': World, q: PeerId)
    requires Sound(w) && WorldStep(w, t, w')
    ensures HasLive(w', q) <==>
            match t.input
            case Established(p, _, _) => q == p || HasLive(w, q)
            case Closed(p, cid) => exists c :: c != cid && c in w.live && w.live[c].peer == q
            case _ => HasLive(w, q)
  {
    hide Handle, GoodView, Records;
    match t.input
    case Established(p, cid, _) =>
      assert w'.live[cid].peer == p;
      if c :| c in w.live && w.live[c].peer == q {
        assert c in w'.live && w'.live[c].peer == q;
      }
    case Closed(p, cid) =>
      if c :| c != cid && c in w.live && w.live[c].peer == q {
        assert c in w'.live && w'.live[c].peer == q;
      }
    case _ =>
  }

  /** Only the closed connection itself stood in for its peer, so others lose nothing by the close. */
  lemma CloseSparesOthers(w: World, t: Tick, q: PeerId)
    requires Possible(w, t.input) && t.input.Closed? && q != t.input.peer
    ensures HasLive(w, q) <==> exists c :: c != t.input.cid && c in w.live && w.live[c].peer == q
  {
  }

  /** Whom the view takes for connected after an input. */
  lemma ConnectedStep(n: Node, t: Tick, q: PeerId)
    requires GoodView(n.view) && Handle(n, t).Some?
    ensures Connected(Handle(n, t).value.node.view, q) <==>
            match t.input
            case Established(p, _, _) => q == p || Connected(n.view, q)
            case Closed(p, cid) => if q == p then exists c, a :: c != cid && Records(n.view, q, c, a) else Connected(n.view, q)
            case AddressExpired(p, addr) => if q == p then exists c, a :: a != addr && Records(n.view, q, c, a) else Connected(n.view, q)
            case _ => Connected(n.view, q)
  {
    hide Handle, GoodView, Records, Edited, Connected, ConnectedOver;
    ConnectedMeansRecorded(n.view, q);
    NodeRuns.ConnectedAfter(n, t, q);
    if EditsList(t.input) && t.input.peer == q {
      match t.input
      case Established(p, cid, endpoint) => assert RecordedAfter(n.view, t.input, p, cid, endpoint.Remote());
      case Closed(p, cid) =>
        assert forall c, a :: RecordedAfter(n.view, t.input, q, c, a) <==> c != cid && Records(n.view, q, c, a);
      case AddressExpired(p, addr) =>
        assert forall c, a :: RecordedAfter(n.view, t.input, q, c, a) <==> a != addr && Records(n.view, q, c, a);
      case AddressSeen(_, _) =>
        assert forall c, a :: RecordedAfter(n.view, t.input, q, c, a) <==> Records(n.view, q, c, a);
      case _ =>
    } else {
      assert forall c, a :: RecordedAfter(n.view, t.input, q, c, a) <==> Records(n.view, q, c, a);
    }
  }

  /** One step keeps the answers for one peer right exactly when the input meets its condition. */
  lemma AnswerFor(w: World, t: Tick, w': World, q: PeerId)
    requires Sound(w) && WorldStep(w, t, w') && AnswersRight(w)
    ensures (Connected(w'.node.view, q) <==> HasLive(w', q)) <==>
            (EditsList(t.input) && t.input.peer == q ==> KeepsAnswers(w, t.input))
  {
    assert GoodView(w.node.view) && Handle(w.node, t).Some? && w'.node == Handle(w.node, t).value.node && Possible(w, t.input);
    hide Handle, GoodView, Records, Connected, Sound, WorldStep, HasLive, Possible;
    SoundStep(w, t, w');
    RecordedIsLive(w', q);
    LiveStep(w, t, w', q);
    ConnectedStep(w.node, t, q);
    if t.input.Closed? && t.input.peer != q {
      CloseSparesOthers(w, t, q);
    }
  }

  lemma RecordedIsLive(w: World, q: PeerId)
    requires Sound(w)
    ensures Connected(w.node.view, q) ==> HasLive(w, q)
  {
    hide GoodView, Records, Connected, ConnectedOver;
    ConnectedMeansRecorded(w.node.view, q);
  }

  lemma AnswersStep(w: World, t: Tick, w': World)
    requires Sound(w) && WorldStep(w, t, w') && AnswersRight(w)
    ensures AnswersRight(w') <==> KeepsAnswers(w, t.input)
  {
    hide WorldStep, Sound, Connected, HasLive;
    forall q
      ensures (Connected(w'.node.view, q) <==> HasLive(w', q)) <==>
              (EditsList(t.input) && t.input.peer == q ==> KeepsAnswers(w, t.input))
    {
      AnswerFor(w, t, w', q);
    }
    assert !EditsList(t.input) ==> KeepsAnswers(w, t.input);
    if EditsList(t.input) {
      AnswerFor(w, t, w', t.input.peer);
    }
  }

  /** `is_connected` answers exactly throughout a run if and only if every input meets `KeepsAnswers` in
      the state it finds. */
  lemma {:induction false} IsConnectedExactly(ws: seq<World>, ticks: seq<Tick>, n: nat)
    requires IsWorldRun(ws, ticks) && n < |ws|
    ensures (forall i | 0 <= i <= n :: AnswersRight(ws[i])) <==> (forall i | 0 <= i < n :: KeepsAnswers(ws[i], ticks[i].input))
  {
    hide WorldStep, Sound, AnswersRight, KeepsAnswers, Fresh;
    if n == 0 {
      FreshAnswers(ws);
    } else {
      IsConnectedExactly(ws, ticks, n - 1);
      RecordedAreLive(ws, ticks, n - 1);
      if AnswersRight(ws[n - 1]) {
        AnswersStep(ws[n - 1], ticks[n - 1], ws[n]);
      }
      assert (forall i | 0 <= i <= n :: AnswersRight(ws[i])) <==>
             (forall i | 0 <= i <= n - 1 :: AnswersRight(ws[i])) && AnswersRight(ws[n]);
      assert (forall i | 0 <= i < n :: KeepsAnswers(ws[i], ticks[i].input)) <==>
             (forall i | 0 <= i < n - 1 :: KeepsAnswers(ws[i], ticks[i].input)) && KeepsAnswers(ws[n - 1], ticks[n - 1].input);
    }
  }

  lemma FreshAnswers(ws: seq<World>)
    requires ws != [] && exists local, max :: ws[0] == World(Fresh(local, max), map[], {})
    ensures AnswersRight(ws[0]) && PassiveLive(ws[0])
  {
    var local, max :| ws[0] == World(Fresh(local, max), map[], {});
  }

  /** `is_connected_over` says yes exactly for the addresses with a live connection. */
  ghost predicate OverAnswersRight(w: World) {
    forall p, a :: ConnectedOver(w.node.view, p, a) <==> exists cid :: cid in w.live && w.live[cid] == Link(p, a)
  }

  lemma ExactAnswersOver(w: World)
    requires Sound(w) && Exact(w)
    ensures OverAnswersRight(w)
  {
    hide GoodView, Records, Connected, ConnectedOver;
    forall p, a
      ensures ConnectedOver(w.node.view, p, a) <==> exists cid :: cid in w.live && w.live[cid] == Link(p, a)
    {
      ConnectedMeansRecorded(w.node.view, p);
      assert forall cid :: Records(w.node.view, p, cid, a) <==> cid in w.live && w.live[cid] == Link(p, a);
    }
  }

  /** An expiry under a connection leaves the address wrongly answered for. */
  lemma ExpiryMisleads(w: World, t: Tick, w': World)
    requires Sound(w) && WorldStep(w, t, w') && !KeepsExact(w, t.input)
    ensures !OverAnswersRight(w')
  {
    SoundStep(w, t, w');
    var p, addr := t.input.peer, t.input.addr;
    assert GoodView(w.node.view) && GoodView(w'.node.view) && w'.live == w.live;
    assert forall c :: !Records(w'.node.view, p, c, addr) by {
      hide Handle, GoodView, Records;
      HandleRecords(w.node, t);
    }
    assert exists c :: c in w.live && w.live[c] == Link(p, addr) by {
      hide Handle, GoodView, Records, ConnectedOver, WorldStep;
      ConnectedMeansRecorded(w.node.view, p);
      var c :| Records(w.node.view, p, c, addr);
    }
    hide Handle, GoodView, Records, Connected, ConnectedOver, WorldStep, Sound;
    ConnectedMeansRecorded(w'.node.view, p);
    assert !ConnectedOver(w'.node.view, p, addr);
  }

  /** `is_connected_over` answers exactly throughout a run if and only if no address expires with a
      connection recorded on it. */
  lemma IsConnectedOverExactly(ws: seq<World>, ticks: seq<Tick>, n: nat)
    requires IsWorldRun(ws, ticks) && n < |ws|
    ensures (forall i | 0 <= i <= n :: OverAnswersRight(ws[i])) <==> (forall i | 0 <= i < n :: KeepsExact(ws[i], ticks[i].input))
  {
    hide WorldStep, Sound, Exact, KeepsExact, OverAnswersRight, Fresh;
    RecordedEqualLiveExactly(ws, ticks, n);
    if forall i | 0 <= i < n :: KeepsExact(ws[i], ticks[i].input) {
      forall i | 0 <= i <= n
        ensures OverAnswersRight(ws[i])
      {
        RecordedAreLive(ws, ticks, i);
        ExactAnswersOver(ws[i]);
      }
    } else {
      var i :| 0 <= i < n && !KeepsExact(ws[i], ticks[i].input);
      RecordedAreLive(ws, ticks, i);
      ExpiryMisleads(ws[i], ticks[i], ws[i + 1]);
      assert !OverAnswersRight(ws[i + 1]);
    }
  }

  // ----- what passive mode is for -----

  /** A passive node has a live connection to every target. */
  ghost predicate PassiveLive(w: World) {
    !w.node.active ==> forall p | p in w.node.targets :: HasLive(w, p)
  }

  /** A target added in passive mode must have a live connection. */
  ghost predicate AddsLive(w: World, input: Input) {
    w.node.active || (input.TargetAdded? ==> HasLive(w, input.peer))
  }

  lemma PassiveLiveStep(w: World, t: Tick, w': World)
    requires Sound(w) && WorldStep(w, t, w') && PassiveLive(w)
    ensures PassiveLive(w') <==> AddsLive(w, t.input)
  {
    assert GoodView(w.node.view) && Handle(w.node, t).Some? && w'.node == Handle(w.node, t).value.node && Possible(w, t.input);
    SoundStep(w, t, w');
    hide Handle, GoodView, Edited, Connected, Sound, WorldStep, HasLive, Possible, RecordedAfter;
    NodeRuns.ModeAfter(w.node, t);
    forall q
      ensures Connected(Edited(w.node, t), q) ==> HasLive(w', q)
      ensures HasLive(w', q) <==>
              match t.input
              case Established(p, _, _) => q == p || HasLive(w, q)
              case Closed(p, cid) => exists c :: c != cid && c in w.live && w.live[c].peer == q
              case _ => HasLive(w, q)
      ensures t.input.Closed? && q != t.input.peer ==> (HasLive(w', q) <==> HasLive(w, q))
    {
      LiveStep(w, t, w', q);
      RecordedIsLive(w', q);
      NodeRuns.ConnectedAfter(w.node, t, q);
      if t.input.Closed? && q != t.input.peer {
        CloseSparesOthers(w, t, q);
      }
    }
  }

  /** Passive mode is honest about live connections at every event boundary of a run exactly when no
      target without a live connection is added in passive mode: not even the expiry of a target's only
      recorded address breaks it, since the later close of its connection makes the node active. */
  lemma {:induction false} PassiveMeansLive(ws: seq<World>, ticks: seq<Tick>, n: nat)
    requires IsWorldRun(ws, ticks) && n < |ws|
    ensures (forall i | 0 <= i <= n :: PassiveLive(ws[i])) <==> (forall i | 0 <= i < n :: AddsLive(ws[i], ticks[i].input))
  {
    hide WorldStep, Sound, PassiveLive, AddsLive, Fresh;
    if n == 0 {
      FreshAnswers(ws);
    } else {
      PassiveMeansLive(ws, ticks, n - 1);
      RecordedAreLive(ws, ticks, n - 1);
      if PassiveLive(ws[n - 1]) {
        PassiveLiveStep(ws[n - 1], ticks[n - 1], ws[n]);
      }
      assert (forall i | 0 <= i <= n :: PassiveLive(ws[i])) <==>
             (forall i | 0 <= i <= n - 1 :: PassiveLive(ws[i])) && PassiveLive(ws[n]);
      assert (forall i | 0 <= i < n :: AddsLive(ws[i], ticks[i].input)) <==>
             (forall i | 0 <= i < n - 1 :: AddsLive(ws[i], ticks[i].input)) && AddsLive(ws[n - 1], ticks[n - 1].input);
    }
  }
}
