/** Progress of the two-node system: migration to better addresses only goes forward, and pruning
    leaves the links of one address, exactly until the address of the best link expires. */
module Migration {
  import opened Multiaddrs
  import opened Metadata
  import opened Views
  import opened Nodes
  import opened NodeFacts
  import opened TwoNodes

  /** The leader records a link on `a` that nobody is closing. */
  ghost predicate Live(s: Sys, a: Multiaddr) {
    exists cid :: OnLead(s, cid, a) && cid !in s.pending
  }

  /** `a` is the best address with a link nobody is closing. */
  ghost predicate BestLive(s: Sys, a: Multiaddr) {
    Live(s, a) && forall b | Live(s, b) :: BetterOrSame(a, b)
  }

  /** The leader hears that its best live address has expired. */
  ghost predicate BestExpires(s: Sys, act: Action) {
    && act.AtLead? && act.tick.input.AddressExpired? && act.tick.input.peer == s.follow.local
    && BestLive(s, act.tick.input.addr)
  }

  /** Otherwise an address that expires with a link nobody closes leaves a better one behind. */
  lemma SparedIsBeaten(s: Sys, t: Tick)
    requires !BestExpires(s, AtLead(t))
    ensures t.input.AddressExpired? && t.input.peer == s.follow.local ==>
              forall cid | OnLead(s, cid, t.input.addr) && cid !in s.pending :: Beaten(s, t.input.addr)
  {
    hide OnLead, Better;
    if t.input.AddressExpired? && t.input.peer == s.follow.local {
      forall cid | OnLead(s, cid, t.input.addr) && cid !in s.pending
        ensures Beaten(s, t.input.addr)
      {
        var b :| Live(s, b) && !BetterOrSame(t.input.addr, b);
        BetterTotal(t.input.addr, b);
      }
    }
  }

  // ----- closes stay below the best live address -----

  /** Every link being closed sits on an address strictly worse than one with a link nobody closes. */
  ghost predicate Healthy(s: Sys) {
    Inv(s) && PendingAreWorse(s.lead.view, s.follow.local, s.pending)
  }

  lemma HealthyStep(s: Sys, act: Action, s': Sys)
    requires Healthy(s) && SysStep(s, act, s') && !BestExpires(s, act)
    ensures Healthy(s')
  {
    InvStep(s, act, s');
    hide Bookkeeping, Safe, PendingAreWorse, Handle, BestExpires, Beaten;
    match act
    case AtLead(t) =>
      assert PendingAreWorse(Edited(s.lead, t), s.follow.local, s.pending) by {
        SparedIsBeaten(s, t);
        EditKeepsWorse(s, t);
      }
      LeaderKeepsSafe(s, t, s');
    case AtFollow(t) => FollowerStep(s, t, s');
    case _ =>
  }

  /** Every state reached before the best live address expires is healthy. */
  lemma {:induction false} ReachableHealthy(ss: seq<Sys>, acts: seq<Action>, i: nat)
    requires IsSysRun(ss, acts) && StartsFresh(ss) && i < |ss|
    requires forall k | 0 <= k < i :: !BestExpires(ss[k], acts[k])
    ensures Healthy(ss[i])
  {
    hide SysStep, Inv, PendingAreWorse, BestExpires, Fresh;
    if i == 0 {
      var lead, follow, m, n :| IsPruneLeader(lead, follow) && ss[0] == Start(lead, follow, m, n);
      StartInv(lead, follow, m, n);
      FreshLocal(follow, n);
    } else {
      ReachableHealthy(ss, acts, i - 1);
      HealthyStep(ss[i - 1], acts[i - 1], ss[i]);
    }
  }

  /** One handled input at a healthy leader: reconcile closes either exactly the links off the best
      connected address, which keeps the links it has, or none. */
  lemma HealthyLeader(s: Sys, t: Tick, s': Sys)
    requires Healthy(s) && SysStep(s, AtLead(t), s') && !BestExpires(s, AtLead(t))
    ensures Healthy(s') && s'.follow == s.follow && s'.links == s.links && s'.lead.local == s.lead.local
    ensures var e, f := Edited(s.lead, t), s.follow.local;
            && GoodView(e) && PendingAreWorse(e, f, s.pending)
            && (forall cid, a :: OnLead(s', cid, a) <==> Records(e, f, cid, a))
            && if BestIsUp(s.lead, t) && t.input.peer == f then
                 && TopUp(e, f, Shown(s.lead, t)[0].address)
                 && (forall cid, a | Records(e, f, cid, a) ::
                       cid in s'.pending <==> cid in s.pending || a != Shown(s.lead, t)[0].address)
                 && (forall cid | Records(e, f, cid, Shown(s.lead, t)[0].address) :: cid !in s'.pending)
               else forall cid | cid in s.links :: cid in s'.pending <==> cid in s.pending
  {
    HealthyStep(s, AtLead(t), s');
    SparedIsBeaten(s, t);
    EditKeepsWorse(s, t);
    LeaderCloses(s, t);
    SameAfterReconcile(s, t);
    LeaderOnly(s, t, s');
    var closed := Closes(Handle(s.lead, t).value.effects);
    assert s'.pending == s.pending + closed && s'.lead == Handle(s.lead, t).value.node;
    hide Handle, GoodView, Edited, Records, Apart, IsPruneLeader, Shown, PendingAreWorse, Reconciles, Better, Healthy, SysStep,
      Announced, BestExpires, TopUp, Inv;
    if BestIsUp(s.lead, t) && t.input.peer == s.follow.local {
      var h := Shown(s.lead, t)[0].address;
      CloseKeepsWorse(Edited(s.lead, t), s.follow.local, s.pending, h, closed);
      forall cid, a | Records(Edited(s.lead, t), s.follow.local, cid, a)
        ensures cid in s'.pending <==> cid in s.pending || a != h
      {
      }
    }
  }

  // ----- the best live address never worsens, exactly as long as it does not expire -----

  /** Every live address is matched or beaten after the step. */
  lemma LiveStep(s: Sys, act: Action, s': Sys, a: Multiaddr)
    requires Healthy(s) && SysStep(s, act, s') && !BestExpires(s, act) && Live(s, a)
    ensures exists b :: Live(s', b) && BetterOrSame(b, a)
  {
    var cid :| OnLead(s, cid, a) && cid !in s.pending;
    hide Handle, GoodView, Better, PendingAreWorse, Records, BestExpires;
    match act
    case AtLead(t) =>
      var c, b := LiveSurvivesEdit(s, t, cid, a);
      LiveAtLead(s, t, s', c, b);
      var d :| Live(s', d) && BetterOrSame(d, b);
      MatchOrBeat(d, b, a);
    case AtFollow(t) =>
      FollowerStep(s, t, s');
      assert OnLead(s', cid, a) by {
        FollowerKeepsLead(s, t, s');
      }
      assert cid in s.links;
      assert Live(s', a);
    case _ =>
      assert OnLead(s', cid, a);
      assert Live(s', a);
  }

  lemma MatchOrBeat(a: Multiaddr, b: Multiaddr, c: Multiaddr)
    requires BetterOrSame(a, b) && BetterOrSame(b, c)
    ensures BetterOrSame(a, c)
  {
    if a != b && b != c {
      BetterTransitive(a, b, c);
    }
  }

  lemma FollowerKeepsLead(s: Sys, t: Tick, s': Sys)
    requires Bookkeeping(s) && SysStep(s, AtFollow(t), s')
    ensures s'.lead == s.lead && s'.follow.local == s.follow.local
  {
    hide Handle, GoodView;
    LocalKept(s.follow, t);
  }

  /** Of a live link, or a better one, the leader's edit keeps the record. */
  lemma LiveSurvivesEdit(s: Sys, t: Tick, cid: ConnId, a: Multiaddr) returns (c: ConnId, b: Multiaddr)
    requires Bookkeeping(s) && Announced(s, s.follow.local, s.openedLead, t.input)
    requires !BestExpires(s, AtLead(t)) && OnLead(s, cid, a) && cid !in s.pending
    ensures OnLead(s, c, b) && c !in s.pending && BetterOrSame(b, a)
    ensures Records(Edited(s.lead, t), s.follow.local, c, b)
  {
    hide Edited, GoodView, Records, Apart, IsPruneLeader, BestExpires, Better;
    c, b := cid, a;
    EditedRecords(s.lead, t, s.follow.local, c, b);
    if t.input == AddressExpired(s.follow.local, a) {
      SparedIsBeaten(s, t);
      c, b :| OnLead(s, c, b) && c !in s.pending && Better(b, a);
      BetterIrreflexive(a);
      EditedRecords(s.lead, t, s.follow.local, c, b);
    }
  }

  lemma LiveAtLead(s: Sys, t: Tick, s': Sys, cid: ConnId, a: Multiaddr)
    requires Healthy(s) && SysStep(s, AtLead(t), s') && !BestExpires(s, AtLead(t))
    requires OnLead(s, cid, a) && cid !in s.pending && Records(Edited(s.lead, t), s.follow.local, cid, a)
    ensures exists b :: Live(s', b) && BetterOrSame(b, a)
  {
    HealthyLeader(s, t, s');
    assert cid in s.links;
    hide Handle, GoodView, Edited, Records, Shown, PendingAreWorse, Reconciles, Better, SysStep, Healthy, BestExpires;
    var e, f := Edited(s.lead, t), s.follow.local;
    if BestIsUp(s.lead, t) && t.input.peer == f {
      var h := Shown(s.lead, t)[0].address;
      var top :| Records(e, f, top, h);
      assert OnLead(s', top, h) && top !in s'.pending;
      assert Live(s', h) && BetterOrSame(h, a);
    } else {
      assert OnLead(s', cid, a) && cid !in s'.pending;
      assert Live(s', a);
    }
  }

  lemma {:induction false} SmallestOf(x: set<Multiaddr>) returns (a: Multiaddr)
    requires x != {}
    ensures a in x && forall b | b in x :: BetterOrSame(a, b)
    decreases x
  {
    var c :| c in x;
    a := c;
    var rest := x - {c};
    if rest != {} {
      var r := SmallestOf(rest);
      BetterTotal(c, r);
      a := if Better(r, c) then r else c;
      forall b | b in x
        ensures BetterOrSame(a, b)
      {
        if a == c && b != c && b != r {
          assert b in rest;
          BetterTransitive(c, r, b);
        }
      }
    } else {
      assert x == {c};
    }
  }

  lemma LiveIsListed(s: Sys, a: Multiaddr)
    requires Live(s, a)
    ensures a in TableAt(s.lead.view, s.follow.local).Keys
  {
  }

  lemma BestLiveExists(s: Sys, x: Multiaddr) returns (a: Multiaddr)
    requires Live(s, x)
    ensures BestLive(s, a)
  {
    var live := set b | b in TableAt(s.lead.view, s.follow.local).Keys && Live(s, b);
    forall b | Live(s, b)
      ensures b in live
    {
      LiveIsListed(s, b);
    }
    a := SmallestOf(live);
  }

  /** The best live address of one state is matched or beaten by that of the next. */
  ghost predicate KeepsBest(s: Sys, s': Sys) {
    forall a | BestLive(s, a) :: exists b :: BestLive(s', b) && BetterOrSame(b, a)
  }

  lemma LeaderMoves(s: Sys, t: Tick, s': Sys)
    requires SysStep(s, AtLead(t), s')
    ensures Handle(s.lead, t).Some? && s'.lead == Handle(s.lead, t).value.node
    ensures s'.follow == s.follow && s.pending <= s'.pending
  {
    hide Handle;
  }

  /** When the best live address expires, whatever the leader still records is strictly worse. */
  lemma ExpiryLeavesWorse(s: Sys, act: Action, s': Sys, b: Multiaddr)
    requires Inv(s) && SysStep(s, act, s') && BestExpires(s, act) && Live(s', b)
    ensures Better(act.tick.input.addr, b)
  {
    var cid :| OnLead(s', cid, b) && cid !in s'.pending;
    hide Handle, GoodView, Edited, Records, Apart, IsPruneLeader, Better, Safe, SysStep;
    var t := act.tick;
    LeaderMoves(s, t, s');
    SameAfterReconcile(s, t);
    EditedRecords(s.lead, t, s.follow.local, cid, b);
    assert OnLead(s, cid, b);
    assert cid !in s.pending;
    assert Live(s, b);
  }

  /** One step keeps the rank of the best live address if and only if that address does not expire. */
  lemma BestStep(s: Sys, act: Action, s': Sys)
    requires Healthy(s) && SysStep(s, act, s')
    ensures KeepsBest(s, s') <==> !BestExpires(s, act)
  {
    hide SysStep, Live, Better, Inv, PendingAreWorse;
    if BestExpires(s, act) {
      var a := act.tick.input.addr;
      forall b | BestLive(s', b)
        ensures !BetterOrSame(b, a)
      {
        ExpiryLeavesWorse(s, act, s', b);
        BetterIrreflexive(a);
        NotBothBetter(a, b);
      }
      assert BestLive(s, a);
    } else {
      forall a | BestLive(s, a)
        ensures exists b :: BestLive(s', b) && BetterOrSame(b, a)
      {
        LiveStep(s, act, s', a);
        var x :| Live(s', x) && BetterOrSame(x, a);
        var b := BestLiveExists(s', x);
        MatchOrBeat(b, x, a);
      }
    }
  }

  /** Migration progress, over whole runs: the static rank of the leader's best live address never
      worsens if and only if that address never expires while it is the best. */
  lemma {:induction false} BestNeverWorsens(ss: seq<Sys>, acts: seq<Action>, n: nat)
    requires IsSysRun(ss, acts) && StartsFresh(ss) && n < |ss|
    ensures (forall i | 0 <= i < n :: KeepsBest(ss[i], ss[i + 1])) <==> (forall i | 0 <= i < n :: !BestExpires(ss[i], acts[i]))
  {
    hide SysStep, StartsFresh, KeepsBest, BestExpires, Healthy;
    if n > 0 {
      BestNeverWorsens(ss, acts, n - 1);
      if forall i | 0 <= i < n - 1 :: !BestExpires(ss[i], acts[i]) {
        ReachableHealthy(ss, acts, n - 1);
        BestStep(ss[n - 1], acts[n - 1], ss[n]);
        assert ss[n] == ss[n - 1 + 1];
      }
    }
  }

  /** So later states match or beat the best live address of earlier ones. */
  lemma {:induction false} LaterIsNoWorse(ss: seq<Sys>, acts: seq<Action>, i: nat, j: nat, a: Multiaddr)
    requires IsSysRun(ss, acts) && StartsFresh(ss) && i <= j < |ss| && BestLive(ss[i], a)
    requires forall k | 0 <= k < j :: !BestExpires(ss[k], acts[k])
    ensures exists b :: BestLive(ss[j], b) && BetterOrSame(b, a)
    decreases j
  {
    hide SysStep, StartsFresh, BestLive, BestExpires, Healthy, Better;
    if i < j {
      LaterIsNoWorse(ss, acts, i, j - 1, a);
      var x :| BestLive(ss[j - 1], x) && BetterOrSame(x, a);
      ReachableHealthy(ss, acts, j - 1);
      BestStep(ss[j - 1], acts[j - 1], ss[j]);
      var b :| BestLive(ss[j], b) && BetterOrSame(b, x);
      MatchOrBeat(b, x, a);
    }
  }

  // ----- only finitely many improvements -----

  /** The step brings up an address better than every live one. */
  ghost predicate Improves(s: Sys, s': Sys) {
    exists b :: Live(s', b) && forall a | Live(s, a) :: Better(b, a)
  }

  /** Improving steps from state `i` to state `j`. */
  ghost function Improvements(ss: seq<Sys>, i: nat, j: nat): nat
    requires i <= j < |ss|
  {
    if i == j then 0 else Improvements(ss, i, j - 1) + (if Improves(ss[j - 1], ss[j]) then 1 else 0)
  }

  /** Addresses of `all` that some live address matches or beats. */
  ghost function Covered(s: Sys, all: set<Multiaddr>): set<Multiaddr> {
    set x | x in all && Covers(s, x)
  }

  ghost predicate Covers(s: Sys, x: Multiaddr) {
    exists a :: Live(s, a) && BetterOrSame(a, x)
  }

  lemma CoveredGrows(s: Sys, act: Action, s': Sys, all: set<Multiaddr>)
    requires Healthy(s) && SysStep(s, act, s') && !BestExpires(s, act)
    requires forall a | Live(s', a) :: a in all
    ensures Covered(s, all) <= Covered(s', all)
    ensures Improves(s, s') ==> Covered(s, all) < Covered(s', all)
  {
    hide Healthy, SysStep, Live, Better, BestExpires;
    forall x | x in Covered(s, all)
      ensures x in Covered(s', all)
    {
      var a :| Live(s, a) && BetterOrSame(a, x);
      LiveStep(s, act, s', a);
      var b :| Live(s', b) && BetterOrSame(b, a);
      MatchOrBeat(b, a, x);
    }
    if Improves(s, s') {
      var b :| Live(s', b) && forall a | Live(s, a) :: Better(b, a);
      assert b in Covered(s', all);
      if b in Covered(s, all) {
        var a :| Live(s, a) && BetterOrSame(a, b);
        NotBothBetter(a, b);
      }
    }
  }

  lemma NotBothBetter(a: Multiaddr, b: Multiaddr)
    requires BetterOrSame(a, b)
    ensures !Better(b, a)
  {
    if a == b {
      BetterIrreflexive(a);
    } else {
      BetterAsymmetric(a, b);
    }
  }

  lemma SubsetSizes(x: set<Multiaddr>, y: set<Multiaddr>)
    requires x <= y
    ensures |x| <= |y| && (x < y ==> |x| < |y|)
  {
    assert y == x + (y - x);
  }

  lemma {:induction false} ImprovementsCovered(ss: seq<Sys>, acts: seq<Action>, i: nat, j: nat, all: set<Multiaddr>)
    requires IsSysRun(ss, acts) && StartsFresh(ss) && i <= j < |ss|
    requires forall k | 0 <= k < j :: !BestExpires(ss[k], acts[k])
    requires forall k, a | i <= k <= j && Live(ss[k], a) :: a in all
    ensures Improvements(ss, i, j) + |Covered(ss[i], all)| <= |Covered(ss[j], all)|
    decreases j
  {
    hide Healthy, SysStep, StartsFresh, Live, Better, BestExpires, Improves, Covered;
    if i < j {
      ImprovementsCovered(ss, acts, i, j - 1, all);
      ReachableHealthy(ss, acts, j - 1);
      CoveredGrows(ss[j - 1], acts[j - 1], ss[j], all);
      SubsetSizes(Covered(ss[j - 1], all), Covered(ss[j], all));
    }
  }

  /** Over a fixed set of n addresses a connected leader strictly improves its best live address at
      most n - 1 times, however long the run. */
  lemma BoundedImprovements(ss: seq<Sys>, acts: seq<Action>, i: nat, j: nat, all: set<Multiaddr>, start: Multiaddr)
    requires IsSysRun(ss, acts) && StartsFresh(ss) && i <= j < |ss| && Live(ss[i], start)
    requires forall k | 0 <= k < j :: !BestExpires(ss[k], acts[k])
    requires forall k, a | i <= k <= j && Live(ss[k], a) :: a in all
    ensures Improvements(ss, i, j) <= |all| - 1
  {
    hide SysStep, StartsFresh, Live, Better, BestExpires, Improves;
    ImprovementsCovered(ss, acts, i, j, all);
    assert Covers(ss[i], start);
    assert start in Covered(ss[i], all);
    SubsetSizes({start}, Covered(ss[i], all));
    SubsetSizes(Covered(ss[j], all), all);
  }

  // ----- quiescence after pruning -----

  /** All links that are not being closed lie on `h`, some do, and everything else is being closed. */
  ghost predicate Settled(s: Sys, h: Multiaddr) {
    && Healthy(s)
    && (exists cid :: OnLead(s, cid, h))
    && forall cid, a | OnLead(s, cid, a) :: a == h <==> cid !in s.pending
  }

  /** The head that reconcile finds carries no link whose close is pending. */
  ghost predicate HeadStays(s: Sys, t: Tick)
    requires BestIsUp(s.lead, t)
  {
    forall cid | Records(Edited(s.lead, t), s.follow.local, cid, Shown(s.lead, t)[0].address) :: cid !in s.pending
  }

  /** What a pruning leaves: the same records, and everything off the head being closed. */
  lemma PruningCloses(s: Sys, t: Tick, s': Sys)
    requires Inv(s) && SysStep(s, AtLead(t), s') && BestIsUp(s.lead, t) && t.input.peer == s.follow.local
    ensures var e, f, h := Edited(s.lead, t), s.follow.local, Shown(s.lead, t)[0].address;
            && s'.follow.local == f && s.pending <= s'.pending
            && (forall cid, a :: OnLead(s', cid, a) <==> Records(e, f, cid, a))
            && (exists cid :: Records(e, f, cid, h))
            && (forall cid, a | Records(e, f, cid, a) :: BetterOrSame(h, a))
            && (forall cid, a | Records(e, f, cid, a) :: cid in s'.pending <==> cid in s.pending || a != h)
  {
    LeaderCloses(s, t);
    SameAfterReconcile(s, t);
    LeaderOnly(s, t, s');
    var e, f, h := Edited(s.lead, t), s.follow.local, Shown(s.lead, t)[0].address;
    var closed := Closes(Handle(s.lead, t).value.effects);
    assert s'.pending == s.pending + closed && s'.lead == Handle(s.lead, t).value.node;
    hide Handle, GoodView, Edited, Records, Shown, PendingAreWorse, Reconciles, Better, SysStep, Inv, BestIsUp, Announced;
    forall cid, a | Records(e, f, cid, a)
      ensures cid in s'.pending <==> cid in s.pending || a != h
    {
      if b :| b != h && Records(e, f, cid, b) {
        OneAddressPerConnection(e, f, cid, a, b);
      }
    }
  }

  /** A pruning settles the system on the head if and only if no link there is being closed. */
  lemma PruningStep(s: Sys, t: Tick, s': Sys)
    requires Inv(s) && SysStep(s, AtLead(t), s') && BestIsUp(s.lead, t) && t.input.peer == s.follow.local
    ensures Settled(s', Shown(s.lead, t)[0].address) <==> HeadStays(s, t)
  {
    hide Edited, Shown, Reconciles, SysStep, Inv, OnLead, Records, Settled;
    InvStep(s, AtLead(t), s');
    PruningCloses(s, t, s');
    SettledIff(s', Shown(s.lead, t)[0].address, s.pending);
  }

  lemma SettledIff(s: Sys, h: Multiaddr, before: set<ConnId>)
    requires Inv(s) && exists cid :: OnLead(s, cid, h)
    requires forall cid, a | OnLead(s, cid, a) :: BetterOrSame(h, a) && (cid in s.pending <==> cid in before || a != h)
    ensures Settled(s, h) <==> forall cid | OnLead(s, cid, h) :: cid !in before
  {
    hide OnLead, PendingAreWorse, Better, Inv;
    if forall cid | OnLead(s, cid, h) :: cid !in before {
      var top :| OnLead(s, top, h);
      OthersAreWorse(s, h, top);
    }
  }

  lemma OthersAreWorse(s: Sys, h: Multiaddr, top: ConnId)
    requires OnLead(s, top, h) && top !in s.pending
    requires forall cid, a | OnLead(s, cid, a) :: (a == h <==> cid !in s.pending) && BetterOrSame(h, a)
    ensures PendingAreWorse(s.lead.view, s.follow.local, s.pending)
  {
    hide Records, Better;
    forall cid, a | Records(s.lead.view, s.follow.local, cid, a) && cid in s.pending
      ensures exists c, b :: Records(s.lead.view, s.follow.local, c, b) && c !in s.pending && Better(b, a)
    {
      assert OnLead(s, cid, a) && Better(h, a);
    }
  }

  /** As long as the best live address has not expired, no link on the head is being closed. */
  lemma HealthyHeadStays(s: Sys, t: Tick, s': Sys)
    requires Healthy(s) && SysStep(s, AtLead(t), s') && !BestExpires(s, AtLead(t))
    requires BestIsUp(s.lead, t) && t.input.peer == s.follow.local
    ensures HeadStays(s, t)
  {
    hide Handle, GoodView, Edited, Records, Shown, PendingAreWorse, Reconciles, Better, SysStep, Healthy, BestExpires, Inv;
    HealthyLeader(s, t, s');
    LeaderMoves(s, t, s');
  }

  /** Step `i` of the run is a pruning by the leader, with its best address up. */
  ghost predicate PrunesAt(ss: seq<Sys>, acts: seq<Action>, i: nat) {
    && i < |acts| <= |ss| && acts[i].AtLead?
    && BestIsUp(ss[i].lead, acts[i].tick) && acts[i].tick.input.peer == ss[i].follow.local
  }

  /** The address it keeps. */
  ghost function KeptAt(ss: seq<Sys>, acts: seq<Action>, i: nat): Multiaddr
    requires PrunesAt(ss, acts, i)
  {
    Shown(ss[i].lead, acts[i].tick)[0].address
  }

  /** In every reachable state: the leader's pruning settles the system on the address it keeps if and
      only if no link there is being closed; so it does until the best live address expires. */
  lemma PruningSettles(ss: seq<Sys>, acts: seq<Action>, i: nat)
    requires IsSysRun(ss, acts) && StartsFresh(ss) && PrunesAt(ss, acts, i)
    ensures Settled(ss[i + 1], KeptAt(ss, acts, i)) <==> HeadStays(ss[i], acts[i].tick)
    ensures (forall k | 0 <= k <= i :: !BestExpires(ss[k], acts[k])) ==> HeadStays(ss[i], acts[i].tick)
  {
    hide SysStep, StartsFresh, Shown, BestExpires, Reconciles, Healthy, HeadStays, Inv, Settled;
    ReachableInv(ss, acts, i);
    PruningStep(ss[i], acts[i].tick, ss[i + 1]);
    if forall k | 0 <= k <= i :: !BestExpires(ss[k], acts[k]) {
      ReachableHealthy(ss, acts, i);
      HealthyHeadStays(ss[i], acts[i].tick, ss[i + 1]);
    }
  }

  // ----- what remains of the links afterwards -----

  /** A new link is announced to the leader. */
  ghost predicate AnnouncesLink(s: Sys, act: Action) {
    act.AtLead? && act.tick.input.Established? && act.tick.input.peer == s.follow.local
  }

  /** The leader hears that `h` has expired. */
  ghost predicate HearsExpiry(s: Sys, act: Action, h: Multiaddr) {
    act.AtLead? && act.tick.input == AddressExpired(s.follow.local, h)
  }

  /** Steps elsewhere change nothing the leader records, and ask to close no link. */
  lemma ElsewhereStep(s: Sys, act: Action, s': Sys)
    requires Inv(s) && SysStep(s, act, s') && !act.AtLead?
    ensures s'.follow.local == s.follow.local
    ensures forall cid, a :: OnLead(s', cid, a) <==> OnLead(s, cid, a)
    ensures forall cid, a | OnLead(s, cid, a) :: cid in s'.pending <==> cid in s.pending
  {
    hide Handle, GoodView, Records, Safe, Apart, IsPruneLeader;
    if act.AtFollow? {
      FollowerStep(s, act.tick, s');
      FollowerKeepsLead(s, act.tick, s');
      assert forall cid, a | OnLead(s, cid, a) :: cid in s.links;
    }
  }

  /** Without new links the leader's records only shrink, and closes are never taken back. */
  lemma RecordsShrink(s: Sys, act: Action, s': Sys)
    requires Inv(s) && SysStep(s, act, s') && !AnnouncesLink(s, act)
    ensures forall cid, a | OnLead(s', cid, a) :: OnLead(s, cid, a)
    ensures s.pending <= s'.pending && s'.follow.local == s.follow.local
    ensures forall h | HearsExpiry(s, act, h) :: forall cid :: !OnLead(s', cid, h)
  {
    if act.AtLead? {
      var t := act.tick;
      LeaderMoves(s, t, s');
      hide Handle, GoodView, Edited, Records, Apart, IsPruneLeader, Safe, SysStep;
      SameAfterReconcile(s, t);
      forall cid, a | OnLead(s', cid, a)
        ensures OnLead(s, cid, a) && !HearsExpiry(s, act, a)
      {
        EditedRecords(s.lead, t, s.follow.local, cid, a);
      }
    } else {
      ElsewhereStep(s, act, s');
      hide Handle, Inv, Announced, OnLead;
    }
  }

  /** No recorded address is better than `h`, and every link that nobody closes lies on `h`. */
  ghost predicate Narrowed(s: Sys, h: Multiaddr) {
    && Inv(s)
    && (forall cid, a | OnLead(s, cid, a) :: BetterOrSame(h, a))
    && (forall cid, a | OnLead(s, cid, a) && cid !in s.pending :: a == h)
  }

  lemma NarrowedStep(s: Sys, act: Action, s': Sys, h: Multiaddr)
    requires Narrowed(s, h) && SysStep(s, act, s') && !AnnouncesLink(s, act)
    ensures Narrowed(s', h)
  {
    InvStep(s, act, s');
    RecordsShrink(s, act, s');
    hide Inv, SysStep, OnLead, AnnouncesLink, Better;
  }

  lemma PruningNarrows(s: Sys, t: Tick, s': Sys)
    requires Inv(s) && SysStep(s, AtLead(t), s') && BestIsUp(s.lead, t) && t.input.peer == s.follow.local
    ensures Narrowed(s', Shown(s.lead, t)[0].address)
  {
    hide Edited, Shown, Reconciles, SysStep, Inv, OnLead, Records, Better, BestIsUp;
    InvStep(s, AtLead(t), s');
    PruningCloses(s, t, s');
  }

  lemma {:induction false} NarrowedRun(ss: seq<Sys>, acts: seq<Action>, h: Multiaddr, m: nat, n: nat)
    requires IsSysRun(ss, acts) && m <= n < |ss| && Narrowed(ss[m], h)
    requires forall k | m <= k < n :: !AnnouncesLink(ss[k], acts[k])
    ensures Narrowed(ss[n], h) && ss[m].pending <= ss[n].pending
    ensures forall cid, a | OnLead(ss[n], cid, a) :: OnLead(ss[m], cid, a)
    decreases n
  {
    hide SysStep, Inv, AnnouncesLink, OnLead, Better;
    if m < n {
      NarrowedRun(ss, acts, h, m, n - 1);
      NarrowedStep(ss[n - 1], acts[n - 1], ss[n], h);
      RecordsShrink(ss[n - 1], acts[n - 1], ss[n]);
    }
  }

  /** A link on `h` that nobody closes stays so until `h` expires. */
  lemma KeptStays(s: Sys, act: Action, s': Sys, h: Multiaddr, cid: ConnId)
    requires Narrowed(s, h) && SysStep(s, act, s') && !HearsExpiry(s, act, h)
    requires !AnnouncesLink(s, act) && OnLead(s, cid, h) && cid !in s.pending
    ensures OnLead(s', cid, h) && cid !in s'.pending
  {
    if act.AtLead? {
      KeptStaysRecorded(s, act.tick, h, cid);
      KeptStaysOpen(s, act.tick, s', h, cid);
    } else {
      hide SysStep, Inv;
      ElsewhereStep(s, act, s');
    }
  }

  lemma KeptStaysRecorded(s: Sys, t: Tick, h: Multiaddr, cid: ConnId)
    requires Inv(s) && Announced(s, s.follow.local, s.openedLead, t.input) && !HearsExpiry(s, AtLead(t), h)
    requires !AnnouncesLink(s, AtLead(t)) && OnLead(s, cid, h) && cid !in s.pending
    ensures Records(Edited(s.lead, t), s.follow.local, cid, h)
  {
    hide Edited, GoodView, Records, Apart, IsPruneLeader, Safe;
    EditedRecords(s.lead, t, s.follow.local, cid, h);
  }

  lemma KeptStaysOpen(s: Sys, t: Tick, s': Sys, h: Multiaddr, cid: ConnId)
    requires Narrowed(s, h) && SysStep(s, AtLead(t), s') && !AnnouncesLink(s, AtLead(t))
    requires cid !in s.pending && Records(Edited(s.lead, t), s.follow.local, cid, h)
    ensures OnLead(s', cid, h) && cid !in s'.pending
  {
    LeaderCloses(s, t);
    SameAfterReconcile(s, t);
    EditedOpened(s, t);
    LeaderMoves(s, t, s');
    var closed := Closes(Handle(s.lead, t).value.effects);
    assert s'.pending == s.pending + closed;
    RecordsShrink(s, AtLead(t), s');
    hide Handle, GoodView, Edited, Records, Shown, Reconciles, Better, SysStep, Inv, BestIsUp, Announced, AnnouncesLink;
    var e, f := Edited(s.lead, t), s.follow.local;
    assert forall c, a :: OnLead(s', c, a) <==> Records(e, f, c, a);
    if BestIsUp(s.lead, t) && t.input.peer == f {
      var top := Shown(s.lead, t)[0].address;
      var c :| Records(e, f, c, top);
      assert OnLead(s', c, top);
      SameIfBothBetter(h, top);
      if b :| b != top && Records(e, f, cid, b) {
        OneAddressPerConnection(e, f, cid, b, h);
      }
    }
  }

  lemma SameIfBothBetter(a: Multiaddr, b: Multiaddr)
    ensures BetterOrSame(a, b) && BetterOrSame(b, a) ==> a == b
  {
    if Better(a, b) && Better(b, a) {
      BetterAsymmetric(a, b);
    }
  }

  lemma {:induction false} KeptRun(ss: seq<Sys>, acts: seq<Action>, h: Multiaddr, m: nat, n: nat, cid: ConnId)
    requires IsSysRun(ss, acts) && m <= n < |ss| && Narrowed(ss[m], h) && OnLead(ss[m], cid, h) && cid !in ss[m].pending
    requires forall k | m <= k < n :: !AnnouncesLink(ss[k], acts[k]) && !HearsExpiry(ss[k], acts[k], h)
    ensures OnLead(ss[n], cid, h) && cid !in ss[n].pending
    decreases n
  {
    hide SysStep, Narrowed, AnnouncesLink, HearsExpiry, OnLead;
    if m < n {
      KeptRun(ss, acts, h, m, n - 1, cid);
      NarrowedRun(ss, acts, h, m, n - 1);
      KeptStays(ss[n - 1], acts[n - 1], ss[n], h, cid);
    }
  }

  /** After a pruning with the best address up, and as long as no new link is announced to the leader, the
      links it records that nobody is closing lie on the address kept then, and are up. */
  lemma OpenLinksOnKept(ss: seq<Sys>, acts: seq<Action>, i: nat, n: nat)
    requires IsSysRun(ss, acts) && StartsFresh(ss) && PrunesAt(ss, acts, i) && i < n < |ss|
    requires forall k | i < k < n :: !AnnouncesLink(ss[k], acts[k])
    ensures Narrowed(ss[i + 1], KeptAt(ss, acts, i)) && Narrowed(ss[n], KeptAt(ss, acts, i))
    ensures forall cid, a | OnLead(ss[n], cid, a) && cid !in ss[n].pending :: a == KeptAt(ss, acts, i) && cid in ss[n].up
  {
    hide SysStep, StartsFresh, Shown, Reconciles, AnnouncesLink, BestIsUp, Inv, OnLead, Better;
    ReachableInv(ss, acts, i);
    PruningNarrows(ss[i], acts[i].tick, ss[i + 1]);
    NarrowedRun(ss, acts, KeptAt(ss, acts, i), i + 1, n);
    RecordedIsUp(ss[n]);
  }

  lemma RecordedIsUp(s: Sys)
    requires Inv(s)
    ensures forall cid, a | OnLead(s, cid, a) && cid !in s.pending :: cid in s.up
  {
    hide GoodView, Records, Apart, Safe, IsPruneLeader;
    assert forall cid, a | OnLead(s, cid, a) :: cid in s.links;
  }

  /** Quiescence: if moreover every close asked for has been delivered, all that the leader records lies
      on the kept address and is up. What it records are exactly the links on that address that nobody
      was closing after the pruning, if and only if there were none or the address has not expired. */
  lemma QuiescenceAfterPruning(ss: seq<Sys>, acts: seq<Action>, i: nat, n: nat)
    requires IsSysRun(ss, acts) && StartsFresh(ss) && PrunesAt(ss, acts, i) && i < n < |ss|
    requires forall k | i < k < n :: !AnnouncesLink(ss[k], acts[k])
    requires forall cid, a | OnLead(ss[n], cid, a) :: cid !in ss[n].pending
    ensures var h := KeptAt(ss, acts, i);
            && (forall cid, a | OnLead(ss[n], cid, a) :: a == h && cid in ss[n].up)
            && ((forall cid :: OnLead(ss[n], cid, h) <==> OnLead(ss[i + 1], cid, h) && cid !in ss[i + 1].pending) <==>
                (Live(ss[i + 1], h) ==> forall k | i < k < n :: !HearsExpiry(ss[k], acts[k], h)))
  {
    OpenLinksOnKept(ss, acts, i, n);
    hide *;
    WhatIsLeft(ss, acts, KeptAt(ss, acts, i), i + 1, n);
  }

  lemma WhatIsLeft(ss: seq<Sys>, acts: seq<Action>, h: Multiaddr, m: nat, n: nat)
    requires IsSysRun(ss, acts) && m <= n < |ss| && Narrowed(ss[m], h)
    requires forall k | m <= k < n :: !AnnouncesLink(ss[k], acts[k])
    requires forall cid, a | OnLead(ss[n], cid, a) :: cid !in ss[n].pending
    ensures (forall cid :: OnLead(ss[n], cid, h) <==> OnLead(ss[m], cid, h) && cid !in ss[m].pending) <==>
            (Live(ss[m], h) ==> forall k | m <= k < n :: !HearsExpiry(ss[k], acts[k], h))
  {
    hide SysStep, Narrowed, AnnouncesLink, HearsExpiry, OnLead;
    NarrowedRun(ss, acts, h, m, n);
    if forall k | m <= k < n :: !HearsExpiry(ss[k], acts[k], h) {
      forall cid | OnLead(ss[m], cid, h) && cid !in ss[m].pending
        ensures OnLead(ss[n], cid, h)
      {
        KeptRun(ss, acts, h, m, n, cid);
      }
    } else {
      var k :| m <= k < n && HearsExpiry(ss[k], acts[k], h);
      NothingAfterExpiry(ss, acts, h, m, k, n);
    }
  }

  lemma NothingAfterExpiry(ss: seq<Sys>, acts: seq<Action>, h: Multiaddr, m: nat, k: nat, n: nat)
    requires IsSysRun(ss, acts) && m <= k < n < |ss| && Narrowed(ss[m], h) && HearsExpiry(ss[k], acts[k], h)
    requires forall j | m <= j < n :: !AnnouncesLink(ss[j], acts[j])
    ensures forall cid :: !OnLead(ss[n], cid, h)
  {
    hide SysStep, AnnouncesLink, HearsExpiry, OnLead, Inv;
    NarrowedRun(ss, acts, h, m, k);
    RecordsShrink(ss[k], acts[k], ss[k + 1]);
    NarrowedRun(ss, acts, h, m, k + 1);
    NarrowedRun(ss, acts, h, k + 1, n);
  }

  /** If the pruning found no link on the kept address being closed, and that address does not expire,
      all its links remain, and there are some. */
  lemma QuiescenceKeepsAll(ss: seq<Sys>, acts: seq<Action>, i: nat, n: nat)
    requires IsSysRun(ss, acts) && StartsFresh(ss) && PrunesAt(ss, acts, i) && i < n < |ss|
    requires HeadStays(ss[i], acts[i].tick)
    requires forall k | i < k < n :: !AnnouncesLink(ss[k], acts[k]) && !HearsExpiry(ss[k], acts[k], KeptAt(ss, acts, i))
    requires forall cid, a | OnLead(ss[n], cid, a) :: cid !in ss[n].pending
    ensures var h := KeptAt(ss, acts, i);
            (exists cid :: OnLead(ss[n], cid, h)) && forall cid :: OnLead(ss[n], cid, h) <==> OnLead(ss[i + 1], cid, h)
  {
    PruningSettles(ss, acts, i);
    QuiescenceAfterPruning(ss, acts, i, n);
    hide SysStep, StartsFresh, Healthy, AnnouncesLink, HearsExpiry, OnLead, PrunesAt, KeptAt, HeadStays;
    var h := KeptAt(ss, acts, i);
    var keep :| OnLead(ss[i + 1], keep, h);
    assert OnLead(ss[n], keep, h);
  }
}
