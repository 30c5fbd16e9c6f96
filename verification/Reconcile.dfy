/** `reconcile_peer_connections` of src/network/mod.rs, on one peer's address list. */
module Reconcile {
  import opened Options
  import opened Multiaddrs
  import opened Metadata
  import opened AddressList
  import opened AddressListFacts
  import opened Effects

  /** What a call needs to know besides the list: whom it is about, whether we are prune leader, the
      clock, and which addresses the swarm would reject if dialled now. */
  datatype Call = Call(peer: PeerId, leader: bool, now: Instant, refused: set<Multiaddr>)

  datatype Outcome = Outcome(addresses: Addresses, effects: seq<Effect>)

  /** Connections on a list of entries, in list order. */
  function ConnectionsOf(s: Addresses): seq<ConnId> {
    if s == [] then [] else s[0].activeConnections + ConnectionsOf(s[1..])
  }

  /** One call. The recursion after a rejected dial need not end, so it is cut off after `fuel`
      recursive calls; `None` says it has not ended by then. */
  function Run(s: Addresses, c: Call, fuel: nat): Option<Outcome>
    decreases fuel
  {
    if s == [] then Some(Outcome(s, []))
    else
      var best := s[0].address;
      if IsConnectedOver(s, best) then
        if c.leader then Some(Outcome(s, CloseEach(ConnectionsOf(s[1..]))))
        else Some(Outcome(s, []))
      else if !IsConnected(s) then
        if best !in c.refused then Some(Outcome(s, [Dial(c.peer, best, true)]))
        else if fuel == 0 then None
        else
          match Run(MarkFailure(s, best, c.now), c, fuel - 1)
          case None => None
          case Some(rest) => Some(Outcome(rest.addresses, [Dial(c.peer, best, false)] + rest.effects))
      else if c.leader then
        if best !in c.refused then Some(Outcome(s, [Dial(c.peer, best, true)]))
        else Some(Outcome(MarkFailure(s, best, c.now), [Dial(c.peer, best, false)]))
      else Some(Outcome(s, []))
  }

  ghost predicate Ends(s: Addresses, c: Call) {
    exists fuel :: Run(s, c, fuel).Some?
  }

  /** The lists that the successive recursive calls look at. */
  function Inputs(s: Addresses, c: Call, fuel: nat): seq<Addresses>
    decreases fuel
  {
    [s] +
    if s == [] || IsConnected(s) || s[0].address !in c.refused || fuel == 0 then []
    else Inputs(MarkFailure(s, s[0].address, c.now), c, fuel - 1)
  }

  // ----- the head of the list -----

  lemma HeadEntry(s: Addresses)
    requires Good(s) && s != []
    ensures IndexOfAddr(s, s[0].address) == 0
    ensures s[0].address in TableOf(s) && TableOf(s)[s[0].address] == s[0]
    ensures IsConnectedOver(s, s[0].address) <==> s[0].activeConnections != []
  {
    IndexIsUnique(s, 0);
    assert s[0] in s;
    EntryInTable(s, s[0]);
  }

  /** Every call, recursive ones included, that sees a nonempty list sees it sorted for the current
      clock, so that its head is the true minimum. */
  lemma {:induction false} EveryCallSeesSortedList(s: Addresses, c: Call, fuel: nat, k: nat)
    requires Good(s) && Sorted(s, c.now) && k < |Inputs(s, c, fuel)|
    ensures var l := Inputs(s, c, fuel)[k];
            && Good(l) && Sorted(l, c.now)
            && (l != [] ==> forall m | m in l :: m == l[0] || Before(l[0], m, c.now))
    decreases fuel
  {
    hide TableOf, Good, Sorted, Before, MarkFailure, IsConnected, IsConnectedOver;
    if k == 0 {
      if s != [] {
        HeadIsBest(s, c.now);
      }
    } else {
      var best := s[0].address;
      HeadEntry(s);
      StillUnconnected(s, best, c.now);
      EveryCallSeesSortedList(MarkFailure(s, best, c.now), c, fuel - 1, k - 1);
    }
  }

  /** More fuel never changes an answer. */
  lemma {:induction false} FuelMonotone(s: Addresses, c: Call, fuel: nat, more: nat)
    requires Run(s, c, fuel).Some? && fuel <= more
    ensures Run(s, c, more) == Run(s, c, fuel)
    decreases fuel
  {
    if s != [] && !IsConnectedOver(s, s[0].address) && !IsConnected(s) && s[0].address in c.refused {
      FuelMonotone(MarkFailure(s, s[0].address, c.now), c, fuel - 1, more - 1);
    }
  }

  // ----- what a call does to the list -----

  /** Failures recorded on one address are those of `m` plus the rejections in `effects`, of which the
      last happened now. */
  predicate CountedEntry(m: AddressMetadata, m': AddressMetadata, effects: seq<Effect>, peer: PeerId, now: Instant) {
    && m'.errCount == Min(m.errCount + Rejections(effects, peer, m.address), U32_MAX)
    && m'.lastErr == if Rejections(effects, peer, m.address) > 0 then Some(now) else m.lastErr
  }

  ghost predicate FailuresCounted(t: Table, u: Table, effects: seq<Effect>, peer: PeerId, now: Instant) {
    forall a | a in t && a in u :: CountedEntry(t[a], u[a], effects, peer, now)
  }

  /** A call neither lists nor unlists addresses, moves no connection, and records exactly the dials
      that were rejected. */
  ghost predicate KeepsConnections(s: Addresses, r: Outcome, c: Call) {
    && Good(r.addresses) && Sorted(r.addresses, c.now)
    && var t, u := TableOf(s), TableOf(r.addresses);
    && u.Keys == t.Keys
    && (forall cid, a :: On(u, cid, a) <==> On(t, cid, a))
    && FailuresCounted(t, u, r.effects, c.peer, c.now)
    && (forall e | e in r.effects :: e.CloseConnection? || (e.Dial? && e.peer == c.peer && e.addr in t))
  }

  lemma Unchanged(s: Addresses, c: Call, effects: seq<Effect>)
    requires Good(s) && Sorted(s, c.now)
    requires forall e | e in effects :: e.CloseConnection? || (e.Dial? && e.peer == c.peer && e.addr in TableOf(s) && e.accepted)
    ensures KeepsConnections(s, Outcome(s, effects), c)
  {
    GoodIsGoodTable(s);
    hide TableOf, Sorted, Good, On, Rejections;
    forall a | a in TableOf(s)
      ensures CountedEntry(TableOf(s)[a], TableOf(s)[a], effects, c.peer, c.now)
    {
      NoRejections(effects, c.peer, a);
    }
  }

  lemma GoodAddress(s: Addresses, a: Multiaddr)
    requires Good(s) && a in TableOf(s)
    ensures TableOf(s)[a].address == a && TableOf(s)[a].errCount <= U32_MAX
  {
  }

  lemma Marked(s: Addresses, c: Call, a: Multiaddr)
    requires Good(s) && a in TableOf(s) && TableOf(s)[a].activeConnections == []
    ensures KeepsConnections(s, Outcome(MarkFailure(s, a, c.now), [Dial(c.peer, a, false)]), c)
  {
    hide TableOf, MarkFailure, Sorted, Good;
    MarkFailureFacts(s, a, c.now);
    GoodIsGoodTable(s);
    var u := TableOf(MarkFailure(s, a, c.now));
    forall b | b in u
      ensures CountedEntry(TableOf(s)[b], u[b], [Dial(c.peer, a, false)], c.peer, c.now)
    {
      GoodAddress(s, b);
      assert [Dial(c.peer, a, false)][1..] == [];
      assert Rejections([Dial(c.peer, a, false)], c.peer, b) == if b == a then 1 else 0;
    }
  }

  lemma Chained(s: Addresses, a: Multiaddr, mid: Addresses, r: Outcome, c: Call)
    requires Good(s) && KeepsConnections(s, Outcome(mid, [Dial(c.peer, a, false)]), c)
    requires KeepsConnections(mid, r, c)
    ensures KeepsConnections(s, Outcome(r.addresses, [Dial(c.peer, a, false)] + r.effects), c)
  {
    hide TableOf, Sorted, Good, Rejections;
    var first := [Dial(c.peer, a, false)];
    forall b | b in TableOf(s)
      ensures CountedEntry(TableOf(s)[b], TableOf(r.addresses)[b], first + r.effects, c.peer, c.now)
    {
      RejectionsConcat(first, r.effects, c.peer, b);
      GoodAddress(s, b);
      GoodAddress(mid, b);
    }
    assert Dial(c.peer, a, false) in first;
  }

  lemma {:induction false} RunKeepsConnections(s: Addresses, c: Call, fuel: nat)
    requires Good(s) && Sorted(s, c.now) && Run(s, c, fuel).Some?
    ensures KeepsConnections(s, Run(s, c, fuel).value, c)
    decreases fuel
  {
    hide TableOf, Sorted, Good, KeepsConnections, MarkFailure, CloseEach, IsConnectedOver;
    Unchanged(s, c, []);
    if s != [] {
      HeadEntry(s);
      var best := s[0].address;
      if s[0].activeConnections != [] {
        CloseEachMembers(ConnectionsOf(s[1..]));
        Unchanged(s, c, CloseEach(ConnectionsOf(s[1..])));
      } else if best !in c.refused {
        Unchanged(s, c, [Dial(c.peer, best, true)]);
      } else {
        Marked(s, c, best);
        if !IsConnected(s) {
          var mid := MarkFailure(s, best, c.now);
          StillUnconnected(s, best, c.now);
          RunKeepsConnections(mid, c, fuel - 1);
          Chained(s, best, mid, Run(mid, c, fuel - 1).value, c);
        }
      }
    }
  }

  // ----- which connections a call closes -----

  lemma {:induction false} ConnectionsOfMembers(s: Addresses)
    ensures forall cid :: cid in ConnectionsOf(s) <==> exists i :: 0 <= i < |s| && cid in s[i].activeConnections
  {
    if s != [] {
      ConnectionsOfMembers(s[1..]);
      forall cid
        ensures cid in ConnectionsOf(s) <==> exists i :: 0 <= i < |s| && cid in s[i].activeConnections
      {
        if i :| 0 <= i < |s| && cid in s[i].activeConnections {
          if i > 0 {
            assert cid in s[1..][i - 1].activeConnections;
          }
        }
        if cid in ConnectionsOf(s) && cid !in s[0].activeConnections {
          assert cid in ConnectionsOf(s[1..]);
          var i :| 0 <= i < |s[1..]| && cid in s[1..][i].activeConnections;
          assert cid in s[i + 1].activeConnections;
        }
      }
    }
  }

  /** Connections recorded off the head. */
  lemma TailConnections(s: Addresses)
    requires Good(s) && s != []
    ensures forall cid :: cid in ConnectionsOf(s[1..]) <==> exists a :: a != s[0].address && On(TableOf(s), cid, a)
  {
    ConnectionsOfMembers(s[1..]);
    forall cid
      ensures cid in ConnectionsOf(s[1..]) <==> exists a :: a != s[0].address && On(TableOf(s), cid, a)
    {
      if cid in ConnectionsOf(s[1..]) {
        var i :| 0 <= i < |s[1..]| && cid in s[1..][i].activeConnections;
        assert s[i + 1] in s;
        EntryInTable(s, s[i + 1]);
        assert On(TableOf(s), cid, s[i + 1].address);
      }
      if a :| a != s[0].address && On(TableOf(s), cid, a) {
        TableAddress(s, a);
        var k := IndexOfAddr(s, a);
        assert s[1..][k - 1] == s[k];
      }
    }
  }

  /** A call closes something only as leader with the best address up; then it closes exactly the
      connections recorded on other addresses. */
  lemma {:induction false} RunCloses(s: Addresses, c: Call, fuel: nat, cid: ConnId)
    requires Good(s) && Sorted(s, c.now) && Run(s, c, fuel).Some?
    ensures CloseConnection(cid) in Run(s, c, fuel).value.effects <==>
            && c.leader && s != [] && s[0].activeConnections != []
            && exists a :: a != s[0].address && On(TableOf(s), cid, a)
    decreases fuel
  {
    hide TableOf, Sorted, Good, On, MarkFailure, CloseEach, IsConnectedOver, ConnectionsOf;
    if s != [] {
      HeadEntry(s);
      if s[0].activeConnections != [] {
        TailConnections(s);
        CloseEachMembers(ConnectionsOf(s[1..]));
      } else if !IsConnected(s) && s[0].address in c.refused {
        var best := s[0].address;
        var mid := MarkFailure(s, best, c.now);
        StillUnconnected(s, best, c.now);
        RunCloses(mid, c, fuel - 1, cid);
      }
    }
  }

  lemma NoConnection(s: Addresses)
    requires Good(s)
    ensures !IsConnected(s) <==> forall a | a in TableOf(s) :: TableOf(s)[a].activeConnections == []
    ensures !IsConnected(s) ==> forall k | 0 <= k < |s| :: s[k].activeConnections == []
  {
    forall a | a in TableOf(s) && !IsConnected(s)
      ensures TableOf(s)[a].activeConnections == []
    {
      TableAddress(s, a);
    }
    if IsConnected(s) {
      var k :| 0 <= k < |s| && s[k].activeConnections != [];
      EntryInTable(s, s[k]);
    }
  }

  /** Recording a failure for a peer without connection leaves it without connection. */
  lemma StillUnconnected(s: Addresses, a: Multiaddr, now: Instant)
    requires Good(s) && a in TableOf(s) && !IsConnected(s)
    ensures var r := MarkFailure(s, a, now);
            && Good(r) && Sorted(r, now) && !IsConnected(r)
            && TableOf(r) == TableOf(s)[a := Failed(TableOf(s)[a], now)]
            && forall k | 0 <= k < |r| :: r[k].activeConnections == []
  {
    hide MarkFailure, TableOf, Sorted, IsConnected, Good;
    NoConnection(s);
    MarkFailureFacts(s, a, now);
    NoConnection(MarkFailure(s, a, now));
  }
}
