/** When does the dial recursion of `reconcile_peer_connections` end? For a peer without connection,
    a clock that stands still during the event, and a fixed answer per address. */
module DialRecursion {
  import opened Options
  import opened Multiaddrs
  import opened Metadata
  import opened AddressList
  import opened AddressListFacts
  import opened Effects
  import opened Reconcile

  /** How many entries at the front are not cooling down. */
  function Ready(s: Addresses, now: Instant): (n: nat)
    ensures n <= |s| && (forall k | 0 <= k < n :: !InCooldown(s[k], now)) && (n < |s| ==> InCooldown(s[n], now))
  {
    if s == [] || InCooldown(s[0], now) then 0 else 1 + Ready(s[1..], now)
  }

  function FailedDials(s: Addresses, peer: PeerId): seq<Effect> {
    seq(|s|, i requires 0 <= i < |s| => Dial(peer, s[i].address, false))
  }

  /** No listed address has a better static rank than `f`. */
  ghost predicate StaticallyFirst(s: Addresses, f: Multiaddr) {
    f in AddressesOf(s) && forall a | a in AddressesOf(s) :: BetterOrSame(f, a)
  }

  lemma {:induction false} SomeoneIsFirst(s: Addresses) returns (f: Multiaddr)
    requires s != []
    ensures StaticallyFirst(s, f)
  {
    assert forall a :: a in AddressesOf(s) <==> a == s[0].address || a in AddressesOf(s[1..]) by {
      assert s == [s[0]] + s[1..];
      assert forall m :: m in s <==> m == s[0] || m in s[1..];
    }
    if |s| == 1 {
      f := s[0].address;
    } else {
      var g := SomeoneIsFirst(s[1..]);
      BetterTotal(s[0].address, g);
      f := if Better(s[0].address, g) then s[0].address else g;
      forall a | a in AddressesOf(s)
        ensures BetterOrSame(f, a)
      {
        if f != g && a != f && a != g {
          BetterTransitive(f, g, a);
        }
      }
    }
  }

  lemma FirstIsUnique(s: Addresses, f: Multiaddr, g: Multiaddr)
    requires StaticallyFirst(s, f) && StaticallyFirst(s, g)
    ensures f == g
  {
    if f != g {
      BetterAsymmetric(f, g);
    }
  }

  /** In a sorted list the cooling entries are exactly those behind the ready ones. */
  lemma ReadyThenCooling(s: Addresses, now: Instant)
    requires Good(s) && Sorted(s, now)
    ensures forall k | Ready(s, now) <= k < |s| :: InCooldown(s[k], now)
  {
    hide Good, InCooldown, Classified, Before;
    GoodIsClassified(s);
    var r := Ready(s, now);
    forall k | r < k < |s|
      ensures InCooldown(s[k], now)
    {
      BeforeMeaning(s[r], s[k], now);
    }
  }

  lemma FailedIsCooling(m: AddressMetadata, now: Instant)
    ensures InCooldown(Failed(m, now), now)
  {
    Pow2Monotone(0, Min(Failed(m, now).errCount, 6));
  }

  lemma CoolingLast(x: Addresses, y: Addresses, now: Instant)
    requires Sorted(x, now) && Sorted(y, now)
    requires forall k | 0 <= k < |x| :: Classified(x[k]) && !InCooldown(x[k], now)
    requires forall k | 0 <= k < |y| :: Classified(y[k]) && InCooldown(y[k], now)
    ensures Sorted(x + y, now)
  {
    hide Before, Classified, InCooldown;
    var r := x + y;
    forall i, j | 0 <= i < j < |r|
      ensures Before(r[i], r[j], now)
    {
      if i < |x| <= j {
        BeforeMeaning(x[i], y[j - |x|], now);
      }
    }
  }

  /** The list after a ready head failed: the other ready entries, then the cooling ones. */
  function Rotated(s: Addresses, r: nat, now: Instant): Addresses
    requires 0 < r <= |s|
  {
    s[1..r] + Resort([Failed(s[0], now)] + s[r..], now)
  }

  /** Sorting a list of cooling entries gives a sorted list of cooling entries. */
  lemma ResortCooling(y: Addresses, now: Instant)
    requires UniqueAddresses(y)
    requires forall k | 0 <= k < |y| :: Classified(y[k]) && InCooldown(y[k], now)
    ensures Sorted(Resort(y, now), now) && |Resort(y, now)| == |y|
    ensures forall k | 0 <= k < |y| :: Classified(Resort(y, now)[k]) && InCooldown(Resort(y, now)[k], now)
  {
    hide Before, InCooldown, Classified, Resort, UniqueAddresses;
    ResortEntries(y, now);
    ResortSorts(y, now);
    var z := Resort(y, now);
    forall k | 0 <= k < |z|
      ensures Classified(z[k]) && InCooldown(z[k], now)
    {
      assert z[k] in y;
    }
  }

  lemma CoolingTail(s: Addresses, r: nat, now: Instant)
    requires UniqueAddresses(s) && 0 < r <= |s|
    requires forall k | 0 <= k < |s| :: Classified(s[k])
    requires forall k | r <= k < |s| :: InCooldown(s[k], now)
    ensures var y := [Failed(s[0], now)] + s[r..];
            UniqueAddresses(y) && forall k | 0 <= k < |y| :: Classified(y[k]) && InCooldown(y[k], now)
  {
    FailedIsCooling(s[0], now);
    FailedClassified(s[0], now);
    CoolingPart(s, r, Failed(s[0], now));
    hide InCooldown, Classified, UniqueAddresses, Failed;
    var y := [Failed(s[0], now)] + s[r..];
    forall k | 0 <= k < |y|
      ensures Classified(y[k]) && InCooldown(y[k], now)
    {
      if k > 0 {
        assert y[k] == s[r + k - 1];
      }
    }
  }

  lemma GoodIsClassified(s: Addresses)
    requires Good(s)
    ensures UniqueAddresses(s) && forall k | 0 <= k < |s| :: Classified(s[k])
  {
    hide Classified;
    forall k | 0 <= k < |s|
      ensures Classified(s[k])
    {
      assert s[k] in s;
      EntryInTable(s, s[k]);
    }
  }

  lemma RotatedSorted(s: Addresses, r: nat, now: Instant)
    requires Good(s) && Sorted(s, now) && 0 < r <= |s|
    requires forall k | 0 <= k < r :: !InCooldown(s[k], now)
    requires forall k | r <= k < |s| :: InCooldown(s[k], now)
    ensures Sorted(Rotated(s, r, now), now) && |Rotated(s, r, now)| == |s|
    ensures InCooldown(Rotated(s, r, now)[r - 1], now)
  {
    hide Good, UniqueAddresses, Before, InCooldown, Classified, Resort, Failed;
    GoodIsClassified(s);
    CoolingTail(s, r, now);
    var y := [Failed(s[0], now)] + s[r..];
    ResortCooling(y, now);
    var x := s[1..r];
    assert forall k | 0 <= k < |x| :: x[k] == s[k + 1];
    CoolingLast(x, Resort(y, now), now);
    assert Rotated(s, r, now)[r - 1] == Resort(y, now)[0];
  }

  lemma RotatedEntries(s: Addresses, r: nat, now: Instant)
    requires UniqueAddresses(s) && 0 < r <= |s|
    ensures forall m :: m in Rotated(s, r, now) <==> m in MarkFailure(s, s[0].address, now)
  {
    hide MarkFailure, Resort, UniqueAddresses;
    MarkedEntries(s, now);
    SplitEntries(s, r, Failed(s[0], now));
    ResortEntries([Failed(s[0], now)] + s[r..], now);
  }

  lemma FailedClassified(m: AddressMetadata, now: Instant)
    requires Classified(m)
    ensures Classified(Failed(m, now))
  {
  }

  lemma SameFirst(s: Addresses, t: Addresses)
    requires TableOf(s).Keys == TableOf(t).Keys
    ensures forall f :: StaticallyFirst(t, f) <==> StaticallyFirst(s, f)
  {
    assert AddressesOf(s) == AddressesOf(t);
  }

  lemma FailureRotates(s: Addresses, now: Instant)
    requires Good(s) && Sorted(s, now) && Ready(s, now) > 0
    requires Sorted(MarkFailure(s, s[0].address, now), now)
    ensures MarkFailure(s, s[0].address, now) == Rotated(s, Ready(s, now), now)
    ensures |Rotated(s, Ready(s, now), now)| == |s|
    ensures InCooldown(Rotated(s, Ready(s, now), now)[Ready(s, now) - 1], now)
  {
    GoodIsClassified(s);
    hide *;
    var r := Ready(s, now);
    ReadyThenCooling(s, now);
    RotatedSorted(s, r, now);
    RotatedEntries(s, r, now);
    SortedFormIsCanonical(MarkFailure(s, s[0].address, now), Rotated(s, r, now), now);
  }

  /** A rejected ready head moves behind the ready entries; these move up by one. */
  lemma HeadGoesBack(s: Addresses, now: Instant)
    requires Good(s) && Sorted(s, now) && !IsConnected(s) && Ready(s, now) > 0
    ensures var t := MarkFailure(s, s[0].address, now);
            && Good(t) && Sorted(t, now) && !IsConnected(t) && t != []
            && (forall f :: StaticallyFirst(t, f) <==> StaticallyFirst(s, f))
            && Ready(t, now) == Ready(s, now) - 1
            && forall k | 0 <= k < Ready(s, now) - 1 :: t[k] == s[k + 1]
  {
    hide Good, UniqueAddresses, Before, InCooldown, Classified, Resort, Failed, Sorted, StaticallyFirst, MarkFailure,
      IsConnected, TableOf, Ready;
    var r := Ready(s, now);
    var t := MarkFailure(s, s[0].address, now);
    HeadEntry(s);
    StillUnconnected(s, s[0].address, now);
    SameFirst(s, t) by {
      assert TableOf(t).Keys == TableOf(s).Keys;
    }
    FailureRotates(s, now);
    assert forall k | 0 <= k < r - 1 :: Rotated(s, r, now)[k] == s[k + 1];
    ReadyIs(t, r - 1, now);
  }

  lemma CoolingPart(s: Addresses, r: nat, f: AddressMetadata)
    requires UniqueAddresses(s) && 0 < r <= |s| && f.address == s[0].address
    ensures UniqueAddresses([f] + s[r..])
  {
    var y := [f] + s[r..];
    forall i, j | 0 <= i < j < |y|
      ensures y[i].address != y[j].address
    {
      assert y[j] == s[r + j - 1];
    }
  }

  lemma MarkedEntries(s: Addresses, now: Instant)
    requires UniqueAddresses(s) && s != []
    ensures forall m :: m in MarkFailure(s, s[0].address, now) <==>
                        m == Failed(s[0], now) || (m in s && m.address != s[0].address)
  {
    IndexIsUnique(s, 0);
    UpdateEntries(s, 0, Failed(s[0], now));
    ResortEntries(s[0 := Failed(s[0], now)], now);
  }

  lemma SplitEntries(s: Addresses, r: nat, f: AddressMetadata)
    requires UniqueAddresses(s) && 0 < r <= |s|
    ensures forall m :: m in s[1..r] || m in [f] + s[r..] <==> m == f || (m in s && m.address != s[0].address)
  {
    assert s == [s[0]] + s[1..r] + s[r..];
    forall m | m in s[1..r] || m in s[r..]
      ensures m.address != s[0].address
    {
      if m in s[1..r] {
        var k :| 0 <= k < |s[1..r]| && s[1..r][k] == m;
        assert s[k + 1] == m;
      } else {
        var k :| 0 <= k < |s[r..]| && s[r..][k] == m;
        assert s[k + r] == m;
      }
    }
  }

  lemma {:induction false} ReadyIs(s: Addresses, n: nat, now: Instant)
    requires n < |s| && (forall k | 0 <= k < n :: !InCooldown(s[k], now)) && InCooldown(s[n], now)
    ensures Ready(s, now) == n
  {
    if n > 0 {
      ReadyIs(s[1..], n - 1, now);
    }
  }

  /** With every entry cooling down, a rejected head stays the head. */
  lemma HeadStays(s: Addresses, now: Instant)
    requires Good(s) && Sorted(s, now) && !IsConnected(s) && Ready(s, now) == 0 && s != []
    ensures var t := MarkFailure(s, s[0].address, now);
            && Good(t) && Sorted(t, now) && !IsConnected(t) && t != []
            && (forall f :: StaticallyFirst(t, f) <==> StaticallyFirst(s, f))
            && Ready(t, now) == 0 && t[0].address == s[0].address
  {
    var t := MarkFailure(s, s[0].address, now);
    HeadEntry(s);
    StillUnconnected(s, s[0].address, now);
    var f := Failed(s[0], now);
    FailedIsCooling(s[0], now);
    var u := s[0 := f];
    assert SortKey(f, now) == SortKey(s[0], now);
    forall i, j | 0 <= i < j < |u|
      ensures Before(u[i], u[j], now)
    {
      assert Before(s[i], s[j], now);
    }
    MarkedEntries(s, now);
    UpdateEntries(s, 0, f);
    SortedFormIsCanonical(t, u, now);
    assert AddressesOf(t) == AddressesOf(s);
  }

  /** The head of an all-cooling list is the statically first address. */
  lemma CoolingHeadIsFirst(s: Addresses, now: Instant)
    requires Good(s) && Sorted(s, now) && s != [] && Ready(s, now) == 0
    ensures StaticallyFirst(s, s[0].address)
  {
    ReadyThenCooling(s, now);
    HeadEntry(s);
    HeadIsBest(s, now);
    TableEntries(s);
    forall a | a in AddressesOf(s)
      ensures BetterOrSame(s[0].address, a)
    {
      var k := IndexOfAddr(s, a);
      ListedAt(s, a);
      assert s[k] in s && s[0] in s;
      if k > 0 {
        BeforeMeaning(s[0], s[k], now);
      }
    }
  }

  // ----- the three outcomes -----

  /** If the k-th entry is the first ready one the swarm accepts, exactly that address gets dialled,
      after k rejected dials, in rank order. */
  lemma {:induction false} DialsFirstAcceptedReady(s: Addresses, c: Call, k: nat, fuel: nat)
    requires Good(s) && Sorted(s, c.now) && !IsConnected(s)
    requires k < Ready(s, c.now) && s[k].address !in c.refused
    requires forall j | 0 <= j < k :: s[j].address in c.refused
    ensures Run(s, c, fuel).Some? <==> fuel >= k
    ensures fuel >= k ==> Run(s, c, fuel).value.effects == FailedDials(s[..k], c.peer) + [Dial(c.peer, s[k].address, true)]
    decreases k
  {
    hide MarkFailure, Sorted, Good, IsConnected, TableOf, IsConnectedOver, StaticallyFirst;
    HeadEntry(s);
    NoConnection(s);
    if k > 0 {
      HeadGoesBack(s, c.now);
      var t := MarkFailure(s, s[0].address, c.now);
      assert forall j | 0 <= j < k - 1 :: t[j].address in c.refused;
      if fuel > 0 {
        DialsFirstAcceptedReady(t, c, k - 1, fuel - 1);
        assert FailedDials(s[..k], c.peer) == [Dial(c.peer, s[0].address, false)] + FailedDials(t[..k - 1], c.peer);
      }
    }
  }

  /** If every ready entry is rejected, the statically first address of all gets its turn, cooling
      down or not. Accepted, it ends the recursion after one rejected dial per ready entry; */
  lemma {:induction false} ThenDialsStaticallyFirst(s: Addresses, c: Call, f: Multiaddr, fuel: nat)
    requires Good(s) && Sorted(s, c.now) && !IsConnected(s) && s != []
    requires forall j | 0 <= j < Ready(s, c.now) :: s[j].address in c.refused
    requires StaticallyFirst(s, f) && f !in c.refused
    ensures Run(s, c, fuel).Some? <==> fuel >= Ready(s, c.now)
    ensures fuel >= Ready(s, c.now) ==>
              Run(s, c, fuel).value.effects == FailedDials(s[..Ready(s, c.now)], c.peer) + [Dial(c.peer, f, true)]
    decreases Ready(s, c.now)
  {
    hide MarkFailure, Sorted, Good, IsConnected, TableOf, IsConnectedOver, StaticallyFirst;
    HeadEntry(s);
    NoConnection(s);
    var r := Ready(s, c.now);
    if r == 0 {
      CoolingHeadIsFirst(s, c.now);
      FirstIsUnique(s, f, s[0].address);
    } else {
      HeadGoesBack(s, c.now);
      var t := MarkFailure(s, s[0].address, c.now);
      if fuel > 0 {
        ThenDialsStaticallyFirst(t, c, f, fuel - 1);
        assert FailedDials(s[..r], c.peer) == [Dial(c.peer, s[0].address, false)] + FailedDials(t[..r - 1], c.peer);
      }
    }
  }

  /** rejected, it is dialled again and again: no amount of fuel ends the recursion. */
  lemma {:induction false} ElseNeverEnds(s: Addresses, c: Call, f: Multiaddr, fuel: nat)
    requires Good(s) && Sorted(s, c.now) && !IsConnected(s) && s != []
    requires forall j | 0 <= j < Ready(s, c.now) :: s[j].address in c.refused
    requires StaticallyFirst(s, f) && f in c.refused
    ensures Run(s, c, fuel) == None
    decreases fuel
  {
    hide MarkFailure, Sorted, Good, IsConnected, TableOf, IsConnectedOver, StaticallyFirst;
    HeadEntry(s);
    NoConnection(s);
    if Ready(s, c.now) == 0 {
      CoolingHeadIsFirst(s, c.now);
      FirstIsUnique(s, f, s[0].address);
      HeadStays(s, c.now);
    } else {
      HeadGoesBack(s, c.now);
    }
    if fuel > 0 {
      var t := MarkFailure(s, s[0].address, c.now);
      ElseNeverEnds(t, c, f, fuel - 1);
    }
  }

  /** Exactly when reconciling an unconnected peer returns: some address that is not cooling down is
      accepted, or the statically first address of all is. */
  lemma EndsExactlyWhen(s: Addresses, c: Call)
    requires Good(s) && Sorted(s, c.now) && !IsConnected(s) && s != []
    ensures Ends(s, c) <==>
            || (exists m :: m in s && !InCooldown(m, c.now) && m.address !in c.refused)
            || (exists f :: StaticallyFirst(s, f) && f !in c.refused)
  {
    hide Run, MarkFailure, Sorted, Good, IsConnected, TableOf;
    var r := Ready(s, c.now);
    ReadyThenCooling(s, c.now);
    if k :| 0 <= k < r && s[k].address !in c.refused {
      var first := FirstAccepted(s, c, r);
      DialsFirstAcceptedReady(s, c, first, first);
      assert Run(s, c, first).Some?;
      assert s[k] in s && !InCooldown(s[k], c.now);
    } else {
      var f := SomeoneIsFirst(s);
      if f !in c.refused {
        ThenDialsStaticallyFirst(s, c, f, r);
        assert Run(s, c, r).Some?;
      } else {
        forall fuel: nat
          ensures Run(s, c, fuel) == None
        {
          ElseNeverEnds(s, c, f, fuel);
        }
        forall g | StaticallyFirst(s, g)
          ensures g in c.refused
        {
          FirstIsUnique(s, f, g);
        }
        forall m | m in s && !InCooldown(m, c.now)
          ensures m.address in c.refused
        {
          var i :| 0 <= i < |s| && s[i] == m;
        }
      }
    }
  }

  lemma {:induction false} FirstAccepted(s: Addresses, c: Call, n: nat) returns (k: nat)
    requires n <= |s| && exists j :: 0 <= j < n && s[j].address !in c.refused
    ensures k < n && s[k].address !in c.refused && forall j | 0 <= j < k :: s[j].address in c.refused
  {
    if j :| 0 <= j < n - 1 && s[j].address !in c.refused {
      k := FirstAccepted(s, c, n - 1);
    } else {
      k := n - 1;
    }
  }
}
