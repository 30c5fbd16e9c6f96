/** The edits of one peer's address list, read through the table: which connection sits on which
    address, and which failures are recorded. */
module AddressListFacts {
  import opened Options
  import opened Multiaddrs
  import opened Metadata
  import opened AddressList

  /** `cid` is recorded on address `a`. */
  ghost predicate On(t: Table, cid: ConnId, a: Multiaddr) {
    a in t && cid in t[a].activeConnections
  }

  /** The failure record of every address listed in both tables is the same, except at `but`. */
  ghost predicate SameFailures(t: Table, u: Table, but: set<Multiaddr>) {
    forall a | a in t && a in u && a !in but :: t[a].errCount == u[a].errCount && t[a].lastErr == u[a].lastErr
  }

  // ----- keeping a table good -----

  lemma GoodUpdate(t: Table, m: AddressMetadata)
    requires GoodTable(t) && GoodEntry(m)
    requires forall b, cid | b in t && b != m.address && cid in m.activeConnections :: cid !in t[b].activeConnections
    ensures GoodTable(t[m.address := m])
  {
  }

  lemma GoodDelete(t: Table, a: Multiaddr)
    requires GoodTable(t)
    ensures GoodTable(t - {a})
  {
  }

  lemma SwapRemoveMembers(s: seq<ConnId>, i: nat)
    requires NoDuplicates(s) && i < |s|
    ensures NoDuplicates(SwapRemove(s, i))
    ensures forall x :: x in SwapRemove(s, i) <==> x in s && x != s[i]
  {
    var r := SwapRemove(s, i);
    forall x | x in s && x != s[i]
      ensures x in r
    {
      var k :| 0 <= k < |s| && s[k] == x;
      assert x == if k < |s| - 1 then r[k] else r[i];
    }
  }

  // ----- the edits -----

  /** Only re-sorting: the table is what it was. */
  lemma ResortFacts(s: Addresses, now: Instant)
    requires Good(s)
    ensures Good(Resort(s, now)) && Sorted(Resort(s, now), now) && TableOf(Resort(s, now)) == TableOf(s)
  {
    ResortKeepsTable(s, now);
  }

  lemma AddAddressFacts(s: Addresses, a: Multiaddr, now: Instant)
    requires Good(s)
    ensures Good(AddAddress(s, a, now)) && Sorted(AddAddress(s, a, now), now)
    ensures TableOf(AddAddress(s, a, now)) == if a in TableOf(s) then TableOf(s) else TableOf(s)[a := NewMetadata(a)]
  {
    ListedAt(s, a);
    if a in TableOf(s) {
      ResortFacts(s, now);
    } else {
      TableAppend(s, NewMetadata(a));
      GoodUpdate(TableOf(s), NewMetadata(a));
      ResortFacts(s + [NewMetadata(a)], now);
    }
  }

  /** Learning an address touches no connection and no failure record. */
  lemma AddAddressConns(s: Addresses, a: Multiaddr, now: Instant)
    requires Good(s)
    ensures Good(AddAddress(s, a, now)) && Sorted(AddAddress(s, a, now), now)
    ensures var t, u := TableOf(s), TableOf(AddAddress(s, a, now));
            && u.Keys == t.Keys + {a} && SameFailures(t, u, {})
            && (a !in t ==> u[a].errCount == 0)
            && forall c, b :: On(u, c, b) <==> On(t, c, b)
  {
    hide AddAddress, TableOf, Good, Sorted;
    AddAddressFacts(s, a, now);
  }

  lemma RemoveAddressFacts(s: Addresses, a: Multiaddr, now: Instant)
    requires Good(s)
    ensures Good(RemoveAddress(s, a, now)) && Sorted(RemoveAddress(s, a, now), now)
    ensures TableOf(RemoveAddress(s, a, now)) == TableOf(s) - {a}
  {
    TableWithout(s, a);
    GoodDelete(TableOf(s), a);
    ResortFacts(Without(s, a), now);
  }

  /** Forgetting an address forgets the connections recorded on it, and nothing else. */
  lemma RemoveAddressConns(s: Addresses, a: Multiaddr, now: Instant)
    requires Good(s)
    ensures Good(RemoveAddress(s, a, now)) && Sorted(RemoveAddress(s, a, now), now)
    ensures var t, u := TableOf(s), TableOf(RemoveAddress(s, a, now));
            && u.Keys == t.Keys - {a} && SameFailures(t, u, {})
            && forall c, b :: On(u, c, b) <==> b != a && On(t, c, b)
  {
    hide RemoveAddress, TableOf, Good, Sorted;
    RemoveAddressFacts(s, a, now);
  }

  lemma ClearBackoffFacts(s: Addresses, a: Multiaddr)
    requires Good(s)
    ensures Good(ClearBackoff(s, a))
    ensures TableOf(ClearBackoff(s, a)) == if a in TableOf(s) then TableOf(s)[a := Cleared(TableOf(s)[a])] else TableOf(s)
  {
    ListedAt(s, a);
    if a in TableOf(s) {
      TableAddress(s, a);
      TableUpdate(s, IndexOfAddr(s, a), Cleared(TableOf(s)[a]));
      GoodUpdate(TableOf(s), Cleared(TableOf(s)[a]));
    }
  }

  /** A failure may be recorded on an address that carries no connection. */
  lemma MarkFailureFacts(s: Addresses, a: Multiaddr, now: Instant)
    requires Good(s) && a in TableOf(s) && TableOf(s)[a].activeConnections == []
    ensures Good(MarkFailure(s, a, now)) && Sorted(MarkFailure(s, a, now), now)
    ensures TableOf(MarkFailure(s, a, now)) == TableOf(s)[a := Failed(TableOf(s)[a], now)]
  {
    ListedAt(s, a);
    TableAddress(s, a);
    var m := Failed(TableOf(s)[a], now);
    TableUpdate(s, IndexOfAddr(s, a), m);
    GoodUpdate(TableOf(s), m);
    ResortFacts(s[IndexOfAddr(s, a) := m], now);
  }

  lemma ConnIndexInTable(s: Addresses, cid: ConnId)
    requires UniqueAddresses(s)
    ensures IndexOfConn(s, cid) < |s| ==> On(TableOf(s), cid, s[IndexOfConn(s, cid)].address)
    ensures (exists a :: On(TableOf(s), cid, a)) ==> IndexOfConn(s, cid) < |s|
  {
    var i := IndexOfConn(s, cid);
    if i < |s| {
      assert s[i] in s;
      EntryInTable(s, s[i]);
    } else if a :| On(TableOf(s), cid, a) {
      TableAddress(s, a);
    }
  }

  /** On tables: one entry loses `cid`. */
  lemma TableDetach(t: Table, a: Multiaddr, cid: ConnId)
    requires GoodTable(t) && On(t, cid, a)
    ensures var u := t[a := DropConn(t[a], cid)];
            && GoodTable(u) && u.Keys == t.Keys && SameFailures(t, u, {})
            && forall c, b :: On(u, c, b) <==> c != cid && On(t, c, b)
  {
    var m := DropConn(t[a], cid);
    SwapRemoveMembers(t[a].activeConnections, Position(t[a].activeConnections, cid));
    GoodUpdate(t, m);
  }

  lemma DetachFacts(s: Addresses, cid: ConnId)
    requires Good(s)
    ensures var t, u := TableOf(s), TableOf(Detach(s, cid));
            && Good(Detach(s, cid)) && t.Keys == u.Keys && SameFailures(t, u, {})
            && forall c, a :: On(u, c, a) <==> c != cid && On(t, c, a)
  {
    ConnIndexInTable(s, cid);
    var i := IndexOfConn(s, cid);
    if i < |s| {
      var a := s[i].address;
      assert TableOf(s)[a] == s[i] by {
        assert s[i] in s;
        EntryInTable(s, s[i]);
      }
      TableUpdate(s, i, DropConn(s[i], cid));
      TableDetach(TableOf(s), a, cid);
    }
  }

  lemma PushedEntry(m: AddressMetadata, cid: ConnId)
    requires GoodEntry(m) && cid !in m.activeConnections
    ensures GoodEntry(Cleared(PushConn(m, cid)))
    ensures forall c :: c in PushConn(m, cid).activeConnections <==> c == cid || c in m.activeConnections
  {
  }

  /** On tables: one entry, possibly fresh, gains `cid` and loses its failure record. */
  lemma TableAttach(t: Table, m: AddressMetadata, cid: ConnId)
    requires GoodTable(t) && forall a :: !On(t, cid, a)
    requires m == if m.address in t then t[m.address] else NewMetadata(m.address)
    ensures var u := t[m.address := Cleared(PushConn(m, cid))];
            && GoodTable(u) && u.Keys == t.Keys + {m.address} && SameFailures(t, u, {m.address})
            && u[m.address].errCount == 0
            && forall c, a :: On(u, c, a) <==> if c == cid then a == m.address else On(t, c, a)
  {
    assert !On(t, cid, m.address);
    PushedEntry(m, cid);
    var p := Cleared(PushConn(m, cid));
    assert p.address == m.address;
    forall b, c | b in t && b != m.address && c in p.activeConnections
      ensures c !in t[b].activeConnections
    {
      assert !On(t, cid, b);
    }
    GoodUpdate(t, p);
  }

  /** On lists: attaching is one table update, */
  lemma AttachIsUpdate(s: Addresses, cid: ConnId, addr: Multiaddr)
    requires UniqueAddresses(s)
    ensures var t := TableOf(s);
            var m := if addr in t then t[addr] else NewMetadata(addr);
            && UniqueAddresses(Attach(s, cid, addr))
            && m.address == addr
            && TableOf(Attach(s, cid, addr)) == t[addr := PushConn(m, cid)]
  {
    hide TableOf, UniqueAddresses, AddressesOf;
    ListedAt(s, addr);
    if IndexOfAddr(s, addr) == |s| {
      TableAppend(s, NewMetadata(addr));
      var listed := s + [NewMetadata(addr)];
      IndexIsUnique(listed, |s|);
      TableUpdate(listed, |s|, PushConn(NewMetadata(addr), cid));
      assert TableOf(s)[addr := NewMetadata(addr)][addr := PushConn(NewMetadata(addr), cid)]
          == TableOf(s)[addr := PushConn(NewMetadata(addr), cid)];
    } else {
      TableAddress(s, addr);
      TableUpdate(s, IndexOfAddr(s, addr), PushConn(TableOf(s)[addr], cid));
    }
  }

  /** and so is attaching followed by clearing. */
  lemma AttachAndClear(s: Addresses, cid: ConnId, addr: Multiaddr)
    requires UniqueAddresses(s)
    ensures var t := TableOf(s);
            var m := if addr in t then t[addr] else NewMetadata(addr);
            && UniqueAddresses(ClearBackoff(Attach(s, cid, addr), addr))
            && m.address == addr
            && TableOf(ClearBackoff(Attach(s, cid, addr), addr)) == t[addr := Cleared(PushConn(m, cid))]
  {
    hide TableOf, UniqueAddresses, AddressesOf, Attach, PushConn;
    AttachIsUpdate(s, cid, addr);
    var p := Attach(s, cid, addr);
    ListedAt(p, addr);
    TableAddress(p, addr);
    TableUpdate(p, IndexOfAddr(p, addr), Cleared(TableOf(p)[addr]));
  }

  lemma AttachFacts(s: Addresses, cid: ConnId, addr: Multiaddr)
    requires Good(s) && forall a :: !On(TableOf(s), cid, a)
    ensures var t, u := TableOf(s), TableOf(ClearBackoff(Attach(s, cid, addr), addr));
            && Good(ClearBackoff(Attach(s, cid, addr), addr))
            && u.Keys == t.Keys + {addr} && SameFailures(t, u, {addr})
            && u[addr].errCount == 0
            && forall c, a :: On(u, c, a) <==> if c == cid then a == addr else On(t, c, a)
  {
    hide Attach, ClearBackoff, TableOf, UniqueAddresses, GoodTable, SameFailures, On;
    AttachAndClear(s, cid, addr);
    var t := TableOf(s);
    TableAttach(t, if addr in t then t[addr] else NewMetadata(addr), cid);
  }

  /** `add_connection` updates the connection-to-address map at one point, whether the id is new,
      moves from another address, or is already there. */
  lemma AddConnectionFacts(s: Addresses, cid: ConnId, addr: Multiaddr, now: Instant)
    requires Good(s)
    ensures var s' := AddConnection(s, cid, addr, now);
            var t, u := TableOf(s), TableOf(s');
            && Good(s') && Sorted(s', now)
            && u.Keys == t.Keys + {addr} && SameFailures(t, u, {addr})
            && u[addr].errCount == 0
            && forall c, a :: On(u, c, a) <==> if c == cid then a == addr else On(t, c, a)
  {
    var t := TableOf(s);
    ConnIndexInTable(s, cid);
    var i := IndexOfConn(s, cid);
    hide Resort, TableOf, Good, Attach, Detach, ClearBackoff, Sorted, UniqueAddresses;
    if i < |s| && s[i].address == addr {
      ClearBackoffFacts(s, addr);
      ResortFacts(ClearBackoff(s, addr), now);
      GoodIsGoodTable(s);
      TableClear(t, addr, cid);
    } else {
      DetachFacts(s, cid);
      var d := Detach(s, cid);
      AttachFacts(d, cid, addr);
      ResortFacts(ClearBackoff(Attach(d, cid, addr), addr), now);
    }
  }

  lemma GoodIsGoodTable(s: Addresses)
    requires Good(s)
    ensures GoodTable(TableOf(s))
  {
  }

  /** On tables: a success on an address that already carries the connection. */
  lemma TableClear(t: Table, addr: Multiaddr, cid: ConnId)
    requires GoodTable(t) && On(t, cid, addr)
    ensures var u := t[addr := Cleared(t[addr])];
            && u.Keys == t.Keys + {addr} && SameFailures(t, u, {addr}) && u[addr].errCount == 0
            && forall c, a :: On(u, c, a) <==> if c == cid then a == addr else On(t, c, a)
  {
    forall c, a
      ensures On(t[addr := Cleared(t[addr])], c, a) <==> if c == cid then a == addr else On(t, c, a)
    {
    }
  }

  /** `remove_connection` deletes one point of the connection-to-address map. */
  lemma RemoveConnectionFacts(s: Addresses, cid: ConnId, now: Instant)
    requires Good(s)
    ensures var s' := RemoveConnection(s, cid, now);
            var t, u := TableOf(s), TableOf(s');
            && Good(s') && Sorted(s', now) && t.Keys == u.Keys && SameFailures(t, u, {})
            && forall c, a :: On(u, c, a) <==> c != cid && On(t, c, a)
  {
    DetachFacts(s, cid);
    ResortFacts(Detach(s, cid), now);
  }

  /** `get_connection_address` is lookup in that map. */
  lemma LookupFacts(s: Addresses, cid: ConnId)
    requires Good(s)
    ensures forall a :: GetConnectionAddress(s, cid) == Some(a) <==> On(TableOf(s), cid, a)
  {
    ConnIndexInTable(s, cid);
  }

  /** Some connection is recorded on `a`. */
  lemma ConnectedOverFacts(s: Addresses, a: Multiaddr)
    ensures IsConnectedOver(s, a) <==> exists cid :: On(TableOf(s), cid, a)
  {
    ListedAt(s, a);
    if a in TableOf(s) {
      TableAddress(s, a);
      hide TableOf, IndexOfAddr;
      if IsConnectedOver(s, a) {
        assert On(TableOf(s), TableOf(s)[a].activeConnections[0], a);
      }
    }
  }

  lemma ConnectedFacts(s: Addresses)
    requires UniqueAddresses(s)
    ensures IsConnected(s) <==> exists a, cid :: On(TableOf(s), cid, a)
    ensures forall a :: IsConnectedOver(s, a) <==> exists cid :: On(TableOf(s), cid, a)
  {
    hide TableOf, IsConnectedOver, UniqueAddresses;
    forall a
      ensures IsConnectedOver(s, a) <==> exists cid :: On(TableOf(s), cid, a)
    {
      ConnectedOverFacts(s, a);
    }
    if IsConnected(s) {
      var i :| 0 <= i < |s| && s[i].activeConnections != [];
      EntryInTable(s, s[i]);
      assert On(TableOf(s), s[i].activeConnections[0], s[i].address);
    }
    if a, cid :| On(TableOf(s), cid, a) {
      TableAddress(s, a);
      ListedAt(s, a);
      assert s[IndexOfAddr(s, a)].activeConnections != [];
    }
  }

  // ----- what the head of a sorted list is -----

  /** In a sorted list the head is best: no entry that is not cooling down, and so no connected
      address, is statically better than a head that is itself not cooling down. */
  lemma HeadIsBest(s: Addresses, now: Instant)
    requires Good(s) && Sorted(s, now) && s != []
    ensures forall m | m in s :: m == s[0] || Before(s[0], m, now)
    ensures forall m | m in s && !InCooldown(m, now) ::
              !InCooldown(s[0], now) && BetterOrSame(s[0].address, m.address)
    ensures forall cid, a | On(TableOf(s), cid, a) ::
              !InCooldown(s[0], now) && BetterOrSame(s[0].address, a)
  {
    TableEntries(s);
    forall m | m in s
      ensures m == s[0] || Before(s[0], m, now)
      ensures !InCooldown(m, now) ==> !InCooldown(s[0], now) && BetterOrSame(s[0].address, m.address)
    {
      var k :| 0 <= k < |s| && s[k] == m;
      assert s[0] in s;
      if k > 0 {
        BeforeMeaning(s[0], m, now);
      }
    }
    forall cid, a | On(TableOf(s), cid, a)
      ensures !InCooldown(s[0], now) && BetterOrSame(s[0].address, a)
    {
      TableAddress(s, a);
      assert TableOf(s)[a] in s;
    }
  }

  /** The head in plain words: it comes before an entry that is cooling down while it is not, and, if
      both or neither are, it has the nearer scope, or the same and the faster transport, or both the
      same and the smaller address. */
  lemma HeadIsPreferred(s: Addresses, now: Instant)
    requires Good(s) && Sorted(s, now) && s != []
    ensures forall m | m in s && m != s[0] ::
              (!InCooldown(s[0], now) && InCooldown(m, now))
              || (InCooldown(s[0], now) == InCooldown(m, now) && Preferred(s[0].address, m.address))
  {
    HeadIsBest(s, now);
    TableEntries(s);
    GoodIsGoodTable(s);
    hide Preferred, Better, InCooldown, Before, Sorted, TableOf, Good;
    assert s[0] in s;
    forall m | m in s && m != s[0]
      ensures (!InCooldown(s[0], now) && InCooldown(m, now))
              || (InCooldown(s[0], now) == InCooldown(m, now) && Preferred(s[0].address, m.address))
    {
      BeforeMeaning(s[0], m, now);
      BetterMeaning(s[0].address, m.address);
    }
  }

  // ----- algebra of the edits -----

  /** Learning two different addresses at one instant commutes, to the identical vector. */
  lemma AddAddressesCommute(s: Addresses, a: Multiaddr, b: Multiaddr, now: Instant)
    requires Good(s) && a != b
    ensures AddAddress(AddAddress(s, a, now), b, now) == AddAddress(AddAddress(s, b, now), a, now)
  {
    hide *;
    AddAddressFacts(s, a, now);
    AddAddressFacts(s, b, now);
    AddAddressFacts(AddAddress(s, a, now), b, now);
    AddAddressFacts(AddAddress(s, b, now), a, now);
    TableDeterminesSorted(AddAddress(AddAddress(s, a, now), b, now), AddAddress(AddAddress(s, b, now), a, now), now);
  }

  /** Forgetting a freshly learnt address restores the sorted list. */
  lemma RemoveUndoesAdd(s: Addresses, a: Multiaddr, now: Instant)
    requires Good(s) && a !in AddressesOf(s)
    ensures RemoveAddress(AddAddress(s, a, now), a, now) == Resort(s, now)
  {
    hide *;
    AddAddressFacts(s, a, now);
    RemoveAddressFacts(AddAddress(s, a, now), a, now);
    ResortFacts(s, now);
    assert TableOf(s)[a := NewMetadata(a)] - {a} == TableOf(s);
    TableDeterminesSorted(RemoveAddress(AddAddress(s, a, now), a, now), Resort(s, now), now);
  }

  /** Lookups after each edit: connection ids behave as the keys of one map. */
  lemma ConnectionMapRefinement(s: Addresses, cid: ConnId, addr: Multiaddr, now: Instant, other: ConnId)
    requires Good(s)
    ensures GetConnectionAddress(AddConnection(s, cid, addr, now), other)
            == if other == cid then Some(addr) else GetConnectionAddress(s, other)
    ensures GetConnectionAddress(RemoveConnection(s, cid, now), other)
            == if other == cid then None else GetConnectionAddress(s, other)
    ensures GetConnectionAddress(AddAddress(s, addr, now), other) == GetConnectionAddress(s, other)
    ensures GetConnectionAddress(RemoveAddress(s, addr, now), other)
            == if GetConnectionAddress(s, other) == Some(addr) then None else GetConnectionAddress(s, other)
  {
    hide *;
    LookupFacts(s, other);
    var s1 := AddConnection(s, cid, addr, now);
    AddConnectionFacts(s, cid, addr, now);
    LookupFacts(s1, other);
    SameLookup(s1, other, if other == cid then Some(addr) else GetConnectionAddress(s, other));
    var s2 := RemoveConnection(s, cid, now);
    RemoveConnectionFacts(s, cid, now);
    LookupFacts(s2, other);
    SameLookup(s2, other, if other == cid then None else GetConnectionAddress(s, other));
    var s3 := AddAddress(s, addr, now);
    AddAddressConns(s, addr, now);
    LookupFacts(s3, other);
    SameLookup(s3, other, GetConnectionAddress(s, other));
    var s4 := RemoveAddress(s, addr, now);
    RemoveAddressConns(s, addr, now);
    LookupFacts(s4, other);
    SameLookup(s4, other, if GetConnectionAddress(s, other) == Some(addr) then None else GetConnectionAddress(s, other));
  }

  lemma SameLookup(s: Addresses, cid: ConnId, r: Option<Multiaddr>)
    requires Good(s)
    requires forall a :: On(TableOf(s), cid, a) <==> r == Some(a)
    ensures GetConnectionAddress(s, cid) == r
  {
    LookupFacts(s, cid);
    var g := GetConnectionAddress(s, cid);
    assert r.Some? ==> On(TableOf(s), cid, r.value);
    assert g.Some? ==> On(TableOf(s), cid, g.value);
  }

  /** The order of the connections on one address: a new one comes last. */
  lemma NewConnectionLast(s: Addresses, cid: ConnId, addr: Multiaddr, now: Instant)
    requires Good(s) && forall a :: !On(TableOf(s), cid, a)
    ensures addr in TableOf(AddConnection(s, cid, addr, now))
    ensures TableOf(AddConnection(s, cid, addr, now))[addr].activeConnections
            == (if addr in TableOf(s) then TableOf(s)[addr].activeConnections else []) + [cid]
  {
    assert IndexOfConn(s, cid) == |s| by {
      hide TableOf, On;
      ConnIndexInTable(s, cid);
    }
    var m := if addr in TableOf(s) then TableOf(s)[addr] else NewMetadata(addr);
    assert cid !in m.activeConnections;
    var p := ClearBackoff(Attach(s, cid, addr), addr);
    hide TableOf, Good, Attach, ClearBackoff, Resort, Sorted, On;
    assert Good(p) by {
      AttachFacts(s, cid, addr);
    }
    assert UniqueAddresses(s) by {
      GoodIsUnique(s);
    }
    AttachAndClear(s, cid, addr);
    ResortFacts(p, now);
  }

  lemma GoodIsUnique(s: Addresses)
    requires Good(s)
    ensures UniqueAddresses(s)
  {
  }

  lemma DetachedEntry(s: Addresses, cid: ConnId, a: Multiaddr)
    requires Good(s) && On(TableOf(s), cid, a)
    ensures a in TableOf(Detach(s, cid)) && Good(Detach(s, cid)) && NoDuplicates(TableOf(s)[a].activeConnections)
    ensures TableOf(Detach(s, cid))[a] == DropConn(TableOf(s)[a], cid)
  {
    ConnIndexInTable(s, cid);
    DetachFacts(s, cid);
    var i := IndexOfConn(s, cid);
    assert s[i].address == a && TableOf(s)[a] == s[i] by {
      EntryInTable(s, s[i]);
    }
    TableUpdate(s, i, DropConn(s[i], cid));
  }

  lemma RemovedEntry(s: Addresses, cid: ConnId, a: Multiaddr, now: Instant)
    requires Good(s) && On(TableOf(s), cid, a)
    ensures a in TableOf(RemoveConnection(s, cid, now))
    ensures TableOf(RemoveConnection(s, cid, now))[a] == DropConn(TableOf(s)[a], cid)
  {
    DetachedEntry(s, cid, a);
    hide TableOf, Good, Resort, Sorted, Detach, NoDuplicates;
    ResortFacts(Detach(s, cid), now);
  }

  /** Where a connection goes, the last one takes its place. */
  lemma LastTakesPlace(m: AddressMetadata, cid: ConnId, k: nat)
    requires NoDuplicates(m.activeConnections) && cid in m.activeConnections && k < |m.activeConnections| - 1
    ensures var old_, new_ := m.activeConnections, DropConn(m, cid).activeConnections;
            && |new_| == |old_| - 1
            && new_[k] == if old_[k] == cid then old_[|old_| - 1] else old_[k]
  {
    PlaceOf(m.activeConnections, cid, k);
  }

  lemma PlaceOf(s: seq<ConnId>, cid: ConnId, k: nat)
    requires NoDuplicates(s) && cid in s && k < |s|
    ensures Position(s, cid) == k <==> s[k] == cid
  {
  }
}
