/** The best-first address vector of one peer, as a value: lookups, sorting and the edits that
    `NetworkView` and `PeerInfoExt` make to it. `Table` is the abstraction: which entry each
    address has, forgetting the order. */
module AddressList {
  import opened Options
  import opened Multiaddrs
  import opened Metadata
  import LexOrder

  type Addresses = seq<AddressMetadata>

  type Table = map<Multiaddr, AddressMetadata>

  // ----- lookups -----

  /** Position of the first entry for `addr`, or the length when there is none. */
  function IndexOfAddr(s: Addresses, addr: Multiaddr): (i: nat)
    ensures i <= |s|
    ensures i < |s| ==> s[i].address == addr
    ensures forall j | 0 <= j < i :: s[j].address != addr
  {
    if s == [] || s[0].address == addr then 0 else 1 + IndexOfAddr(s[1..], addr)
  }

  /** Position of the first entry that holds `cid`, or the length when there is none. */
  function IndexOfConn(s: Addresses, cid: ConnId): (i: nat)
    ensures i <= |s|
    ensures i < |s| ==> cid in s[i].activeConnections
    ensures forall j | 0 <= j < i :: cid !in s[j].activeConnections
  {
    if s == [] || cid in s[0].activeConnections then 0 else 1 + IndexOfConn(s[1..], cid)
  }

  function Position(s: seq<ConnId>, cid: ConnId): (i: nat)
    requires cid in s
    ensures i < |s| && s[i] == cid && cid !in s[..i]
  {
    if s[0] == cid then 0 else 1 + Position(s[1..], cid)
  }

  /** `Vec::swap_remove`: the last element takes the removed one's place. */
  function SwapRemove(s: seq<ConnId>, i: nat): (r: seq<ConnId>)
    requires i < |s|
    ensures |r| == |s| - 1 && forall k | 0 <= k < |r| :: r[k] == if k == i then s[|s| - 1] else s[k]
  {
    s[i := s[|s| - 1]][..|s| - 1]
  }

  function GetConnectionAddress(s: Addresses, cid: ConnId): Option<Multiaddr> {
    var i := IndexOfConn(s, cid);
    if i < |s| then Some(s[i].address) else None
  }

  predicate IsConnectedOver(s: Addresses, addr: Multiaddr) {
    var i := IndexOfAddr(s, addr);
    i < |s| && s[i].activeConnections != []
  }

  predicate IsConnected(s: Addresses) {
    exists i | 0 <= i < |s| :: s[i].activeConnections != []
  }

  // ----- the order -----

  /** Stable insertion in front of the first entry that is not before `m`. */
  function Insert(m: AddressMetadata, s: Addresses, now: Instant): Addresses {
    if s == [] then [m]
    else if Before(s[0], m, now) then [s[0]] + Insert(m, s[1..], now)
    else [m] + s
  }

  /** A stable sort by `SortKey`, standing for the library sort behind `resort`. */
  function Resort(s: Addresses, now: Instant): Addresses {
    if s == [] then [] else Insert(s[0], Resort(s[1..], now), now)
  }

  ghost predicate Sorted(s: Addresses, now: Instant) {
    forall i, j | 0 <= i < j < |s| :: Before(s[i], s[j], now)
  }

  // ----- edits -----

  function AddAddress(s: Addresses, addr: Multiaddr, now: Instant): Addresses {
    Resort(if IndexOfAddr(s, addr) < |s| then s else s + [NewMetadata(addr)], now)
  }

  function Without(s: Addresses, addr: Multiaddr): Addresses {
    var i := IndexOfAddr(s, addr);
    if i < |s| then s[..i] + s[i + 1..] else s
  }

  function RemoveAddress(s: Addresses, addr: Multiaddr, now: Instant): Addresses {
    Resort(Without(s, addr), now)
  }

  function ClearBackoff(s: Addresses, addr: Multiaddr): Addresses {
    var i := IndexOfAddr(s, addr);
    if i < |s| then s[i := Cleared(s[i])] else s
  }

  function MarkFailure(s: Addresses, addr: Multiaddr, now: Instant): Addresses {
    var i := IndexOfAddr(s, addr);
    if i < |s| then Resort(s[i := Failed(s[i], now)], now) else s
  }

  function DropConn(m: AddressMetadata, cid: ConnId): AddressMetadata
    requires cid in m.activeConnections
  {
    m.(activeConnections := SwapRemove(m.activeConnections, Position(m.activeConnections, cid)))
  }

  function PushConn(m: AddressMetadata, cid: ConnId): AddressMetadata {
    if cid in m.activeConnections then m else m.(activeConnections := m.activeConnections + [cid])
  }

  /** Take `cid` off the first entry that holds it. */
  function Detach(s: Addresses, cid: ConnId): Addresses {
    var i := IndexOfConn(s, cid);
    if i < |s| then s[i := DropConn(s[i], cid)] else s
  }

  /** Put `cid` on the entry for `addr`, creating the entry if needed. */
  function Attach(s: Addresses, cid: ConnId, addr: Multiaddr): Addresses {
    var listed := if IndexOfAddr(s, addr) < |s| then s else s + [NewMetadata(addr)];
    var i := IndexOfAddr(listed, addr);
    if i < |listed| then listed[i := PushConn(listed[i], cid)] else listed
  }

  function AddConnection(s: Addresses, cid: ConnId, addr: Multiaddr, now: Instant): Addresses {
    var i := IndexOfConn(s, cid);
    if i < |s| && s[i].address == addr then Resort(ClearBackoff(s, addr), now)
    else Resort(ClearBackoff(Attach(Detach(s, cid), cid, addr), addr), now)
  }

  function RemoveConnection(s: Addresses, cid: ConnId, now: Instant): Addresses {
    Resort(Detach(s, cid), now)
  }

  // ----- well-formedness -----

  ghost predicate UniqueAddresses(s: Addresses) {
    forall i, j | 0 <= i < j < |s| :: s[i].address != s[j].address
  }

  ghost predicate NoDuplicates(s: seq<ConnId>) {
    forall i, j | 0 <= i < j < |s| :: s[i] != s[j]
  }

  /** What every single entry satisfies. An entry with a live connection has no recorded failure,
      so a connected address is never cooling down. */
  ghost predicate GoodEntry(m: AddressMetadata) {
    && Classified(m)
    && NoDuplicates(m.activeConnections)
    && m.errCount <= U32_MAX
    && (m.lastErr.None? <==> m.errCount == 0)
    && (m.activeConnections != [] ==> m.lastErr.None?)
  }

  ghost predicate Separate(t: Table) {
    forall a, b, cid | a in t && b in t && cid in t[a].activeConnections && cid in t[b].activeConnections :: a == b
  }

  ghost predicate GoodTable(t: Table) {
    && (forall a | a in t :: t[a].address == a && GoodEntry(t[a]))
    && Separate(t)
  }

  ghost predicate Good(s: Addresses) {
    UniqueAddresses(s) && GoodTable(TableOf(s))
  }

  // ----- the abstraction -----

  ghost function AddressesOf(s: Addresses): set<Multiaddr> {
    set m | m in s :: m.address
  }

  ghost function TableOf(s: Addresses): (t: Table)
    ensures t.Keys == AddressesOf(s)
  {
    map a | a in AddressesOf(s) :: s[IndexOfAddr(s, a)]
  }

  lemma IndexIsUnique(s: Addresses, k: nat)
    requires UniqueAddresses(s) && k < |s|
    ensures IndexOfAddr(s, s[k].address) == k
  {
  }

  lemma ListedAt(s: Addresses, addr: Multiaddr)
    ensures addr in AddressesOf(s) <==> IndexOfAddr(s, addr) < |s|
  {
    var i := IndexOfAddr(s, addr);
    if i < |s| {
      assert s[i] in s;
    }
    if addr in AddressesOf(s) {
      var m :| m in s && m.address == addr;
      var k :| 0 <= k < |s| && s[k] == m;
    }
  }

  /** With unique addresses the table holds exactly the entries of the list. */
  lemma EntryInTable(s: Addresses, m: AddressMetadata)
    requires UniqueAddresses(s)
    ensures m in s <==> m.address in TableOf(s) && TableOf(s)[m.address] == m
  {
    ListedAt(s, m.address);
    if m in s {
      var k :| 0 <= k < |s| && s[k] == m;
      IndexIsUnique(s, k);
    }
  }

  lemma TableEntries(s: Addresses)
    requires UniqueAddresses(s)
    ensures forall m :: m in s <==> m.address in TableOf(s) && TableOf(s)[m.address] == m
  {
    forall m
      ensures m in s <==> m.address in TableOf(s) && TableOf(s)[m.address] == m
    {
      EntryInTable(s, m);
    }
  }

  lemma TableAddress(s: Addresses, addr: Multiaddr)
    requires addr in TableOf(s)
    ensures TableOf(s)[addr] == s[IndexOfAddr(s, addr)] && TableOf(s)[addr] in s && TableOf(s)[addr].address == addr
  {
    ListedAt(s, addr);
  }

  /** Lists with the same entries have the same table. */
  lemma SameEntriesSameTable(s: Addresses, t: Addresses)
    requires UniqueAddresses(s) && UniqueAddresses(t)
    requires forall m :: m in s <==> m in t
    ensures TableOf(s) == TableOf(t)
  {
    assert AddressesOf(s) == AddressesOf(t);
    forall a | a in TableOf(s)
      ensures TableOf(s)[a] == TableOf(t)[a]
    {
      TableAddress(s, a);
      EntryInTable(t, TableOf(s)[a]);
    }
  }

  // ----- sorting -----

  lemma {:induction false} InsertEntries(m: AddressMetadata, s: Addresses, now: Instant)
    ensures forall x :: x in Insert(m, s, now) <==> x == m || x in s
    ensures |Insert(m, s, now)| == |s| + 1
  {
    if s != [] && Before(s[0], m, now) {
      InsertEntries(m, s[1..], now);
      assert s == [s[0]] + s[1..];
    }
  }

  lemma {:induction false} ResortEntries(s: Addresses, now: Instant)
    ensures forall x :: x in Resort(s, now) <==> x in s
    ensures |Resort(s, now)| == |s|
  {
    if s != [] {
      ResortEntries(s[1..], now);
      InsertEntries(s[0], Resort(s[1..], now), now);
      assert s == [s[0]] + s[1..];
    }
  }

  /** Distinct addresses have distinct keys. */
  lemma BeforeTotal(x: AddressMetadata, y: AddressMetadata, now: Instant)
    ensures x.address == y.address || Before(x, y, now) || Before(y, x, now)
  {
    var k, l := SortKey(x, now), SortKey(y, now);
    LexOrder.Total(k, l);
    if k == l {
      assert Bytes(x.address) == k[3..] == l[3..] == Bytes(y.address);
      BytesInjective(x.address, y.address);
    }
  }

  lemma {:induction false} InsertSorted(m: AddressMetadata, s: Addresses, now: Instant)
    requires Sorted(s, now)
    requires forall x | x in s :: x.address != m.address
    ensures Sorted(Insert(m, s, now), now)
  {
    if s == [] {
    } else if Before(s[0], m, now) {
      var rest := s[1..];
      InsertSorted(m, rest, now);
      InsertEntries(m, rest, now);
      var r := Insert(m, rest, now);
      forall x | x in r
        ensures Before(s[0], x, now)
      {
        if x != m {
          var k :| 0 <= k < |rest| && rest[k] == x;
          assert x == s[k + 1];
        }
      }
      SortedCons(s[0], r, now);
    } else {
      BeforeTotal(m, s[0], now);
      forall x | x in s
        ensures Before(m, x, now)
      {
        if x != s[0] {
          var k :| 0 <= k < |s| && s[k] == x;
          LexOrder.Transitive(SortKey(m, now), SortKey(s[0], now), SortKey(x, now));
        }
      }
      SortedCons(m, s, now);
    }
  }

  lemma SortedCons(m: AddressMetadata, s: Addresses, now: Instant)
    requires Sorted(s, now)
    requires forall x | x in s :: Before(m, x, now)
    ensures Sorted([m] + s, now)
  {
    var r := [m] + s;
    forall i, j | 0 <= i < j < |r|
      ensures Before(r[i], r[j], now)
    {
      if i == 0 {
        assert r[j] in s;
      }
    }
  }

  /** `resort` sorts: best entry first, whatever the order was. */
  lemma {:induction false} ResortSorts(s: Addresses, now: Instant)
    requires UniqueAddresses(s)
    ensures Sorted(Resort(s, now), now)
  {
    if s != [] {
      ResortSorts(s[1..], now);
      ResortEntries(s[1..], now);
      forall x | x in Resort(s[1..], now)
        ensures x.address != s[0].address
      {
        var k :| 0 <= k < |s[1..]| && s[1..][k] == x;
        assert x == s[k + 1];
      }
      InsertSorted(s[0], Resort(s[1..], now), now);
    }
  }

  lemma {:induction false} InsertUnique(m: AddressMetadata, s: Addresses, now: Instant)
    requires UniqueAddresses(s)
    requires forall x | x in s :: x.address != m.address
    ensures UniqueAddresses(Insert(m, s, now))
  {
    if s != [] && Before(s[0], m, now) {
      var rest := s[1..];
      InsertUnique(m, rest, now);
      InsertEntries(m, rest, now);
      var r := Insert(m, rest, now);
      forall x | x in r
        ensures x.address != s[0].address
      {
        if x != m {
          var k :| 0 <= k < |rest| && rest[k] == x;
          assert x == s[k + 1];
        }
      }
      var all := [s[0]] + r;
      forall i, j | 0 <= i < j < |all|
        ensures all[i].address != all[j].address
      {
        assert all[j] == r[j - 1];
      }
    }
  }

  lemma {:induction false} ResortUnique(s: Addresses, now: Instant)
    requires UniqueAddresses(s)
    ensures UniqueAddresses(Resort(s, now))
  {
    if s != [] {
      ResortUnique(s[1..], now);
      ResortEntries(s[1..], now);
      forall x | x in Resort(s[1..], now)
        ensures x.address != s[0].address
      {
        var k :| 0 <= k < |s[1..]| && s[1..][k] == x;
        assert x == s[k + 1];
      }
      InsertUnique(s[0], Resort(s[1..], now), now);
    }
  }

  /** Sorting changes the order only. */
  lemma ResortKeepsTable(s: Addresses, now: Instant)
    requires UniqueAddresses(s)
    ensures UniqueAddresses(Resort(s, now)) && Sorted(Resort(s, now), now)
    ensures TableOf(Resort(s, now)) == TableOf(s)
  {
    ResortUnique(s, now);
    ResortSorts(s, now);
    ResortEntries(s, now);
    SameEntriesSameTable(Resort(s, now), s);
  }

  lemma SortedTailEntries(s: Addresses, now: Instant)
    requires Sorted(s, now) && s != []
    ensures Sorted(s[1..], now)
    ensures forall x :: x in s[1..] <==> x in s && x != s[0]
    ensures forall x | x in s[1..] :: Before(s[0], x, now)
  {
    assert s == [s[0]] + s[1..];
    forall x | x in s[1..]
      ensures x != s[0] && Before(s[0], x, now)
    {
      var k :| 0 <= k < |s[1..]| && s[1..][k] == x;
      assert Before(s[0], s[k + 1], now);
      LexOrder.Irreflexive(SortKey(s[0], now));
    }
  }

  lemma HasAnEntry(s: Addresses)
    requires s != []
    ensures exists m :: m in s
  {
    assert s[0] in s;
  }

  /** The sorted form is canonical: it is determined by the entries and the clock alone. */
  lemma {:induction false} SortedFormIsCanonical(s: Addresses, t: Addresses, now: Instant)
    requires Sorted(s, now) && Sorted(t, now)
    requires forall m :: m in s <==> m in t
    ensures s == t
    decreases |s|
  {
    if s == [] {
      if t != [] {
        HasAnEntry(t);
      }
    } else {
      assert s[0] in t && t[0] in s;
      SortedTailEntries(s, now);
      SortedTailEntries(t, now);
      if s[0] != t[0] {
        LexOrder.Asymmetric(SortKey(s[0], now), SortKey(t[0], now));
        assert false;
      }
      SortedFormIsCanonical(s[1..], t[1..], now);
      assert s == [s[0]] + s[1..] && t == [t[0]] + t[1..];
    }
  }

  lemma TableDeterminesSorted(s: Addresses, t: Addresses, now: Instant)
    requires UniqueAddresses(s) && UniqueAddresses(t) && Sorted(s, now) && Sorted(t, now)
    requires TableOf(s) == TableOf(t)
    ensures s == t
  {
    TableEntries(s);
    TableEntries(t);
    SortedFormIsCanonical(s, t, now);
  }

  /** `resort` is idempotent. */
  lemma ResortIdempotent(s: Addresses, now: Instant)
    requires UniqueAddresses(s)
    ensures Resort(Resort(s, now), now) == Resort(s, now)
  {
    ResortKeepsTable(s, now);
    ResortKeepsTable(Resort(s, now), now);
    TableDeterminesSorted(Resort(Resort(s, now), now), Resort(s, now), now);
  }

  // ----- edits seen through the table -----

  lemma TableAppend(s: Addresses, m: AddressMetadata)
    requires UniqueAddresses(s) && m.address !in TableOf(s)
    ensures UniqueAddresses(s + [m])
    ensures TableOf(s + [m]) == TableOf(s)[m.address := m]
  {
    AppendEntries(s, m);
    hide *;
    TableEntries(s);
    forall a | a in TableOf(s)
      ensures TableOf(s)[a].address == a
    {
      TableAddress(s, a);
    }
    TableFromEntries(s + [m], TableOf(s)[m.address := m]);
  }

  lemma AppendEntries(s: Addresses, m: AddressMetadata)
    requires UniqueAddresses(s) && m.address !in TableOf(s)
    ensures UniqueAddresses(s + [m])
    ensures forall x :: x in s + [m] <==> x == m || (x in s && x.address != m.address)
  {
    var r := s + [m];
    forall x | x in s
      ensures x.address != m.address
    {
      assert x.address in AddressesOf(s);
    }
    forall i, j | 0 <= i < j < |r|
      ensures r[i].address != r[j].address
    {
      if j == |s| {
        assert s[i] in s;
      }
    }
  }

  lemma UpdateEntries(s: Addresses, i: nat, m: AddressMetadata)
    requires UniqueAddresses(s) && i < |s| && m.address == s[i].address
    ensures UniqueAddresses(s[i := m])
    ensures forall x :: x in s[i := m] <==> x == m || (x in s && x.address != m.address)
  {
    var r := s[i := m];
    assert r[i] == m;
    forall x | x in r && x != m
      ensures x in s && x.address != m.address
    {
      var k :| 0 <= k < |r| && r[k] == x;
      assert s[k] == x;
    }
    forall x | x in s && x.address != m.address
      ensures x in r
    {
      var k :| 0 <= k < |s| && s[k] == x;
      assert r[k] == x;
    }
  }

  lemma TableUpdate(s: Addresses, i: nat, m: AddressMetadata)
    requires UniqueAddresses(s) && i < |s| && m.address == s[i].address
    ensures UniqueAddresses(s[i := m])
    ensures TableOf(s[i := m]) == TableOf(s)[m.address := m]
  {
    hide *;
    UpdateEntries(s, i, m);
    TableEntries(s);
    forall a | a in TableOf(s)
      ensures TableOf(s)[a].address == a
    {
      TableAddress(s, a);
    }
    TableFromEntries(s[i := m], TableOf(s)[m.address := m]);
  }

  /** `r` is `s` without position `i`. */
  lemma WithoutAt(s: Addresses, i: nat, k: nat)
    requires i < |s| && k < |s| - 1
    ensures (s[..i] + s[i + 1..])[k] == if k < i then s[k] else s[k + 1]
  {
  }

  lemma WithoutEntries(s: Addresses, addr: Multiaddr)
    requires UniqueAddresses(s)
    ensures UniqueAddresses(Without(s, addr))
    ensures forall x :: x in Without(s, addr) <==> x in s && x.address != addr
  {
    var r := Without(s, addr);
    var i := IndexOfAddr(s, addr);
    hide IndexOfAddr, Without;
    if i < |s| {
      assert r == s[..i] + s[i + 1..] by {
        WithoutIs(s, addr);
      }
      forall k | 0 <= k < |r|
        ensures r[k] == if k < i then s[k] else s[k + 1]
      {
        WithoutAt(s, i, k);
      }
      forall x | x in r
        ensures x in s && x.address != addr
      {
        var k :| 0 <= k < |r| && r[k] == x;
      }
      forall x | x in s && x.address != addr
        ensures x in r
      {
        var k :| 0 <= k < |s| && s[k] == x;
        assert x == if k < i then r[k] else r[k - 1];
      }
    } else {
      WithoutIs(s, addr);
    }
  }

  lemma WithoutIs(s: Addresses, addr: Multiaddr)
    ensures Without(s, addr) == (var i := IndexOfAddr(s, addr); if i < |s| then s[..i] + s[i + 1..] else s)
  {
  }

  lemma TableWithout(s: Addresses, addr: Multiaddr)
    requires UniqueAddresses(s)
    ensures UniqueAddresses(Without(s, addr))
    ensures TableOf(Without(s, addr)) == TableOf(s) - {addr}
  {
    WithoutEntries(s, addr);
    TableEntries(s);
    forall a | a in TableOf(s)
      ensures TableOf(s)[a].address == a
    {
      TableAddress(s, a);
    }
    TableFromEntries(Without(s, addr), TableOf(s) - {addr});
  }

  /** A table is recognised by its entries. */
  lemma TableFromEntries(s: Addresses, t: Table)
    requires UniqueAddresses(s)
    requires forall a | a in t :: t[a].address == a
    requires forall x :: x in s <==> x.address in t && t[x.address] == x
    ensures TableOf(s) == t
  {
    forall a | a in t
      ensures a in TableOf(s) && TableOf(s)[a] == t[a]
    {
      EntryInTable(s, t[a]);
    }
    forall a | a in TableOf(s)
      ensures a in t
    {
      TableAddress(s, a);
    }
  }
}
