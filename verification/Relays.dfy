/** Relay reservations as a value: admission, usage, and eviction of the worst unused relay. */
module Relays {
  import opened Options
  import opened Multiaddrs
  import opened Metadata
  import opened Views
  import opened Effects

  // ----- relay addresses -----

  predicate AddrIsRelay(addr: Multiaddr) {
    exists k | 0 <= k < |addr| :: addr[k].P2pCircuit?
  }

  function ExtractFrom(addr: Multiaddr, lastP2p: Option<PeerId>): Option<PeerId> {
    if addr == [] then None
    else match addr[0]
      case P2p(id) => ExtractFrom(addr[1..], Some(id))
      case P2pCircuit => lastP2p
      case _ => ExtractFrom(addr[1..], lastP2p)
  }

  function ExtractRelayPeer(addr: Multiaddr): Option<PeerId> {
    ExtractFrom(addr, None)
  }

  /** Component `at` is the first circuit of the address. */
  ghost predicate FirstCircuit(addr: Multiaddr, at: int) {
    0 <= at < |addr| && addr[at].P2pCircuit? && forall j | 0 <= j < at :: !addr[j].P2pCircuit?
  }

  /** Component `k` is the last peer id before position `at`. */
  ghost predicate LastPeerBefore(addr: Multiaddr, at: int, k: int) {
    0 <= k < at <= |addr| && addr[k].P2p? && forall j | k < j < at :: !addr[j].P2p?
  }

  lemma {:induction false} ExtractFromMeaning(addr: Multiaddr, last: Option<PeerId>, at: int)
    requires FirstCircuit(addr, at)
    ensures forall k :: LastPeerBefore(addr, at, k) ==> ExtractFrom(addr, last) == Some(addr[k].id)
    ensures (forall k | 0 <= k < at :: !addr[k].P2p?) ==> ExtractFrom(addr, last) == last
    ensures (exists k :: LastPeerBefore(addr, at, k)) || (forall k | 0 <= k < at :: !addr[k].P2p?)
    decreases |addr|
  {
    if at > 0 {
      var rest, before := addr[1..], at - 1;
      ExtractFromMeaning(rest, if addr[0].P2p? then Some(addr[0].id) else last, before);
      forall k | LastPeerBefore(addr, at, k) && k > 0
        ensures LastPeerBefore(rest, before, k - 1) && rest[k - 1] == addr[k]
      {
      }
      if k :| LastPeerBefore(rest, before, k) {
        assert LastPeerBefore(addr, at, k + 1);
      } else {
        forall k | 0 < k < at
          ensures !addr[k].P2p?
        {
          assert addr[k] == rest[k - 1];
        }
        assert addr[0].P2p? ==> LastPeerBefore(addr, at, 0);
      }
    }
  }

  lemma {:induction false} NoCircuitNoRelay(addr: Multiaddr, last: Option<PeerId>)
    requires !AddrIsRelay(addr)
    ensures ExtractFrom(addr, last) == None
    decreases |addr|
  {
    if addr != [] {
      assert forall k | 0 <= k < |addr[1..]| :: addr[1..][k] == addr[k + 1];
      NoCircuitNoRelay(addr[1..], if addr[0].P2p? then Some(addr[0].id) else last);
    }
  }

  lemma {:induction false} SomeFirstCircuit(addr: Multiaddr) returns (at: int)
    requires AddrIsRelay(addr)
    ensures FirstCircuit(addr, at)
  {
    at := 0;
    while !addr[at].P2pCircuit?
      invariant 0 <= at < |addr| && forall j | 0 <= j < at :: !addr[j].P2pCircuit?
      decreases |addr| - at
    {
      at := at + 1;
    }
  }

  /** The relay of an address is the last peer id in front of its first circuit, if there are both;
      so having a relay implies being a relay address. */
  lemma RelayMeaning(addr: Multiaddr, r: PeerId)
    ensures ExtractRelayPeer(addr) == Some(r) <==>
            exists at, k :: FirstCircuit(addr, at) && LastPeerBefore(addr, at, k) && addr[k].id == r
    ensures ExtractRelayPeer(addr).Some? ==> AddrIsRelay(addr)
  {
    if AddrIsRelay(addr) {
      var at := SomeFirstCircuit(addr);
      ExtractFromMeaning(addr, None, at);
      if k :| LastPeerBefore(addr, at, k) {
        assert ExtractRelayPeer(addr) == Some(addr[k].id);
      }
      forall at', k' | FirstCircuit(addr, at') && LastPeerBefore(addr, at', k')
        ensures ExtractRelayPeer(addr) == Some(addr[k'].id)
      {
        ExtractFromMeaning(addr, None, at');
      }
    } else {
      NoCircuitNoRelay(addr, None);
    }
  }

  lemma {:induction false} ExtractSuffix(a: Multiaddr, b: Multiaddr, last: Option<PeerId>)
    ensures AddrIsRelay(a) ==> ExtractFrom(a + b, last) == ExtractFrom(a, last)
    decreases |a|
  {
    if a != [] {
      assert (a + b)[1..] == a[1..] + b;
      if !a[0].P2pCircuit? && AddrIsRelay(a) {
        var k :| 0 <= k < |a| && a[k].P2pCircuit?;
        assert a[1..][k - 1].P2pCircuit?;
        ExtractSuffix(a[1..], b, if a[0].P2p? then Some(a[0].id) else last);
      }
    }
  }

  lemma {:induction false} ExtractListen(a: Multiaddr, r: PeerId, last: Option<PeerId>)
    requires !AddrIsRelay(a)
    ensures ExtractFrom(a + [P2p(r), P2pCircuit], last) == Some(r)
    decreases |a|
  {
    var full := a + [P2p(r), P2pCircuit];
    if a == [] {
      assert full[1..] == [P2pCircuit];
    } else {
      assert full[1..] == a[1..] + [P2p(r), P2pCircuit];
      assert forall k | 0 <= k < |a[1..]| :: a[1..][k] == a[k + 1];
      ExtractListen(a[1..], r, if a[0].P2p? then Some(a[0].id) else last);
    }
  }

  /** The address the Identify handler listens on, `a/p2p/r/p2p-circuit`, gives back r exactly when
      `a` is not itself relayed, or is relayed through r already. */
  lemma ListenAddressRoundTrip(a: Multiaddr, r: PeerId)
    ensures ExtractRelayPeer(a + [P2p(r), P2pCircuit]) == Some(r) <==>
            !AddrIsRelay(a) || ExtractRelayPeer(a) == Some(r)
  {
    if AddrIsRelay(a) {
      ExtractSuffix(a, [P2p(r), P2pCircuit], None);
    } else {
      ExtractListen(a, r, None);
    }
  }

  // ----- reservations -----

  datatype Relays = Relays(reserved: seq<PeerId>, inUse: set<PeerId>, maxRelays: nat)

  ghost predicate Distinct(s: seq<PeerId>) {
    forall i, j | 0 <= i < j < |s| :: s[i] != s[j]
  }

  predicate CanReserve(r: Relays, relay: PeerId) {
    relay in r.reserved || |r.reserved| < |r.inUse| + r.maxRelays
  }

  function Register(r: Relays, relay: PeerId): Relays {
    if relay in r.reserved then r else r.(reserved := r.reserved + [relay])
  }

  /** Relays that carry a recorded connection. */
  function InUseIn(v: View): set<PeerId> {
    set p, m | p in v && m in v[p].addresses && Carrying(m) :: ExtractRelayPeer(m.address).value
  }

  predicate Carrying(m: AddressMetadata) {
    m.activeConnections != [] && AddrIsRelay(m.address) && ExtractRelayPeer(m.address).Some?
  }

  /** The largest `Duration`, in nanoseconds. */
  const DURATION_MAX: nat := 0xFFFF_FFFF_FFFF_FFFF * NANOS_PER_SEC + 999_999_999

  /** Round-trip time for ranking: a peer the view does not know ranks last. */
  function Rtt(v: View, p: PeerId): nat {
    if p in v then v[p].rtt else DURATION_MAX
  }

  /** The unused relay with the largest RTT; the later one wins a tie. */
  function WorstUnused(s: seq<PeerId>, inUse: set<PeerId>, v: View): Option<PeerId> {
    if s == [] then None
    else
      var worst := WorstUnused(s[1..], inUse, v);
      if s[0] in inUse then worst
      else if worst == None || Rtt(v, s[0]) > Rtt(v, worst.value) then Some(s[0])
      else worst
  }

  function RemoveFirst(s: seq<PeerId>, p: PeerId): (r: seq<PeerId>)
    ensures |r| == if p in s then |s| - 1 else |s|
  {
    if s == [] then []
    else if s[0] == p then s[1..]
    else [s[0]] + RemoveFirst(s[1..], p)
  }

  lemma {:induction false} WorstIsReserved(s: seq<PeerId>, inUse: set<PeerId>, v: View)
    ensures WorstUnused(s, inUse, v).Some? ==> WorstUnused(s, inUse, v).value in s && WorstUnused(s, inUse, v).value !in inUse
    ensures WorstUnused(s, inUse, v).None? <==> forall p | p in s :: p in inUse
  {
    if s != [] {
      WorstIsReserved(s[1..], inUse, v);
      assert s == [s[0]] + s[1..];
    }
  }

  datatype Pruned = Pruned(reserved: seq<PeerId>, removed: seq<PeerId>)

  /** The eviction loop on the queue, with what it removed, in order. */
  function PruneQueue(s: seq<PeerId>, inUse: set<PeerId>, max: nat, v: View): Pruned
    decreases |s|
  {
    if |s| <= |inUse| + max then Pruned(s, [])
    else
      match WorstUnused(s, inUse, v)
      case None => Pruned(s, [])
      case Some(w) =>
        WorstIsReserved(s, inUse, v);
        var rest := PruneQueue(RemoveFirst(s, w), inUse, max, v);
        Pruned(rest.reserved, [w] + rest.removed)
  }

  /** One turn of the eviction loop. */
  lemma PruneCases(s: seq<PeerId>, inUse: set<PeerId>, max: nat, v: View)
    ensures var w := WorstUnused(s, inUse, v);
            var r := PruneQueue(s, inUse, max, v);
            if |s| <= |inUse| + max || w.None? then r == Pruned(s, [])
            else
              var rest := PruneQueue(RemoveFirst(s, w.value), inUse, max, v);
              r == Pruned(rest.reserved, [w.value] + rest.removed)
  {
    hide WorstUnused, RemoveFirst;
  }

  function Disconnects(s: seq<PeerId>): (e: seq<Effect>)
    ensures |e| == |s| && forall i | 0 <= i < |e| :: e[i] == DisconnectPeer(s[i])
  {
    seq(|s|, i requires 0 <= i < |s| => DisconnectPeer(s[i]))
  }

  // ----- the eviction loop meets its policy -----

  /** Survivors in their original order. */
  function Keep(s: seq<PeerId>, kept: set<PeerId>): seq<PeerId> {
    if s == [] then []
    else (if s[0] in kept then [s[0]] else []) + Keep(s[1..], kept)
  }

  ghost predicate ComesLater(s: seq<PeerId>, x: PeerId, y: PeerId) {
    exists i, j :: 0 <= i < j < |s| && s[i] == y && s[j] == x
  }

  /** The longest duration there is: the largest number of seconds, and almost one more. */
  const LONGEST: nat := 18_446_744_073_709_551_615_999_999_999

  /** `x` is slower than `y`. A relay the view does not know counts as slow as can be. */
  predicate Slower(v: View, x: PeerId, y: PeerId) {
    if x in v && y in v then v[x].rtt > v[y].rtt
    else if x in v then v[x].rtt > LONGEST
    else y in v && v[y].rtt < LONGEST
  }

  predicate AsSlow(v: View, x: PeerId, y: PeerId) {
    if x in v && y in v then v[x].rtt == v[y].rtt
    else if x in v then v[x].rtt == LONGEST
    else y in v ==> v[y].rtt == LONGEST
  }

  /** `x` goes before `y` does: slower, or as slow and later in the queue. */
  ghost predicate GoesFirst(s: seq<PeerId>, v: View, x: PeerId, y: PeerId) {
    Slower(v, x, y) || (AsSlow(v, x, y) && ComesLater(s, x, y))
  }

  /** The RTT that ranks relays compares them like that. */
  lemma RttMeaning(v: View, x: PeerId, y: PeerId)
    ensures Slower(v, x, y) <==> Rtt(v, x) > Rtt(v, y)
    ensures AsSlow(v, x, y) <==> Rtt(v, x) == Rtt(v, y)
  {
  }

  ghost function SetOf(s: seq<PeerId>): set<PeerId> {
    set p | p in s
  }

  lemma {:induction false} DistinctCard(s: seq<PeerId>)
    requires Distinct(s)
    ensures |SetOf(s)| == |s|
  {
    if s != [] {
      DistinctCard(s[1..]);
      assert s[0] !in s[1..];
      assert SetOf(s) == {s[0]} + SetOf(s[1..]);
    }
  }

  lemma SubsetCard(x: set<PeerId>, y: set<PeerId>)
    requires x <= y
    ensures |x| <= |y|
  {
    assert y == x + (y - x);
  }

  /** Pigeonhole: a duplicate-free queue longer than the usage set has an unused relay. */
  lemma SomeUnused(s: seq<PeerId>, inUse: set<PeerId>, v: View)
    requires Distinct(s) && |s| > |inUse|
    ensures WorstUnused(s, inUse, v).Some?
  {
    WorstIsReserved(s, inUse, v);
    if WorstUnused(s, inUse, v).None? {
      DistinctCard(s);
      SubsetCard(SetOf(s), inUse);
    }
  }

  lemma {:induction false} WorstGoesFirst(s: seq<PeerId>, inUse: set<PeerId>, v: View, y: PeerId)
    requires Distinct(s) && WorstUnused(s, inUse, v).Some?
    requires y in s && y !in inUse && y != WorstUnused(s, inUse, v).value
    ensures GoesFirst(s, v, WorstUnused(s, inUse, v).value, y)
  {
    hide Rtt, Slower, AsSlow;
    var rest := s[1..];
    var w := WorstUnused(s, inUse, v).value;
    WorstIsReserved(rest, inUse, v);
    var worst := WorstUnused(rest, inUse, v);
    RttMeaning(v, w, y);
    if s[0] == y {
      assert w in rest;
      var j :| 0 <= j < |rest| && rest[j] == w;
      assert s[0] == y && s[j + 1] == w;
    } else {
      assert y in rest;
      if y != worst.value {
        WorstGoesFirst(rest, inUse, v, y);
        RttMeaning(v, worst.value, y);
        if w == worst.value && Rtt(v, w) == Rtt(v, y) {
          var i, j :| 0 <= i < j < |rest| && rest[i] == y && rest[j] == w;
          assert s[i + 1] == y && s[j + 1] == w;
        }
      }
    }
  }

  lemma {:induction false} RemoveFirstFacts(s: seq<PeerId>, p: PeerId)
    requires Distinct(s)
    ensures Distinct(RemoveFirst(s, p))
    ensures forall q :: q in RemoveFirst(s, p) <==> q in s && q != p
    ensures forall x, y | x != p && y != p :: ComesLater(RemoveFirst(s, p), x, y) <==> ComesLater(s, x, y)
  {
    if s != [] {
      var rest := s[1..];
      assert s == [s[0]] + rest;
      RemoveFirstFacts(rest, p);
      var r := RemoveFirst(s, p);
      assert s[0] !in rest;
      assert s[0] != p ==> s[0] !in RemoveFirst(rest, p);
      ConsDistinct(s[0], RemoveFirst(rest, p));
      forall x, y | x != p && y != p
        ensures ComesLater(r, x, y) <==> ComesLater(s, x, y)
      {
        ComesLaterCons(s[0], rest, x, y);
        if s[0] != p {
          ComesLaterCons(s[0], RemoveFirst(rest, p), x, y);
        }
      }
    }
  }

  lemma ConsDistinct(h: PeerId, rest: seq<PeerId>)
    ensures Distinct(rest) && h !in rest ==> Distinct([h] + rest)
  {
  }

  lemma ComesLaterCons(h: PeerId, rest: seq<PeerId>, x: PeerId, y: PeerId)
    ensures ComesLater([h] + rest, x, y) <==> (h == y && x in rest) || ComesLater(rest, x, y)
  {
    var s := [h] + rest;
    if h == y && x in rest {
      var j :| 0 <= j < |rest| && rest[j] == x;
      assert s[0] == y && s[j + 1] == x;
    }
    if ComesLater(rest, x, y) {
      var i, j :| 0 <= i < j < |rest| && rest[i] == y && rest[j] == x;
      assert s[i + 1] == y && s[j + 1] == x;
    }
    if ComesLater(s, x, y) {
      var i, j :| 0 <= i < j < |s| && s[i] == y && s[j] == x;
      assert rest[j - 1] == x;
      if i > 0 {
        assert rest[i - 1] == y;
      }
    }
  }

  lemma {:induction false} KeepAll(s: seq<PeerId>, kept: set<PeerId>)
    requires forall p | p in s :: p in kept
    ensures Keep(s, kept) == s
  {
    if s != [] {
      assert forall p | p in s[1..] :: p in s;
      KeepAll(s[1..], kept);
    }
  }

  lemma {:induction false} KeepAfterRemove(s: seq<PeerId>, p: PeerId, kept: set<PeerId>)
    requires p !in kept
    ensures Keep(RemoveFirst(s, p), kept) == Keep(s, kept)
  {
    if s != [] && s[0] != p {
      KeepAfterRemove(s[1..], p, kept);
      var r := RemoveFirst(s, p);
      assert r[1..] == RemoveFirst(s[1..], p);
    }
  }

  /** What the eviction loop leaves and takes, said without the loop: how many go, that no relay in
      use goes, that everyone who goes is worse than everyone unused who stays, that the worse go
      earlier, and that the survivors keep their order. The loop never stops for want of an unused
      relay. */
  ghost predicate PolicyMet(s: seq<PeerId>, inUse: set<PeerId>, max: nat, v: View, r: Pruned) {
    && Distinct(r.removed)
    && |r.removed| == (if |s| > |inUse| + max then |s| - |inUse| - max else 0)
    && |r.reserved| == |s| - |r.removed|
    && (forall p :: p in s <==> p in r.reserved || p in r.removed)
    && (forall p | p in r.removed :: p !in r.reserved && p !in inUse)
    && (forall x, y | x in r.removed && y in r.reserved && y !in inUse :: GoesFirst(s, v, x, y))
    && (forall i, j | 0 <= i < j < |r.removed| :: GoesFirst(s, v, r.removed[i], r.removed[j]))
    && r.reserved == Keep(s, SetOf(r.reserved))
  }

  lemma {:induction false} PruneMeetsPolicy(s: seq<PeerId>, inUse: set<PeerId>, max: nat, v: View)
    requires Distinct(s)
    ensures PolicyMet(s, inUse, max, v, PruneQueue(s, inUse, max, v))
    ensures Distinct(PruneQueue(s, inUse, max, v).reserved)
    decreases |s|
  {
    if |s| <= |inUse| + max {
      KeepAll(s, SetOf(s));
    } else {
      SomeUnused(s, inUse, v);
      WorstIsReserved(s, inUse, v);
      var w := WorstUnused(s, inUse, v).value;
      var t := RemoveFirst(s, w);
      RemoveFirstFacts(s, w);
      PruneMeetsPolicy(t, inUse, max, v);
      var r := PruneQueue(t, inUse, max, v);
      PolicyStep(s, w, inUse, max, v, r);
    }
  }

  /** The order of the shorter queue holds in the longer one, where the relay just taken goes first. */
  lemma PolicyOrder(s: seq<PeerId>, w: PeerId, inUse: set<PeerId>, v: View, x: PeerId, y: PeerId)
    requires Distinct(s) && WorstUnused(s, inUse, v) == Some(w)
    requires y in s && y !in inUse && y != w
    requires x == w || GoesFirst(RemoveFirst(s, w), v, x, y)
    ensures GoesFirst(s, v, x, y)
  {
    hide WorstUnused, RemoveFirst, ComesLater, Rtt, Slower, AsSlow;
    if x == w {
      WorstGoesFirst(s, inUse, v, y);
    } else {
      RemoveFirstFacts(s, w);
    }
  }

  lemma PolicyStep(s: seq<PeerId>, w: PeerId, inUse: set<PeerId>, max: nat, v: View, r: Pruned)
    requires Distinct(s) && |s| > |inUse| + max && WorstUnused(s, inUse, v) == Some(w)
    requires PolicyMet(RemoveFirst(s, w), inUse, max, v, r)
    ensures PolicyMet(s, inUse, max, v, Pruned(r.reserved, [w] + r.removed))
  {
    hide WorstUnused, RemoveFirst, Keep, GoesFirst;
    WorstIsReserved(s, inUse, v);
    RemoveFirstFacts(s, w);
    KeepAfterRemove(s, w, SetOf(r.reserved));
    var removed := [w] + r.removed;
    assert w !in r.removed && w !in r.reserved;
    assert forall p :: p in removed <==> p == w || p in r.removed;
    forall x, y | x in removed && y in r.reserved && y !in inUse
      ensures GoesFirst(s, v, x, y)
    {
      PolicyOrder(s, w, inUse, v, x, y);
    }
    forall i, j | 0 <= i < j < |removed|
      ensures GoesFirst(s, v, removed[i], removed[j])
    {
      assert removed[j] in r.removed;
      assert i > 0 ==> removed[i] == r.removed[i - 1] && removed[j] == r.removed[j - 1];
      PolicyOrder(s, w, inUse, v, removed[i], removed[j]);
    }
    ConsDistinct(w, r.removed);
  }

  /** The policy leaves no choice: queue and bound determine the survivors, and who goes in which order. */
  lemma PolicyDeterminesSurvivors(s: seq<PeerId>, inUse: set<PeerId>, max: nat, v: View, r: Pruned, r': Pruned)
    requires Distinct(s) && PolicyMet(s, inUse, max, v, r) && PolicyMet(s, inUse, max, v, r')
    ensures r == r'
  {
    SameRemoved(s, inUse, max, v, r, r');
    assert SetOf(r.reserved) == SetOf(r'.reserved) by {
      assert forall p :: p in r.removed <==> p in SetOf(r.removed);
      assert forall p :: p in r'.removed <==> p in SetOf(r'.removed);
    }
    assert forall p :: p in r.removed <==> p in SetOf(r.removed);
    assert forall p :: p in r'.removed <==> p in SetOf(r'.removed);
    OrderDetermines(s, v, r.removed, r'.removed);
  }

  lemma SameRemoved(s: seq<PeerId>, inUse: set<PeerId>, max: nat, v: View, r: Pruned, r': Pruned)
    requires Distinct(s) && PolicyMet(s, inUse, max, v, r) && PolicyMet(s, inUse, max, v, r')
    ensures SetOf(r.removed) == SetOf(r'.removed)
  {
    hide GoesFirst, Keep;
    DistinctCard(r.removed);
    DistinctCard(r'.removed);
    if SetOf(r.removed) != SetOf(r'.removed) {
      if SetOf(r.removed) <= SetOf(r'.removed) {
        SubsetStrict(SetOf(r.removed), SetOf(r'.removed));
      } else if SetOf(r'.removed) <= SetOf(r.removed) {
        SubsetStrict(SetOf(r'.removed), SetOf(r.removed));
      } else {
        var x :| x in r.removed && x !in r'.removed;
        var y :| y in r'.removed && y !in r.removed;
        assert x in s && y in s;
        GoesFirstAsymmetric(s, v, x, y);
      }
    }
  }

  /** Two lists of the same relays, each with the worse earlier, are the same list. */
  lemma {:induction false} OrderDetermines(s: seq<PeerId>, v: View, x: seq<PeerId>, y: seq<PeerId>)
    requires Distinct(s) && Distinct(x) && Distinct(y) && |x| == |y|
    requires forall p :: p in x <==> p in y
    requires forall i, j | 0 <= i < j < |x| :: GoesFirst(s, v, x[i], x[j])
    requires forall i, j | 0 <= i < j < |y| :: GoesFirst(s, v, y[i], y[j])
    ensures x == y
  {
    hide GoesFirst;
    if x != [] {
      if x[0] != y[0] {
        assert x[0] in y && y[0] in x;
        var i :| 0 <= i < |x| && x[i] == y[0];
        var j :| 0 <= j < |y| && y[j] == x[0];
        assert GoesFirst(s, v, x[0], x[i]) && GoesFirst(s, v, y[0], y[j]);
        GoesFirstAsymmetric(s, v, x[0], y[0]);
        assert false;
      }
      forall p
        ensures p in x[1..] <==> p in y[1..]
      {
        assert x == [x[0]] + x[1..] && y == [y[0]] + y[1..];
        assert x[0] !in x[1..] && y[0] !in y[1..];
        assert p in x <==> p == x[0] || p in x[1..];
        assert p in y <==> p == y[0] || p in y[1..];
      }
      OrderDetermines(s, v, x[1..], y[1..]);
      assert x == [x[0]] + x[1..] && y == [y[0]] + y[1..];
    }
  }

  lemma SubsetStrict(x: set<PeerId>, y: set<PeerId>)
    requires x <= y && |x| == |y|
    ensures x == y
  {
    assert y == x + (y - x);
  }

  lemma GoesFirstAsymmetric(s: seq<PeerId>, v: View, x: PeerId, y: PeerId)
    requires Distinct(s) && GoesFirst(s, v, x, y)
    ensures !GoesFirst(s, v, y, x)
  {
    if ComesLater(s, x, y) {
      var i, j :| 0 <= i < j < |s| && s[i] == y && s[j] == x;
      assert forall k, l | 0 <= k < l < |s| && s[k] == x :: k == j && s[l] != y;
    }
  }

  /** Registering the relay leaves the eviction loop nothing to do. */
  ghost predicate TakenInFreely(r: Relays, relay: PeerId, v: View) {
    var queue := Register(r, relay).reserved;
    PruneQueue(queue, r.inUse, r.maxRelays, v) == Pruned(queue, [])
  }

  // ----- two prunings with a registration in between -----

  lemma {:induction false} WorstAppend(s: seq<PeerId>, inUse: set<PeerId>, v: View, r: PeerId)
    requires r in inUse
    ensures WorstUnused(s + [r], inUse, v) == WorstUnused(s, inUse, v)
  {
    if s == [] {
      assert s + [r] == [r] && [r][1..] == [];
      assert WorstUnused([], inUse, v) == None;
    } else {
      assert (s + [r])[1..] == s[1..] + [r];
      WorstAppend(s[1..], inUse, v, r);
    }
  }

  lemma {:induction false} RemoveFirstAppend(s: seq<PeerId>, p: PeerId, r: PeerId)
    requires p in s
    ensures RemoveFirst(s + [r], p) == RemoveFirst(s, p) + [r]
  {
    assert (s + [r])[1..] == s[1..] + [r];
    if s[0] != p {
      RemoveFirstAppend(s[1..], p, r);
      assert [s[0]] + (RemoveFirst(s[1..], p) + [r]) == [s[0]] + RemoveFirst(s[1..], p) + [r];
    }
  }

  /** Evicting, then registering a relay in use, then evicting again is registering it first and evicting
      once. */
  lemma {:induction false} PruneTwice(s: seq<PeerId>, inUse: set<PeerId>, max: nat, v: View, r: PeerId)
    requires r in inUse && r !in s
    ensures var first := PruneQueue(s, inUse, max, v);
            var second := PruneQueue(first.reserved + [r], inUse, max, v);
            PruneQueue(s + [r], inUse, max, v) == Pruned(second.reserved, first.removed + second.removed)
    decreases |s|
  {
    hide WorstUnused, RemoveFirst, PruneQueue;
    WorstAppend(s, inUse, v, r);
    WorstIsReserved(s, inUse, v);
    PruneCases(s, inUse, max, v);
    if |s| > |inUse| + max && WorstUnused(s, inUse, v).Some? {
      var w := WorstUnused(s, inUse, v).value;
      RemoveFirstAppend(s, w, r);
      StillAbsent(s, w, r);
      PruneTwice(RemoveFirst(s, w), inUse, max, v, r);
      PruneCases(s + [r], inUse, max, v);
      var first := PruneQueue(RemoveFirst(s, w), inUse, max, v);
      var second := PruneQueue(first.reserved + [r], inUse, max, v);
      assert [w] + (first.removed + second.removed) == [w] + first.removed + second.removed;
    } else {
      var second := PruneQueue(s + [r], inUse, max, v);
      assert [] + second.removed == second.removed;
    }
  }

  lemma {:induction false} StillAbsent(s: seq<PeerId>, p: PeerId, r: PeerId)
    requires r !in s
    ensures r !in RemoveFirst(s, p)
  {
    if s != [] && s[0] != p {
      assert r !in s[1..];
      StillAbsent(s[1..], p, r);
    }
  }

  /** Evicting twice is evicting once. */
  lemma PruneAgain(s: seq<PeerId>, inUse: set<PeerId>, max: nat, v: View)
    requires Distinct(s)
    ensures var first := PruneQueue(s, inUse, max, v);
            PruneQueue(first.reserved, inUse, max, v) == Pruned(first.reserved, [])
  {
    PruneMeetsPolicy(s, inUse, max, v);
  }

  /** Admission means no eviction: from a state within bounds, registering a relay makes the loop
      evict something exactly when `can_reserve` had said no. */
  lemma AdmissionMeansNoEviction(r: Relays, relay: PeerId, v: View)
    requires Distinct(r.reserved) && |r.reserved| <= |r.inUse| + r.maxRelays
    ensures TakenInFreely(r, relay, v) <==> CanReserve(r, relay)
  {
    var s := Register(r, relay).reserved;
    RegisterDistinct(r, relay);
    PruneMeetsPolicy(s, r.inUse, r.maxRelays, v);
  }

  lemma RegisterDistinct(r: Relays, relay: PeerId)
    requires Distinct(r.reserved)
    ensures Distinct(Register(r, relay).reserved)
    ensures forall p :: p in Register(r, relay).reserved <==> p in r.reserved || p == relay
  {
  }
}
