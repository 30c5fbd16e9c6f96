/** One entry of a peer's address list, its backoff clock and its sort key. */
module Metadata {
  import opened Options
  import opened Multiaddrs
  import opened Classify
  import LexOrder

  /** A point in time, in nanoseconds. */
  type Instant = nat

  type ConnId = nat

  const NANOS_PER_SEC: nat := 1_000_000_000
  const U32_MAX: nat := 0xFFFF_FFFF

  datatype AddressMetadata = AddressMetadata(
    address: Multiaddr,
    activeConnections: seq<ConnId>,
    transport: Transport,
    scope: NetScope,
    lastErr: Option<Instant>,
    errCount: nat)

  /** A freshly classified entry: no connection, no recorded failure. */
  function NewMetadata(addr: Multiaddr): AddressMetadata {
    AddressMetadata(addr, [], TransportOf(addr), ScopeOf(addr), None, 0)
  }

  // ----- backoff -----

  function Min(a: nat, b: nat): nat { if a < b then a else b }

  function Pow2(e: nat): nat { if e == 0 then 1 else 2 * Pow2(e - 1) }

  /** Cooldown after the `errCount`-th failure in a row. */
  function Backoff(errCount: nat): nat {
    Pow2(Min(errCount, 6)) * NANOS_PER_SEC
  }

  /** `duration_since` saturates at zero when `at` lies in the future. */
  function Since(now: Instant, at: Instant): nat {
    if at <= now then now - at else 0
  }

  predicate InCooldown(m: AddressMetadata, now: Instant) {
    m.lastErr.Some? && Since(now, m.lastErr.value) < Backoff(m.errCount)
  }

  function Failed(m: AddressMetadata, now: Instant): AddressMetadata {
    m.(errCount := Min(m.errCount + 1, U32_MAX), lastErr := Some(now))
  }

  function Cleared(m: AddressMetadata): AddressMetadata {
    m.(errCount := 0, lastErr := None)
  }

  lemma {:induction false} Pow2Monotone(a: nat, b: nat)
    requires a <= b
    ensures 0 < Pow2(a) <= Pow2(b)
    decreases b
  {
    if a < b {
      Pow2Monotone(a, b - 1);
    } else if a > 0 {
      Pow2Monotone(a - 1, b - 1);
    }
  }

  /** From the first failure on the cooldown lies between 2 and 64 seconds, it never shrinks as the
      count grows, and six failures reach the cap. */
  lemma BackoffSchedule(a: nat, b: nat)
    requires 0 < a <= b
    ensures 2 * NANOS_PER_SEC <= Backoff(a) <= Backoff(b) <= 64 * NANOS_PER_SEC
    ensures a < b <= 6 ==> 2 * Backoff(a) <= Backoff(b)
    ensures 6 <= a ==> Backoff(a) == 64 * NANOS_PER_SEC
  {
    Pow2Monotone(1, Min(a, 6));
    Pow2Monotone(Min(a, 6), Min(b, 6));
    Pow2Monotone(Min(b, 6), 6);
    assert Pow2(1) == 2;
    assert Pow2(2) == 4;
    assert Pow2(4) == 16;
    assert Pow2(6) == 64;
    if a < b <= 6 {
      Pow2Monotone(a + 1, b);
    }
  }

  /** How long an address cools down after so many failures in a row, in nanoseconds. */
  function Cooldown(failures: nat): nat {
    match failures
    case 0 => 1_000_000_000
    case 1 => 2_000_000_000
    case 2 => 4_000_000_000
    case 3 => 8_000_000_000
    case 4 => 16_000_000_000
    case 5 => 32_000_000_000
    case _ => 64_000_000_000
  }

  /** An entry is cooling down exactly until that long after its last failure; without one it is not. */
  lemma CoolingExactly(m: AddressMetadata, now: Instant)
    ensures InCooldown(m, now) <==> m.lastErr.Some? && now < m.lastErr.value + Cooldown(m.errCount)
  {
    var c := Min(m.errCount, 6);
    assert Pow2(0) == 1 && Pow2(1) == 2;
    assert Pow2(2) == 4 && Pow2(3) == 8;
    assert Pow2(4) == 16 && Pow2(5) == 32;
    assert Pow2(6) == 64;
    assert c == 0 || c == 1 || c == 2 || c == 3 || c == 4 || c == 5 || c == 6;
  }

  // ----- ranking -----

  /** Static priority of an address: scope, transport, then the address itself. */
  function StaticKey(addr: Multiaddr): seq<nat> {
    [ScopeOf(addr).Rank()] + ([TransportOf(addr).Rank()] + Bytes(addr))
  }

  /** The key `resort` sorts by, read off the entry's own fields. */
  function SortKey(m: AddressMetadata, now: Instant): seq<nat> {
    [if InCooldown(m, now) then 1 else 0]
    + ([m.scope.Rank()] + ([m.transport.Rank()] + Bytes(m.address)))
  }

  predicate Before(x: AddressMetadata, y: AddressMetadata, now: Instant) {
    LexOrder.Less(SortKey(x, now), SortKey(y, now))
  }

  /** `a` is statically preferred to `b`. */
  predicate Better(a: Multiaddr, b: Multiaddr) {
    LexOrder.Less(StaticKey(a), StaticKey(b))
  }

  predicate BetterOrSame(a: Multiaddr, b: Multiaddr) {
    a == b || Better(a, b)
  }

  /** The order of scopes: private networks, then link-local, then public ones. */
  predicate NearerScope(x: NetScope, y: NetScope) {
    (x == NetScope.PrivateLan && y != NetScope.PrivateLan) || (x == NetScope.LinkLocal && y == NetScope.Public)
  }

  /** The order of transports: QUIC, then TCP, then others, then relayed. */
  predicate FasterTransport(x: Transport, y: Transport) {
    match x
    case Quic => y != Transport.Quic
    case Tcp => y == Transport.Other || y == Transport.Relay
    case Other => y == Transport.Relay
    case Relay => false
  }

  /** Scope first, then transport, then the bytes of the address. */
  predicate Preferred(a: Multiaddr, b: Multiaddr) {
    || NearerScope(ScopeOf(a), ScopeOf(b))
    || (ScopeOf(a) == ScopeOf(b) && FasterTransport(TransportOf(a), TransportOf(b)))
    || (ScopeOf(a) == ScopeOf(b) && TransportOf(a) == TransportOf(b) && LexOrder.Less(Bytes(a), Bytes(b)))
  }

  lemma BetterMeaning(a: Multiaddr, b: Multiaddr)
    ensures Better(a, b) <==> Preferred(a, b)
  {
    hide ScopeOf, TransportOf, LexOrder.Less, Bytes;
    var x, y := [TransportOf(a).Rank()] + Bytes(a), [TransportOf(b).Rank()] + Bytes(b);
    LexOrder.Cons(ScopeOf(a).Rank(), x, ScopeOf(b).Rank(), y);
    LexOrder.Cons(TransportOf(a).Rank(), Bytes(a), TransportOf(b).Rank(), Bytes(b));
  }

  predicate Classified(m: AddressMetadata) {
    m.scope == ScopeOf(m.address) && m.transport == TransportOf(m.address)
  }

  lemma BetterIrreflexive(a: Multiaddr)
    ensures !Better(a, a)
  {
    LexOrder.Irreflexive(StaticKey(a));
  }

  lemma BetterTransitive(a: Multiaddr, b: Multiaddr, c: Multiaddr)
    requires Better(a, b) && Better(b, c)
    ensures Better(a, c)
  {
    LexOrder.Transitive(StaticKey(a), StaticKey(b), StaticKey(c));
  }

  lemma BetterAsymmetric(a: Multiaddr, b: Multiaddr)
    requires Better(a, b)
    ensures !Better(b, a) && a != b
  {
    LexOrder.Asymmetric(StaticKey(a), StaticKey(b));
  }

  /** Distinct addresses are never tied. */
  lemma BetterTotal(a: Multiaddr, b: Multiaddr)
    ensures a == b || Better(a, b) || Better(b, a)
  {
    LexOrder.Total(StaticKey(a), StaticKey(b));
    if StaticKey(a) == StaticKey(b) {
      assert Bytes(a) == StaticKey(a)[2..] == StaticKey(b)[2..] == Bytes(b);
      BytesInjective(a, b);
    }
  }

  /** Cooling entries go last; within a group the static priority decides. */
  lemma BeforeMeaning(x: AddressMetadata, y: AddressMetadata, now: Instant)
    requires Classified(x) && Classified(y)
    ensures Before(x, y, now) <==>
            (!InCooldown(x, now) && InCooldown(y, now))
            || (InCooldown(x, now) == InCooldown(y, now) && Better(x.address, y.address))
  {
    LexOrder.Cons(if InCooldown(x, now) then 1 else 0, StaticKey(x.address),
                  if InCooldown(y, now) then 1 else 0, StaticKey(y.address));
  }
}
