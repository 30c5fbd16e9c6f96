/** `classify_addr` of src/view.rs: the coarse network scope and the transport class of an address. */
module Classify {
  import opened Multiaddrs

  datatype Transport = Quic | Tcp | Other | Relay {
    /** Smaller is preferred. */
    function Rank(): nat {
      match this
      case Quic => 0
      case Tcp => 1
      case Other => 2
      case Relay => 3
    }
  }

  datatype NetScope = LinkLocal | PrivateLan | Public {
    /** Smaller is preferred. */
    function Rank(): nat {
      match this
      case PrivateLan => 0
      case LinkLocal => 1
      case Public => 2
    }
  }

  // ----- one component -----

  function Ip4Scope(a: u8, b: u8): NetScope {
    if a == 10 then NetScope.PrivateLan
    else if a == 172 && 16 <= b <= 31 then NetScope.PrivateLan
    else if a == 192 && b == 168 then NetScope.PrivateLan
    else if a == 169 && b == 254 then NetScope.LinkLocal
    else NetScope.Public
  }

  function Ip6Scope(first: bv16): NetScope {
    if (first & 0xfe00) == 0xfc00 then NetScope.PrivateLan
    else if (first & 0xffc0) == 0xfe80 then NetScope.LinkLocal
    else NetScope.Public
  }

  function ScopeStep(p: Protocol, scope: NetScope): NetScope {
    match p
    case Ip4(a, b, _, _) => Ip4Scope(a, b)
    case Ip6(first, _) => Ip6Scope(first)
    case _ => scope
  }

  function TransportStep(p: Protocol, transport: Transport): Transport {
    match p
    case QuicV1 => Transport.Quic
    case Quic => Transport.Quic
    case Tcp(_) => if transport.Rank() > Transport.Tcp.Rank() then Transport.Tcp else transport
    case P2pCircuit => Transport.Relay
    case _ => transport
  }

  // ----- the whole address -----

  function ScopeOf(addr: Multiaddr): NetScope {
    if addr == [] then NetScope.Public
    else ScopeStep(addr[|addr| - 1], ScopeOf(addr[..|addr| - 1]))
  }

  function TransportOf(addr: Multiaddr): Transport {
    if addr == [] then Transport.Other
    else TransportStep(addr[|addr| - 1], TransportOf(addr[..|addr| - 1]))
  }

  method ClassifyAddr(addr: Multiaddr) returns (scope: NetScope, transport: Transport)
    ensures scope == ScopeOf(addr) && transport == TransportOf(addr)
  {
    scope := NetScope.Public;
    transport := Transport.Other;
    for i := 0 to |addr|
      invariant scope == ScopeOf(addr[..i]) && transport == TransportOf(addr[..i])
    {
      assert addr[..i + 1][..i] == addr[..i];
      match addr[i] {
        case Ip4(a, b, _, _) => scope := Ip4Scope(a, b);
        case Ip6(first, _) => scope := Ip6Scope(first);
        case QuicV1 => transport := Transport.Quic;
        case Quic => transport := Transport.Quic;
        case Tcp(_) =>
          if transport.Rank() > Transport.Tcp.Rank() {
            transport := Transport.Tcp;
          }
        case P2pCircuit => transport := Transport.Relay;
        case _ =>
      }
    }
    assert addr[..|addr|] == addr;
  }

  // ----- what the fold means -----

  predicate IsIp(p: Protocol) { p.Ip4? || p.Ip6? }

  predicate IsQuic(p: Protocol) { p.Quic? || p.QuicV1? }

  function Ip4Value(a: u8, b: u8, c: u8, d: u8): nat {
    ((a * 256 + b) * 256 + c) * 256 + d
  }

  /** RFC 1918 section 3 (10/8, 172.16/12, 192.168/16) and RFC 4193 section 3.1 (fc00::/7),
      as ranges of addresses. */
  predicate IsPrivate(p: Protocol) {
    match p
    case Ip4(a, b, c, d) =>
      var v := Ip4Value(a, b, c, d);
      0x0A00_0000 <= v <= 0x0AFF_FFFF || 0xAC10_0000 <= v <= 0xAC1F_FFFF || 0xC0A8_0000 <= v <= 0xC0A8_FFFF
    case Ip6(first, _) => 0xFC00 <= first <= 0xFDFF
    case _ => false
  }

  /** RFC 3927 section 2.1 (169.254/16) and RFC 4291 section 2.4 (fe80::/10), as ranges of addresses. */
  predicate IsLinkLocal(p: Protocol) {
    match p
    case Ip4(a, b, c, d) => 0xA9FE_0000 <= Ip4Value(a, b, c, d) <= 0xA9FE_FFFF
    case Ip6(first, _) => 0xFE80 <= first <= 0xFEBF
    case _ => false
  }

  /** The octet patterns and bit masks pick out exactly the ranges of the RFCs. */
  lemma ScopeStepMeansRanges(p: Protocol, scope: NetScope)
    requires IsIp(p)
    ensures ScopeStep(p, scope) ==
            if IsPrivate(p) then NetScope.PrivateLan
            else if IsLinkLocal(p) then NetScope.LinkLocal
            else NetScope.Public
  {
    if p.Ip6? {
      var f := p.first;
      assert (f & 0xfe00) == 0xfc00 <==> 0xfc00 <= f <= 0xfdff;
      assert (f & 0xffc0) == 0xfe80 <==> 0xfe80 <= f <= 0xfebf;
    }
  }

  /** Component k is the last IP component of the address. */
  ghost predicate LastIp(addr: Multiaddr, k: int) {
    0 <= k < |addr| && IsIp(addr[k]) && forall j | k < j < |addr| :: !IsIp(addr[j])
  }

  lemma {:induction false} ScopeFromLast(addr: Multiaddr, k: int)
    requires LastIp(addr, k)
    ensures ScopeOf(addr) == ScopeStep(addr[k], NetScope.Public)
    decreases |addr|
  {
    hide Ip4Scope, Ip6Scope;
    var n := |addr| - 1;
    if k < n {
      assert LastIp(addr[..n], k);
      ScopeFromLast(addr[..n], k);
    }
  }

  lemma {:induction false} ScopeWithoutIp(addr: Multiaddr)
    requires forall k | 0 <= k < |addr| :: !IsIp(addr[k])
    ensures ScopeOf(addr) == NetScope.Public
  {
    if addr != [] {
      ScopeWithoutIp(addr[..|addr| - 1]);
    }
  }

  lemma {:induction false} SomeLastIp(addr: Multiaddr)
    ensures (exists k :: LastIp(addr, k)) || (forall k | 0 <= k < |addr| :: !IsIp(addr[k]))
  {
    if addr != [] {
      var n := |addr| - 1;
      SomeLastIp(addr[..n]);
      if IsIp(addr[n]) {
        assert LastIp(addr, n);
      } else if k :| LastIp(addr[..n], k) {
        assert LastIp(addr, k);
      }
    }
  }

  /** The last IP component alone decides the scope; without one the scope is public. */
  lemma ScopeIsLastIp(addr: Multiaddr)
    ensures (exists k :: LastIp(addr, k)) || (forall k | 0 <= k < |addr| :: !IsIp(addr[k]))
    ensures forall k :: LastIp(addr, k) ==>
              ScopeOf(addr) == if IsPrivate(addr[k]) then NetScope.PrivateLan
                               else if IsLinkLocal(addr[k]) then NetScope.LinkLocal
                               else NetScope.Public
    ensures (forall k | 0 <= k < |addr| :: !IsIp(addr[k])) ==> ScopeOf(addr) == NetScope.Public
  {
    hide IsPrivate, IsLinkLocal, ScopeStep, ScopeOf;
    SomeLastIp(addr);
    forall k | LastIp(addr, k)
      ensures ScopeOf(addr) == if IsPrivate(addr[k]) then NetScope.PrivateLan
                               else if IsLinkLocal(addr[k]) then NetScope.LinkLocal
                               else NetScope.Public
    {
      ScopeFromLast(addr, k);
      ScopeStepMeansRanges(addr[k], NetScope.Public);
    }
    if forall k | 0 <= k < |addr| :: !IsIp(addr[k]) {
      ScopeWithoutIp(addr);
    }
  }

  /** A circuit (QUIC) component decides the class unless a later component overrides it. */
  ghost predicate RelayClass(addr: Multiaddr) {
    exists k | 0 <= k < |addr| ::
      addr[k].P2pCircuit? && forall j | k < j < |addr| :: !IsQuic(addr[j]) && !addr[j].Tcp?
  }

  ghost predicate QuicClass(addr: Multiaddr) {
    exists k | 0 <= k < |addr| ::
      IsQuic(addr[k]) && forall j | k < j < |addr| :: !addr[j].P2pCircuit?
  }

  /** No component that could be QUIC, circuit or TCP occurs. */
  ghost predicate OtherClass(addr: Multiaddr) {
    forall k | 0 <= k < |addr| :: !IsQuic(addr[k]) && !addr[k].P2pCircuit? && !addr[k].Tcp?
  }

  lemma RelayClassStep(init: Multiaddr, p: Protocol)
    ensures RelayClass(init + [p]) <==> p.P2pCircuit? || (RelayClass(init) && !IsQuic(p) && !p.Tcp?)
  {
    var addr := init + [p];
    if RelayClass(init) && !IsQuic(p) && !p.Tcp? {
      var k :| 0 <= k < |init| && init[k].P2pCircuit? && forall j | k < j < |init| :: !IsQuic(init[j]) && !init[j].Tcp?;
      assert addr[k].P2pCircuit?;
    }
    if RelayClass(addr) && !p.P2pCircuit? {
      var k :| 0 <= k < |addr| && addr[k].P2pCircuit? && forall j | k < j < |addr| :: !IsQuic(addr[j]) && !addr[j].Tcp?;
      assert addr[|init|] == p && init[k].P2pCircuit?;
      assert forall j | k < j < |init| :: addr[j] == init[j];
    }
    if p.P2pCircuit? {
      assert addr[|init|].P2pCircuit?;
    }
  }

  lemma QuicClassStep(init: Multiaddr, p: Protocol)
    ensures QuicClass(init + [p]) <==> IsQuic(p) || (QuicClass(init) && !p.P2pCircuit?)
  {
    var addr := init + [p];
    if QuicClass(init) && !p.P2pCircuit? {
      var k :| 0 <= k < |init| && IsQuic(init[k]) && forall j | k < j < |init| :: !init[j].P2pCircuit?;
      assert IsQuic(addr[k]);
    }
    if QuicClass(addr) && !IsQuic(p) {
      var k :| 0 <= k < |addr| && IsQuic(addr[k]) && forall j | k < j < |addr| :: !addr[j].P2pCircuit?;
      assert addr[|init|] == p && IsQuic(init[k]);
      assert forall j | k < j < |init| :: addr[j] == init[j];
    }
    if IsQuic(p) {
      assert IsQuic(addr[|init|]);
    }
  }

  lemma OtherClassStep(init: Multiaddr, p: Protocol)
    ensures OtherClass(init + [p]) <==> OtherClass(init) && !IsQuic(p) && !p.P2pCircuit? && !p.Tcp?
  {
    var addr := init + [p];
    assert addr[|init|] == p;
    assert forall k | 0 <= k < |init| :: addr[k] == init[k];
  }

  /** The transport class is decided by the last QUIC, circuit and TCP components: QUIC survives
      everything but a later circuit, a circuit survives everything but a later QUIC or TCP. */
  lemma {:induction false} TransportMeaning(addr: Multiaddr)
    ensures TransportOf(addr) == Transport.Relay <==> RelayClass(addr)
    ensures TransportOf(addr) == Transport.Quic <==> QuicClass(addr)
    ensures TransportOf(addr) == Transport.Other <==> OtherClass(addr)
  {
    if addr != [] {
      var n := |addr| - 1;
      var init := addr[..n];
      assert addr == init + [addr[n]];
      TransportMeaning(init);
      RelayClassStep(init, addr[n]);
      QuicClassStep(init, addr[n]);
      OtherClassStep(init, addr[n]);
    }
  }
}
