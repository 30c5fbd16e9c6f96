/** The network view as a value: what is known about each peer, and the edits of `NetworkView`. */
module Views {
  import opened Multiaddrs
  import opened Metadata
  import opened AddressList
  import opened AddressListFacts

  /** `rtt` is zero until the first answered ping. */
  datatype PeerInfo = PeerInfo(addresses: Addresses, protocols: set<string>, supportsRelayHopV2: bool, rtt: nat)

  type View = map<PeerId, PeerInfo>

  const DEFAULT_INFO := PeerInfo([], {}, false, 0)

  /** `entry(..).or_default()`. */
  function InfoOf(v: View, p: PeerId): PeerInfo {
    if p in v then v[p] else DEFAULT_INFO
  }

  function AddressesAt(v: View, p: PeerId): Addresses {
    InfoOf(v, p).addresses
  }

  function WithAddresses(v: View, p: PeerId, s: Addresses): View {
    v[p := InfoOf(v, p).(addresses := s)]
  }

  /** A peer with nothing left is dropped. */
  function PruneEmpty(v: View, p: PeerId): View {
    if p in v && v[p].addresses == [] then v - {p} else v
  }

  predicate IsNewAddress(v: View, p: PeerId, addr: Multiaddr) {
    IndexOfAddr(AddressesAt(v, p), addr) == |AddressesAt(v, p)|
  }

  function LearnAddress(v: View, p: PeerId, addr: Multiaddr, now: Instant): View {
    WithAddresses(v, p, AddAddress(AddressesAt(v, p), addr, now))
  }

  function ForgetAddress(v: View, p: PeerId, addr: Multiaddr, now: Instant): View {
    if p in v then PruneEmpty(WithAddresses(v, p, RemoveAddress(AddressesAt(v, p), addr, now)), p) else v
  }

  function OpenConnection(v: View, p: PeerId, cid: ConnId, remote: Multiaddr, now: Instant): View {
    WithAddresses(v, p, AddConnection(AddressesAt(v, p), cid, remote, now))
  }

  function DropConnection(v: View, p: PeerId, cid: ConnId, now: Instant): View {
    if p in v then PruneEmpty(WithAddresses(v, p, RemoveConnection(AddressesAt(v, p), cid, now)), p) else v
  }

  const HOP_PROTOCOLS: set<string> := {"/libp2p/circuit/relay/0.2.0/hop", "/libp2p/circuit/relay/0.2.0"}

  predicate HopSupported(protocols: set<string>) {
    exists s | s in protocols :: s in HOP_PROTOCOLS
  }

  /** May create a peer without any address. */
  function SetProtocols(v: View, p: PeerId, protocols: set<string>): View {
    v[p := InfoOf(v, p).(protocols := protocols, supportsRelayHopV2 := HopSupported(protocols))]
  }

  predicate Connected(v: View, p: PeerId) {
    IsConnected(AddressesAt(v, p))
  }

  predicate ConnectedOver(v: View, p: PeerId, addr: Multiaddr) {
    IsConnectedOver(AddressesAt(v, p), addr)
  }

  // ----- the view through tables -----

  ghost function TableAt(v: View, p: PeerId): Table {
    TableOf(AddressesAt(v, p))
  }

  /** The view records connection `cid` of peer `p` on address `a`. */
  ghost predicate Records(v: View, p: PeerId, cid: ConnId, a: Multiaddr) {
    On(TableAt(v, p), cid, a)
  }

  ghost predicate GoodView(v: View) {
    forall p :: Good(AddressesAt(v, p))
  }

  lemma GoodAt(v: View, p: PeerId)
    requires GoodView(v)
    ensures Good(AddressesAt(v, p))
  {
  }

  /** The two connectivity queries ask whether some connection is recorded. */
  lemma ConnectedMeansRecorded(v: View, p: PeerId)
    requires GoodView(v)
    ensures Connected(v, p) <==> exists cid, a :: Records(v, p, cid, a)
    ensures forall a :: ConnectedOver(v, p, a) <==> exists cid :: Records(v, p, cid, a)
  {
    GoodAt(v, p);
    hide GoodView, AddressesAt, TableOf, On, IsConnected, IsConnectedOver;
    var s := AddressesAt(v, p);
    ConnectedFacts(s);
    assert forall cid, a :: Records(v, p, cid, a) <==> On(TableOf(s), cid, a);
  }

  /** Peers other than `p` look the same in both views. */
  ghost predicate SameElsewhere(v: View, w: View, p: PeerId) {
    forall q | q != p :: AddressesAt(w, q) == AddressesAt(v, q)
  }

  lemma PruneEmptyFacts(v: View, p: PeerId)
    ensures forall q :: AddressesAt(PruneEmpty(v, p), q) == AddressesAt(v, q)
  {
  }

  lemma WithAddressesFacts(v: View, p: PeerId, s: Addresses)
    ensures AddressesAt(WithAddresses(v, p, s), p) == s
    ensures SameElsewhere(v, WithAddresses(v, p, s), p)
    ensures GoodView(v) && Good(s) ==> GoodView(WithAddresses(v, p, s))
  {
    hide Good;
    forall q
      ensures AddressesAt(WithAddresses(v, p, s), q) == if q == p then s else AddressesAt(v, q)
    {
    }
  }

  /** Each operation edits one peer's list, and leaves every other peer alone. */
  lemma EditsAreLocal(v: View, p: PeerId, cid: ConnId, addr: Multiaddr, now: Instant)
    ensures AddressesAt(LearnAddress(v, p, addr, now), p) == AddAddress(AddressesAt(v, p), addr, now)
    ensures AddressesAt(OpenConnection(v, p, cid, addr, now), p) == AddConnection(AddressesAt(v, p), cid, addr, now)
    ensures AddressesAt(ForgetAddress(v, p, addr, now), p) == RemoveAddress(AddressesAt(v, p), addr, now)
    ensures AddressesAt(DropConnection(v, p, cid, now), p) == RemoveConnection(AddressesAt(v, p), cid, now)
    ensures SameElsewhere(v, LearnAddress(v, p, addr, now), p)
    ensures SameElsewhere(v, OpenConnection(v, p, cid, addr, now), p)
    ensures SameElsewhere(v, ForgetAddress(v, p, addr, now), p)
    ensures SameElsewhere(v, DropConnection(v, p, cid, now), p)
  {
    hide AddAddress, AddConnection, IndexOfAddr;
    WithAddressesFacts(v, p, AddAddress(AddressesAt(v, p), addr, now));
    WithAddressesFacts(v, p, AddConnection(AddressesAt(v, p), cid, addr, now));
    if p in v {
      WithAddressesFacts(v, p, RemoveAddress(v[p].addresses, addr, now));
      WithAddressesFacts(v, p, RemoveConnection(v[p].addresses, cid, now));
      PruneEmptyFacts(WithAddresses(v, p, RemoveAddress(v[p].addresses, addr, now)), p);
      PruneEmptyFacts(WithAddresses(v, p, RemoveConnection(v[p].addresses, cid, now)), p);
    }
  }
}
