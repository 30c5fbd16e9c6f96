/** Peer identities and multiaddresses, reduced to the components the program looks at. */
module Multiaddrs {
  import LexOrder

  type u8 = n: nat | n < 0x100
  type u16 = n: nat | n < 0x1_0000

  datatype PeerId = PeerId(bytes: seq<u8>)

  datatype Protocol =
    | Ip4(a: u8, b: u8, c: u8, d: u8)
    | Ip6(first: bv16, rest: seq<u16>) // the first segment is inspected bitwise
    | Ip6Zone(zone: seq<u8>)
    | Tcp(port: u16)
    | Quic
    | QuicV1
    | P2p(id: PeerId)
    | P2pCircuit
    | Other(code: nat, payload: seq<u8>)

  type Multiaddr = seq<Protocol>

  // ----- the total order on addresses -----

  /** One component as a self-delimiting word: protocol code, payload length, payload. */
  function Word(p: Protocol): (w: seq<nat>)
    ensures |w| >= 2 && |w| == 2 + w[1]
  {
    match p
    case Ip4(a, b, c, d) => [4, 4, a, b, c, d]
    case Ip6(first, rest) => [41, 1 + |rest|, first as nat] + rest
    case Ip6Zone(zone) => [42, |zone|] + zone
    case Tcp(port) => [6, 1, port]
    case Quic => [460, 0]
    case QuicV1 => [461, 0]
    case P2p(id) => [421, |id.bytes|] + id.bytes
    case P2pCircuit => [290, 0]
    case Other(code, payload) => [1000 + code, |payload|] + payload
  }

  function Bytes(addr: Multiaddr): seq<nat> {
    if addr == [] then [] else Word(addr[0]) + Bytes(addr[1..])
  }

  lemma SegmentInjective(x: bv16, y: bv16)
    requires x as nat == y as nat
    ensures x == y
  {
    assert (x as nat) as bv16 == x && (y as nat) as bv16 == y;
  }

  lemma WordInjective(p: Protocol, q: Protocol)
    requires Word(p) == Word(q)
    ensures p == q
  {
    assert Word(p)[0] == Word(q)[0];
    match p
    case Ip4(a, b, c, d) =>
      assert Word(p)[2..] == [a, b, c, d] && Word(q)[2..] == [q.a, q.b, q.c, q.d];
    case Ip6(first, rest) =>
      assert Word(p)[2] == Word(q)[2];
      SegmentInjective(first, q.first);
      assert rest == Word(p)[3..] == Word(q)[3..] == q.rest;
    case Ip6Zone(zone) => assert zone == Word(p)[2..] == Word(q)[2..];
    case Tcp(port) => assert Word(p)[2] == Word(q)[2];
    case Quic =>
    case QuicV1 =>
    case P2p(id) => assert id.bytes == Word(p)[2..] == Word(q)[2..];
    case P2pCircuit =>
    case Other(code, payload) => assert payload == Word(p)[2..] == Word(q)[2..];
  }

  lemma {:induction false} BytesInjective(x: Multiaddr, y: Multiaddr)
    requires Bytes(x) == Bytes(y)
    ensures x == y
    decreases |x|
  {
    if x != [] && y != [] {
      var v, w := Word(x[0]), Word(y[0]);
      assert Bytes(x)[0] == v[0] && Bytes(x)[1] == v[1] && Bytes(y)[1] == w[1];
      assert |v| == |w|;
      assert v == Bytes(x)[..|v|] == Bytes(y)[..|w|] == w;
      WordInjective(x[0], y[0]);
      assert Bytes(x[1..]) == Bytes(x)[|v|..] == Bytes(y)[|w|..] == Bytes(y[1..]);
      BytesInjective(x[1..], y[1..]);
      assert x == [x[0]] + x[1..] && y == [y[0]] + y[1..];
    }
  }

  // ----- prune leadership -----

  /** `SavedNetwork::is_prune_leader`: the smaller identity prunes. */
  predicate IsPruneLeader(me: PeerId, remote: PeerId) {
    LexOrder.Less(me.bytes, remote.bytes)
  }

  /** The leader is the peer whose identity is smaller at the first byte where the two differ, or ends
      there. */
  lemma PruneLeaderMeaning(me: PeerId, remote: PeerId)
    ensures IsPruneLeader(me, remote) <==>
            exists k :: 0 <= k < |remote.bytes| && k <= |me.bytes| && me.bytes[..k] == remote.bytes[..k]
                        && (k == |me.bytes| || me.bytes[k] < remote.bytes[k])
  {
    var x, y := me.bytes, remote.bytes;
    LexOrder.LessMeaning(x, y);
    if k :| LexOrder.SmallerAt(x, y, k) {
      assert x[..k] == y[..k];
    }
    if k :| 0 <= k < |y| && k <= |x| && x[..k] == y[..k] && (k == |x| || x[k] < y[k]) {
      assert forall j | 0 <= j < k :: x[j] == x[..k][j] && y[j] == y[..k][j];
      assert LexOrder.SmallerAt(x, y, k);
    }
  }

  /** Of two distinct peers exactly one believes itself to be the leader. */
  lemma ExactlyOnePruneLeader(x: PeerId, y: PeerId)
    ensures x != y <==> (IsPruneLeader(x, y) != IsPruneLeader(y, x))
  {
    LexOrder.Total(x.bytes, y.bytes);
    if IsPruneLeader(x, y) {
      LexOrder.Asymmetric(x.bytes, y.bytes);
    }
    if IsPruneLeader(y, x) {
      LexOrder.Asymmetric(y.bytes, x.bytes);
    }
  }
}
