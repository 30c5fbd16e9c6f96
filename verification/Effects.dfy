/** What a handler asks of the swarm and its behaviours, and tells subscribers, in order. */
module Effects {
  import opened Multiaddrs
  import opened Metadata

  datatype KadMode = Auto | Client | Server

  datatype Effect =
    | Dial(peer: PeerId, addr: Multiaddr, accepted: bool) // `dial` answers synchronously
    | CloseConnection(cid: ConnId)                        // honoured at some later step
    | DisconnectPeer(who: PeerId)
    | ListenOn(relayed: Multiaddr)
    | TellConnected(peer: PeerId, cid: ConnId)            // events for subscribers
    | TellDisconnected(peer: PeerId, cid: ConnId)
    | CreateMdns
    | DropMdns
    | CreateKad                                           // with an empty routing table
    | DropKad
    | SetKadMode(mode: KadMode)
    | KadLookup(targets: set<PeerId>)
    | KadAdd(peer: PeerId, addr: Multiaddr)
    | KadRemove(peer: PeerId, addr: Multiaddr)

  function CloseEach(cids: seq<ConnId>): (r: seq<Effect>)
    ensures |r| == |cids| && forall i | 0 <= i < |r| :: r[i] == CloseConnection(cids[i])
  {
    seq(|cids|, i requires 0 <= i < |cids| => CloseConnection(cids[i]))
  }

  lemma CloseEachMembers(cids: seq<ConnId>)
    ensures forall e | e in CloseEach(cids) :: e.CloseConnection?
    ensures forall cid :: CloseConnection(cid) in CloseEach(cids) <==> cid in cids
  {
    var r := CloseEach(cids);
    forall cid | cid in cids
      ensures CloseConnection(cid) in r
    {
      var k :| 0 <= k < |cids| && cids[k] == cid;
      assert r[k] == CloseConnection(cid);
    }
  }

  /** Dials of `addr` for `peer` that the swarm rejected. */
  function Rejections(effects: seq<Effect>, peer: PeerId, addr: Multiaddr): nat {
    if effects == [] then 0
    else (if effects[0] == Dial(peer, addr, false) then 1 else 0) + Rejections(effects[1..], peer, addr)
  }

  lemma {:induction false} RejectionsConcat(e: seq<Effect>, f: seq<Effect>, peer: PeerId, addr: Multiaddr)
    ensures Rejections(e + f, peer, addr) == Rejections(e, peer, addr) + Rejections(f, peer, addr)
  {
    if e == [] {
      assert e + f == f;
    } else {
      RejectionsConcat(e[1..], f, peer, addr);
      assert (e + f)[1..] == e[1..] + f;
    }
  }

  lemma {:induction false} NoRejections(e: seq<Effect>, peer: PeerId, addr: Multiaddr)
    requires Dial(peer, addr, false) !in e
    ensures Rejections(e, peer, addr) == 0
  {
    if e != [] {
      NoRejections(e[1..], peer, addr);
    }
  }
}
