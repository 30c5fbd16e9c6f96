/** `PeerInfoExt` and `NetworkView` of src/view.rs, updated in place. The part of each `NetworkView`
    operation that works on one peer's record is a method of that record here. */
module NetworkViews {
  import opened Options
  import opened Multiaddrs
  import opened Classify
  import opened Metadata
  import opened Views
  import List = AddressList
  import Facts = AddressListFacts

  class PeerInfoExt {
    var addresses: seq<AddressMetadata>
    var protocols: set<string>
    var supportsRelayHopV2: bool
    var rtt: nat

    function Value(): PeerInfo
      reads this
    {
      PeerInfo(addresses, protocols, supportsRelayHopV2, rtt)
    }

    constructor ()
      ensures Value() == DEFAULT_INFO
    {
      addresses, protocols, supportsRelayHopV2, rtt := [], {}, false, 0;
    }

    /** Keeps the entries and puts the best one first; for a well-formed list that pins the result. */
    method Resort(now: Instant)
      modifies this`addresses
      ensures addresses == List.Resort(old(addresses), now)
      ensures List.Good(old(addresses)) ==>
                List.Good(addresses) && List.Sorted(addresses, now) && List.TableOf(addresses) == List.TableOf(old(addresses))
    {
      ghost var before := addresses;
      addresses := List.Resort(addresses, now);
      hide *;
      if List.Good(before) {
        Facts.ResortFacts(before, now);
      }
    }

    method MarkFailure(addr: Multiaddr, now: Instant)
      modifies this`addresses
      ensures addresses == List.MarkFailure(old(addresses), addr, now)
    {
      hide List.Resort, List.Good, List.Sorted, List.TableOf;
      var i := List.IndexOfAddr(addresses, addr);
      if i < |addresses| {
        var m := addresses[i];
        m := m.(errCount := if m.errCount < U32_MAX then m.errCount + 1 else U32_MAX);
        m := m.(lastErr := Some(now));
        addresses := addresses[i := m];
        Resort(now);
      }
    }

    method ClearBackoffOnSuccess(addr: Multiaddr)
      modifies this`addresses
      ensures addresses == List.ClearBackoff(old(addresses), addr)
    {
      var i := List.IndexOfAddr(addresses, addr);
      if i < |addresses| {
        addresses := addresses[i := addresses[i].(errCount := 0, lastErr := None)];
      }
    }

    method AddAddress(addr: Multiaddr, now: Instant) returns (isNew: bool)
      modifies this`addresses
      ensures addresses == List.AddAddress(old(addresses), addr, now)
      ensures isNew == (List.IndexOfAddr(old(addresses), addr) == |old(addresses)|)
    {
      hide List.Resort, List.Good, List.Sorted, List.TableOf;
      isNew := List.IndexOfAddr(addresses, addr) == |addresses|;
      if isNew {
        PushNew(addr);
      }
      Resort(now);
    }

    /** A freshly classified entry at the end of the list. */
    method PushNew(addr: Multiaddr)
      modifies this`addresses
      ensures addresses == old(addresses) + [NewMetadata(addr)]
    {
      var scope, transport := ClassifyAddr(addr);
      addresses := addresses + [AddressMetadata(addr, [], transport, scope, None, 0)];
    }

    method RemoveAddress(addr: Multiaddr, now: Instant)
      modifies this`addresses
      ensures addresses == List.RemoveAddress(old(addresses), addr, now)
    {
      hide List.Resort, List.Good, List.Sorted, List.TableOf;
      var i := List.IndexOfAddr(addresses, addr);
      if i < |addresses| {
        addresses := addresses[..i] + addresses[i + 1..];
      }
      Resort(now);
    }

    method AddConnection(cid: ConnId, remote: Multiaddr, now: Instant)
      modifies this`addresses
      ensures addresses == List.AddConnection(old(addresses), cid, remote, now)
    {
      hide List.Resort, List.ClearBackoff, List.SwapRemove, NewMetadata, List.Good, List.Sorted, List.TableOf;
      var holder := List.IndexOfConn(addresses, cid);
      if holder < |addresses| {
        if addresses[holder].address == remote {
          // already tracked on the same address: a success all the same
          ClearBackoffOnSuccess(remote);
          Resort(now);
          return;
        }
        // the id moves here from another address
        var m := addresses[holder];
        var pos := List.Position(m.activeConnections, cid);
        addresses := addresses[holder := m.(activeConnections := List.SwapRemove(m.activeConnections, pos))];
      }
      assert addresses == List.Detach(old(addresses), cid);
      AttachTo(cid, remote);
      ClearBackoffOnSuccess(remote);
      Resort(now);
    }

    method AttachTo(cid: ConnId, remote: Multiaddr)
      modifies this`addresses
      ensures addresses == List.Attach(old(addresses), cid, remote)
    {
      if List.IndexOfAddr(addresses, remote) == |addresses| {
        PushNew(remote);
      }
      var i := List.IndexOfAddr(addresses, remote);
      if i < |addresses| && cid !in addresses[i].activeConnections {
        var m := addresses[i];
        addresses := addresses[i := m.(activeConnections := m.activeConnections + [cid])];
      }
    }

    method RemoveConnection(cid: ConnId, now: Instant)
      modifies this`addresses
      ensures addresses == List.RemoveConnection(old(addresses), cid, now)
    {
      hide List.Resort, List.SwapRemove, List.Good, List.Sorted, List.TableOf;
      var i := 0;
      while i < |addresses|
        invariant 0 <= i <= |addresses|
        invariant addresses == old(addresses)
        invariant forall j | 0 <= j < i :: cid !in addresses[j].activeConnections
      {
        var m := addresses[i];
        if cid in m.activeConnections {
          var pos := List.Position(m.activeConnections, cid);
          addresses := addresses[i := m.(activeConnections := List.SwapRemove(m.activeConnections, pos))];
          break;
        }
        i := i + 1;
      }
      assert i == List.IndexOfConn(old(addresses), cid);
      assert addresses == List.Detach(old(addresses), cid);
      Resort(now);
    }
  }

  lemma UpdateTwice(v: View, p: PeerId, x: PeerInfo, y: PeerInfo)
    ensures v[p := x][p := y] == v[p := y]
  {
  }

  /** The map from peers to their records. Distinct peers have distinct record objects. */
  class NetworkView {
    var peers: map<PeerId, PeerInfoExt>

    ghost predicate Valid()
      reads this
    {
      forall p, q | p in peers && q in peers && p != q :: peers[p] != peers[q]
    }

    function Value(): View
      reads this, peers.Values
    {
      map p | p in peers :: peers[p].Value()
    }

    constructor ()
      ensures Valid() && Value() == map[] && peers == map[]
    {
      peers := map[];
    }

    /** `peers.entry(p).or_default()`. */
    method Entry(p: PeerId) returns (info: PeerInfoExt)
      requires Valid()
      modifies this
      ensures Valid() && p in peers && info == peers[p]
      ensures fresh(peers.Values - old(peers.Values)) && old(peers.Values) <= peers.Values
      ensures Value() == old(Value())[p := InfoOf(old(Value()), p)]
    {
      if p in peers {
        info := peers[p];
        assert Value() == old(Value())[p := InfoOf(old(Value()), p)];
      } else {
        info := new PeerInfoExt();
        peers := peers[p := info];
        assert p in peers.Keys && info in peers.Values;
        forall i | i in old(peers.Values)
          ensures i in peers.Values
        {
          var q :| q in old(peers) && old(peers)[q] == i;
          assert q in peers && peers[q] == i;
        }
      }
    }

    /** Changing one record in place changes one point of the map. */
    twostate lemma OneRecordChanged(p: PeerId)
      requires old(Valid()) && p in old(peers) && unchanged(this)
      requires forall i | i in peers.Values && i != peers[p] :: unchanged(i)
      ensures Value() == old(Value())[p := peers[p].Value()]
    {
      forall q | q in peers && q != p
        ensures Value()[q] == old(Value())[q]
      {
        assert peers[q] in peers.Values && peers[q] != peers[p];
      }
    }

    method AddAddress(p: PeerId, addr: Multiaddr, now: Instant) returns (isNew: bool)
      requires Valid()
      modifies this, peers.Values
      ensures Valid() && fresh(peers.Values - old(peers.Values))
      ensures Value() == LearnAddress(old(Value()), p, addr, now)
      ensures isNew == IsNewAddress(old(Value()), p, addr)
    {
      hide List.AddAddress, List.IndexOfAddr;
      var info := Entry(p);
      ghost var v, w := old(Value()), Value();
      label entered:
      isNew := info.AddAddress(addr, now);
      OneRecordChanged@entered(p);
      assert w[p] == InfoOf(v, p) && info.Value() == w[p].(addresses := List.AddAddress(w[p].addresses, addr, now));
      UpdateTwice(v, p, w[p], info.Value());
    }

    method RemoveAddress(p: PeerId, addr: Multiaddr, now: Instant)
      requires Valid()
      modifies this, peers.Values
      ensures Valid() && peers.Values <= old(peers.Values)
      ensures Value() == ForgetAddress(old(Value()), p, addr, now)
    {
      hide List.RemoveAddress;
      if p in peers {
        peers[p].RemoveAddress(addr, now);
        OneRecordChanged(p);
        DropIfEmpty(p);
      }
    }

    method AddConnection(p: PeerId, cid: ConnId, remote: Multiaddr, now: Instant)
      requires Valid()
      modifies this, peers.Values
      ensures Valid() && fresh(peers.Values - old(peers.Values))
      ensures Value() == OpenConnection(old(Value()), p, cid, remote, now)
    {
      hide List.AddConnection;
      var info := Entry(p);
      label entered:
      info.AddConnection(cid, remote, now);
      OneRecordChanged@entered(p);
    }

    method RemoveConnection(p: PeerId, cid: ConnId, now: Instant)
      requires Valid()
      modifies this, peers.Values
      ensures Valid() && peers.Values <= old(peers.Values)
      ensures Value() == DropConnection(old(Value()), p, cid, now)
    {
      hide List.RemoveConnection;
      if p in peers {
        peers[p].RemoveConnection(cid, now);
        OneRecordChanged(p);
        DropIfEmpty(p);
      }
    }

    /** `prune_empty`. */
    method DropIfEmpty(p: PeerId)
      requires Valid()
      modifies this
      ensures Valid() && peers.Values <= old(peers.Values)
      ensures Value() == PruneEmpty(old(Value()), p)
    {
      if p in peers && peers[p].addresses == [] {
        peers := peers - {p};
      }
    }

    predicate IsConnected(p: PeerId)
      reads this, peers.Values
      ensures IsConnected(p) == Connected(Value(), p)
      ensures GoodView(Value()) ==> (IsConnected(p) <==> exists cid, a :: Records(Value(), p, cid, a))
    {
      assert GoodView(Value()) ==> (Connected(Value(), p) <==> exists cid, a :: Records(Value(), p, cid, a)) by {
        if GoodView(Value()) { ConnectedMeansRecorded(Value(), p); }
      }
      p in peers && exists i | 0 <= i < |peers[p].addresses| :: peers[p].addresses[i].activeConnections != []
    }

    predicate IsConnectedOver(p: PeerId, addr: Multiaddr)
      reads this, peers.Values
      ensures IsConnectedOver(p, addr) == ConnectedOver(Value(), p, addr)
      ensures GoodView(Value()) ==> (IsConnectedOver(p, addr) <==> exists cid :: Records(Value(), p, cid, addr))
    {
      assert GoodView(Value()) ==> (ConnectedOver(Value(), p, addr) <==> exists cid :: Records(Value(), p, cid, addr)) by {
        if GoodView(Value()) { ConnectedMeansRecorded(Value(), p); }
      }
      p in peers &&
      var i := List.IndexOfAddr(peers[p].addresses, addr);
      i < |peers[p].addresses| && peers[p].addresses[i].activeConnections != []
    }

    method SetProtocols(p: PeerId, protocols: set<string>)
      requires Valid()
      modifies this, peers.Values
      ensures Valid() && fresh(peers.Values - old(peers.Values))
      ensures Value() == Views.SetProtocols(old(Value()), p, protocols)
    {
      hide HopSupported;
      var info := Entry(p);
      ghost var v, w := old(Value()), Value();
      label entered:
      info.protocols := protocols;
      info.supportsRelayHopV2 := HopSupported(protocols);
      OneRecordChanged@entered(p);
      assert w[p] == InfoOf(v, p) && info.Value() == w[p].(protocols := protocols, supportsRelayHopV2 := HopSupported(protocols));
      UpdateTwice(v, p, w[p], info.Value());
    }
  }
}
