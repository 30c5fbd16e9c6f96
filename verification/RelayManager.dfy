/** `RelayManager` of src/network/relay_manager.rs, updated in place. */
module RelayManagers {
  import opened Options
  import opened Multiaddrs
  import opened Metadata
  import opened Views
  import opened NetworkViews
  import R = Relays

  class RelayManager {
    var reserved: seq<PeerId>
    var inUse: set<PeerId>
    const maxRelays: nat

    function Value(): R.Relays
      reads this
    {
      R.Relays(reserved, inUse, maxRelays)
    }

    constructor (maxRelays: nat)
      ensures Value() == R.Relays([], {}, maxRelays)
    {
      reserved, inUse := [], {};
      this.maxRelays := maxRelays;
    }

    /** Admission: from a queue within bounds, taking the relay in would evict nobody. */
    predicate CanReserve(relay: PeerId)
      reads this
      ensures CanReserve(relay) == R.CanReserve(Value(), relay)
      ensures R.Distinct(reserved) && |reserved| <= |inUse| + maxRelays ==>
                forall v :: CanReserve(relay) <==> R.TakenInFreely(Value(), relay, v)
    {
      AdmissionForEveryView(Value(), relay);
      if relay in reserved then true else |reserved| < |inUse| + maxRelays
    }

    method Register(relay: PeerId)
      modifies this`reserved
      ensures Value() == R.Register(old(Value()), relay)
    {
      if relay !in reserved {
        reserved := reserved + [relay];
      }
    }

    /** Add the relays that carry a connection of one peer. */
    method ScanPeer(addresses: seq<AddressMetadata>)
      modifies this`inUse
      ensures inUse == old(inUse) + CarriedBy(addresses)
    {
      for i := 0 to |addresses|
        invariant inUse == old(inUse) + CarriedBy(addresses[..i])
      {
        var m := addresses[i];
        CarriedBySnoc(addresses, i);
        hide CarriedBy, R.ExtractRelayPeer, R.AddrIsRelay;
        if m.activeConnections != [] {
          var relayed := AddrIsRelay(m.address);
          if relayed {
            var relay := ExtractRelayPeer(m.address);
            if relay.Some? {
              inUse := inUse + {relay.value};
            }
          }
        }
      }
      assert addresses[..|addresses|] == addresses;
    }

    /** Rebuild the usage set by scanning every entry of every peer. */
    method RecomputeInUse(view: NetworkView)
      requires view.Valid()
      modifies this`inUse
      ensures inUse == R.InUseIn(view.Value())
    {
      ghost var v := view.Value();
      inUse := {};
      var rest := view.peers.Keys;
      assert inUse == InUseAmong(v, {}) && v.Keys - rest == {};
      hide R.InUseIn, InUseAmong, CarriedBy;
      while rest != {}
        invariant rest <= view.peers.Keys
        invariant inUse == InUseAmong(v, v.Keys - rest)
        decreases rest
      {
        var p :| p in rest;
        ghost var done := v.Keys - rest;
        assert view.peers[p].addresses == v[p].addresses;
        ScanPeer(view.peers[p].addresses);
        OnePeerMore(v, done, p);
        rest := rest - {p};
        assert v.Keys - rest == done + {p};
      }
      assert v.Keys - rest == v.Keys;
      AllPeers(v);
    }

    predicate ShouldPrune()
      reads this
    {
      |reserved| > |inUse| + maxRelays
    }

    function GetWorstUnused(view: NetworkView): Option<PeerId>
      reads this, view, view.peers.Values
    {
      R.WorstUnused(reserved, inUse, view.Value())
    }

    method Remove(relay: PeerId) returns (removed: bool)
      modifies this`reserved
      ensures reserved == R.RemoveFirst(old(reserved), relay)
      ensures removed == (relay in old(reserved))
    {
      var i := 0;
      while i < |reserved| && reserved[i] != relay
        invariant 0 <= i <= |reserved|
        invariant reserved == old(reserved) && relay !in reserved[..i]
      {
        i := i + 1;
      }
      removed := i < |reserved|;
      if removed {
        RemoveFirstAt(reserved, relay, i);
        reserved := reserved[..i] + reserved[i + 1..];
      } else {
        assert reserved[..i] == reserved;
        RemoveAbsent(reserved, relay);
      }
    }
  }

  // ----- static helpers -----

  method AddrIsRelay(addr: Multiaddr) returns (r: bool)
    ensures r == R.AddrIsRelay(addr)
  {
    for i := 0 to |addr|
      invariant forall j | 0 <= j < i :: !addr[j].P2pCircuit?
    {
      if addr[i].P2pCircuit? {
        return true;
      }
    }
    return false;
  }

  method ExtractRelayPeer(addr: Multiaddr) returns (relay: Option<PeerId>)
    ensures relay == R.ExtractRelayPeer(addr)
  {
    var lastP2p := None;
    for i := 0 to |addr|
      invariant R.ExtractFrom(addr[i..], lastP2p) == R.ExtractRelayPeer(addr)
    {
      assert addr[i..][1..] == addr[i + 1..];
      match addr[i] {
        case P2p(id) => lastP2p := Some(id);
        case P2pCircuit => return lastP2p;
        case _ =>
      }
    }
    return None;
  }

  // ----- admission -----

  lemma AdmissionForEveryView(r: R.Relays, relay: PeerId)
    ensures R.Distinct(r.reserved) && |r.reserved| <= |r.inUse| + r.maxRelays ==>
              forall v :: R.CanReserve(r, relay) <==> R.TakenInFreely(r, relay, v)
  {
    if R.Distinct(r.reserved) && |r.reserved| <= |r.inUse| + r.maxRelays {
      forall v
        ensures R.CanReserve(r, relay) <==> R.TakenInFreely(r, relay, v)
      {
        R.AdmissionMeansNoEviction(r, relay, v);
      }
    }
  }

  // ----- the scan -----

  ghost function CarriedBy(s: seq<AddressMetadata>): set<PeerId> {
    set m | m in s && R.Carrying(m) :: R.ExtractRelayPeer(m.address).value
  }

  ghost function InUseAmong(v: View, done: set<PeerId>): set<PeerId> {
    set p, m | p in v && p in done && m in v[p].addresses && R.Carrying(m) :: R.ExtractRelayPeer(m.address).value
  }

  lemma CarriedBySnoc(s: seq<AddressMetadata>, i: nat)
    requires i < |s|
    ensures CarriedBy(s[..i + 1]) ==
            CarriedBy(s[..i]) + if R.Carrying(s[i]) then {R.ExtractRelayPeer(s[i].address).value} else {}
  {
    assert s[..i + 1] == s[..i] + [s[i]];
    assert forall m :: m in s[..i + 1] <==> m in s[..i] || m == s[i];
    hide R.Carrying, R.ExtractRelayPeer;
    if R.Carrying(s[i]) {
      assert s[i] in s[..i + 1];
    }
  }

  lemma OnePeerMore(v: View, done: set<PeerId>, p: PeerId)
    requires p in v
    ensures InUseAmong(v, done + {p}) == InUseAmong(v, done) + CarriedBy(v[p].addresses)
  {
    hide R.Carrying, R.ExtractRelayPeer;
  }

  lemma AllPeers(v: View)
    ensures InUseAmong(v, v.Keys) == R.InUseIn(v)
  {
    hide R.Carrying, R.ExtractRelayPeer;
  }

  lemma {:induction false} RemoveFirstAt(s: seq<PeerId>, p: PeerId, i: nat)
    requires i < |s| && s[i] == p && p !in s[..i]
    ensures R.RemoveFirst(s, p) == s[..i] + s[i + 1..] && p in s
  {
    if i > 0 {
      assert s[0] in s[..i];
      assert forall q | q in s[1..][..i - 1] :: q in s[..i];
      RemoveFirstAt(s[1..], p, i - 1);
      assert s[..i] + s[i + 1..] == [s[0]] + (s[1..][..i - 1] + s[1..][i..]);
    }
  }

  lemma {:induction false} RemoveAbsent(s: seq<PeerId>, p: PeerId)
    requires p !in s
    ensures R.RemoveFirst(s, p) == s
  {
    if s != [] {
      RemoveAbsent(s[1..], p);
    }
  }
}
