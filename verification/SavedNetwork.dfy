/** `SavedNetwork` of src/network/mod.rs: the handlers, updating the node in place and making requests
    to the swarm. Each is proved against its function in module Nodes. */
module SavedNetworks {
  import opened Options
  import opened Multiaddrs
  import opened Metadata
  import opened Effects
  import opened Views
  import opened NetworkViews
  import opened RelayManagers
  import opened Nodes
  import List = AddressList
  import R = Relays
  import Rec = Reconcile

  /** The requests made so far, in order. A dial is answered at once. */
  class Swarm {
    var requests: seq<Effect>

    constructor ()
      ensures requests == []
    {
      requests := [];
    }

    method Dial(peer: PeerId, addr: Multiaddr, refused: set<Multiaddr>) returns (accepted: bool)
      modifies this
      ensures accepted == (addr !in refused)
      ensures requests == old(requests) + [Effect.Dial(peer, addr, accepted)]
    {
      accepted := addr !in refused;
      requests := requests + [Effect.Dial(peer, addr, accepted)];
    }

    method Request(e: Effect)
      modifies this
      ensures requests == old(requests) + [e]
    {
      requests := requests + [e];
    }
  }

  class SavedNetwork {
    const local: PeerId
    const swarm: Swarm
    const view: NetworkView
    const relayManager: RelayManager
    var targetPeers: set<PeerId>
    var activeMode: bool
    var kadEnabled: bool
    var mdnsEnabled: bool

    ghost predicate Valid()
      reads this, view
    {
      view.Valid()
    }

    function Value(): Node
      reads this, view, view.peers.Values, relayManager
    {
      Node(local, view.Value(), relayManager.Value(), targetPeers, activeMode, kadEnabled, mdnsEnabled)
    }

    constructor (local: PeerId, maxRelays: nat)
      ensures Valid() && Value() == Fresh(local, maxRelays) && swarm.requests == [CreateMdns]
      ensures fresh(swarm) && fresh(view) && fresh(view.peers.Values) && fresh(relayManager)
    {
      this.local := local;
      swarm := new Swarm();
      view := new NetworkView();
      relayManager := new RelayManager(maxRelays);
      targetPeers, activeMode, kadEnabled, mdnsEnabled := {}, true, false, false;
      new;
      SetMdnsEnabled(true);
      SetKadEnabled(false, Auto);
    }

    /** The handler returned with the state and requests of `s`, or it has not returned. */
    twostate predicate Returned(returned: bool, s: Option<Step>)
      reads this, view, view.peers.Values, relayManager, swarm
    {
      && returned == s.Some?
      && (returned ==> Value() == s.value.node && swarm.requests == old(swarm.requests) + s.value.effects)
    }

    // ----- reconcile -----

    /** Connections of all entries but the first. */
    method SuboptimalConnections(info: PeerInfoExt) returns (toClose: seq<ConnId>)
      requires info.addresses != []
      ensures toClose == Rec.ConnectionsOf(info.addresses[1..])
    {
      toClose := [];
      for i := 1 to |info.addresses|
        invariant toClose == Rec.ConnectionsOf(info.addresses[1..i])
      {
        ConnectionsSnoc(info.addresses[1..i], info.addresses[i]);
        assert info.addresses[1..i + 1] == info.addresses[1..i] + [info.addresses[i]];
        toClose := toClose + info.addresses[i].activeConnections;
      }
      assert info.addresses[1..|info.addresses|] == info.addresses[1..];
    }

    method CloseAll(toClose: seq<ConnId>)
      modifies swarm
      ensures swarm.requests == old(swarm.requests) + CloseEach(toClose)
    {
      for i := 0 to |toClose|
        invariant swarm.requests == old(swarm.requests) + CloseEach(toClose[..i])
      {
        swarm.Request(CloseConnection(toClose[i]));
        assert CloseEach(toClose[..i + 1]) == CloseEach(toClose[..i]) + [CloseConnection(toClose[i])];
      }
      assert toClose[..|toClose|] == toClose;
    }

    /** `mark_failure` on the record of `p`. */
    method MarkFailure(p: PeerId, addr: Multiaddr, now: Instant)
      requires Valid() && p in view.peers
      modifies view.peers[p]
      ensures Valid()
      ensures Value() == var n := old(Value());
                         n.(view := WithAddresses(n.view, p, List.MarkFailure(AddressesAt(n.view, p), addr, now)))
    {
      hide List.MarkFailure;
      view.peers[p].MarkFailure(addr, now);
      view.OneRecordChanged(p);
    }

    /** Close every connection that is not on the first address. */
    method PruneSuboptimal(info: PeerInfoExt)
      requires info.addresses != []
      modifies swarm
      ensures swarm.requests == old(swarm.requests) + CloseEach(Rec.ConnectionsOf(info.addresses[1..]))
    {
      var toClose := SuboptimalConnections(info);
      CloseAll(toClose);
    }

    /** Dial `best`; a rejection is recorded against it. */
    method DialBest(p: PeerId, best: Multiaddr, t: Tick) returns (accepted: bool)
      requires Valid() && p in view.peers
      modifies swarm, view.peers[p]
      ensures Valid() && accepted == (best !in t.refused)
      ensures swarm.requests == old(swarm.requests) + [Effect.Dial(p, best, accepted)]
      ensures accepted ==> Value() == old(Value())
      ensures !accepted ==>
                Value() == var n := old(Value());
                           n.(view := WithAddresses(n.view, p, List.MarkFailure(AddressesAt(n.view, p), best, t.now)))
    {
      hide List.MarkFailure;
      accepted := swarm.Dial(p, best, t.refused);
      if !accepted {
        MarkFailure(p, best, t.now);
      }
    }

    /** Ends after at most `t.fuel` recursive calls, or reports that it has not. */
    method ReconcilePeerConnections(p: PeerId, t: Tick) returns (returned: bool)
      requires Valid()
      modifies swarm, view.peers.Values
      ensures Valid() && Returned(returned, ReconcilePeer(old(Value()), p, t))
      decreases t.fuel
    {
      hide ReconcilePeer, Rec.ConnectionsOf, IsPruneLeader, List.IndexOfAddr, List.MarkFailure, WithAddresses, CloseEach,
        List.IsConnectedOver, List.IsConnected, GoodView, Records;
      ghost var n := Value();
      ReconcileCases(n, p, t);
      if p !in view.peers {
        return true;
      }
      var info := view.peers[p];
      assert n.view[p].addresses == info.addresses && AddressesAt(n.view, p) == info.addresses;
      if info.addresses == [] {
        return true;
      }
      var best := info.addresses[0].address;
      if view.IsConnectedOver(p, best) {
        if IsPruneLeader(local, p) {
          PruneSuboptimal(info);
        }
        return true;
      }
      if !view.IsConnected(p) {
        // no connection at all: dial the best address
        var accepted := DialBest(p, best, t);
        if accepted {
          return true;
        }
        if t.fuel == 0 {
          return false;
        }
        ghost var marked := Value();
        returned := ReconcilePeerConnections(p, t.(fuel := t.fuel - 1));
        RetryAfterFailure(n, marked, p, t);
      } else {
        // connected, but not on the best address: the leader tries to migrate
        if IsPruneLeader(local, p) {
          var accepted := DialBest(p, best, t);
        }
        return true;
      }
    }

    // ----- relays -----

    /** The eviction loop. */
    method PruneRelays()
      requires Valid()
      modifies swarm, relayManager`reserved
      ensures var n := old(Value());
              var pruned := R.PruneQueue(n.relays.reserved, n.relays.inUse, n.relays.maxRelays, n.view);
              && Value() == n.(relays := n.relays.(reserved := pruned.reserved))
              && swarm.requests == old(swarm.requests) + R.Disconnects(pruned.removed)
    {
      hide R.PruneQueue, R.WorstUnused, R.RemoveFirst;
      ghost var n := Value();
      ghost var removed: seq<PeerId> := [];
      ghost var target := R.PruneQueue(n.relays.reserved, n.relays.inUse, n.relays.maxRelays, n.view);
      while relayManager.ShouldPrune()
        invariant Value() == n.(relays := n.relays.(reserved := relayManager.reserved))
        invariant swarm.requests == old(swarm.requests) + R.Disconnects(removed)
        invariant var rest := R.PruneQueue(relayManager.reserved, n.relays.inUse, n.relays.maxRelays, n.view);
                  target == R.Pruned(rest.reserved, removed + rest.removed)
        decreases |relayManager.reserved|
      {
        var worst := relayManager.GetWorstUnused(view);
        R.PruneCases(relayManager.reserved, n.relays.inUse, n.relays.maxRelays, n.view);
        R.WorstIsReserved(relayManager.reserved, n.relays.inUse, n.view);
        if worst.None? {
          break;
        }
        var gone := relayManager.Remove(worst.value);
        swarm.Request(DisconnectPeer(worst.value));
        assert R.Disconnects(removed + [worst.value]) == R.Disconnects(removed) + [DisconnectPeer(worst.value)];
        ghost var rest := R.PruneQueue(relayManager.reserved, n.relays.inUse, n.relays.maxRelays, n.view);
        assert removed + ([worst.value] + rest.removed) == removed + [worst.value] + rest.removed;
        removed := removed + [worst.value];
      }
      R.PruneCases(relayManager.reserved, n.relays.inUse, n.relays.maxRelays, n.view);
      assert removed + [] == removed;
    }

    method RefreshRelayState()
      requires Valid()
      modifies swarm, relayManager
      ensures Valid() && Returned(true, Some(UpdateRelayState(old(Value()))))
    {
      hide R.PruneQueue, R.InUseIn, R.Disconnects;
      relayManager.RecomputeInUse(view);
      PruneRelays();
    }

    // ----- mode -----

    method SetKadEnabled(enabled: bool, mode: KadMode)
      modifies this`kadEnabled, swarm
      ensures Value() == old(Value()).(kad := enabled) && kadEnabled == enabled
      ensures swarm.requests == old(swarm.requests) + SwitchKad(old(Value()).kad, enabled, mode)
    {
      if enabled {
        if !kadEnabled {
          swarm.Request(CreateKad);
          kadEnabled := true;
        }
        swarm.Request(SetKadMode(mode));
      } else if kadEnabled {
        swarm.Request(DropKad);
        kadEnabled := false;
      }
    }

    method SetMdnsEnabled(enabled: bool)
      modifies this`mdnsEnabled, swarm
      ensures Value() == old(Value()).(mdns := enabled) && mdnsEnabled == enabled
      ensures swarm.requests == old(swarm.requests) + SwitchMdns(old(Value()).mdns, enabled)
    {
      if enabled && !mdnsEnabled {
        swarm.Request(CreateMdns);
        mdnsEnabled := true;
      } else if !enabled && mdnsEnabled {
        swarm.Request(DropMdns);
        mdnsEnabled := false;
      }
    }

    method SetActiveMode(active: bool)
      requires Valid()
      modifies this, swarm
      ensures Valid() && targetPeers == old(targetPeers) && Returned(true, Some(Nodes.SetActiveMode(old(Value()), active)))
    {
      hide SwitchKad, SwitchMdns;
      activeMode := active;
      if active {
        GoActive();
      } else {
        SetKadEnabled(false, Auto);
      }
    }

    /** Both discovery behaviours on, and a lookup of the targets. */
    method GoActive()
      modifies this`kadEnabled, this`mdnsEnabled, swarm
      ensures kadEnabled && mdnsEnabled
      ensures swarm.requests == old(swarm.requests) +
                (SwitchKad(old(kadEnabled), true, Client) + SwitchMdns(old(mdnsEnabled), true) + [KadLookup(targetPeers)])
    {
      hide SwitchKad, SwitchMdns;
      SetKadEnabled(true, Client);
      SetMdnsEnabled(true);
      swarm.Request(KadLookup(targetPeers));
    }

    /** All targets up: go passive. One of them down: go, or stay, active. */
    method SwitchModeAfterOpen(p: PeerId)
      requires Valid()
      modifies this, swarm
      ensures Valid() && targetPeers == old(targetPeers) && Returned(true, Some(AfterOpen(old(Value()), p)))
    {
      hide Nodes.SetActiveMode;
      if p in targetPeers {
        var allConnected := true;
        var rest := targetPeers;
        while rest != {}
          invariant allConnected && rest <= targetPeers
          invariant Value() == old(Value()) && swarm.requests == old(swarm.requests)
          invariant forall q | q in targetPeers && q !in rest :: Connected(view.Value(), q)
          decreases rest
        {
          var q :| q in rest;
          if !view.IsConnected(q) {
            SetActiveMode(true);
            allConnected := false;
            break;
          }
          rest := rest - {q};
        }
        if allConnected {
          SetActiveMode(false);
        }
      }
    }

    /** A target lost: go active. */
    method SwitchModeAfterClose(p: PeerId)
      requires Valid()
      modifies this, swarm
      ensures Valid() && targetPeers == old(targetPeers) && Returned(true, Some(AfterClose(old(Value()), p)))
    {
      hide Nodes.SetActiveMode, Connected;
      if p in targetPeers && !view.IsConnected(p) {
        SetActiveMode(true);
      }
    }

    // ----- handlers -----

    method ShouldSkip(addr: Multiaddr) returns (skip: bool)
      ensures skip == ShouldSkipForDial(addr)
    {
      var hasLinkLocal, hasZone := false, false;
      for i := 0 to |addr|
        invariant hasLinkLocal <==> exists k | 0 <= k < i :: IsLinkLocal6(addr[k])
        invariant hasZone <==> exists k | 0 <= k < i :: addr[k].Ip6Zone?
      {
        if IsLinkLocal6(addr[i]) {
          hasLinkLocal := true;
        } else if addr[i].Ip6Zone? {
          hasZone := true;
        }
      }
      skip := hasLinkLocal && !hasZone;
    }

    /** Kademlia hears of an address while it is on. */
    method MirrorInKad(e: Effect)
      modifies swarm
      ensures swarm.requests == old(swarm.requests) + Mirrored(kadEnabled, e)
    {
      if kadEnabled {
        swarm.Request(e);
      }
    }

    method OnAddAddress(p: PeerId, addr: Multiaddr, t: Tick) returns (returned: bool)
      requires Valid()
      modifies this, swarm, view, view.peers.Values
      ensures Valid() && fresh(view.peers.Values - old(view.peers.Values))
      ensures Returned(returned, Nodes.OnAddAddress(old(Value()), p, addr, t))
    {
      hide ReconcilePeer, ShouldSkipForDial, LearnAddress, IsNewAddress, Mirrored, After;
      var skip := ShouldSkip(addr);
      if skip {
        return true;
      }
      var isNew := view.AddAddress(p, addr, t.now);
      if !isNew {
        return true;
      }
      ghost var learnt := Value();
      MirrorInKad(KadAdd(p, addr));
      ghost var mirrored := Mirrored(kadEnabled, KadAdd(p, addr));
      returned := ReconcilePeerConnections(p, t);
      AfterRequests(old(swarm.requests), mirrored, ReconcilePeer(learnt, p, t));
    }

    method OnRemoveAddress(p: PeerId, addr: Multiaddr, t: Tick) returns (returned: bool)
      requires Valid()
      modifies swarm, view, view.peers.Values
      ensures Valid() && view.peers.Values <= old(view.peers.Values)
      ensures Returned(returned, Nodes.OnRemoveAddress(old(Value()), p, addr, t))
    {
      hide ReconcilePeer, ForgetAddress, Mirrored, After;
      view.RemoveAddress(p, addr, t.now);
      ghost var forgotten := Value();
      MirrorInKad(KadRemove(p, addr));
      ghost var mirrored := Mirrored(kadEnabled, KadRemove(p, addr));
      returned := ReconcilePeerConnections(p, t);
      AfterRequests(old(swarm.requests), mirrored, ReconcilePeer(forgotten, p, t));
    }

    /** Reconcile, then refresh the relay state. */
    method SettleAfter(p: PeerId, t: Tick) returns (returned: bool)
      requires Valid()
      modifies swarm, view.peers.Values, relayManager
      ensures Valid() && Returned(returned, Settle(Step(old(Value()), []), p, t))
    {
      hide ReconcilePeer, UpdateRelayState;
      returned := ReconcilePeerConnections(p, t);
      if returned {
        RefreshRelayState();
      }
    }

    /** The first half of the closed handler: drop the connection, tell subscribers, switch mode. */
    method LoseConnection(p: PeerId, cid: ConnId, now: Instant)
      requires Valid()
      modifies this, swarm, view, view.peers.Values
      ensures Valid() && view.peers.Values <= old(view.peers.Values)
      ensures var n := old(Value());
              Returned(true, Some(Told(TellDisconnected(p, cid), AfterClose(n.(view := DropConnection(n.view, p, cid, now)), p))))
    {
      hide DropConnection, AfterClose;
      view.RemoveConnection(p, cid, now);
      swarm.Request(TellDisconnected(p, cid));
      SwitchModeAfterClose(p);
    }

    method OnPeerConnectionClosed(p: PeerId, cid: ConnId, t: Tick) returns (returned: bool)
      requires Valid()
      modifies this, swarm, view, view.peers.Values, relayManager
      ensures Valid() && view.peers.Values <= old(view.peers.Values)
      ensures Returned(returned, OnClosed(old(Value()), p, cid, t))
    {
      hide DropConnection, AfterClose, Told, Settle;
      ghost var n := Value();
      LoseConnection(p, cid, t.now);
      returned := SettleAfter(p, t);
      SettleWithEffects(Told(TellDisconnected(p, cid), AfterClose(n.(view := DropConnection(n.view, p, cid, t.now)), p)), p, t);
    }

    /** The first half of the opened handler: record the connection, tell subscribers, switch mode. */
    method GainConnection(p: PeerId, cid: ConnId, endpoint: ConnectedPoint, now: Instant)
      requires Valid()
      modifies this, swarm, view, view.peers.Values
      ensures Valid() && fresh(view.peers.Values - old(view.peers.Values))
      ensures var n := old(Value());
              Returned(true, Some(Told(TellConnected(p, cid), AfterOpen(n.(view := OpenConnection(n.view, p, cid, endpoint.Remote(), now)), p))))
    {
      hide OpenConnection, AllTargetsConnected, AfterOpen;
      view.AddConnection(p, cid, endpoint.Remote(), now);
      swarm.Request(TellConnected(p, cid));
      SwitchModeAfterOpen(p);
    }

    method OnPeerConnectionOpened(p: PeerId, cid: ConnId, endpoint: ConnectedPoint, t: Tick) returns (returned: bool)
      requires Valid()
      modifies this, swarm, view, view.peers.Values, relayManager
      ensures Valid() && fresh(view.peers.Values - old(view.peers.Values))
      ensures Returned(returned, OnOpened(old(Value()), p, cid, endpoint.Remote(), t))
    {
      hide OpenConnection, AfterOpen, Told, Settle;
      ghost var n := Value();
      GainConnection(p, cid, endpoint, t.now);
      returned := SettleAfter(p, t);
      SettleWithEffects(Told(TellConnected(p, cid), AfterOpen(n.(view := OpenConnection(n.view, p, cid, endpoint.Remote(), t.now)), p)), p, t);
    }

    /** The ConnectionEstablished arm. */
    method OnConnectionEstablished(p: PeerId, cid: ConnId, endpoint: ConnectedPoint, t: Tick) returns (returned: bool)
      requires Valid()
      modifies this, swarm, view, view.peers.Values, relayManager
      ensures Valid() && fresh(view.peers.Values - old(view.peers.Values))
      ensures Returned(returned, OnEstablished(old(Value()), p, cid, endpoint.Remote(), t))
    {
      hide OnOpened, UpdateRelayState, R.ExtractRelayPeer, R.Register;
      var relayUsed := ExtractRelayPeer(endpoint.Remote());
      returned := OnPeerConnectionOpened(p, cid, endpoint, t);
      if returned && relayUsed.Some? {
        TrackRelay(relayUsed.value);
      }
    }

    /** The ReservationReqAccepted arm, and the end of the ConnectionEstablished arm. */
    method TrackRelay(relay: PeerId)
      requires Valid()
      modifies swarm, relayManager
      ensures Valid() && Returned(true, Some(UpdateRelayState(RegisterRelay(old(Value()), relay))))
    {
      hide UpdateRelayState;
      relayManager.Register(relay);
      RefreshRelayState();
    }

    /** The last part of the Identify arm. */
    method RequestReservation(p: PeerId)
      requires Valid()
      modifies swarm
      ensures Valid() && Returned(true, Some(OnRelayOffered(old(Value()), p)))
    {
      if p in view.peers && view.peers[p].supportsRelayHopV2 {
        assert Value().view[p] == view.peers[p].Value();
        if !relayManager.CanReserve(p) {
          return;
        }
        if view.peers[p].addresses != [] {
          swarm.Request(ListenOn(view.peers[p].addresses[0].address + [P2p(p), P2pCircuit]));
        }
      }
    }

    /** The Identify arm: protocols, then every listen address, then perhaps a reservation. */
    method OnIdentify(p: PeerId, protocols: set<string>, listenAddrs: seq<Multiaddr>, t: Tick) returns (returned: bool)
      requires Valid()
      modifies this, swarm, view, view.peers.Values
      ensures Valid() && fresh(view.peers.Values - old(view.peers.Values))
      ensures Returned(returned, HandleAll(old(Value()), IdentifyInputs(p, protocols, listenAddrs, t)))
    {
      hide Nodes.OnAddAddress, Nodes.OnRelayOffered, SetProtocols, HandleAll, OnEstablished, OnClosed, Nodes.OnRemoveAddress,
        UpdateRelayState, SeenInputs, Nodes.OnPing;
      ghost var n := Value();
      view.SetProtocols(p, protocols);
      ghost var done: seq<Tick> := [t.(input := ProtocolsSeen(p, protocols))];
      ghost var e: seq<Effect> := [];
      HandleAllNone(n);
      HandleAllSnoc(n, [], t.(input := ProtocolsSeen(p, protocols)));
      assert [] + done == done && e + e == e;
      for i := 0 to |listenAddrs|
        invariant Valid() && fresh(view.peers.Values - old(view.peers.Values))
        invariant swarm.requests == old(swarm.requests) + e
        invariant done == [t.(input := ProtocolsSeen(p, protocols))] + SeenInputs(p, listenAddrs[..i], t)
        invariant HandleAll(n, done) == Some(Step(Value(), e))
      {
        ghost var before := Value();
        var next := t.(input := AddressSeen(p, listenAddrs[i]));
        label looking:
        var ok := OnAddAddress(p, listenAddrs[i], next);
        HandleAllSnoc(n, done, next);
        SeenSnoc(p, listenAddrs, i, t);
        assert IdentifyInputs(p, protocols, listenAddrs, t)
            == (done + [next]) + (SeenInputs(p, listenAddrs[i + 1..], t) + [t.(input := RelayOffered(p))]);
        if !ok {
          HandleAllStuck(n, done + [next], SeenInputs(p, listenAddrs[i + 1..], t) + [t.(input := RelayOffered(p))]);
          return false;
        }
        ghost var more := Nodes.OnAddAddress(before, p, listenAddrs[i], next).value.effects;
        assert old(swarm.requests) + e + more == old(swarm.requests) + (e + more);
        e := e + more;
        done := done + [next];
      }
      assert listenAddrs[..|listenAddrs|] == listenAddrs;
      ghost var before := Value();
      RequestReservation(p);
      HandleAllSnoc(n, done, t.(input := RelayOffered(p)));
      ghost var last := OnRelayOffered(before, p).effects;
      assert old(swarm.requests) + e + last == old(swarm.requests) + (e + last);
      return true;
    }

    /** The Ping arm. */
    method OnPing(p: PeerId, cid: ConnId, answer: Option<nat>)
      requires Valid()
      modifies view.peers.Values
      ensures Valid() && Value() == Nodes.OnPing(old(Value()), p, cid, answer)
    {
      if p in view.peers && List.GetConnectionAddress(view.peers[p].addresses, cid).Some? && answer.Some? {
        view.peers[p].rtt := answer.value;
        view.OneRecordChanged(p);
      }
    }

    method AddTargetPeer(p: PeerId) returns (isNew: bool)
      modifies this`targetPeers
      ensures isNew == (p !in old(targetPeers))
      ensures Value() == old(Value()).(targets := old(Value()).targets + {p}) && targetPeers == old(targetPeers) + {p}
    {
      isNew := p !in targetPeers;
      targetPeers := targetPeers + {p};
    }

    method RemoveTargetPeer(p: PeerId) returns (wasThere: bool)
      modifies this`targetPeers
      ensures wasThere == (p in old(targetPeers))
      ensures Value() == old(Value()).(targets := old(Value()).targets - {p}) && targetPeers == old(targetPeers) - {p}
    {
      wasThere := p in targetPeers;
      targetPeers := targetPeers - {p};
    }

    /** `on_swarm_event`: what the swarm and its behaviours report. */
    method OnSwarmEvent(t: Tick) returns (returned: bool)
      requires Valid() && !IsCommand(t.input)
      modifies this, swarm, view, view.peers.Values, relayManager
      ensures Valid() && fresh(view.peers.Values - old(view.peers.Values))
      ensures Returned(returned, Handle(old(Value()), t))
    {
      hide Nodes.OnAddAddress, Nodes.OnRelayOffered, Views.SetProtocols, OnEstablished, OnClosed, Nodes.OnRemoveAddress,
        UpdateRelayState, Nodes.OnPing;
      returned := true;
      match t.input {
        case Established(p, cid, endpoint) => returned := OnConnectionEstablished(p, cid, endpoint, t);
        case Closed(p, cid) => returned := OnPeerConnectionClosed(p, cid, t);
        case AddressSeen(p, addr) => returned := OnAddAddress(p, addr, t);
        case AddressExpired(p, addr) => returned := OnRemoveAddress(p, addr, t);
        case ProtocolsSeen(p, protocols) => view.SetProtocols(p, protocols);
        case RelayOffered(p) => RequestReservation(p);
        case ReservationAccepted(relay) => TrackRelay(relay);
        case Pinged(p, cid, answer) => OnPing(p, cid, answer);
      }
    }

    /** What the user asks for. */
    method OnCommand(t: Tick)
      requires Valid() && IsCommand(t.input)
      modifies this, swarm
      ensures Valid() && Returned(true, Handle(old(Value()), t))
    {
      hide SwitchKad, SwitchMdns, Value;
      match t.input {
        case TargetAdded(p) => var isNew := AddTargetPeer(p);
        case TargetRemoved(p) => var wasThere := RemoveTargetPeer(p);
        case KadSwitched(on, mode) => SetKadEnabled(on, mode);
        case MdnsSwitched(on) => SetMdnsEnabled(on);
      }
    }

    /** Dispatch: every input, from the swarm or from the user, is handled as module Nodes says. */
    method OnInput(t: Tick) returns (returned: bool)
      requires Valid()
      modifies this, swarm, view, view.peers.Values, relayManager
      ensures Valid() && fresh(view.peers.Values - old(view.peers.Values))
      ensures Returned(returned, Handle(old(Value()), t))
    {
      hide Handle;
      returned := true;
      if IsCommand(t.input) {
        OnCommand(t);
      } else {
        returned := OnSwarmEvent(t);
      }
    }
  }

  /** Inputs that come from the user, not from the swarm. */
  predicate IsCommand(input: Input) {
    input.TargetAdded? || input.TargetRemoved? || input.KadSwitched? || input.MdnsSwitched?
  }

  // ----- gluing steps together -----

  lemma {:induction false} ConnectionsSnoc(s: seq<AddressMetadata>, m: AddressMetadata)
    ensures Rec.ConnectionsOf(s + [m]) == Rec.ConnectionsOf(s) + m.activeConnections
  {
    if s == [] {
      assert s + [m] == [m];
      assert Rec.ConnectionsOf([m]) == m.activeConnections + Rec.ConnectionsOf([m][1..]);
    } else {
      ConnectionsSnoc(s[1..], m);
      assert (s + [m])[1..] == s[1..] + [m];
    }
  }

  /** The outcomes of one call that need no recursion. */
  lemma ReconcileCases(n: Node, p: PeerId, t: Tick)
    ensures p !in n.view || n.view[p].addresses == [] ==> ReconcilePeer(n, p, t) == Some(Step(n, []))
    ensures p in n.view && n.view[p].addresses != [] ==>
              var s := n.view[p].addresses;
              var best, leader := s[0].address, IsPruneLeader(n.local, p);
              var r := ReconcilePeer(n, p, t);
              if List.IsConnectedOver(s, best) then
                r == Some(Step(n, if leader then CloseEach(Rec.ConnectionsOf(s[1..])) else []))
              else if !List.IsConnected(s) then
                (best !in t.refused ==> r == Some(Step(n, [Effect.Dial(p, best, true)])))
                && (best in t.refused && t.fuel == 0 ==> r == None)
              else if leader then
                if best !in t.refused then r == Some(Step(n, [Effect.Dial(p, best, true)]))
                else r == Some(Step(n.(view := WithAddresses(n.view, p, List.MarkFailure(s, best, t.now))),
                                    [Effect.Dial(p, best, false)]))
              else r == Some(Step(n, []))
  {
    hide List.MarkFailure, List.IsConnected, List.IsConnectedOver, IsPruneLeader, Rec.ConnectionsOf;
    if p in n.view {
      assert WithAddresses(n.view, p, n.view[p].addresses) == n.view;
    }
  }

  /** A rejected dial, then the recursive call on the marked list, is one call on the list. */
  lemma RetryAfterFailure(n: Node, marked: Node, p: PeerId, t: Tick)
    requires p in n.view && n.view[p].addresses != [] && t.fuel > 0
    requires var s := n.view[p].addresses;
             && !List.IsConnectedOver(s, s[0].address) && !List.IsConnected(s) && s[0].address in t.refused
             && marked == n.(view := WithAddresses(n.view, p, List.MarkFailure(s, s[0].address, t.now)))
    ensures ReconcilePeer(n, p, t) ==
            match ReconcilePeer(marked, p, t.(fuel := t.fuel - 1))
            case None => None
            case Some(r) => Some(Step(r.node, [Effect.Dial(p, n.view[p].addresses[0].address, false)] + r.effects))
  {
    hide List.MarkFailure, List.IsConnected, List.IsConnectedOver;
    var s := n.view[p].addresses;
    var m := List.MarkFailure(s, s[0].address, t.now);
    var c := CallFor(n, p, t);
    assert marked.view[p].addresses == m && CallFor(marked, p, t.(fuel := t.fuel - 1)) == c;
    var o := Rec.Run(m, c, t.fuel - 1);
    if o.Some? {
      assert WithAddresses(marked.view, p, o.value.addresses) == WithAddresses(n.view, p, o.value.addresses);
    }
  }

  /** Requests made before a step, then those of the step. */
  lemma AfterRequests(requests: seq<Effect>, e: seq<Effect>, s: Option<Step>)
    ensures After(e, s).Some? <==> s.Some?
    ensures s.Some? ==> After(e, s).value.node == s.value.node
    ensures s.Some? ==> requests + After(e, s).value.effects == (requests + e) + s.value.effects
  {
  }

  lemma SettleWithEffects(s: Step, p: PeerId, t: Tick)
    ensures Settle(s, p, t).Some? <==> Settle(Step(s.node, []), p, t).Some?
    ensures Settle(s, p, t).Some? ==>
              var r, q := Settle(s, p, t).value, Settle(Step(s.node, []), p, t).value;
              r.node == q.node && r.effects == s.effects + q.effects
  {
    hide ReconcilePeer, UpdateRelayState;
    if Settle(s, p, t).Some? {
      var r := ReconcilePeer(s.node, p, t).value;
      var u := UpdateRelayState(r.node);
      assert [] + r.effects + u.effects == r.effects + u.effects;
      assert s.effects + r.effects + u.effects == s.effects + (r.effects + u.effects);
    }
  }

  lemma SeenSnoc(p: PeerId, addrs: seq<Multiaddr>, i: nat, t: Tick)
    requires i < |addrs|
    ensures SeenInputs(p, addrs[..i + 1], t) == SeenInputs(p, addrs[..i], t) + [t.(input := AddressSeen(p, addrs[i]))]
    ensures SeenInputs(p, addrs, t) == SeenInputs(p, addrs[..i + 1], t) + SeenInputs(p, addrs[i + 1..], t)
  {
  }

  lemma HandleAllNone(n: Node)
    ensures HandleAll(n, []) == Some(Step(n, []))
  {
  }

  /** Whatever does not return stays that way. */
  lemma {:induction false} HandleAllStuck(n: Node, ts: seq<Tick>, us: seq<Tick>)
    requires HandleAll(n, ts) == None
    ensures HandleAll(n, ts + us) == None
    decreases |ts|
  {
    hide Handle;
    if Handle(n, ts[0]).Some? {
      assert (ts + us)[1..] == ts[1..] + us;
      HandleAllStuck(Handle(n, ts[0]).value.node, ts[1..], us);
    }
  }
}
