/** One node: the state of `SavedNetwork` and its event handlers, as a function from a state and an
    input to the next state and the requests made to the swarm. Every input carries the one clock
    value the handler works with, and the addresses the swarm would reject. A handler that never
    returns, because its dial recursion does not end, has no result for any fuel. */
module Nodes {
  import opened Options
  import opened Multiaddrs
  import opened Metadata
  import opened AddressList
  import opened Effects
  import opened Views
  import opened Relays
  import Reconcile

  datatype Node = Node(local: PeerId, view: View, relays: Relays, targets: set<PeerId>, active: bool, kad: bool, mdns: bool)

  function Fresh(local: PeerId, maxRelays: nat): Node {
    Node(local, map[], Relays([], {}, maxRelays), {}, true, false, true)
  }

  datatype ConnectedPoint =
    | Dialer(address: Multiaddr)
    | Listener(localAddr: Multiaddr, sendBackAddr: Multiaddr)
  {
    /** The remote address, exactly as the endpoint reports it. */
    function Remote(): Multiaddr {
      match this
      case Dialer(address) => address
      case Listener(_, sendBackAddr) => sendBackAddr
    }
  }

  datatype Input =
    | Established(peer: PeerId, cid: ConnId, endpoint: ConnectedPoint)
    | Closed(peer: PeerId, cid: ConnId)
    | AddressSeen(peer: PeerId, addr: Multiaddr)     // mDNS, Kademlia, identify, external address
    | AddressExpired(peer: PeerId, addr: Multiaddr)  // mDNS
    | ProtocolsSeen(peer: PeerId, protocols: set<string>)
    | RelayOffered(peer: PeerId)                     // the last part of the Identify handler
    | ReservationAccepted(relay: PeerId)
    | Pinged(peer: PeerId, cid: ConnId, answer: Option<nat>)
    | TargetAdded(peer: PeerId)
    | TargetRemoved(peer: PeerId)
    | KadSwitched(on: bool, mode: KadMode)           // by the user
    | MdnsSwitched(on: bool)                         // by the user

  datatype Tick = Tick(input: Input, now: Instant, refused: set<Multiaddr>, fuel: nat)

  datatype Step = Step(node: Node, effects: seq<Effect>)

  // ----- shared parts of the handlers -----

  /** A link-local IPv6 address without a zone cannot be dialled. */
  predicate ShouldSkipForDial(addr: Multiaddr) {
    (exists k | 0 <= k < |addr| :: IsLinkLocal6(addr[k])) && !(exists k | 0 <= k < |addr| :: addr[k].Ip6Zone?)
  }

  predicate IsLinkLocal6(p: Protocol) {
    p.Ip6? && (p.first & 0xffc0) == 0xfe80
  }

  function CallFor(n: Node, p: PeerId, t: Tick): Reconcile.Call {
    Reconcile.Call(p, IsPruneLeader(n.local, p), t.now, t.refused)
  }

  function ReconcilePeer(n: Node, p: PeerId, t: Tick): Option<Step> {
    if p !in n.view then Some(Step(n, []))
    else
      match Reconcile.Run(n.view[p].addresses, CallFor(n, p, t), t.fuel)
      case None => None
      case Some(o) => Some(Step(n.(view := WithAddresses(n.view, p, o.addresses)), o.effects))
  }

  function UpdateRelayState(n: Node): Step {
    var inUse := InUseIn(n.view);
    var pruned := PruneQueue(n.relays.reserved, inUse, n.relays.maxRelays, n.view);
    Step(n.(relays := n.relays.(reserved := pruned.reserved, inUse := inUse)), Disconnects(pruned.removed))
  }

  /** Kademlia is created only if it is off, and told its mode whenever it is switched on. */
  function SwitchKad(was: bool, on: bool, mode: KadMode): (e: seq<Effect>)
    ensures forall x | x in e :: x.CreateKad? || x.DropKad? || x.SetKadMode?
  {
    if on then (if was then [] else [CreateKad]) + [SetKadMode(mode)]
    else if was then [DropKad]
    else []
  }

  function SwitchMdns(was: bool, on: bool): (e: seq<Effect>)
    ensures forall x | x in e :: x.CreateMdns? || x.DropMdns?
  {
    if on && !was then [CreateMdns] else if !on && was then [DropMdns] else []
  }

  function SetActiveMode(n: Node, active: bool): Step {
    if active then
      Step(n.(active := true, kad := true, mdns := true),
           SwitchKad(n.kad, true, Client) + SwitchMdns(n.mdns, true) + [KadLookup(n.targets)])
    else
      Step(n.(active := false, kad := false), SwitchKad(n.kad, false, Auto))
  }

  function RegisterRelay(n: Node, relay: PeerId): Node {
    n.(relays := Register(n.relays, relay))
  }

  predicate AllTargetsConnected(n: Node) {
    forall p | p in n.targets :: Connected(n.view, p)
  }

  // ----- the handlers -----

  /** Mode switch of `on_peer_connection_opened`. */
  function AfterOpen(n: Node, p: PeerId): Step {
    if p in n.targets then SetActiveMode(n, !AllTargetsConnected(n)) else Step(n, [])
  }

  /** Mode switch of `on_peer_connection_closed`. */
  function AfterClose(n: Node, p: PeerId): Step {
    if p in n.targets && !Connected(n.view, p) then SetActiveMode(n, true) else Step(n, [])
  }

  /** Effects that come before those of a step. */
  function After(e: seq<Effect>, s: Option<Step>): Option<Step> {
    match s
    case None => None
    case Some(r) => Some(Step(r.node, e + r.effects))
  }

  /** Subscribers hear of a connection before anything else happens. */
  function Told(e: Effect, s: Step): Step {
    Step(s.node, [e] + s.effects)
  }

  /** Kademlia's own routing table follows the view's addresses while it is on. */
  function Mirrored(kad: bool, e: Effect): seq<Effect> {
    if kad then [e] else []
  }

  /** Reconcile, then bring the relay state up to date. */
  function Settle(s: Step, p: PeerId, t: Tick): Option<Step> {
    match ReconcilePeer(s.node, p, t)
    case None => None
    case Some(r) =>
      var u := UpdateRelayState(r.node);
      Some(Step(u.node, s.effects + r.effects + u.effects))
  }

  function OnOpened(n: Node, p: PeerId, cid: ConnId, remote: Multiaddr, t: Tick): Option<Step> {
    Settle(Told(TellConnected(p, cid), AfterOpen(n.(view := OpenConnection(n.view, p, cid, remote, t.now)), p)), p, t)
  }

  function OnClosed(n: Node, p: PeerId, cid: ConnId, t: Tick): Option<Step> {
    Settle(Told(TellDisconnected(p, cid), AfterClose(n.(view := DropConnection(n.view, p, cid, t.now)), p)), p, t)
  }

  /** The ConnectionEstablished arm: only after the handler has returned is a relay registered. */
  function OnEstablished(n: Node, p: PeerId, cid: ConnId, remote: Multiaddr, t: Tick): Option<Step> {
    match OnOpened(n, p, cid, remote, t)
    case None => None
    case Some(s) =>
      match ExtractRelayPeer(remote)
      case None => Some(s)
      case Some(relay) =>
        var u := UpdateRelayState(RegisterRelay(s.node, relay));
        Some(Step(u.node, s.effects + u.effects))
  }

  function OnAddAddress(n: Node, p: PeerId, addr: Multiaddr, t: Tick): Option<Step> {
    if ShouldSkipForDial(addr) then Some(Step(n, []))
    else
      var learnt := n.(view := LearnAddress(n.view, p, addr, t.now));
      if IsNewAddress(n.view, p, addr) then After(Mirrored(n.kad, KadAdd(p, addr)), ReconcilePeer(learnt, p, t))
      else Some(Step(learnt, []))
  }

  function OnRemoveAddress(n: Node, p: PeerId, addr: Multiaddr, t: Tick): Option<Step> {
    After(Mirrored(n.kad, KadRemove(p, addr)), ReconcilePeer(n.(view := ForgetAddress(n.view, p, addr, t.now)), p, t))
  }

  /** Ask a relay-capable peer for a reservation, if there is room for it. */
  function OnRelayOffered(n: Node, p: PeerId): Step {
    if p in n.view && n.view[p].supportsRelayHopV2 && CanReserve(n.relays, p) && n.view[p].addresses != [] then
      Step(n, [ListenOn(n.view[p].addresses[0].address + [P2p(p), P2pCircuit])])
    else Step(n, [])
  }

  function OnPing(n: Node, p: PeerId, cid: ConnId, answer: Option<nat>): Node {
    if p in n.view && GetConnectionAddress(n.view[p].addresses, cid).Some? && answer.Some? then
      n.(view := n.view[p := n.view[p].(rtt := answer.value)])
    else n
  }

  function Handle(n: Node, t: Tick): Option<Step> {
    match t.input
    case Established(p, cid, endpoint) => OnEstablished(n, p, cid, endpoint.Remote(), t)
    case Closed(p, cid) => OnClosed(n, p, cid, t)
    case AddressSeen(p, addr) => OnAddAddress(n, p, addr, t)
    case AddressExpired(p, addr) => OnRemoveAddress(n, p, addr, t)
    case ProtocolsSeen(p, protocols) => Some(Step(n.(view := SetProtocols(n.view, p, protocols)), []))
    case RelayOffered(p) => Some(OnRelayOffered(n, p))
    case ReservationAccepted(relay) => Some(UpdateRelayState(RegisterRelay(n, relay)))
    case Pinged(p, cid, answer) => Some(Step(OnPing(n, p, cid, answer), []))
    case TargetAdded(p) => Some(Step(n.(targets := n.targets + {p}), []))
    case TargetRemoved(p) => Some(Step(n.(targets := n.targets - {p}), []))
    case KadSwitched(on, mode) => Some(Step(n.(kad := on), SwitchKad(n.kad, on, mode)))
    case MdnsSwitched(on) => Some(Step(n.(mdns := on), SwitchMdns(n.mdns, on)))
  }

  /** Several inputs one after the other, as the Identify handler feeds them to itself. */
  function HandleAll(n: Node, ts: seq<Tick>): Option<Step>
    decreases |ts|
  {
    if ts == [] then Some(Step(n, []))
    else
      match Handle(n, ts[0])
      case None => None
      case Some(s) =>
        match HandleAll(s.node, ts[1..])
        case None => None
        case Some(r) => Some(Step(r.node, s.effects + r.effects))
  }

  function SeenInputs(p: PeerId, addrs: seq<Multiaddr>, t: Tick): (r: seq<Tick>)
    ensures |r| == |addrs| && forall i | 0 <= i < |r| :: r[i] == t.(input := AddressSeen(p, addrs[i]))
  {
    seq(|addrs|, i requires 0 <= i < |addrs| => t.(input := AddressSeen(p, addrs[i])))
  }

  /** An Identify event as the inputs the handler works through. */
  function IdentifyInputs(p: PeerId, protocols: set<string>, addrs: seq<Multiaddr>, t: Tick): seq<Tick> {
    [t.(input := ProtocolsSeen(p, protocols))] + SeenInputs(p, addrs, t) + [t.(input := RelayOffered(p))]
  }

  /** One more input at the end. */
  lemma {:induction false} HandleAllSnoc(n: Node, ts: seq<Tick>, t: Tick)
    ensures HandleAll(n, ts + [t]) ==
            match HandleAll(n, ts)
            case None => None
            case Some(s) =>
              match Handle(s.node, t)
              case None => None
              case Some(r) => Some(Step(r.node, s.effects + r.effects))
    decreases |ts|
  {
    hide Handle;
    if ts == [] {
      assert ts + [t] == [t] && [t][1..] == [];
      if Handle(n, t).Some? {
        var r := Handle(n, t).value;
        assert HandleAll(r.node, []) == Some(Step(r.node, []));
        assert r.effects + [] == r.effects && [] + r.effects == r.effects;
      }
    } else {
      assert (ts + [t])[1..] == ts[1..] + [t];
      if Handle(n, ts[0]).Some? {
        var s := Handle(n, ts[0]).value;
        HandleAllSnoc(s.node, ts[1..], t);
        if HandleAll(s.node, ts[1..]).Some? {
          var m := HandleAll(s.node, ts[1..]).value;
          if Handle(m.node, t).Some? {
            var r := Handle(m.node, t).value;
            assert s.effects + (m.effects + r.effects) == (s.effects + m.effects) + r.effects;
          }
        }
      }
    }
  }
}
