/** Which inputs a node survives: when does a handler return at all? */
module Returning {
  import opened Options
  import opened Multiaddrs
  import opened Metadata
  import opened AddressList
  import opened Views
  import opened Nodes
  import opened NodeFacts
  import opened DialRecursion
  import Reconcile

  function CallAt(n: Node, t: Tick): Reconcile.Call
    requires Reconciles(n, t)
  {
    CallFor(n, t.input.peer, t)
  }

  /** A handler returns exactly if the reconcile call it makes does. */
  lemma HandlerReturns(n: Node, t: Tick)
    ensures !Reconciles(n, t) ==> Handle(n, t).Some?
    ensures Reconciles(n, t) ==> (Handle(n, t).Some? <==> Reconcile.Run(Shown(n, t), CallAt(n, t), t.fuel).Some?)
  {
    hide Reconcile.Run, UpdateRelayState, OpenConnection, DropConnection, LearnAddress, ForgetAddress, AllTargetsConnected,
      Connected, ShouldSkipForDial, IsNewAddress, IsPruneLeader;
    if Reconciles(n, t) && t.input.peer !in Edited(n, t) {
      assert Shown(n, t) == [];
      EmptyReturns(CallAt(n, t), t.fuel);
    }
  }

  lemma EmptyReturns(c: Reconcile.Call, fuel: nat)
    ensures Reconcile.Run([], c, fuel) == Some(Reconcile.Outcome([], []))
  {
  }

  /** Reconcile always returns for a connected peer. */
  lemma ConnectedReturns(s: Addresses, c: Reconcile.Call, fuel: nat)
    requires IsConnected(s)
    ensures Reconcile.Run(s, c, fuel).Some?
  {
    hide MarkFailure;
  }

  /** The swarm accepts some dial that the handler will come to. */
  ghost predicate SomeDialAccepted(s: Addresses, now: Instant, refused: set<Multiaddr>) {
    || (exists m :: m in s && !InCooldown(m, now) && m.address !in refused)
    || (exists f :: StaticallyFirst(s, f) && f !in refused)
  }

  ghost predicate EventuallyReturns(n: Node, t: Tick) {
    exists fuel :: Handle(n, t.(fuel := fuel)).Some?
  }

  lemma FuelIsInvisible(n: Node, t: Tick, fuel: nat)
    ensures var u := t.(fuel := fuel);
            && Reconciles(n, u) == Reconciles(n, t)
            && (Reconciles(n, t) ==> Shown(n, u) == Shown(n, t) && CallAt(n, u) == CallAt(n, t))
  {
    hide ShouldSkipForDial, IsNewAddress, OpenConnection, DropConnection, LearnAddress, ForgetAddress, IsPruneLeader;
  }

  /** Exactly when a handler returns, in any well-formed state: it reconciles nobody, or a peer without
      addresses, or a connected peer, or the swarm accepts an address that is not cooling down or the
      statically first address. */
  lemma HandlerReturnsExactlyWhen(n: Node, t: Tick)
    requires GoodView(n.view)
    ensures EventuallyReturns(n, t) <==>
            (Reconciles(n, t) ==>
               Shown(n, t) == [] || IsConnected(Shown(n, t)) || SomeDialAccepted(Shown(n, t), t.now, t.refused))
  {
    hide Handle, Shown, Reconciles, Reconcile.Run, IsConnected, GoodView, Good, Sorted, InCooldown, StaticallyFirst, IsPruneLeader;
    forall fuel: nat
      ensures !Reconciles(n, t) ==> Handle(n, t.(fuel := fuel)).Some?
      ensures Reconciles(n, t) ==>
                (Handle(n, t.(fuel := fuel)).Some? <==> Reconcile.Run(Shown(n, t), CallAt(n, t), fuel).Some?)
    {
      FuelIsInvisible(n, t, fuel);
      HandlerReturns(n, t.(fuel := fuel));
    }
    assert Handle(n, t.(fuel := 0)).Some? ==> EventuallyReturns(n, t);
    if Reconciles(n, t) {
      var s, c := Shown(n, t), CallAt(n, t);
      if s == [] {
        EmptyReturns(c, 0);
      } else if IsConnected(s) {
        ConnectedReturns(s, c, 0);
      } else {
        EditGood(n, t);
        ShownIsGood(n, t);
        EndsExactlyWhen(s, c);
        if Reconcile.Ends(s, c) {
          var fuel :| Reconcile.Run(s, c, fuel).Some?;
          assert Handle(n, t.(fuel := fuel)).Some?;
        }
      }
    }
  }

  lemma ShownIsGood(n: Node, t: Tick)
    requires GoodView(n.view) && Reconciles(n, t)
    ensures Good(Shown(n, t)) && CallAt(n, t).now == t.now && CallAt(n, t).refused == t.refused
  {
    EditGood(n, t);
    GoodAt(Edited(n, t), t.input.peer);
  }

  /** The smallest failing case: learning the first address of a new peer, when the swarm rejects it,
      never returns, whatever the fuel. */
  lemma RejectedNewPeerNeverReturns(n: Node, t: Tick)
    requires GoodView(n.view) && t.input.AddressSeen? && t.input.peer !in n.view
    requires !ShouldSkipForDial(t.input.addr) && t.input.addr in t.refused
    ensures !EventuallyReturns(n, t)
  {
    var addr := t.input.addr;
    HandlerReturnsExactlyWhen(n, t);
    FirstAddress(addr, t.now);
    assert Reconciles(n, t) && Shown(n, t) == [NewMetadata(addr)] by {
      hide ShouldSkipForDial, NewMetadata, AddAddress, Edited;
      EditIsLocal(n, t, t.input.peer);
      assert AddressesAt(n.view, t.input.peer) == [];
    }
    hide Shown, Reconciles, EventuallyReturns, StaticallyFirst, InCooldown, ShouldSkipForDial, Handle;
    var s := [NewMetadata(addr)];
    forall f | StaticallyFirst(s, f)
      ensures f == addr
    {
      OnlyAddress(s, f);
    }
    assert forall m | m in s :: m.address == addr;
    assert !IsConnected(s);
  }

  lemma FirstAddress(addr: Multiaddr, now: Instant)
    ensures AddAddress([], addr, now) == [NewMetadata(addr)] && IndexOfAddr([], addr) == 0
  {
    var m := NewMetadata(addr);
    hide NewMetadata, Before;
    assert [] + [m] == [m] && [m][1..] == [];
    assert Resort([m], now) == Insert(m, Resort([], now), now);
  }

  lemma OnlyAddress(s: Addresses, f: Multiaddr)
    requires |s| == 1 && StaticallyFirst(s, f)
    ensures f == s[0].address
  {
  }
}
