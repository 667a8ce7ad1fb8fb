/**
 The pool of transaction addresses (chain/tx_addr_pool.go) and the way every sender uses it (chain/order.go): lease an
 address, broadcast with it, and release it by a deferred call whatever happens.
 */
module AddressPool {
  import opened Basics

  type Address = string

  datatype Status = Available | InUse | Root

  class Pool {
    var addresses: map<Address, Status>

    constructor (addresses: set<Address>)
      ensures this.addresses == map a | a in addresses :: Available
    {
      this.addresses := map a | a in addresses :: Available;
    }

    /** GetRandomAddress: collects the available addresses in any order and leases one of them. */
    method GetRandomAddress(random: nat) returns (r: Option<Address>)
      modifies this
      ensures r.None? ==> addresses == old(addresses) && forall a :: a in addresses ==> addresses[a] != Available
      ensures r.Some? ==> r.value in old(addresses) && old(addresses)[r.value] == Available
      ensures r.Some? ==> addresses == old(addresses)[r.value := InUse]
    {
      if |addresses| == 0 {
        assert addresses == map[];
        return None;
      }
      var available := [];
      var left := addresses.Keys;
      while left != {}
        invariant left <= addresses.Keys && addresses == old(addresses)
        invariant forall i :: 0 <= i < |available| ==> available[i] in addresses && addresses[available[i]] == Available
        invariant available == [] ==> forall a :: a in addresses && a !in left ==> addresses[a] != Available
      {
        var a :| a in left;
        if addresses[a] == Available { available := available + [a]; }
        left := left - {a};
      }
      if |available| == 0 { return None; }
      r := Some(available[random % |available|]);
      addresses := addresses[r.value := InUse];
    }

    /** SetAddressAvailable: only an address in use becomes available. */
    method SetAddressAvailable(a: Address) returns (ok: bool)
      modifies this
      ensures ok <==> a in old(addresses) && old(addresses)[a] == InUse
      ensures addresses == Released(old(addresses), a)
    {
      if a !in addresses || addresses[a] != InUse { return false; }
      addresses := addresses[a := Available];
      return true;
    }
  }

  function Released(m: map<Address, Status>, a: Address): map<Address, Status> {
    if a in m && m[a] == InUse then m[a := Available] else m
  }

  /**
   OrderReady and its siblings: lease, look the account up, broadcast, and the deferred release on every path. The pool is
   left as it was, unless the address handed out was the signer's own.
   */
  method Send(pool: Pool, signer: Address, random: nat, accountOk: bool, txOk: bool) returns (tx: Address, ok: bool)
    requires "" !in pool.addresses
    modifies pool
    ensures ok <==> tx in old(pool.addresses) && accountOk && txOk
    ensures tx !in old(pool.addresses) <==> forall a :: a in old(pool.addresses) ==> old(pool.addresses)[a] != Available
    ensures tx in old(pool.addresses) ==> old(pool.addresses)[tx] == Available
    ensures pool.addresses == if tx in old(pool.addresses) && tx == signer then old(pool.addresses)[tx := InUse]
                              else old(pool.addresses)
  {
    var leased := pool.GetRandomAddress(random);
    tx := if leased.Some? then leased.value else "";
    ok := leased.Some? && accountOk && txOk;
    if tx != signer {
      var released := pool.SetAddressAvailable(tx);
      assert pool.addresses == old(pool.addresses);
    }
  }

  // ---------------------------------------------------------------- concurrent senders

  type Tid = nat

  /** A sender is outside a call, or inside one with the address its transaction is signed by. */
  datatype Sender = Outside | Sending(signer: Address, tx: Address)

  datatype State = State(pool: map<Address, Status>, senders: map<Tid, Sender>)

  /** A call leases `a`, or finds nothing available and ends at once; later it returns, on whichever path. */
  datatype Action = Lease(t: Tid, signer: Address, a: Address) | Refused(t: Tid, signer: Address) | Return(t: Tid)

  predicate Enabled(s: State, act: Action) {
    match act
    case Lease(t, _, a) => t in s.senders && s.senders[t].Outside? && a in s.pool && s.pool[a] == Available
    case Refused(t, _) => t in s.senders && s.senders[t].Outside? && forall a :: a in s.pool ==> s.pool[a] != Available
    case Return(t) => t in s.senders && s.senders[t].Sending?
  }

  /** The deferred function: the address is released unless it is the signer itself. */
  function Deferred(pool: map<Address, Status>, signer: Address, tx: Address): map<Address, Status> {
    if tx != signer then Released(pool, tx) else pool
  }

  /** A refused call was handed the empty address along with the error, and its deferred function still runs. */
  function Step(s: State, act: Action): State
    requires Enabled(s, act)
  {
    match act
    case Lease(t, signer, a) => State(s.pool[a := InUse], s.senders[t := Sending(signer, a)])
    case Refused(t, signer) => s.(pool := Deferred(s.pool, signer, ""))
    case Return(t) => State(Deferred(s.pool, s.senders[t].signer, s.senders[t].tx), s.senders[t := Outside])
  }

  ghost predicate Holds(s: State, t: Tid, a: Address) { t in s.senders && s.senders[t].Sending? && s.senders[t].tx == a }

  /** The pool was loaded from the keyring, which names no account with the empty address, and no sender has called. */
  ghost predicate Init(s: State) {
    (forall a :: a in s.pool ==> s.pool[a] == Available && a != "") && forall t :: t in s.senders ==> s.senders[t].Outside?
  }

  ghost predicate IsRun(states: seq<State>, acts: seq<Action>) {
    && |states| == |acts| + 1 && Init(states[0])
    && forall i {:trigger acts[i]} :: 0 <= i < |acts| ==> Enabled(states[i], acts[i]) && states[i + 1] == Step(states[i], acts[i])
  }

  /** The sender that returns was leased its own signer's address, which its deferred function leaves alone. */
  predicate ReturnsOwn(s: State, act: Action) {
    act.Return? && act.t in s.senders && s.senders[act.t].Sending? && s.senders[act.t].tx == s.senders[act.t].signer
  }

  /** The addresses that were leased to their own signer and not given back, up to step `i` of a run. */
  ghost function Leaked(states: seq<State>, acts: seq<Action>, i: nat): set<Address>
    requires i <= |acts| < |states|
  {
    if i == 0 then {}
    else
      var before := Leaked(states, acts, i - 1);
      if ReturnsOwn(states[i - 1], acts[i - 1]) then before + {states[i - 1].senders[acts[i - 1].t].tx} else before
  }

  /** No address is leased twice, nor after it leaked; those in use are exactly those held and those leaked. */
  ghost predicate Inv(s: State, leaked: set<Address>) {
    && "" !in s.pool
    && (forall t, u, a :: Holds(s, t, a) && Holds(s, u, a) ==> t == u)
    && (forall t, a :: Holds(s, t, a) ==> a !in leaked)
    && (forall a :: a in s.pool && s.pool[a] == InUse ==> a in leaked || exists t :: Holds(s, t, a))
    && (forall t, a :: Holds(s, t, a) ==> a in s.pool && s.pool[a] == InUse)
    && (forall a :: a in leaked ==> a in s.pool && s.pool[a] == InUse)
  }

  lemma LeaseKeepsInv(s: State, leaked: set<Address>, act: Action)
    requires Inv(s, leaked) && act.Lease? && Enabled(s, act)
    ensures Inv(Step(s, act), leaked)
  {
    var s' := Step(s, act);
    assert forall u, b :: Holds(s', u, b) <==> (u == act.t && b == act.a) || (u != act.t && Holds(s, u, b));
    forall b | b in s'.pool && s'.pool[b] == InUse && b !in leaked ensures exists u :: Holds(s', u, b) {
      if b == act.a { assert Holds(s', act.t, b); } else { var u :| Holds(s, u, b); assert Holds(s', u, b); }
    }
  }

  lemma ReturnKeepsInv(s: State, leaked: set<Address>, t: Tid)
    requires Inv(s, leaked) && Enabled(s, Return(t))
    ensures var a := s.senders[t].tx; Inv(Step(s, Return(t)), if ReturnsOwn(s, Return(t)) then leaked + {a} else leaked)
  {
    var a, s' := s.senders[t].tx, Step(s, Return(t));
    assert Holds(s, t, a);
    assert forall u, b :: Holds(s', u, b) <==> u != t && Holds(s, u, b);
    forall b | b in s'.pool && s'.pool[b] == InUse && b !in leaked && b != a ensures exists u :: Holds(s', u, b) {
      var u :| Holds(s, u, b);
      assert Holds(s', u, b);
    }
  }

  lemma {:induction false} RunKeepsInv(states: seq<State>, acts: seq<Action>, i: nat)
    requires IsRun(states, acts) && i <= |acts|
    ensures Inv(states[i], Leaked(states, acts, i)) && states[i].pool.Keys == states[0].pool.Keys
  {
    if i > 0 {
      RunKeepsInv(states, acts, i - 1);
      var s, act, leaked := states[i - 1], acts[i - 1], Leaked(states, acts, i - 1);
      match act
      case Lease(_, _, _) => LeaseKeepsInv(s, leaked, act);
      case Return(t) => assert Holds(s, t, s.senders[t].tx); ReturnKeepsInv(s, leaked, t);
      case Refused(_, _) => assert Step(s, act) == s;
    }
  }

  /**
   In every interleaving of any number of senders, whoever signs, no address is leased to two senders at once, the
   addresses in use are exactly those held and those that leaked, and the set of addresses never changes.
   */
  lemma LeasesExclusive(states: seq<State>, acts: seq<Action>, i: nat)
    requires IsRun(states, acts) && i < |states|
    ensures var s := states[i];
      && (forall t, u, a :: Holds(s, t, a) && Holds(s, u, a) ==> t == u)
      && (forall a :: a in s.pool && s.pool[a] == InUse <==> a in Leaked(states, acts, i) || exists t :: Holds(s, t, a))
      && s.pool.Keys == states[0].pool.Keys
  {
    RunKeepsInv(states, acts, i);
  }

  lemma {:induction false} LeakedGrows(states: seq<State>, acts: seq<Action>, i: nat, k: nat)
    requires i <= k <= |acts| < |states|
    ensures Leaked(states, acts, i) <= Leaked(states, acts, k)
  {
    if i < k { LeakedGrows(states, acts, i, k - 1); }
  }

  /** An address that leaked stays in use for good, and nobody is ever leased it again. */
  lemma LeakedForGood(states: seq<State>, acts: seq<Action>, i: nat, k: nat, a: Address)
    requires IsRun(states, acts) && i <= k < |states| && a in Leaked(states, acts, i)
    ensures a in states[k].pool && states[k].pool[a] == InUse && forall t :: !Holds(states[k], t, a)
  {
    RunKeepsInv(states, acts, k);
    LeakedGrows(states, acts, i, k);
  }

  predicate SignerOutside(pool: map<Address, Status>, act: Action) { act.Lease? ==> act.signer !in pool }

  ghost predicate SignersOutside(pool: map<Address, Status>, s: State) {
    forall t :: t in s.senders && s.senders[t].Sending? ==> s.senders[t].signer !in pool
  }

  /** With signers outside the pool nothing leaks, so the addresses in use are exactly those held. */
  lemma {:induction false} OutsideNeverLeaks(states: seq<State>, acts: seq<Action>, i: nat)
    requires IsRun(states, acts) && i < |states|
    requires forall j :: 0 <= j < |acts| ==> SignerOutside(states[0].pool, acts[j])
    ensures Leaked(states, acts, i) == {} && SignersOutside(states[0].pool, states[i])
  {
    if i > 0 {
      OutsideNeverLeaks(states, acts, i - 1);
      RunKeepsInv(states, acts, i - 1);
      assert SignerOutside(states[0].pool, acts[i - 1]);
      if ReturnsOwn(states[i - 1], acts[i - 1]) {
        assert Holds(states[i - 1], acts[i - 1].t, states[i - 1].senders[acts[i - 1].t].tx);
      }
    }
  }

  /** In every run, a sender that returns has given its address back, unless it was its signer's own: then it leaked. */
  lemma ReturnReleases(states: seq<State>, acts: seq<Action>, i: nat)
    requires IsRun(states, acts) && i < |acts| && acts[i].Return?
    ensures var sender := states[i].senders[acts[i].t];
      && sender.tx in states[i + 1].pool && states[i].pool[sender.tx] == InUse
      && (states[i + 1].pool[sender.tx] == Available <==> sender.tx != sender.signer)
      && (sender.tx in Leaked(states, acts, i + 1) <==> sender.tx == sender.signer)
  {
    RunKeepsInv(states, acts, i);
    assert Holds(states[i], acts[i].t, states[i].senders[acts[i].t].tx);
  }

  /** A leak takes one call: that of a sender whose own address is the only one in the pool. Then nothing is available. */
  lemma OwnAddressLeaks(root: Address) returns (states: seq<State>, acts: seq<Action>)
    requires root != ""
    ensures IsRun(states, acts) && |acts| == 2 && Leaked(states, acts, 2) == {root}
    ensures Enabled(states[2], Refused(0, root))
  {
    var s0 := State(map[root := Available], map[0 := Outside]);
    var s1 := Step(s0, Lease(0, root, root));
    states, acts := [s0, s1, Step(s1, Return(0))], [Lease(0, root, root), Return(0)];
    assert Leaked(states, acts, 1) == {};
  }
}
