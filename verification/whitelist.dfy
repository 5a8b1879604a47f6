/**
 * The whitelist permission primitive: a set of addresses per namespace key, stored as the
 * boolean mapping `whitelist[key][address]`.
 */
module Whitelist {
  import opened Common

  const AlreadyWhitelisted := "address already whitelisted"
  const NotWhitelisted := "address not whitelisted"
  const NoAddresses := "no addresses provided"

  /** `whitelist: HashMap[bytes32, HashMap[address, bool]]`; an absent pair reads as false. */
  type Store = map<(Key, Address), bool>

  predicate Member(s: Store, key: Key, addr: Address) {
    (key, addr) in s && s[(key, addr)]
  }

  /** No address occurs twice in the list. */
  predicate Distinct(addrs: seq<Address>) {
    forall i, j :: 0 <= i < j < |addrs| ==> addrs[i] != addrs[j]
  }

  /** None of the listed addresses is already a member under `key`. */
  predicate AllFresh(s: Store, key: Key, addrs: seq<Address>) {
    forall i :: 0 <= i < |addrs| ==> !Member(s, key, addrs[i])
  }

  /** The store after `add(key, addr, override)`, or the revert reason. */
  function AfterAdd(s: Store, key: Key, addr: Address, override: bool): (r: Result<Store>)
    ensures r.Success? <==> override || !Member(s, key, addr)
    ensures r.Failure? ==> r.reason == AlreadyWhitelisted
    ensures r.Success? ==> forall k: Key, a: Address :: Member(r.value, k, a) <==> Member(s, k, a) || (k, a) == (key, addr)
  {
    if !override && Member(s, key, addr) then Failure(AlreadyWhitelisted)
    else Success(s[(key, addr) := true])
  }

  /** `add` applied to each address in turn; the first revert aborts the whole batch. */
  function AfterAddAll(s: Store, key: Key, addrs: seq<Address>, override: bool): (r: Result<Store>)
    ensures r.Success? <==> override || (Distinct(addrs) && AllFresh(s, key, addrs))
    ensures r.Failure? ==> r.reason == AlreadyWhitelisted
    ensures r.Success? ==> forall k: Key, a: Address :: Member(r.value, k, a) <==> Member(s, k, a) || (k == key && a in addrs)
    decreases |addrs|
  {
    if addrs == [] then Success(s)
    else
      match AfterAdd(s, key, addrs[0], override)
      case Failure(reason) => Failure(reason)
      case Success(next) =>
        var r := AfterAddAll(next, key, addrs[1..], override);
        assert forall a :: a in addrs <==> a == addrs[0] || a in addrs[1..];
        assert !override && r.Success? ==> Distinct(addrs) && AllFresh(s, key, addrs) by {
          if !override && r.Success? {
            assert forall i :: 0 < i < |addrs| ==> addrs[i] == addrs[1..][i - 1];
          }
        }
        assert !override && Distinct(addrs) && AllFresh(s, key, addrs) ==>
            Distinct(addrs[1..]) && AllFresh(next, key, addrs[1..]) by {
          if !override && Distinct(addrs) && AllFresh(s, key, addrs) {
            assert forall i :: 0 <= i < |addrs| - 1 ==> addrs[1..][i] == addrs[i + 1];
          }
        }
        r
  }

  /** One step of `AfterAddAll`: the first address is added, then the rest of the list. */
  lemma AddAllStep(s: Store, key: Key, addrs: seq<Address>, override: bool)
    requires addrs != []
    ensures AfterAddAll(s, key, addrs, override)
      == if !override && Member(s, key, addrs[0]) then Failure(AlreadyWhitelisted)
         else AfterAddAll(s[(key, addrs[0]) := true], key, addrs[1..], override)
  {
  }

  /** The store after `add_multiple(key, addrs, override)`, or the revert reason. */
  function AfterAddMultiple(s: Store, key: Key, addrs: seq<Address>, override: bool): (r: Result<Store>)
    ensures r.Success? <==> |addrs| > 0 && (override || (Distinct(addrs) && AllFresh(s, key, addrs)))
    ensures addrs == [] ==> r == Failure(NoAddresses)
    ensures addrs != [] && r.Failure? ==> r.reason == AlreadyWhitelisted
    ensures r.Success? ==> forall k: Key, a: Address :: Member(r.value, k, a) <==> Member(s, k, a) || (k == key && a in addrs)
  {
    if |addrs| == 0 then Failure(NoAddresses) else AfterAddAll(s, key, addrs, override)
  }

  /** The store after `remove(key, addr)`, or the revert reason. */
  function AfterRemove(s: Store, key: Key, addr: Address): (r: Result<Store>)
    ensures r.Success? <==> Member(s, key, addr)
    ensures r.Failure? ==> r.reason == NotWhitelisted
    ensures r.Success? ==> forall k: Key, a: Address :: Member(r.value, k, a) <==> Member(s, k, a) && (k, a) != (key, addr)
  {
    if !Member(s, key, addr) then Failure(NotWhitelisted)
    else Success(s[(key, addr) := false])
  }

  /** `check(key, addr)`: passes iff the address is a member under that key. */
  function Check(s: Store, key: Key, addr: Address): (r: Status)
    ensures r.Ok? <==> Member(s, key, addr)
    ensures r.Reverted? ==> r.reason == NotWhitelisted
  {
    if Member(s, key, addr) then Ok else Reverted(NotWhitelisted)
  }

  /** `remove` undoes `add`: after both, the address is no longer a member and `check` fails. */
  lemma AddThenRemove(s: Store, key: Key, addr: Address, override: bool)
    requires AfterAdd(s, key, addr, override).Success?
    ensures AfterRemove(AfterAdd(s, key, addr, override).value, key, addr).Success?
    ensures Check(AfterRemove(AfterAdd(s, key, addr, override).value, key, addr).value, key, addr)
      == Reverted(NotWhitelisted)
  {
  }

  /** A second `remove` of the same address reverts. */
  lemma RemoveTwiceFails(s: Store, key: Key, addr: Address)
    requires AfterRemove(s, key, addr).Success?
    ensures AfterRemove(AfterRemove(s, key, addr).value, key, addr) == Failure(NotWhitelisted)
  {
  }

  /** Membership is per key: adding under one key never makes `check` pass under another. */
  lemma KeysAreIsolated(s: Store, key1: Key, key2: Key, addr: Address, override: bool)
    requires key1 != key2
    requires AfterAdd(s, key1, addr, override).Success?
    ensures Check(AfterAdd(s, key1, addr, override).value, key2, addr) == Check(s, key2, addr)
  {
  }

  /** A successful `add_multiple` makes every listed address pass `check`. */
  lemma AddMultipleThenCheck(s: Store, key: Key, addrs: seq<Address>, override: bool, i: nat)
    requires AfterAddMultiple(s, key, addrs, override).Success?
    requires i < |addrs|
    ensures Check(AfterAddMultiple(s, key, addrs, override).value, key, addrs[i]) == Ok
  {
  }

  /** The whitelist storage of a contract that `initializes: whitelist`. */
  class WhitelistModule {
    var whitelist: Store

    constructor ()
      ensures whitelist == map[]
    {
      whitelist := map[];
    }

    method Add(key: Key, addr: Address, override: bool) returns (status: Status)
      modifies this
      ensures status == AfterAdd(old(whitelist), key, addr, override).ToStatus()
      ensures whitelist == Commit(old(whitelist), AfterAdd(old(whitelist), key, addr, override))
    {
      if !override && Member(whitelist, key, addr) {
        return Reverted(AlreadyWhitelisted);
      }
      whitelist := whitelist[(key, addr) := true];
      status := Ok;
    }

    /** Adds the addresses one by one; a revert part-way leaves the storage as it was. */
    method AddMultiple(key: Key, addrs: seq<Address>, override: bool) returns (status: Status)
      modifies this
      ensures status == AfterAddMultiple(old(whitelist), key, addrs, override).ToStatus()
      ensures whitelist == Commit(old(whitelist), AfterAddMultiple(old(whitelist), key, addrs, override))
    {
      if |addrs| == 0 {
        return Reverted(NoAddresses);
      }
      var pending := whitelist;
      var i := 0;
      while i < |addrs|
        invariant 0 <= i <= |addrs|
        invariant whitelist == old(whitelist)
        invariant AfterAddAll(whitelist, key, addrs, override) == AfterAddAll(pending, key, addrs[i..], override)
      {
        AddAllStep(pending, key, addrs[i..], override);
        assert addrs[i..][0] == addrs[i] && addrs[i..][1..] == addrs[i + 1..];
        if !override && Member(pending, key, addrs[i]) {
          assert AfterAddMultiple(whitelist, key, addrs, override) == Failure(AlreadyWhitelisted);
          return Reverted(AlreadyWhitelisted);
        }
        pending := pending[(key, addrs[i]) := true];
        i := i + 1;
      }
      whitelist := pending;
      status := Ok;
    }

    method Remove(key: Key, addr: Address) returns (status: Status)
      modifies this
      ensures status == AfterRemove(old(whitelist), key, addr).ToStatus()
      ensures whitelist == Commit(old(whitelist), AfterRemove(old(whitelist), key, addr))
    {
      if !Member(whitelist, key, addr) {
        return Reverted(NotWhitelisted);
      }
      whitelist := whitelist[(key, addr) := false];
      status := Ok;
    }
  }
}
