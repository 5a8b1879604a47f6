/**
 * The ownership proxy: a registry of time-limited delegations, one slot per delegate, and the
 * `__default__` gate that decides whether an inbound call is forwarded to the fixed target.
 * A DAO role holder is always forwarded; anyone else needs a live delegation whose checker
 * approves the call data, and otherwise gets the access-control library's missing-role error.
 */
module Proxy {
  import opened Common
  import opened Access

  const DelegateIsZero := "delegate==0x0"
  const EndNotInFuture := "end_ts<=block.timestamp"
  const CheckerIsZero := "checker==0x0"

  /** A delegation: the delegate may use the proxy while `now < endTs`, subject to `checker`. */
  datatype Delegation = Delegation(endTs: Uint256, checker: Address)

  /** The empty slot: never set, or killed. */
  const NoDelegation := Delegation(0, ZeroAddress)

  /** `delegations: HashMap[address, Delegation]`; an absent delegate reads as `NoDelegation`. */
  type Registry = map<Address, Delegation>

  /** The public read accessor `delegations(delegate) -> (end_ts, checker)`. */
  function Delegations(reg: Registry, delegate: Address): (e: Delegation)
    ensures delegate !in reg ==> e == Delegation(0, ZeroAddress)
    ensures delegate in reg ==> e == reg[delegate]
  {
    if delegate in reg then reg[delegate] else NoDelegation
  }

  /** Expiry is strict: a delegation ending at `endTs` is already dead at time `endTs`. */
  predicate Live(e: Delegation, now: nat) {
    now < e.endTs
  }

  /** Every slot is empty, or holds a delegation to a non-null delegate with a non-null checker. */
  predicate WellFormed(reg: Registry) {
    forall d :: d in reg ==>
      reg[d] == NoDelegation || (d != ZeroAddress && reg[d].endTs > 0 && reg[d].checker != ZeroAddress)
  }

  /** Every delegate other than `delegate` reads the same in `t` as in `s`. */
  predicate SameElsewhere(s: Registry, t: Registry, delegate: Address) {
    forall d :: d != delegate ==> Delegations(t, d) == Delegations(s, d)
  }

  /** The registry after `set_delegation(delegate, end_ts, checker)` sent by `sender` at time `now`. */
  function AfterSetDelegation(roles: Roles, reg: Registry, sender: Address, delegate: Address,
                              endTs: Uint256, checker: Address, now: nat): (r: Result<Registry>)
    ensures r.Success? <==>
      (DaoRole, sender) in roles && delegate != ZeroAddress && now < endTs && checker != ZeroAddress
    ensures (DaoRole, sender) !in roles ==> r == Failure(MissingRole)
    ensures (DaoRole, sender) in roles && delegate == ZeroAddress ==> r == Failure(DelegateIsZero)
    ensures (DaoRole, sender) in roles && delegate != ZeroAddress && endTs <= now ==>
      r == Failure(EndNotInFuture)
    ensures (DaoRole, sender) in roles && delegate != ZeroAddress && now < endTs && checker == ZeroAddress ==>
      r == Failure(CheckerIsZero)
    ensures r.Success? ==>
      Delegations(r.value, delegate) == Delegation(endTs, checker) && SameElsewhere(reg, r.value, delegate)
    ensures r.Success? && WellFormed(reg) ==> WellFormed(r.value)
  {
    if RequireRole(roles, DaoRole, sender).Reverted? then Failure(MissingRole)
    else if delegate == ZeroAddress then Failure(DelegateIsZero)
    else if endTs <= now then Failure(EndNotInFuture)
    else if checker == ZeroAddress then Failure(CheckerIsZero)
    else Success(reg[delegate := Delegation(endTs, checker)])
  }

  /**
   * The registry after `kill_delegation(selector, delegate)` (tier `DaoRole`) or
   * `emergency_kill_delegation(selector, delegate)` (tier `EmergencyAdminRole`).
   * The selector is kept for the interface only and selects nothing.
   */
  function AfterKill(roles: Roles, reg: Registry, tier: Role, sender: Address,
                     selector: Bytes4, delegate: Address): (r: Result<Registry>)
    ensures r.Success? <==> (tier, sender) in roles
    ensures r.Failure? ==> r.reason == MissingRole
    ensures r.Success? ==>
      Delegations(r.value, delegate) == NoDelegation && SameElsewhere(reg, r.value, delegate)
    ensures r.Success? && WellFormed(reg) ==> WellFormed(r.value)
  {
    if RequireRole(roles, tier, sender).Reverted? then Failure(MissingRole)
    else Success(reg[delegate := NoDelegation])
  }

  /** What a checker contract does with the call data: return normally, or revert with a reason. */
  datatype Verdict = Approve | Deny(reason: string)

  /** The verdict of the checker deployed at an address on given call data. */
  type Checkers = (Address, Calldata) -> Verdict

  /** The gate's outcome: forward to the target, or revert with a reason. */
  datatype Decision = Forward | Revert(reason: string)

  /** One invocation of a checker that took effect (a reverted call leaves none behind). */
  datatype CheckerCall = CheckerCall(checker: Address, data: Calldata)

  /** The checker `__default__` calls for `caller` at time `now`, if it calls one at all. */
  function ConsultedChecker(roles: Roles, reg: Registry, caller: Address, now: nat): (c: Option<Address>)
    ensures c.Some? <==> (DaoRole, caller) !in roles && Live(Delegations(reg, caller), now)
    ensures c.Some? ==> c.value == Delegations(reg, caller).checker
  {
    if (DaoRole, caller) in roles then None
    else if Live(Delegations(reg, caller), now) then Some(Delegations(reg, caller).checker)
    else None
  }

  /** The decision `__default__` takes on a call from `caller` with `data` at time `now`. */
  function Authorize(roles: Roles, reg: Registry, caller: Address, data: Calldata, now: nat,
                     checkers: Checkers): (d: Decision)
    ensures d.Forward? <==>
      (DaoRole, caller) in roles
      || (Live(Delegations(reg, caller), now) && checkers(Delegations(reg, caller).checker, data).Approve?)
    ensures (DaoRole, caller) !in roles && !Live(Delegations(reg, caller), now) ==> d == Revert(MissingRole)
    ensures ConsultedChecker(roles, reg, caller, now).Some? && d.Revert? ==>
      checkers(Delegations(reg, caller).checker, data) == Deny(d.reason)
  {
    match ConsultedChecker(roles, reg, caller, now)
    case None => if (DaoRole, caller) in roles then Forward else Revert(MissingRole)
    case Some(checker) =>
      match checkers(checker, data)
      case Approve => Forward
      case Deny(reason) => Revert(reason)
  }

  /** The checker invocations a call leaves behind: one when a delegated call is forwarded. */
  function CheckerEffects(roles: Roles, reg: Registry, caller: Address, data: Calldata, now: nat,
                          checkers: Checkers): (calls: seq<CheckerCall>)
    ensures |calls| <= 1
    ensures |calls| == 1 <==>
      ConsultedChecker(roles, reg, caller, now).Some? && Authorize(roles, reg, caller, data, now, checkers).Forward?
    ensures |calls| == 1 ==> calls[0] == CheckerCall(Delegations(reg, caller).checker, data)
  {
    match ConsultedChecker(roles, reg, caller, now)
    case None => []
    case Some(checker) => if checkers(checker, data).Approve? then [CheckerCall(checker, data)] else []
  }

  /**
   * The DAO tier takes precedence over any delegation: the call is forwarded and no checker runs,
   * even when the caller also holds a live delegation whose checker would deny it.
   */
  lemma OwnerBypass(roles: Roles, reg: Registry, caller: Address, data: Calldata, now: nat,
                    checkers: Checkers)
    requires (DaoRole, caller) in roles
    ensures Authorize(roles, reg, caller, data, now, checkers) == Forward
    ensures CheckerEffects(roles, reg, caller, data, now, checkers) == []
  {
  }

  /**
   * The expiry boundary: a delegation ending at `endTs` whose checker approves forwards one
   * second before `endTs` and is refused with the missing-role error at `endTs` itself.
   */
  lemma ExpiryBoundary(roles: Roles, reg: Registry, caller: Address, data: Calldata,
                       checkers: Checkers)
    requires (DaoRole, caller) !in roles
    requires Delegations(reg, caller).endTs > 0
    requires checkers(Delegations(reg, caller).checker, data) == Approve
    ensures Authorize(roles, reg, caller, data, Delegations(reg, caller).endTs - 1, checkers) == Forward
    ensures Authorize(roles, reg, caller, data, Delegations(reg, caller).endTs, checkers) == Revert(MissingRole)
  {
  }

  /** Only the caller's own checker is consulted: checkers elsewhere cannot change the decision. */
  lemma OnlyOwnCheckerMatters(roles: Roles, reg: Registry, caller: Address, data: Calldata, now: nat,
                              checkers1: Checkers, checkers2: Checkers)
    requires checkers1(Delegations(reg, caller).checker, data) == checkers2(Delegations(reg, caller).checker, data)
    ensures Authorize(roles, reg, caller, data, now, checkers1) == Authorize(roles, reg, caller, data, now, checkers2)
    ensures CheckerEffects(roles, reg, caller, data, now, checkers1)
      == CheckerEffects(roles, reg, caller, data, now, checkers2)
  {
  }

  /**
   * Grant, use, expire: a delegate granted until `now + 1000` with an approving checker is
   * forwarded (one checker call) at `now + 500`, and refused at `now + 1001` although the
   * checker would still approve.
   */
  lemma GrantUseExpire(roles: Roles, reg: Registry, dao: Address, delegate: Address, checker: Address,
                       data: Calldata, now: nat, checkers: Checkers)
    requires (DaoRole, dao) in roles && (DaoRole, delegate) !in roles
    requires delegate != ZeroAddress && checker != ZeroAddress && now + 1000 < U256
    requires checkers(checker, data) == Approve
    ensures AfterSetDelegation(roles, reg, dao, delegate, now + 1000, checker, now).Success?
    ensures Authorize(roles, AfterSetDelegation(roles, reg, dao, delegate, now + 1000, checker, now).value,
                      delegate, data, now + 500, checkers) == Forward
    ensures CheckerEffects(roles, AfterSetDelegation(roles, reg, dao, delegate, now + 1000, checker, now).value,
                           delegate, data, now + 500, checkers) == [CheckerCall(checker, data)]
    ensures Authorize(roles, AfterSetDelegation(roles, reg, dao, delegate, now + 1000, checker, now).value,
                      delegate, data, now + 1001, checkers) == Revert(MissingRole)
  {
  }

  /**
   * A killed delegation grants nothing: afterwards the delegate, without the DAO role, is
   * refused with the missing-role error whatever its checker would say, while every other
   * delegate is decided as before.
   */
  lemma KillRevokes(roles: Roles, reg: Registry, tier: Role, sender: Address, selector: Bytes4,
                    delegate: Address, other: Address, data: Calldata, now: nat, checkers: Checkers)
    requires AfterKill(roles, reg, tier, sender, selector, delegate).Success?
    requires (DaoRole, delegate) !in roles
    requires other != delegate
    ensures Authorize(roles, AfterKill(roles, reg, tier, sender, selector, delegate).value,
                      delegate, data, now, checkers) == Revert(MissingRole)
    ensures Authorize(roles, AfterKill(roles, reg, tier, sender, selector, delegate).value,
                      other, data, now, checkers) == Authorize(roles, reg, other, data, now, checkers)
  {
  }

  /**
   * What a well-formed registry buys the gate: a checker it consults is never the null address,
   * and the null address never acts as a delegate.
   */
  lemma ConsultedCheckerIsNeverNull(roles: Roles, reg: Registry, caller: Address, now: nat)
    requires WellFormed(reg)
    ensures ConsultedChecker(roles, reg, caller, now).Some? ==>
      ConsultedChecker(roles, reg, caller, now).value != ZeroAddress && caller != ZeroAddress
  {
    if caller in reg {
      assert reg[caller] == NoDelegation || reg[caller].checker != ZeroAddress;
    }
  }

  /** The proxy contract's storage: the access-control roles, the registry, and checker effects. */
  class OwnershipProxy {
    var roles: Roles
    var delegations: Registry
    /** The checker invocations that took effect, oldest first. */
    var checkerCalls: seq<CheckerCall>

    ghost predicate Valid()
      reads this
    {
      WellFormed(delegations)
    }

    /** Deployment with a DAO address, which receives the DAO role. */
    constructor (dao: Address)
      ensures Valid()
      ensures roles == {(DaoRole, dao)} && delegations == map[] && checkerCalls == []
    {
      roles := {(DaoRole, dao)};
      delegations := map[];
      checkerCalls := [];
    }

    method SetDelegation(sender: Address, delegate: Address, endTs: Uint256, checker: Address, now: nat)
      returns (status: Status)
      requires Valid()
      modifies this`delegations
      ensures Valid()
      ensures status == AfterSetDelegation(roles, old(delegations), sender, delegate, endTs, checker, now).ToStatus()
      ensures delegations ==
        Commit(old(delegations), AfterSetDelegation(roles, old(delegations), sender, delegate, endTs, checker, now))
    {
      status := RequireRole(roles, DaoRole, sender);
      if status.Reverted? {
        return;
      }
      if delegate == ZeroAddress {
        return Reverted(DelegateIsZero);
      }
      if endTs <= now {
        return Reverted(EndNotInFuture);
      }
      if checker == ZeroAddress {
        return Reverted(CheckerIsZero);
      }
      delegations := delegations[delegate := Delegation(endTs, checker)];
    }

    method KillDelegation(sender: Address, selector: Bytes4, delegate: Address) returns (status: Status)
      requires Valid()
      modifies this`delegations
      ensures Valid()
      ensures status == AfterKill(roles, old(delegations), DaoRole, sender, selector, delegate).ToStatus()
      ensures delegations ==
        Commit(old(delegations), AfterKill(roles, old(delegations), DaoRole, sender, selector, delegate))
    {
      status := RequireRole(roles, DaoRole, sender);
      if status.Ok? {
        delegations := delegations[delegate := NoDelegation];
      }
    }

    method EmergencyKillDelegation(sender: Address, selector: Bytes4, delegate: Address) returns (status: Status)
      requires Valid()
      modifies this`delegations
      ensures Valid()
      ensures status == AfterKill(roles, old(delegations), EmergencyAdminRole, sender, selector, delegate).ToStatus()
      ensures delegations ==
        Commit(old(delegations), AfterKill(roles, old(delegations), EmergencyAdminRole, sender, selector, delegate))
    {
      status := RequireRole(roles, EmergencyAdminRole, sender);
      if status.Ok? {
        delegations := delegations[delegate := NoDelegation];
      }
    }

    /** `__default__`: decide, consult the caller's checker when needed, and forward or revert. */
    method Default(caller: Address, data: Calldata, now: nat, checkers: Checkers) returns (d: Decision)
      requires Valid()
      modifies this`checkerCalls
      ensures d == Authorize(roles, delegations, caller, data, now, checkers)
      ensures checkerCalls == old(checkerCalls) + CheckerEffects(roles, delegations, caller, data, now, checkers)
    {
      if (DaoRole, caller) in roles {
        return Forward;
      }
      var e := Delegations(delegations, caller);
      if e.endTs <= now {
        return Revert(MissingRole);
      }
      match checkers(e.checker, data)
      case Deny(reason) =>
        d := Revert(reason);
      case Approve =>
        checkerCalls := checkerCalls + [CheckerCall(e.checker, data)];
        d := Forward;
    }
  }
}
