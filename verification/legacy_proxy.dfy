/**
 * The earlier revision of the proxy, kept as a second configuration: delegations are keyed by
 * `(function selector, delegate)`, the gate looks up the selector carried by the call data, and
 * a null checker is allowed and means "no check beyond the expiry". Unlike the per-delegate gate,
 * the legacy gate looks up the delegation before the DAO role.
 */
module LegacyProxy {
  import opened Common
  import opened Access
  import P = Proxy

  /** `delegations: HashMap[bytes4, HashMap[address, Delegation]]`; absent pairs read as empty. */
  type Registry = map<(Bytes4, Address), P.Delegation>

  /** The public read accessor `delegations(selector, delegate) -> (end_ts, checker)`. */
  function Delegations(reg: Registry, selector: Bytes4, delegate: Address): (e: P.Delegation)
    ensures (selector, delegate) !in reg ==> e == P.Delegation(0, ZeroAddress)
    ensures (selector, delegate) in reg ==> e == reg[(selector, delegate)]
  {
    if (selector, delegate) in reg then reg[(selector, delegate)] else P.NoDelegation
  }

  /** The selector a call carries: its first four bytes, when it has that many. */
  function SelectorOf(data: Calldata): Option<Bytes4> {
    if |data| >= 4 then var selector: Bytes4 := data[..4]; Some(selector) else None
  }

  /** Every slot is empty, or holds a delegation to a non-null delegate that ends after time 0. */
  predicate WellFormed(reg: Registry) {
    forall p :: p in reg ==> reg[p] == P.NoDelegation || (p.1 != ZeroAddress && reg[p].endTs > 0)
  }

  /** Every pair other than `(selector, delegate)` reads the same in `t` as in `s`. */
  ghost predicate SameElsewhere(s: Registry, t: Registry, selector: Bytes4, delegate: Address) {
    forall sel: Bytes4, d: Address :: (sel, d) != (selector, delegate) ==> Delegations(t, sel, d) == Delegations(s, sel, d)
  }

  /** The registry after `set_delegation(delegate, end_ts, selector, checker)`; the checker may be null. */
  function AfterSetDelegation(roles: Roles, reg: Registry, sender: Address, delegate: Address,
                              endTs: Uint256, selector: Bytes4, checker: Address, now: nat): (r: Result<Registry>)
    ensures r.Success? <==> (DaoRole, sender) in roles && delegate != ZeroAddress && now < endTs
    ensures (DaoRole, sender) !in roles ==> r == Failure(MissingRole)
    ensures (DaoRole, sender) in roles && delegate == ZeroAddress ==> r == Failure(P.DelegateIsZero)
    ensures (DaoRole, sender) in roles && delegate != ZeroAddress && endTs <= now ==> r == Failure(P.EndNotInFuture)
    ensures r.Success? ==>
      Delegations(r.value, selector, delegate) == P.Delegation(endTs, checker)
      && SameElsewhere(reg, r.value, selector, delegate)
    ensures r.Success? && WellFormed(reg) ==> WellFormed(r.value)
  {
    if RequireRole(roles, DaoRole, sender).Reverted? then Failure(MissingRole)
    else if delegate == ZeroAddress then Failure(P.DelegateIsZero)
    else if endTs <= now then Failure(P.EndNotInFuture)
    else Success(reg[(selector, delegate) := P.Delegation(endTs, checker)])
  }

  /**
   * The registry after `kill_delegation(selector, delegate)` (tier `DaoRole`) or
   * `emergency_kill_delegation(selector, delegate)` (tier `EmergencyAdminRole`):
   * only the one `(selector, delegate)` slot is emptied.
   */
  function AfterKill(roles: Roles, reg: Registry, tier: Role, sender: Address,
                     selector: Bytes4, delegate: Address): (r: Result<Registry>)
    ensures r.Success? <==> (tier, sender) in roles
    ensures r.Failure? ==> r.reason == MissingRole
    ensures r.Success? ==>
      Delegations(r.value, selector, delegate) == P.NoDelegation && SameElsewhere(reg, r.value, selector, delegate)
    ensures r.Success? && WellFormed(reg) ==> WellFormed(r.value)
  {
    if RequireRole(roles, tier, sender).Reverted? then Failure(MissingRole)
    else Success(reg[(selector, delegate) := P.NoDelegation])
  }

  /** The delegation the gate finds for `caller` under the selector `data` carries. */
  function EntryFor(reg: Registry, caller: Address, data: Calldata): (e: P.Delegation)
    ensures |data| >= 4 ==> e == Delegations(reg, data[..4], caller)
    ensures |data| < 4 ==> e == P.NoDelegation
  {
    match SelectorOf(data)
    case None => P.NoDelegation
    case Some(selector) => Delegations(reg, selector, caller)
  }

  /**
   * The checker the legacy `__default__` calls, if any. The delegation is looked up first, so a
   * live entry with a non-null checker is consulted whether or not the caller holds the DAO role.
   */
  function ConsultedChecker(reg: Registry, caller: Address, data: Calldata, now: nat): (c: Option<Address>)
    ensures c.Some? <==> P.Live(EntryFor(reg, caller, data), now) && EntryFor(reg, caller, data).checker != ZeroAddress
    ensures c.Some? ==> c.value == EntryFor(reg, caller, data).checker
  {
    var e := EntryFor(reg, caller, data);
    if !P.Live(e, now) || e.checker == ZeroAddress then None
    else Some(e.checker)
  }

  /**
   * The decision the legacy `__default__` takes on a call from `caller` with `data` at time `now`:
   * a live entry decides (a null checker forwards, otherwise the checker's verdict), and only a
   * caller without a live entry falls back to the DAO role check.
   */
  function Authorize(roles: Roles, reg: Registry, caller: Address, data: Calldata, now: nat,
                     checkers: P.Checkers): (d: P.Decision)
    ensures d.Forward? <==>
      if P.Live(EntryFor(reg, caller, data), now) then
        EntryFor(reg, caller, data).checker == ZeroAddress
        || checkers(EntryFor(reg, caller, data).checker, data).Approve?
      else (DaoRole, caller) in roles
    ensures !P.Live(EntryFor(reg, caller, data), now) && d.Revert? ==> d.reason == MissingRole
    ensures ConsultedChecker(reg, caller, data, now).Some? && d.Revert? ==>
      checkers(EntryFor(reg, caller, data).checker, data) == P.Deny(d.reason)
  {
    var e := EntryFor(reg, caller, data);
    if !P.Live(e, now) then
      if RequireRole(roles, DaoRole, caller).Ok? then P.Forward else P.Revert(MissingRole)
    else if e.checker == ZeroAddress then P.Forward
    else
      match checkers(e.checker, data)
      case Approve => P.Forward
      case Deny(reason) => P.Revert(reason)
  }

  /** The checker invocations a call leaves behind: one when a checked delegated call is forwarded. */
  function CheckerEffects(roles: Roles, reg: Registry, caller: Address, data: Calldata, now: nat,
                          checkers: P.Checkers): (calls: seq<P.CheckerCall>)
    ensures |calls| <= 1
    ensures |calls| == 1 <==>
      ConsultedChecker(reg, caller, data, now).Some?
      && Authorize(roles, reg, caller, data, now, checkers).Forward?
    ensures |calls| == 1 ==> calls[0] == P.CheckerCall(EntryFor(reg, caller, data).checker, data)
  {
    match ConsultedChecker(reg, caller, data, now)
    case None => []
    case Some(checker) => if checkers(checker, data).Approve? then [P.CheckerCall(checker, data)] else []
  }

  /**
   * The DAO role does not bypass a live, checked delegation: holding the role or not, the caller
   * gets the checker's verdict and leaves the same checker invocation behind.
   */
  lemma DaoCallerStillChecked(roles: Roles, reg: Registry, caller: Address, data: Calldata, now: nat,
                              checkers: P.Checkers)
    requires ConsultedChecker(reg, caller, data, now).Some?
    ensures Authorize(roles + {(DaoRole, caller)}, reg, caller, data, now, checkers)
      == Authorize(roles - {(DaoRole, caller)}, reg, caller, data, now, checkers)
      == match checkers(EntryFor(reg, caller, data).checker, data)
         case Approve => P.Forward
         case Deny(reason) => P.Revert(reason)
    ensures CheckerEffects(roles + {(DaoRole, caller)}, reg, caller, data, now, checkers)
      == CheckerEffects(roles - {(DaoRole, caller)}, reg, caller, data, now, checkers)
  {
  }

  /**
   * A delegation set with a checker is consulted on the calls it covers: until the end time, a call
   * from the delegate whose data starts with the selector runs that checker, is decided by it, and
   * leaves one invocation of it behind when forwarded.
   */
  lemma SetThenCallConsults(roles: Roles, reg: Registry, sender: Address, delegate: Address, endTs: Uint256,
                            selector: Bytes4, checker: Address, now: nat, later: nat, data: Calldata,
                            checkers: P.Checkers)
    requires AfterSetDelegation(roles, reg, sender, delegate, endTs, selector, checker, now).Success?
    requires checker != ZeroAddress
    requires |data| >= 4 && data[..4] == selector
    requires later < endTs
    ensures var reg' := AfterSetDelegation(roles, reg, sender, delegate, endTs, selector, checker, now).value;
      ConsultedChecker(reg', delegate, data, later) == Some(checker)
      && Authorize(roles, reg', delegate, data, later, checkers)
         == (match checkers(checker, data) case Approve => P.Forward case Deny(reason) => P.Revert(reason))
      && CheckerEffects(roles, reg', delegate, data, later, checkers)
         == (if checkers(checker, data).Approve? then [P.CheckerCall(checker, data)] else [])
  {
  }

  /** In a well-formed registry the null address is never a live delegate, whatever the call data. */
  lemma NullAddressNeverDelegated(reg: Registry, data: Calldata, now: nat)
    requires WellFormed(reg)
    ensures !P.Live(EntryFor(reg, ZeroAddress, data), now)
  {
    if |data| >= 4 {
      var selector: Bytes4 := data[..4];
      if (selector, ZeroAddress) in reg {
        assert reg[(selector, ZeroAddress)] == P.NoDelegation;
      }
    }
  }

  /**
   * A null checker means no extra check: the delegate is forwarded, with no checker call,
   * until the end time, and refused with the missing-role error from the end time on.
   */
  lemma NullCheckerForwardsUntilEnd(roles: Roles, reg: Registry, caller: Address, data: Calldata,
                                    now: nat, checkers: P.Checkers)
    requires (DaoRole, caller) !in roles
    requires EntryFor(reg, caller, data).checker == ZeroAddress
    ensures Authorize(roles, reg, caller, data, now, checkers)
      == if now < EntryFor(reg, caller, data).endTs then P.Forward else P.Revert(MissingRole)
    ensures CheckerEffects(roles, reg, caller, data, now, checkers) == []
  {
  }

  /**
   * An expired delegation falls back to the role check: refused without the DAO role, and
   * forwarded once the same caller holds it.
   */
  lemma ExpiredFallsBackToRole(roles: Roles, reg: Registry, caller: Address, data: Calldata,
                               now: nat, checkers: P.Checkers)
    requires (DaoRole, caller) !in roles
    requires EntryFor(reg, caller, data).endTs <= now
    ensures Authorize(roles, reg, caller, data, now, checkers) == P.Revert(MissingRole)
    ensures Authorize(roles + {(DaoRole, caller)}, reg, caller, data, now, checkers) == P.Forward
  {
  }

  /**
   * A delegation covers one selector only: a delegate granted for `selector` gains nothing for
   * call data carrying a different selector.
   */
  lemma PairsAreIsolated(roles: Roles, reg: Registry, sender: Address, delegate: Address, endTs: Uint256,
                         selector: Bytes4, checker: Address, now: nat, data: Calldata, checkers: P.Checkers)
    requires AfterSetDelegation(roles, reg, sender, delegate, endTs, selector, checker, now).Success?
    requires SelectorOf(data) != Some(selector)
    ensures Authorize(roles, AfterSetDelegation(roles, reg, sender, delegate, endTs, selector, checker, now).value,
                      delegate, data, now, checkers) == Authorize(roles, reg, delegate, data, now, checkers)
  {
  }

  /**
   * Killing `(selector, delegate)` revokes that pair alone: every other caller, and the same delegate
   * on call data carrying another selector, is decided exactly as before, such as `(selector, other)`
   * and `(another selector, delegate)`.
   */
  lemma KillLeavesOtherPairs(roles: Roles, reg: Registry, tier: Role, sender: Address, selector: Bytes4,
                             delegate: Address, caller: Address, data: Calldata, now: nat, checkers: P.Checkers)
    requires AfterKill(roles, reg, tier, sender, selector, delegate).Success?
    requires caller != delegate || SelectorOf(data) != Some(selector)
    ensures Authorize(roles, AfterKill(roles, reg, tier, sender, selector, delegate).value, caller, data, now, checkers)
      == Authorize(roles, reg, caller, data, now, checkers)
  {
    var reg' := AfterKill(roles, reg, tier, sender, selector, delegate).value;
    if |data| >= 4 {
      var sel: Bytes4 := data[..4];
      assert SelectorOf(data) == Some(sel);
      assert EntryFor(reg', caller, data) == Delegations(reg', sel, caller) == Delegations(reg, sel, caller);
    }
  }

  /** The legacy proxy's storage: roles, the per-selector registry, and checker effects. */
  class LegacyOwnershipProxy {
    var roles: Roles
    var delegations: Registry
    /** The checker invocations that took effect, oldest first. */
    var checkerCalls: seq<P.CheckerCall>

    ghost predicate Valid()
      reads this
    {
      WellFormed(delegations)
    }

    /** Deployment: the deploying account receives the DAO role. */
    constructor (deployer: Address)
      ensures Valid()
      ensures roles == {(DaoRole, deployer)} && delegations == map[] && checkerCalls == []
    {
      roles := {(DaoRole, deployer)};
      delegations := map[];
      checkerCalls := [];
    }

    method SetDelegation(sender: Address, delegate: Address, endTs: Uint256, selector: Bytes4,
                         checker: Address, now: nat) returns (status: Status)
      requires Valid()
      modifies this`delegations
      ensures Valid()
      ensures status ==
        AfterSetDelegation(roles, old(delegations), sender, delegate, endTs, selector, checker, now).ToStatus()
      ensures delegations == Commit(old(delegations),
        AfterSetDelegation(roles, old(delegations), sender, delegate, endTs, selector, checker, now))
    {
      status := RequireRole(roles, DaoRole, sender);
      if status.Reverted? {
        return;
      }
      if delegate == ZeroAddress {
        return Reverted(P.DelegateIsZero);
      }
      if endTs <= now {
        return Reverted(P.EndNotInFuture);
      }
      delegations := delegations[(selector, delegate) := P.Delegation(endTs, checker)];
    }

    method KillDelegation(sender: Address, selector: Bytes4, delegate: Address) returns (status: Status)
      requires Valid()
      modifies this`delegations
      ensures Valid()
      ensures status == AfterKill(roles, old(delegations), DaoRole, sender, selector, delegate).ToStatus()
      ensures delegations ==
        Commit(old(delegations), AfterKill(roles, old(delegations), DaoRole, sender, selector, delegate))
    {
      status := RequireRole(roles, DaoRole, sender);
      if status.Ok? {
        delegations := delegations[(selector, delegate) := P.NoDelegation];
      }
    }

    method EmergencyKillDelegation(sender: Address, selector: Bytes4, delegate: Address) returns (status: Status)
      requires Valid()
      modifies this`delegations
      ensures Valid()
      ensures status == AfterKill(roles, old(delegations), EmergencyAdminRole, sender, selector, delegate).ToStatus()
      ensures delegations ==
        Commit(old(delegations), AfterKill(roles, old(delegations), EmergencyAdminRole, sender, selector, delegate))
    {
      status := RequireRole(roles, EmergencyAdminRole, sender);
      if status.Ok? {
        delegations := delegations[(selector, delegate) := P.NoDelegation];
      }
    }

    /** The legacy `__default__`: look up `(selector, caller)` first, then fall back to the DAO role. */
    method Default(caller: Address, data: Calldata, now: nat, checkers: P.Checkers) returns (d: P.Decision)
      requires Valid()
      modifies this`checkerCalls
      ensures d == Authorize(roles, delegations, caller, data, now, checkers)
      ensures checkerCalls == old(checkerCalls) + CheckerEffects(roles, delegations, caller, data, now, checkers)
    {
      var e := EntryFor(delegations, caller, data);
      if e.endTs <= now {
        var status := RequireRole(roles, DaoRole, caller);
        return if status.Ok? then P.Forward else P.Revert(MissingRole);
      }
      if e.checker == ZeroAddress {
        return P.Forward;
      }
      match checkers(e.checker, data)
      case Deny(reason) =>
        d := P.Revert(reason);
      case Approve =>
        checkerCalls := checkerCalls + [P.CheckerCall(e.checker, data)];
        d := P.Forward;
    }
  }
}
