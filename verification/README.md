# Ownership proxy — a Dafny model

This project models the decision logic of curvefi's ownership proxy. The proxy is a contract that forwards every
call to one fixed target. A call gets through if the caller holds the DAO role. It also gets through if the caller
holds a live, time-limited delegation and that delegation's external *checker* contract approves the call data.
The model also covers the three permission primitives the repository provides as checker back-ends:

- **Cooldown**: per namespace key, a `(start, duration)` slot used as a rate limiter.
- **Interval**: per namespace key, an inclusive range `[lb, ub]`.
- **Whitelist**: per namespace key, a set of addresses.

The contracts' own source (`contracts/proxy.vy`, `contracts/permissions/cooldown.vy`, `interval.vy`,
`whitelist.vy`) is not part of this model. Their behaviour is rebuilt from the repository's test suite, which
pins it down with exact revert strings and boundary cases. The source cells below therefore cite test lines.

Layout, one module per component:

| file | module | what it holds |
|---|---|---|
| `common.dfy` | `Common` | `uint128`/`uint256`/`address` bounds, `Status` (ok or revert reason), `Result<T>` |
| `access.dfy` | `Access` | the two roles (`DaoRole`, `EmergencyAdminRole`) and the missing-role check |
| `cooldown.dfy` | `Cooldown` | cooldown storage, `add`, `add_from_days`, `add_from_hours`, `check_and_reset` |
| `interval.dfy` | `Interval` | interval storage with a presence flag apart from the bounds, `add`, `add_singleton`, `check` |
| `whitelist.dfy` | `Whitelist` | `whitelist[key][addr]`, `add`, `add_multiple`, `remove`, `check` |
| `proxy.dfy` | `Proxy` | per-delegate registry, `set_delegation`, `kill_delegation`, `emergency_kill_delegation`, `__default__` |
| `legacy_proxy.dfy` | `LegacyProxy` | the earlier revision, keyed by `(selector, delegate)`, where a null checker means "no check" |

Each component follows the same pattern:

- A pure transition function `AfterX(state, args)` returns either `Success(new state)` or `Failure(reason)`. Its
  contract states when the call succeeds, which revert string it gives otherwise, and what the new state reads as.
- A class holds the storage as a `map` field. Its methods are written step by step like the tested behaviour: checks
  first, then one storage write.
- Each method's `ensures` ties it to the transition function. A revert returns `Reverted(reason)` and leaves the
  storage unchanged.
- Lemmas relate several calls to one another: add then check, add then remove, add then reset, grant then
  use then expire, kill then call.

Block time is a parameter `now`. Checker contracts are an abstract total function from (checker address, call
data) to `Approve` or `Deny(reason)`. The proxy records each checker invocation that took effect in
`checkerCalls`. A reverted call records nothing, because the revert also undoes the checker's own storage changes.

The tests settle which reason a never-added interval key gives
(tests/unitary/permissions/interval/test_interval_check.py:56-60): a reason of its own, "interval does not
exist", which the model follows.

The two gates differ in their order. The per-delegate gate lets a DAO role holder through before it looks at any
delegation. The legacy gate looks up the caller's `(selector, caller)` entry first: a live
entry decides the call through its checker even for a DAO role holder, and only a caller without a live entry
falls back to the role check. The legacy tests require this, since their deploying account both holds the DAO role
and has its calls checked.

## Model

| member | source | states |
|---|---|---|
| `Access.RequireRole` | tests/unitary/proxy/test_set_delegation.py:5-11 | passes iff the account holds the role; otherwise reverts with "access_control: account is missing role" |
| `Cooldown.AfterAdd` | tests/unitary/permissions/cooldown/test_internal_add.py:34-149 | succeeds iff 0 < d < 2^128 and (override or the key is unset); 0 gives "duration must be positive", any d ≥ 2^128 gives "duration too large", an existing key without override gives "cooldown already exists"; on success the key reads `(now, d)` (so 2^128-1 is stored exactly, and override resets start) and every other key, the all-zero key included, is unchanged |
| `Cooldown.AfterAddFromDays` | tests/unitary/permissions/cooldown/test_internal_add_from_days.py:27-106 | succeeds iff 1 ≤ n ≤ (2^128-1)//86400 = 2^128//86400 and (override or unset); n = 0 gives "duration must be positive", every larger n (so 2^128//86400 + 1) gives "duration too large"; on success the key reads `(now, n*86400)` |
| `Cooldown.AfterAddFromHours` | tests/unitary/permissions/cooldown/test_internal_add_from_hours.py:32-111 | the same with hours: succeeds iff 1 ≤ h ≤ (2^128-1)//3600 and (override or unset), stores `(now, h*3600)`, with the same three revert reasons |
| `Cooldown.AfterCheckAndReset` | tests/unitary/permissions/cooldown/test_internal_check_and_reset.py:31-157 | succeeds iff `start + duration <= now`, both at that instant and after it; otherwise "cooldown not expired" (also at start+duration-1); on success start becomes `now`, duration is kept, and other keys are unchanged |
| `Cooldown.ResetAll` | tests/unitary/permissions/cooldown/test_internal_check_and_reset.py:99-122 | a run of resets keeps the duration, ends with start = the last reset time, touches no other key, and can only fail with "cooldown not expired" |
| `Cooldown.AddThenReset` | tests/unitary/permissions/cooldown/test_internal_check_and_reset.py:31-83 | after a successful `add` at t0, a reset at t succeeds iff t ≥ t0 + d, and fails with "cooldown not expired" before that |
| `Cooldown.ResetUnsetKey` | tests/unitary/permissions/cooldown/test_internal_check_and_reset.py:86-96 | a reset on a key nothing has written succeeds and leaves `(now, 0)` |
| `Cooldown.ResetKeyStaysAddable` | tests/unitary/permissions/cooldown/test_internal_check_and_reset.py:86-96 | a key that only `check_and_reset` has touched holds no duration, so it does not exist and `add` without override succeeds on it |
| `Cooldown.ResetAgainFails` | tests/unitary/permissions/cooldown/test_internal_check_and_reset.py:99-118 | right after a successful reset of a positive cooldown, a second reset within the duration fails with "cooldown not expired" |
| `Cooldown.ResetsAreSpaced` | tests/unitary/permissions/cooldown/test_internal_check_and_reset.py:99-122 | across any run of successful resets each one comes at least one duration after the previous one, so with d > 0 the stored start strictly increases |
| `Cooldown.CooldownModule.constructor` | tests/unitary/permissions/cooldown/test_internal_add.py:13-31 | fresh storage: every key unset |
| `Cooldown.CooldownModule.Add` | tests/unitary/permissions/cooldown/test_internal_add.py:22-29 | returns the status of `AfterAdd` and leaves the storage it describes (unchanged on a revert) |
| `Cooldown.CooldownModule.AddFromDays` | tests/unitary/permissions/cooldown/test_internal_add_from_days.py:15-22 | returns the status of `AfterAddFromDays` and leaves the storage it describes |
| `Cooldown.CooldownModule.AddFromHours` | tests/unitary/permissions/cooldown/test_internal_add_from_hours.py:15-27 | returns the status of `AfterAddFromHours` and leaves the storage it describes |
| `Cooldown.CooldownModule.CheckAndReset` | tests/unitary/permissions/cooldown/test_internal_check_and_reset.py:15-26 | returns the status of `AfterCheckAndReset` and leaves the storage it describes |
| `Interval.Intervals` | tests/unitary/permissions/interval/test_interval_add.py:24-34 | the public getter `intervals(key)`: the stored `(lb, ub)` for an added key, and `(0, 0)` for a key never added |
| `Interval.AfterAdd` | tests/unitary/permissions/interval/test_interval_add.py:24-97 | succeeds iff lb ≤ ub and (override or the key is absent), over the whole uint256 range; lb > ub gives "inverted range: lb > ub", an existing key without override gives "interval already exists"; on success `intervals(key) == (lb, ub)`, the key becomes present, other keys are unchanged, and no stored interval is inverted |
| `Interval.AfterAddSingleton` | tests/permissions/interval/test_interval_add_singleton.py:30-134 | succeeds iff override or the key is absent, else "interval already exists"; afterwards `check(key, v)` passes for v == value alone and fails with "value out of interval" for every other v (v-1, v+1, the old value after an override, at 0 and 2^256-1 alike); the key becomes present, no other key is added, and every other key is unchanged |
| `Interval.Check` | tests/unitary/permissions/interval/test_interval_check.py:26-121 | a never-added key fails with "interval does not exist"; otherwise passes iff lb ≤ v ≤ ub (both inclusive) and fails with "value out of interval" |
| `Interval.AddThenCheck` | tests/unitary/permissions/interval/test_interval_check.py:26-53 | after `add(k, lb, ub)`, `check(k, v)` passes iff lb ≤ v ≤ ub, else "value out of interval"; every other key checks as before |
| `Interval.ZeroIntervalExists` | tests/unitary/permissions/interval/test_interval_check.py:56-73 | a stored `[0, 0]` reads the same bounds as a missing key, yet exists and admits exactly 0, while a missing key fails with "interval does not exist" |
| `Interval.FullRangeAdmitsAll` | tests/unitary/permissions/interval/test_interval_check.py:76-86 | `[0, 2^256-1]` admits every uint256 |
| `Interval.StoredIntervalsAreInhabited` | tests/unitary/permissions/interval/test_interval_check.py:56-73 | in a store of non-inverted intervals, a key is present iff some value passes its check |
| `Interval.IntervalModule.constructor` | tests/unitary/permissions/interval/test_interval_add.py:6-21 | fresh storage: no key present |
| `Interval.IntervalModule.Add` | tests/unitary/permissions/interval/test_interval_add.py:15-19 | returns the status of `AfterAdd`, leaves the storage it describes, and keeps every stored interval non-inverted |
| `Interval.IntervalModule.AddSingleton` | tests/permissions/interval/test_interval_add_singleton.py:16-25 | `add(key, value, value, override)`: returns the status of `AfterAddSingleton` and leaves the storage it describes |
| `Whitelist.AfterAdd` | tests/permissions/whitelist/test_whitelist_add.py:31-93 | succeeds iff override or the address is not yet a member, else "address already whitelisted"; afterwards exactly the old members plus `(key, addr)` are members (the zero address included) |
| `Whitelist.AfterAddAll` | tests/permissions/whitelist/test_whitelist_add.py:16-21 | adding a list one by one succeeds iff override, or the list has no duplicates and none of it is a member yet; the only failure is "address already whitelisted"; on success the members are the old ones plus the listed addresses under `key` |
| `Whitelist.AfterAddMultiple` | tests/permissions/whitelist/test_whitelist_add.py:40-105 | an empty list fails with "no addresses provided"; otherwise as `AfterAddAll`, so duplicates in one batch succeed with override, and every listed address becomes a member |
| `Whitelist.AfterRemove` | tests/unitary/permissions/whitelist/test_internal_remove.py:30-78 | succeeds iff the address is a member, else "address not whitelisted"; afterwards exactly that `(key, addr)` pair is no longer a member, so the same address under another key is untouched |
| `Whitelist.Check` | tests/unitary/permissions/whitelist/test_internal_check.py:25-69 | passes iff `(key, addr)` is a member, else "address not whitelisted" |
| `Whitelist.AddThenRemove` | tests/unitary/permissions/whitelist/test_internal_remove.py:30-40 | `remove` after a successful `add` succeeds, and `check` then fails with "address not whitelisted" |
| `Whitelist.RemoveTwiceFails` | tests/unitary/permissions/whitelist/test_internal_remove.py:51-61 | a second `remove` of the same address fails with "address not whitelisted" |
| `Whitelist.KeysAreIsolated` | tests/unitary/permissions/whitelist/test_internal_check.py:44-54 | adding under key1 leaves `check` under key2 answering as before |
| `Whitelist.AddAllStep` | tests/permissions/whitelist/test_whitelist_add.py:19-21 | adding a list reverts on its first address when that one is already a member without override, and otherwise continues from the store with that address added |
| `Whitelist.AddMultipleThenCheck` | tests/permissions/whitelist/test_whitelist_add.py:40-47 | after a successful `add_multiple`, `check` passes for every listed address |
| `Whitelist.WhitelistModule.constructor` | tests/permissions/whitelist/test_whitelist_add.py:6-28 | fresh storage: nobody is a member |
| `Whitelist.WhitelistModule.Add` | tests/permissions/whitelist/test_whitelist_add.py:15-17 | returns the status of `AfterAdd` and leaves the storage it describes |
| `Whitelist.WhitelistModule.AddMultiple` | tests/permissions/whitelist/test_whitelist_add.py:19-21 | loops over the list; returns the status of `AfterAddMultiple` and leaves its storage, so a revert part-way through the batch changes nothing |
| `Whitelist.WhitelistModule.Remove` | tests/unitary/permissions/whitelist/test_internal_remove.py:18-20 | returns the status of `AfterRemove` and leaves the storage it describes |
| `Proxy.Delegations` | tests/unitary/proxy/test_set_delegation.py:38-44 | the public getter `delegations(delegate)`: the stored `(end_ts, checker)`, and `(0, 0x0)` for a delegate never set |
| `Proxy.AfterSetDelegation` | tests/unitary/proxy/test_set_delegation.py:5-44 | succeeds iff the sender has the DAO role, delegate ≠ 0x0, end_ts > now, checker ≠ 0x0; the failures give, in that order, the missing-role error, "delegate==0x0", "end_ts<=block.timestamp", "checker==0x0"; on success `delegations(delegate) == (end_ts, checker)` whatever was there before, other delegates are unchanged, and the registry stays well formed |
| `Proxy.AfterKill` | tests/unitary/proxy/test_kill_delegation.py:5-147 | kill (DAO tier) or emergency kill (emergency-admin tier) succeeds iff the sender holds that tier's role, else the missing-role error; the delegate's entry becomes `(0, 0x0)` even if it never existed, other delegates are unchanged, and the selector selects nothing |
| `Proxy.ConsultedChecker` | tests/unitary/proxy/test__default__.py:8-24 | a checker is called iff the caller lacks the DAO role and its delegation is live (end_ts > now), and then it is the caller's own checker |
| `Proxy.Authorize` | tests/proxy/test_proxy__default__.py:5-186 | forwards iff the caller holds the DAO role, or its delegation is live and its checker approves; without the role, an absent or expired delegation gives the missing-role error, and a checker's denial gives the checker's own reason (such as "Checker denied") |
| `Proxy.CheckerEffects` | tests/unitary/proxy/test__default__.py:8-24 | a call leaves exactly one checker invocation (the caller's checker, with the call data) when a delegated call is forwarded, and none otherwise |
| `Proxy.OwnerBypass` | tests/proxy/test_proxy__default__.py:15-18 | a DAO caller is forwarded and no checker runs, whatever its delegation and checker would say |
| `Proxy.ExpiryBoundary` | tests/proxy/test_proxy__default__.py:160-186 | with an approving checker, forwarded at end_ts - 1 and refused with the missing-role error at end_ts |
| `Proxy.OnlyOwnCheckerMatters` | tests/unitary/proxy/test__default__.py:8-24 | the decision and the checker effects depend on no checker except the caller's own |
| `Proxy.GrantUseExpire` | tests/proxy/test_proxy__default__.py:40-55 | `set_delegation(d, now+1000, c)` by the DAO succeeds; d is forwarded at now+500 with one call to c, and refused at now+1001 although c approves |
| `Proxy.ConsultedCheckerIsNeverNull` | tests/unitary/proxy/test_set_delegation.py:31-35 | in a registry that only `set_delegation` and the kills have written, a checker the gate consults is never the null address and the null address never acts as a delegate |
| `Proxy.KillRevokes` | tests/unitary/proxy/test_kill_delegation.py:117-147 | after a kill, the delegate without the DAO role gets the missing-role error, and any other delegate is decided as before |
| `Proxy.OwnershipProxy.constructor` | tests/conftest.py:15-18 | deployment with a DAO address: that address holds the DAO role, no delegations, no checker calls |
| `Proxy.OwnershipProxy.SetDelegation` | tests/unitary/proxy/test_set_delegation.py:38-44 | returns the status of `AfterSetDelegation`, leaves its registry, and keeps the registry well formed |
| `Proxy.OwnershipProxy.KillDelegation` | tests/unitary/proxy/test_kill_delegation.py:5-53 | returns the status of `AfterKill` for the DAO tier and leaves its registry |
| `Proxy.OwnershipProxy.EmergencyKillDelegation` | tests/unitary/proxy/test_kill_delegation.py:56-91 | returns the status of `AfterKill` for the emergency-admin tier and leaves its registry |
| `Proxy.OwnershipProxy.Default` | tests/unitary/proxy/test__default__.py:3-31 | `__default__` returns the decision of `Authorize` and appends exactly the invocations of `CheckerEffects` to the checker log |
| `LegacyProxy.Delegations` | tests/proxy/test_proxy_set_delegation.py:22-26 | the public getter `delegations(selector, delegate)`: the stored `(end_ts, checker)`, and `(0, 0x0)` for a pair never set |
| `LegacyProxy.AfterSetDelegation` | tests/proxy/test_proxy_set_delegation.py:5-26 | succeeds iff DAO role, delegate ≠ 0x0 and end_ts > now, with a null checker allowed; reasons as in the per-delegate registry; on success `delegations(selector, delegate) == (end_ts, checker)` and every other pair is unchanged |
| `LegacyProxy.AfterKill` | tests/proxy/test_proxy_kill_delegation.py:6-132 | succeeds iff the sender holds the tier's role, else the missing-role error; empties exactly the `(selector, delegate)` pair, so `(sig1, d2)` and `(sig2, d1)` stay live |
| `LegacyProxy.EntryFor` | tests/proxy/test_proxy_default_with_checker.py:22-40 | for call data of at least four bytes the gate finds `delegations(data[:4], caller)`; shorter data finds no delegation |
| `LegacyProxy.ConsultedChecker` | tests/proxy/test_proxy_default_with_checker.py:109-154 | a checker is called iff the caller's entry under the call's selector is live and its checker is not null, whatever the caller's roles, and then it is that entry's checker, so another delegate's checker is never run |
| `LegacyProxy.Authorize` | tests/proxy/test_proxy_default_with_checker.py:22-106 | with a live entry, forwards iff its checker is null or approves, and a denial gives the checker's own reason (such as "Checker validation failed" or "Zero address not allowed"); without a live entry, forwards iff the caller holds the DAO role, else the missing-role error |
| `LegacyProxy.CheckerEffects` | tests/proxy/test_proxy_default_with_checker.py:22-40 | exactly one invocation of the entry's checker, with the call data, per forwarded call that consulted it, none otherwise |
| `LegacyProxy.DaoCallerStillChecked` | tests/proxy/test_proxy_default_with_checker.py:22-67 | for a caller with a live, checked entry, holding the DAO role changes neither the decision (the checker's verdict, its denial reason included) nor the checker invocation left behind |
| `LegacyProxy.SetThenCallConsults` | tests/proxy/test_proxy_default_with_checker.py:22-40 | after a successful `set_delegation(d, end, sel, c)` with a non-null `c`, a call from `d` whose data starts with `sel`, made before `end`, consults `c`, is decided by it and leaves one invocation of `c` when forwarded |
| `LegacyProxy.NullAddressNeverDelegated` | tests/proxy/test_proxy_set_delegation.py:12-14 | in a registry that only `set_delegation` and the kills have written, the null address never holds a live entry |
| `LegacyProxy.NullCheckerForwardsUntilEnd` | tests/proxy/test_proxy_access_control.py:139-167 | with a null checker the delegate is forwarded with no checker call before end_ts and gets the missing-role error from end_ts on |
| `LegacyProxy.ExpiredFallsBackToRole` | tests/proxy/test_proxy_access_control.py:30-57 | an expired delegation is refused with the missing-role error, and the same caller is forwarded once granted the DAO role |
| `LegacyProxy.PairsAreIsolated` | tests/proxy/test_proxy_kill_delegation.py:110-132 | a delegation set for one selector leaves the decision for call data with any other selector as it was |
| `LegacyProxy.KillLeavesOtherPairs` | tests/proxy/test_proxy_kill_delegation.py:110-132 | killing `(selector, delegate)` leaves the decision for every other caller, and for the same delegate on call data carrying another selector, as it was |
| `LegacyProxy.LegacyOwnershipProxy.constructor` | tests/proxy/test_proxy_set_delegation.py:5-26 | deployment: the deploying account holds the DAO role, no delegations, no checker calls |
| `LegacyProxy.LegacyOwnershipProxy.SetDelegation` | tests/proxy/test_proxy_set_delegation.py:22-26 | returns the status of the legacy `AfterSetDelegation` and leaves its registry, which stays well formed |
| `LegacyProxy.LegacyOwnershipProxy.KillDelegation` | tests/proxy/test_proxy_kill_delegation.py:6-50 | returns the status of the legacy `AfterKill` for the DAO tier and leaves its registry |
| `LegacyProxy.LegacyOwnershipProxy.EmergencyKillDelegation` | tests/proxy/test_proxy_kill_delegation.py:53-85 | returns the status of the legacy `AfterKill` for the emergency-admin tier and leaves its registry |
| `LegacyProxy.LegacyOwnershipProxy.Default` | tests/proxy/test_proxy_default_with_checker.py:22-154 | the legacy `__default__` returns the decision of the legacy `Authorize` and appends exactly its `CheckerEffects` to the checker log |

## Left out

- Forwarding is the abstract outcome `Forward`. The low-level call to the target is not modelled: forwarded ETH value, gas, return-data copying up to `MAX_OUTSIZE`, and relaying the target's own revert.
- A checker is an abstract verdict on the call data. Its code, the ETH value it receives, and its gas are not modelled. A checker with no default handler is any `Deny`.
- Reentrancy is not modelled. A checker that calls back into the proxy during the check depends on the nested-call graph.
- The access-control library is not part of this model. That covers `grantRole`, role administration and role ids. The proxy's role set is fixed at deployment, and the lemmas quantify over every role set instead.
- keccak256 key derivation is not modelled. Namespace keys are opaque `bytes32` values.
- `tests/test_call_forwarding.py` targets `contracts/ownership_proxy.vy` with restriction arrays. That file is not part of this model.
- Block time `now` is an unbounded natural number. Storing it into the `uint128` `start` field is not modelled.
- `start + duration` is computed without bound, so the model makes no overflow claim near the maximum duration.
- Existence of a cooldown key is taken to mean "stored duration ≠ 0". Only `add` stores a duration, and it never stores 0. So a key that only `check_and_reset` has touched still counts as absent, and `add` without override succeeds on it (`Cooldown.ResetKeyStaysAddable`). No test pins this case.
- Cooldown.AfterAddFromDays: when n×86400 does not even fit in 2^256, the model reports "duration too large". The tests do not show whether the contract gives that reason or an arithmetic-overflow revert.
- Cooldown.AfterAddFromHours: the same as for days, for h×3600 ≥ 2^256.
- Validation order when several checks fail at once is an assumption. The tests exercise one failure at a time. The model checks role, then delegate, then end time, then checker; for the cooldown, zero, then size, then existence; for the interval, inversion, then existence.
- The per-delegate gate lets a DAO role holder through before the delegation lookup. This is a modelling choice. No per-delegate test pins it: tests/proxy/test_proxy__default__.py:100-117 gives one account both the role and a delegation with an approving checker, and never counts checker calls. The legacy suite shows its gate checks the delegation first, and `LegacyProxy.Authorize` follows that.
- LegacyProxy.EntryFor: call data shorter than four bytes is taken to carry no selector. The tests do not show how the legacy gate treats it.
