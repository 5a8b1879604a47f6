/**
 * The cooldown permission primitive: a single-slot rate limiter per namespace key.
 * Each key holds `(start, duration)`; the cooldown has run out once `now >= start + duration`,
 * and `check_and_reset` then re-arms it from `now`.
 */
module Cooldown {
  import opened Common

  const SecondsPerHour: nat := 3600
  const SecondsPerDay: nat := 86400

  /** The largest day count whose length in seconds still fits in a `uint128`. */
  const MaxDays: nat := (U128 - 1) / SecondsPerDay
  /** The largest hour count whose length in seconds still fits in a `uint128`. */
  const MaxHours: nat := (U128 - 1) / SecondsPerHour

  const DurationNotPositive := "duration must be positive"
  const DurationTooLarge := "duration too large"
  const CooldownExists := "cooldown already exists"
  const CooldownNotExpired := "cooldown not expired"

  datatype Entry = Entry(start: nat, duration: nat)

  /** What storage holds for a key nothing has written. */
  const Unset := Entry(0, 0)

  /** `cooldowns: HashMap[bytes32, Cooldown]`; a key not in the map reads as `Unset`. */
  type Store = map<Key, Entry>

  function Get(s: Store, key: Key): Entry {
    if key in s then s[key] else Unset
  }

  /** A key was set up by `add`: only `add` stores a duration, and it never stores 0. */
  predicate Exists(s: Store, key: Key) {
    Get(s, key).duration != 0
  }

  predicate Expired(e: Entry, now: nat) {
    e.start + e.duration <= now
  }

  /** Every key other than `key` reads the same in `t` as in `s`. */
  predicate SameElsewhere(s: Store, t: Store, key: Key) {
    forall k :: k != key ==> Get(t, k) == Get(s, k)
  }

  /** The store after `add(key, duration, override)` at block time `now`, or the revert reason. */
  function AfterAdd(s: Store, key: Key, duration: nat, override: bool, now: nat): (r: Result<Store>)
    ensures r.Success? <==> 0 < duration < U128 && (override || !Exists(s, key))
    ensures duration == 0 ==> r == Failure(DurationNotPositive)
    ensures duration >= U128 ==> r == Failure(DurationTooLarge)
    ensures 0 < duration < U128 && !override && Exists(s, key) ==> r == Failure(CooldownExists)
    ensures r.Success? ==> Get(r.value, key) == Entry(now, duration) && SameElsewhere(s, r.value, key)
  {
    if duration == 0 then Failure(DurationNotPositive)
    else if duration >= U128 then Failure(DurationTooLarge)
    else if !override && Exists(s, key) then Failure(CooldownExists)
    else Success(s[key := Entry(now, duration)])
  }

  /** `add_from_days(key, days, override)`: `add` with the duration given in days. */
  function AfterAddFromDays(s: Store, key: Key, days: nat, override: bool, now: nat): (r: Result<Store>)
    ensures r.Success? <==> 1 <= days <= MaxDays && (override || !Exists(s, key))
    ensures days == 0 ==> r == Failure(DurationNotPositive)
    ensures days > MaxDays ==> r == Failure(DurationTooLarge)
    ensures 1 <= days <= MaxDays && !override && Exists(s, key) ==> r == Failure(CooldownExists)
    ensures r.Success? ==>
      Get(r.value, key) == Entry(now, days * SecondsPerDay) && SameElsewhere(s, r.value, key)
  {
    AfterAdd(s, key, days * SecondsPerDay, override, now)
  }

  /** `add_from_hours(key, hours, override)`: `add` with the duration given in hours. */
  function AfterAddFromHours(s: Store, key: Key, hours: nat, override: bool, now: nat): (r: Result<Store>)
    ensures r.Success? <==> 1 <= hours <= MaxHours && (override || !Exists(s, key))
    ensures hours == 0 ==> r == Failure(DurationNotPositive)
    ensures hours > MaxHours ==> r == Failure(DurationTooLarge)
    ensures 1 <= hours <= MaxHours && !override && Exists(s, key) ==> r == Failure(CooldownExists)
    ensures r.Success? ==>
      Get(r.value, key) == Entry(now, hours * SecondsPerHour) && SameElsewhere(s, r.value, key)
  {
    AfterAdd(s, key, hours * SecondsPerHour, override, now)
  }

  /** The store after `check_and_reset(key)` at block time `now`, or the revert reason. */
  function AfterCheckAndReset(s: Store, key: Key, now: nat): (r: Result<Store>)
    ensures r.Success? <==> Expired(Get(s, key), now)
    ensures r.Failure? ==> r.reason == CooldownNotExpired
    ensures r.Success? ==>
      Get(r.value, key) == Entry(now, Get(s, key).duration) && SameElsewhere(s, r.value, key)
  {
    var e := Get(s, key);
    if now < e.start + e.duration then Failure(CooldownNotExpired)
    else Success(s[key := Entry(now, e.duration)])
  }

  /** `check_and_reset(key)` called at each of `times` in turn; the first revert ends the run. */
  function ResetAll(s: Store, key: Key, times: seq<nat>): (r: Result<Store>)
    ensures r.Failure? ==> r.reason == CooldownNotExpired
    ensures r.Success? ==> SameElsewhere(s, r.value, key)
    ensures r.Success? ==> Get(r.value, key).duration == Get(s, key).duration
    ensures r.Success? && |times| > 0 ==> Get(r.value, key).start == times[|times| - 1]
    decreases |times|
  {
    if times == [] then Success(s)
    else
      match AfterCheckAndReset(s, key, times[0])
      case Failure(reason) => Failure(reason)
      case Success(next) => ResetAll(next, key, times[1..])
  }

  /**
   * A cooldown that `add` has just set up runs out exactly `duration` seconds later:
   * `check_and_reset` reverts before that instant and succeeds from it on.
   */
  lemma AddThenReset(s: Store, key: Key, duration: nat, override: bool, now: nat, later: nat)
    requires AfterAdd(s, key, duration, override, now).Success?
    ensures AfterCheckAndReset(AfterAdd(s, key, duration, override, now).value, key, later).Success?
      <==> now + duration <= later
    ensures later < now + duration ==>
      AfterCheckAndReset(AfterAdd(s, key, duration, override, now).value, key, later)
        == Failure(CooldownNotExpired)
  {
  }

  /** A key nothing has written passes at once and is left as `(now, 0)`. */
  lemma ResetUnsetKey(s: Store, key: Key, now: nat)
    requires key !in s
    ensures AfterCheckAndReset(s, key, now).Success?
    ensures Get(AfterCheckAndReset(s, key, now).value, key) == Entry(now, 0)
  {
  }

  /**
   * A key that only `check_and_reset` has touched still counts as absent: it holds no duration, so
   * `add` without override succeeds on it.
   */
  lemma ResetKeyStaysAddable(s: Store, key: Key, now: nat, duration: nat, later: nat)
    requires key !in s
    requires 0 < duration < U128
    ensures !Exists(AfterCheckAndReset(s, key, now).value, key)
    ensures AfterAdd(AfterCheckAndReset(s, key, now).value, key, duration, false, later).Success?
  {
  }

  /** Right after a successful reset of a positive cooldown, a second reset reverts. */
  lemma ResetAgainFails(s: Store, key: Key, now: nat, again: nat)
    requires AfterCheckAndReset(s, key, now).Success?
    requires Get(s, key).duration > 0
    requires again < now + Get(s, key).duration
    ensures AfterCheckAndReset(AfterCheckAndReset(s, key, now).value, key, again)
      == Failure(CooldownNotExpired)
  {
  }

  /**
   * Over any run of successful resets, each reset happens at least one full duration after
   * the previous one (and the first one after the stored start); with a positive duration
   * the stored start therefore strictly increases from reset to reset.
   */
  lemma {:induction false} ResetsAreSpaced(s: Store, key: Key, times: seq<nat>)
    requires ResetAll(s, key, times).Success?
    ensures |times| > 0 ==> Get(s, key).start + Get(s, key).duration <= times[0]
    ensures forall i :: 0 < i < |times| ==> times[i - 1] + Get(s, key).duration <= times[i]
    ensures Get(s, key).duration > 0 ==> forall i :: 0 < i < |times| ==> times[i - 1] < times[i]
    decreases |times|
  {
    if times != [] {
      var next := AfterCheckAndReset(s, key, times[0]).value;
      assert Get(next, key) == Entry(times[0], Get(s, key).duration);
      ResetsAreSpaced(next, key, times[1..]);
      forall i | 0 < i < |times|
        ensures times[i - 1] + Get(s, key).duration <= times[i]
      {
        if i > 1 {
          assert times[1..][i - 2] == times[i - 1] && times[1..][i - 1] == times[i];
        }
      }
    }
  }

  /** The cooldown storage of a contract that `initializes: cooldown`. */
  class CooldownModule {
    var cooldowns: Store

    constructor ()
      ensures cooldowns == map[]
    {
      cooldowns := map[];
    }

    method Add(key: Key, duration: nat, override: bool, now: nat) returns (status: Status)
      modifies this
      ensures status == AfterAdd(old(cooldowns), key, duration, override, now).ToStatus()
      ensures cooldowns == Commit(old(cooldowns), AfterAdd(old(cooldowns), key, duration, override, now))
    {
      if duration == 0 {
        return Reverted(DurationNotPositive);
      }
      if duration >= U128 {
        return Reverted(DurationTooLarge);
      }
      if !override && Get(cooldowns, key).duration != 0 {
        return Reverted(CooldownExists);
      }
      cooldowns := cooldowns[key := Entry(now, duration)];
      status := Ok;
    }

    method AddFromDays(key: Key, days: nat, override: bool, now: nat) returns (status: Status)
      modifies this
      ensures status == AfterAddFromDays(old(cooldowns), key, days, override, now).ToStatus()
      ensures cooldowns == Commit(old(cooldowns), AfterAddFromDays(old(cooldowns), key, days, override, now))
    {
      status := Add(key, days * SecondsPerDay, override, now);
    }

    method AddFromHours(key: Key, hours: nat, override: bool, now: nat) returns (status: Status)
      modifies this
      ensures status == AfterAddFromHours(old(cooldowns), key, hours, override, now).ToStatus()
      ensures cooldowns == Commit(old(cooldowns), AfterAddFromHours(old(cooldowns), key, hours, override, now))
    {
      status := Add(key, hours * SecondsPerHour, override, now);
    }

    method CheckAndReset(key: Key, now: nat) returns (status: Status)
      modifies this
      ensures status == AfterCheckAndReset(old(cooldowns), key, now).ToStatus()
      ensures cooldowns == Commit(old(cooldowns), AfterCheckAndReset(old(cooldowns), key, now))
    {
      var e := Get(cooldowns, key);
      if now < e.start + e.duration {
        return Reverted(CooldownNotExpired);
      }
      cooldowns := cooldowns[key := Entry(now, e.duration)];
      status := Ok;
    }
  }
}
