/**
 * The interval permission primitive: an inclusive numeric range `[lb, ub]` per namespace key.
 * Whether a key has been added is recorded apart from its bounds, so the range `[0, 0]` is an
 * ordinary stored interval while a key nobody added is an error of its own.
 */
module Interval {
  import opened Common

  const InvertedRange := "inverted range: lb > ub"
  const IntervalExists := "interval already exists"
  const IntervalMissing := "interval does not exist"
  const OutOfInterval := "value out of interval"

  datatype Bounds = Bounds(lb: Uint256, ub: Uint256)

  /** The keys present in the map are exactly the keys `add` has stored. */
  type Store = map<Key, Bounds>

  /** No stored interval is inverted. */
  predicate WellFormed(s: Store) {
    forall k :: k in s ==> s[k].lb <= s[k].ub
  }

  /** The public read accessor `intervals(key) -> (lb, ub)`; an absent key reads as zeros. */
  function Intervals(s: Store, key: Key): (r: (Uint256, Uint256))
    ensures key !in s ==> r == (0, 0)
    ensures key in s ==> r == (s[key].lb, s[key].ub)
  {
    if key in s then (s[key].lb, s[key].ub) else (0, 0)
  }

  /** The store after `add(key, lb, ub, override)`, or the revert reason. */
  function AfterAdd(s: Store, key: Key, lb: Uint256, ub: Uint256, override: bool): (r: Result<Store>)
    ensures r.Success? <==> lb <= ub && (override || key !in s)
    ensures lb > ub ==> r == Failure(InvertedRange)
    ensures lb <= ub && !override && key in s ==> r == Failure(IntervalExists)
    ensures r.Success? ==> r.value.Keys == s.Keys + {key} && Intervals(r.value, key) == (lb, ub)
    ensures r.Success? ==> forall k :: k in s && k != key ==> r.value[k] == s[k]
    ensures r.Success? && WellFormed(s) ==> WellFormed(r.value)
  {
    if lb > ub then Failure(InvertedRange)
    else if !override && key in s then Failure(IntervalExists)
    else Success(s[key := Bounds(lb, ub)])
  }

  /** `add_singleton(key, value, override)`: the interval admitting `value` alone. */
  function AfterAddSingleton(s: Store, key: Key, value: Uint256, override: bool): (r: Result<Store>)
    ensures r.Success? <==> override || key !in s
    ensures r.Failure? ==> r.reason == IntervalExists
    ensures r.Success? ==> forall v: Uint256 ::
      Check(r.value, key, v) == if v == value then Ok else Reverted(OutOfInterval)
    ensures r.Success? ==> r.value.Keys == s.Keys + {key}
    ensures r.Success? ==> forall k :: k in s && k != key ==> k in r.value && r.value[k] == s[k]
  {
    AfterAdd(s, key, value, value, override)
  }

  /** `check(key, value)`: the key must exist and `value` must lie within its bounds, both inclusive. */
  function Check(s: Store, key: Key, value: Uint256): (r: Status)
    ensures key !in s ==> r == Reverted(IntervalMissing)
    ensures key in s ==> (r.Ok? <==> s[key].lb <= value <= s[key].ub)
    ensures key in s && r.Reverted? ==> r.reason == OutOfInterval
  {
    if key !in s then Reverted(IntervalMissing)
    else if value < s[key].lb || s[key].ub < value then Reverted(OutOfInterval)
    else Ok
  }

  /**
   * `add` then `check` on the same key: exactly the values between the two bounds pass, and
   * every other key answers as it did before.
   */
  lemma AddThenCheck(s: Store, key: Key, lb: Uint256, ub: Uint256, override: bool, v: Uint256)
    requires AfterAdd(s, key, lb, ub, override).Success?
    ensures Check(AfterAdd(s, key, lb, ub, override).value, key, v)
      == if lb <= v <= ub then Ok else Reverted(OutOfInterval)
    ensures forall k :: k != key ==>
      Check(AfterAdd(s, key, lb, ub, override).value, k, v) == Check(s, k, v)
  {
  }

  /** Presence is not the same as non-zero bounds: a stored `[0, 0]` exists and admits 0 alone. */
  lemma ZeroIntervalExists(s: Store, key: Key, v: Uint256)
    requires AfterAdd(s, key, 0, 0, false).Success?
    ensures Intervals(AfterAdd(s, key, 0, 0, false).value, key) == Intervals(map[], key)
    ensures Check(AfterAdd(s, key, 0, 0, false).value, key, v).Ok? <==> v == 0
    ensures Check(map[], key, v) == Reverted(IntervalMissing)
  {
  }

  /** The full range `[0, 2^256 - 1]` admits every `uint256`. */
  lemma FullRangeAdmitsAll(s: Store, key: Key, v: Uint256)
    requires AfterAdd(s, key, 0, U256 - 1, true).Success?
    ensures Check(AfterAdd(s, key, 0, U256 - 1, true).value, key, v) == Ok
  {
  }

  /**
   * In a store built by `add` alone, a key fails `check` for every value exactly when it was
   * never added: a stored interval is never empty.
   */
  lemma StoredIntervalsAreInhabited(s: Store, key: Key)
    requires WellFormed(s)
    ensures key in s <==> exists v: Uint256 :: Check(s, key, v).Ok?
  {
    if key in s {
      assert Check(s, key, s[key].lb).Ok?;
    }
  }

  /** The interval storage of a contract that `initializes: interval`. */
  class IntervalModule {
    var intervals: Store

    ghost predicate Valid()
      reads this
    {
      WellFormed(intervals)
    }

    constructor ()
      ensures Valid() && intervals == map[]
    {
      intervals := map[];
    }

    method Add(key: Key, lb: Uint256, ub: Uint256, override: bool) returns (status: Status)
      requires Valid()
      modifies this
      ensures Valid()
      ensures status == AfterAdd(old(intervals), key, lb, ub, override).ToStatus()
      ensures intervals == Commit(old(intervals), AfterAdd(old(intervals), key, lb, ub, override))
    {
      if lb > ub {
        return Reverted(InvertedRange);
      }
      if !override && key in intervals {
        return Reverted(IntervalExists);
      }
      intervals := intervals[key := Bounds(lb, ub)];
      status := Ok;
    }

    method AddSingleton(key: Key, value: Uint256, override: bool) returns (status: Status)
      requires Valid()
      modifies this
      ensures Valid()
      ensures status == AfterAddSingleton(old(intervals), key, value, override).ToStatus()
      ensures intervals == Commit(old(intervals), AfterAddSingleton(old(intervals), key, value, override))
    {
      status := Add(key, value, value, override);
    }
  }
}
