/**
 * The pooling engine of the slot hook: combines the filtered slots of several
 * users under the event type's scheduling type, then sorts the result by time.
 */
module Pooling {
  import opened Wrappers

  /** A bookable slot: its start time and the users who offer it. */
  datatype Slot = Slot(time: int, users: seq<string>)

  /** The scheduling types of an event type with several hosts. */
  datatype SchedulingType = Collective | RoundRobin

  /** The error thrown when several results arrive and no pooling method exists for the scheduling type. */
  datatype PoolError = NoPoolingMethod(schedulingType: Option<SchedulingType>)

  /** Some slot of `slots` starts at t (`slots.some(s => s.time.isSame(t))`). */
  predicate HasTime(slots: seq<Slot>, t: int)
  {
    exists k :: 0 <= k < |slots| && slots[k].time == t
  }

  /** The start times of the slots, in order. */
  function Times(slots: seq<Slot>): (r: seq<int>)
    ensures |r| == |slots|
    ensures forall k :: 0 <= k < |slots| ==> r[k] == slots[k].time
  {
    if slots == [] then [] else [slots[0].time] + Times(slots[1..])
  }

  /** No two slots start at the same time. */
  predicate DistinctTimes(slots: seq<Slot>)
  {
    forall i, j :: 0 <= i < j < |slots| ==> slots[i].time != slots[j].time
  }

  /** Every slot names at least one user, so that `users[0]` exists. */
  predicate Tagged(slots: seq<Slot>)
  {
    forall k :: 0 <= k < |slots| ==> |slots[k].users| > 0
  }

  /** `slots.findIndex(s => s.time.isSame(t))`: the first index of a slot at t, or -1. */
  function FindIndex(slots: seq<Slot>, t: int): (r: int)
    ensures -1 <= r < |slots|
    ensures r == -1 <==> !HasTime(slots, t)
    ensures r >= 0 ==> slots[r].time == t && forall k :: 0 <= k < r ==> slots[k].time != t
  {
    if slots == [] then -1
    else if slots[0].time == t then 0
    else
      var m := FindIndex(slots[1..], t);
      assert forall k :: 1 <= k < |slots| ==> slots[k] == slots[1..][k - 1];
      if m == -1 then -1 else m + 1
  }

  // ---------------------------------------------------------------------------
  // COLLECTIVE: intersection by time

  /** The COLLECTIVE pooling method: the slots whose time also occurs in compareWith. */
  function CollectivePool(slots: seq<Slot>, compareWith: seq<Slot>): (r: seq<Slot>)
    ensures forall x :: x in r <==> x in slots && HasTime(compareWith, x.time)
  {
    if slots == [] then []
    else
      var rest := CollectivePool(slots[1..], compareWith);
      assert forall x :: x in slots <==> x == slots[0] || x in slots[1..];
      if HasTime(compareWith, slots[0].time) then [slots[0]] + rest else rest
  }

  /** t occurs in every one of the results. */
  predicate InEvery(results: seq<seq<Slot>>, t: int)
  {
    forall j :: 0 <= j < |results| ==> HasTime(results[j], t)
  }

  /** The slots of s whose time occurs in every one of the results. */
  function Common(s: seq<Slot>, results: seq<seq<Slot>>): seq<Slot>
  {
    if s == [] then []
    else if InEvery(results, s[0].time) then [s[0]] + Common(s[1..], results)
    else Common(s[1..], results)
  }

  // ---------------------------------------------------------------------------
  // ROUND_ROBIN: union by time with user attribution

  /**
   * One `forEach` step of the ROUND_ROBIN pooling method: the first slot at
   * compare's time gains compare's first user; otherwise compare is appended.
   */
  function RoundRobinStep(slots: seq<Slot>, compare: Slot): seq<Slot>
    requires |compare.users| > 0
  {
    var m := FindIndex(slots, compare.time);
    if m == -1 then slots + [compare]
    else slots[m := Slot(slots[m].time, slots[m].users + [compare.users[0]])]
  }

  /** The ROUND_ROBIN pooling method, folded over compareWith from the front. */
  function RoundRobinSpec(slots: seq<Slot>, compareWith: seq<Slot>): seq<Slot>
    requires Tagged(compareWith)
    decreases |compareWith|
  {
    if compareWith == [] then slots
    else RoundRobinSpec(RoundRobinStep(slots, compareWith[0]), compareWith[1..])
  }

  /** The ROUND_ROBIN pooling method: the `forEach` loop that pushes users and slots onto `slots`. */
  method RoundRobinPool(slots: seq<Slot>, compareWith: seq<Slot>) returns (r: seq<Slot>)
    requires Tagged(compareWith)
    ensures r == RoundRobinSpec(slots, compareWith)
  {
    r := slots;
    var k := 0;
    while k < |compareWith|
      invariant 0 <= k <= |compareWith|
      invariant RoundRobinSpec(r, compareWith[k..]) == RoundRobinSpec(slots, compareWith)
    {
      var compare := compareWith[k];
      assert compareWith[k..][1..] == compareWith[k + 1..];
      var m := FindIndex(r, compare.time);
      if m != -1 {
        r := r[m := Slot(r[m].time, r[m].users + [compare.users[0]])];
      } else {
        r := r + [compare];
      }
      k := k + 1;
    }
  }

  /** b keeps every slot of a at its place and time, with a's users as a prefix of its own. */
  predicate Extends(a: seq<Slot>, b: seq<Slot>)
  {
    |a| <= |b|
    && forall i :: 0 <= i < |a| ==> b[i].time == a[i].time && a[i].users <= b[i].users
  }

  /** The compare slots whose time is not yet among the slots. */
  function Unmatched(slots: seq<Slot>, compareWith: seq<Slot>): seq<Slot>
  {
    if compareWith == [] then []
    else if HasTime(slots, compareWith[0].time) then Unmatched(slots, compareWith[1..])
    else [compareWith[0]] + Unmatched(slots, compareWith[1..])
  }

  // ---------------------------------------------------------------------------
  // Sorting by time: `sort((a, b) => a.time.isAfter(b.time) ? 1 : -1)`

  /** The slots are in non-decreasing order of time. */
  predicate SortedByTime(s: seq<Slot>)
  {
    forall i, j :: 0 <= i < j < |s| ==> s[i].time <= s[j].time
  }

  /** A slot no later than the head of a sorted sequence can go in front of it. */
  lemma PrependSorted(x: Slot, s: seq<Slot>)
    requires SortedByTime(s) && (s == [] || x.time <= s[0].time)
    ensures SortedByTime([x] + s)
  {
    var r := [x] + s;
    forall i, j | 0 <= i < j < |r| ensures r[i].time <= r[j].time {
      if i > 0 {
        assert r[i] == s[i - 1] && r[j] == s[j - 1];
      } else {
        assert r[j] == s[j - 1];
      }
    }
  }

  /** Sorted insertion of x into the sorted s. */
  function InsertByTime(x: Slot, s: seq<Slot>): (r: seq<Slot>)
    requires SortedByTime(s)
    ensures SortedByTime(r)
    ensures multiset(r) == multiset(s) + multiset{x}
    ensures |r| == |s| + 1 && (r[0] == x || (s != [] && r[0] == s[0]))
  {
    if s == [] then [x]
    else if x.time <= s[0].time then
      PrependSorted(x, s);
      [x] + s
    else
      var rest := InsertByTime(x, s[1..]);
      assert s == [s[0]] + s[1..];
      PrependSorted(s[0], rest);
      [s[0]] + rest
  }

  /** The slots sorted by time. */
  function SortByTime(s: seq<Slot>): (r: seq<Slot>)
    ensures SortedByTime(r)
    ensures multiset(r) == multiset(s)
  {
    if s == [] then []
    else
      assert s == [s[0]] + s[1..];
      InsertByTime(s[0], SortByTime(s[1..]))
  }

  // ---------------------------------------------------------------------------
  // The fold over the per-user results and the final sort

  /** `poolingMethod(slots, compareWith)` for a scheduling type that has one. */
  function Pool(st: SchedulingType, slots: seq<Slot>, compareWith: seq<Slot>): seq<Slot>
    requires st == RoundRobin ==> Tagged(compareWith)
  {
    match st
    case Collective => CollectivePool(slots, compareWith)
    case RoundRobin => RoundRobinSpec(slots, compareWith)
  }

  /** Every later result is tagged when the round-robin method will read its users. */
  predicate Poolable(st: SchedulingType, rest: seq<seq<Slot>>)
  {
    st == RoundRobin ==> forall k :: 0 <= k < |rest| ==> Tagged(rest[k])
  }

  /** `for (i = 1; i < results.length; i++) loadedSlots = poolingMethod(loadedSlots, results[i])`. */
  function FoldPools(st: SchedulingType, first: seq<Slot>, rest: seq<seq<Slot>>): seq<Slot>
    requires Poolable(st, rest)
    decreases |rest|
  {
    if rest == [] then first
    else Pool(st, FoldPools(st, first, rest[..|rest| - 1]), rest[|rest| - 1])
  }

  /** Folding one more result is one more call of the pooling method. */
  lemma FoldPoolsStep(st: SchedulingType, first: seq<Slot>, rest: seq<seq<Slot>>, k: nat)
    requires Poolable(st, rest) && k < |rest|
    ensures Poolable(st, rest[..k]) && Poolable(st, rest[..k + 1])
    ensures st == RoundRobin ==> Tagged(rest[k])
    ensures FoldPools(st, first, rest[..k + 1]) == Pool(st, FoldPools(st, first, rest[..k]), rest[k])
  {
    assert rest[..k + 1][..k] == rest[..k];
  }

  /** What the hook's result continuation computes from the per-user results. */
  function Pooled(results: seq<seq<Slot>>, st: Option<SchedulingType>): Result<seq<Slot>, PoolError>
    requires st.Some? && |results| > 1 ==> Poolable(st.value, results[1..])
  {
    var first := if |results| > 0 then results[0] else [];
    var rest := if |results| > 0 then results[1..] else [];
    if |results| == 1 then Ok(SortByTime(first))
    else if st.None? then Err(NoPoolingMethod(st))
    else Ok(SortByTime(FoldPools(st.value, first, rest)))
  }

  /**
   * The result continuation of the hook: pools the per-user results in order
   * and sorts them, or fails for a scheduling type without a pooling method.
   */
  method PoolResults(results: seq<seq<Slot>>, st: Option<SchedulingType>) returns (r: Result<seq<Slot>, PoolError>)
    requires st.Some? && |results| > 1 ==> Poolable(st.value, results[1..])
    ensures r == Pooled(results, st)
  {
    var loadedSlots := if |results| > 0 then results[0] else [];
    if |results| == 1 {
      return Ok(SortByTime(loadedSlots));
    }
    if st.None? {
      return Err(NoPoolingMethod(st));
    }
    var poolingMethod := st.value;
    ghost var first := loadedSlots;
    ghost var rest := if |results| > 0 then results[1..] else [];
    var i := 1;
    while i < |results|
      invariant 1 <= i <= |rest| + 1
      invariant loadedSlots == FoldPools(poolingMethod, first, rest[..i - 1])
    {
      FoldPoolsStep(poolingMethod, first, rest, i - 1);
      assert rest[i - 1] == results[i];
      if poolingMethod == Collective {
        loadedSlots := CollectivePool(loadedSlots, results[i]);
      } else {
        loadedSlots := RoundRobinPool(loadedSlots, results[i]);
      }
      i := i + 1;
    }
    assert rest[..i - 1] == rest;
    return Ok(SortByTime(loadedSlots));
  }
}
