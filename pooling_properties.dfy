/** What the pooling engine guarantees: the COLLECTIVE intersection, the ROUND_ROBIN union, the ordering. */
module PoolingProperties {
  import opened Wrappers
  import opened Subsequences
  import opened Pooling

  // ---------------------------------------------------------------------------
  // Sorting

  /** Sorting an already sorted sequence changes nothing, so re-sorting is idempotent. */
  lemma {:induction false} SortSortedIsIdentity(s: seq<Slot>)
    requires SortedByTime(s)
    ensures SortByTime(s) == s
  {
    if s != [] {
      SortSortedIsIdentity(s[1..]);
      assert s[1..] != [] ==> s[0].time <= s[1..][0].time;
      assert s == [s[0]] + s[1..];
    }
  }

  /** Sorting twice is sorting once. */
  lemma SortIdempotent(s: seq<Slot>)
    ensures SortByTime(SortByTime(s)) == SortByTime(s)
  {
    SortSortedIsIdentity(SortByTime(s));
  }

  /** Slots that share a time are the same slot: the comparator never has to break a tie between different slots. */
  predicate NoTies(s: seq<Slot>)
  {
    forall i, j :: 0 <= i < |s| && 0 <= j < |s| && s[i].time == s[j].time ==> s[i] == s[j]
  }

  /** Distinct times leave no ties. */
  lemma DistinctTimesNoTies(s: seq<Slot>)
    requires DistinctTimes(s)
    ensures NoTies(s)
  {
    forall i, j | 0 <= i < |s| && 0 <= j < |s| && s[i].time == s[j].time ensures i == j {
    }
  }

  /** A sequence whose slots all occur in a sequence without ties has no ties either. */
  lemma NoTiesOfMembers(a: seq<Slot>, b: seq<Slot>)
    requires NoTies(b) && forall x :: x in a ==> x in b
    ensures NoTies(a)
  {
    forall i, j | 0 <= i < |a| && 0 <= j < |a| && a[i].time == a[j].time ensures a[i] == a[j] {
      assert a[i] in b && a[j] in b;
      var p :| 0 <= p < |b| && b[p] == a[i];
      var q :| 0 <= q < |b| && b[q] == a[j];
      assert b[p].time == b[q].time;
    }
  }

  /**
   * Without ties a sorted order is unique: two time-ordered permutations of the
   * same slots are equal, whatever way of sorting produced them.
   */
  lemma {:induction false} SortedPermutationUnique(r: seq<Slot>, r': seq<Slot>)
    requires SortedByTime(r) && SortedByTime(r') && multiset(r) == multiset(r') && NoTies(r)
    ensures r == r'
    decreases |r|
  {
    if r == [] {
      assert |multiset(r')| == 0;
    } else {
      SortedHeadsAgree(r, r');
      MultisetOfTails(r, r');
      NoTiesOfMembers(r[1..], r);
      SortedPermutationUnique(r[1..], r'[1..]);
      assert r == [r[0]] + r[1..];
      assert r' == [r'[0]] + r'[1..];
    }
  }

  /** Two time-ordered permutations of slots without ties start with the same slot. */
  lemma SortedHeadsAgree(r: seq<Slot>, r': seq<Slot>)
    requires SortedByTime(r) && SortedByTime(r') && multiset(r) == multiset(r') && NoTies(r) && r != []
    ensures r' != [] && r'[0] == r[0]
  {
    assert r[0] in multiset(r');
    var k :| 0 <= k < |r'| && r'[k] == r[0];
    assert r'[0] in multiset(r);
    var j :| 0 <= j < |r| && r[j] == r'[0];
    assert r[0].time <= r[j].time;
    assert r'[0].time <= r'[k].time;
  }

  /** Permutations with the same head have permuted tails. */
  lemma MultisetOfTails(r: seq<Slot>, r': seq<Slot>)
    requires r != [] && r' != [] && r[0] == r'[0] && multiset(r) == multiset(r')
    ensures multiset(r[1..]) == multiset(r'[1..])
  {
    assert r == [r[0]] + r[1..];
    assert r' == [r'[0]] + r'[1..];
    assert multiset(r[1..]) == multiset(r) - multiset{r[0]};
    assert multiset(r'[1..]) == multiset(r') - multiset{r[0]};
  }

  /** Without ties, every time-ordered permutation of s is the model's SortByTime(s). */
  lemma AnySortIsSortByTime(s: seq<Slot>, r: seq<Slot>)
    requires NoTies(s) && SortedByTime(r) && multiset(r) == multiset(s)
    ensures r == SortByTime(s)
  {
    var sorted := SortByTime(s);
    forall x | x in r ensures x in s {
      assert x in multiset(r);
    }
    NoTiesOfMembers(r, s);
    SortedPermutationUnique(r, sorted);
  }

  // ---------------------------------------------------------------------------
  // COLLECTIVE

  /** The slots kept by Common are an order-preserving subsequence of s. */
  lemma {:induction false} CommonIsSubsequence(s: seq<Slot>, results: seq<seq<Slot>>)
    ensures IsSubsequence(Common(s, results), s)
  {
    if s != [] {
      CommonIsSubsequence(s[1..], results);
      var rest := Common(s[1..], results);
      if InEvery(results, s[0].time) {
        assert ([s[0]] + rest)[1..] == rest;
      } else if rest != [] {
        assert IsSubsequence(rest, s[1..]);
      }
    }
  }

  /** Common keeps exactly the slots of s whose time occurs in every result. */
  lemma {:induction false} CommonMembership(s: seq<Slot>, results: seq<seq<Slot>>)
    ensures forall x :: x in Common(s, results) <==> x in s && InEvery(results, x.time)
  {
    if s != [] {
      CommonMembership(s[1..], results);
      assert forall x :: x in s <==> x == s[0] || x in s[1..];
    }
  }

  /** With no results to agree with, Common keeps everything. */
  lemma {:induction false} CommonOfNone(s: seq<Slot>)
    ensures Common(s, []) == s
  {
    if s != [] {
      CommonOfNone(s[1..]);
    }
  }

  /** Intersecting the slots common to some results with one more result gives the slots common to all of them. */
  lemma {:induction false} CollectiveOfCommon(s: seq<Slot>, results: seq<seq<Slot>>, compareWith: seq<Slot>)
    ensures CollectivePool(Common(s, results), compareWith) == Common(s, results + [compareWith])
  {
    var all := results + [compareWith];
    forall t ensures InEvery(all, t) <==> InEvery(results, t) && HasTime(compareWith, t) {
      if InEvery(results, t) && HasTime(compareWith, t) {
        forall j | 0 <= j < |all| ensures HasTime(all[j], t) {
          if j < |results| { assert all[j] == results[j]; }
        }
      }
      if InEvery(all, t) {
        assert all[|results|] == compareWith;
        forall j | 0 <= j < |results| ensures HasTime(results[j], t) {
          assert all[j] == results[j];
        }
      }
    }
    if s != [] {
      CollectiveOfCommon(s[1..], results, compareWith);
    }
  }

  /** The COLLECTIVE fold keeps the slots of the first result whose time occurs in every later result. */
  lemma {:induction false} CollectiveFold(first: seq<Slot>, rest: seq<seq<Slot>>)
    ensures FoldPools(Collective, first, rest) == Common(first, rest)
    decreases |rest|
  {
    if rest == [] {
      CommonOfNone(first);
    } else {
      var init := rest[..|rest| - 1];
      CollectiveFold(first, init);
      CollectiveOfCommon(first, init, rest[|rest| - 1]);
      assert init + [rest[|rest| - 1]] == rest;
    }
  }

  /**
   * COLLECTIVE pooling of two or more results: the sorted slots are, up to
   * order, the subsequence of the first result whose times occur in every later
   * result; no slot comes from a later result.
   */
  lemma PooledCollective(results: seq<seq<Slot>>)
    requires |results| >= 2
    ensures var common := Common(results[0], results[1..]);
      Pooled(results, Some(Collective)) == Ok(SortByTime(common))
      && IsSubsequence(common, results[0])
      && (forall x :: x in common <==> x in results[0] && InEvery(results[1..], x.time))
      && multiset(SortByTime(common)) == multiset(common)
  {
    CollectiveFold(results[0], results[1..]);
    CommonIsSubsequence(results[0], results[1..]);
    CommonMembership(results[0], results[1..]);
  }

  // ---------------------------------------------------------------------------
  // ROUND_ROBIN

  /** HasTime carries over to an extension. */
  lemma ExtendsHasTime(a: seq<Slot>, b: seq<Slot>, t: int)
    requires Extends(a, b) && HasTime(a, t)
    ensures HasTime(b, t)
  {
    var k :| 0 <= k < |a| && a[k].time == t;
    assert b[k].time == t;
  }

  /**
   * A ROUND_ROBIN step for a time already present: the first slot at that time
   * gains compare's first user at the end of its users; nothing else changes.
   */
  lemma RoundRobinStepMatched(slots: seq<Slot>, compare: Slot)
    requires |compare.users| > 0 && HasTime(slots, compare.time)
    ensures var r := RoundRobinStep(slots, compare);
      var m := FindIndex(slots, compare.time);
      0 <= m < |slots| && slots[m].time == compare.time
      && |r| == |slots| && Times(r) == Times(slots)
      && r[m].users == slots[m].users + [compare.users[0]]
      && forall k :: 0 <= k < |slots| && k != m ==> r[k] == slots[k]
  {
    var m := FindIndex(slots, compare.time);
    var updated := Slot(slots[m].time, slots[m].users + [compare.users[0]]);
    assert RoundRobinStep(slots, compare) == slots[m := updated];
    TimesOfUpdate(slots, m, updated);
  }

  /** Replacing a slot by one at the same time keeps the times. */
  lemma TimesOfUpdate(slots: seq<Slot>, m: nat, updated: Slot)
    requires m < |slots| && updated.time == slots[m].time
    ensures Times(slots[m := updated]) == Times(slots)
  {
    var a, b := Times(slots[m := updated]), Times(slots);
    forall k | 0 <= k < |slots| ensures a[k] == b[k] {}
  }

  /** A ROUND_ROBIN step for a new time appends compare. */
  lemma RoundRobinStepUnmatched(slots: seq<Slot>, compare: Slot)
    requires |compare.users| > 0 && !HasTime(slots, compare.time)
    ensures RoundRobinStep(slots, compare) == slots + [compare]
  {
  }

  /** A ROUND_ROBIN step removes no slot, moves none, drops no user, and leaves compare's time present. */
  lemma RoundRobinStepExtends(slots: seq<Slot>, compare: Slot)
    requires |compare.users| > 0
    ensures Extends(slots, RoundRobinStep(slots, compare))
    ensures HasTime(RoundRobinStep(slots, compare), compare.time)
  {
    var r := RoundRobinStep(slots, compare);
    var m := FindIndex(slots, compare.time);
    if m == -1 {
      assert r[|slots|] == compare;
    } else {
      assert r[m].time == compare.time;
    }
  }

  /** Everything a ROUND_ROBIN step tells about the result. */
  lemma RoundRobinStepEffect(slots: seq<Slot>, compare: Slot)
    requires |compare.users| > 0
    ensures var r := RoundRobinStep(slots, compare);
      Extends(slots, r) && HasTime(r, compare.time)
      && (HasTime(slots, compare.time) ==> |r| == |slots| && Times(r) == Times(slots))
      && (!HasTime(slots, compare.time) ==> r == slots + [compare])
  {
    RoundRobinStepExtends(slots, compare);
    if HasTime(slots, compare.time) {
      RoundRobinStepMatched(slots, compare);
    }
  }

  /** The ROUND_ROBIN method never removes a slot, moves it or drops one of its users. */
  lemma {:induction false} RoundRobinExtends(slots: seq<Slot>, compareWith: seq<Slot>)
    requires Tagged(compareWith)
    ensures Extends(slots, RoundRobinSpec(slots, compareWith))
    decreases |compareWith|
  {
    if compareWith != [] {
      var next := RoundRobinStep(slots, compareWith[0]);
      RoundRobinStepEffect(slots, compareWith[0]);
      RoundRobinExtends(next, compareWith[1..]);
    }
  }

  /** Every time of the slots and of compareWith occurs in the ROUND_ROBIN result. */
  lemma {:induction false} RoundRobinCovers(slots: seq<Slot>, compareWith: seq<Slot>)
    requires Tagged(compareWith)
    ensures forall t :: HasTime(slots, t) || HasTime(compareWith, t) ==> HasTime(RoundRobinSpec(slots, compareWith), t)
    decreases |compareWith|
  {
    var r := RoundRobinSpec(slots, compareWith);
    RoundRobinExtends(slots, compareWith);
    if compareWith != [] {
      var next := RoundRobinStep(slots, compareWith[0]);
      RoundRobinStepEffect(slots, compareWith[0]);
      RoundRobinCovers(next, compareWith[1..]);
      forall t | HasTime(slots, t) || HasTime(compareWith, t) ensures HasTime(r, t) {
        if HasTime(slots, t) {
          ExtendsHasTime(slots, next, t);
        } else if compareWith[0].time != t {
          var k :| 0 <= k < |compareWith| && compareWith[k].time == t;
          assert compareWith[1..][k - 1].time == t;
        }
      }
    } else {
      forall t | HasTime(slots, t) ensures HasTime(r, t) {
        ExtendsHasTime(slots, r, t);
      }
    }
  }

  /** Every time in the ROUND_ROBIN result comes from the slots or from compareWith. */
  lemma {:induction false} RoundRobinOnlyInputTimes(slots: seq<Slot>, compareWith: seq<Slot>)
    requires Tagged(compareWith)
    ensures forall t :: HasTime(RoundRobinSpec(slots, compareWith), t) ==> HasTime(slots, t) || HasTime(compareWith, t)
    decreases |compareWith|
  {
    if compareWith != [] {
      var next := RoundRobinStep(slots, compareWith[0]);
      RoundRobinStepEffect(slots, compareWith[0]);
      RoundRobinOnlyInputTimes(next, compareWith[1..]);
      forall t | HasTime(next, t) ensures HasTime(slots, t) || HasTime(compareWith, t) {
        var k :| 0 <= k < |next| && next[k].time == t;
        if k < |slots| {
          if HasTime(slots, compareWith[0].time) {
            assert Times(next)[k] == Times(slots)[k];
          } else {
            assert next[k] == slots[k];
          }
        } else {
          assert next[k] == compareWith[0];
        }
      }
      forall t | HasTime(compareWith[1..], t) ensures HasTime(compareWith, t) {
        var k :| 0 <= k < |compareWith[1..]| && compareWith[1..][k].time == t;
        assert compareWith[k + 1].time == t;
      }
    }
  }

  /** Unmatched depends only on which compare times the slots already hold. */
  lemma {:induction false} UnmatchedCongruent(a: seq<Slot>, b: seq<Slot>, compareWith: seq<Slot>)
    requires forall k :: 0 <= k < |compareWith| ==> HasTime(a, compareWith[k].time) == HasTime(b, compareWith[k].time)
    ensures Unmatched(a, compareWith) == Unmatched(b, compareWith)
  {
    if compareWith != [] {
      assert HasTime(a, compareWith[0].time) == HasTime(b, compareWith[0].time);
      UnmatchedCongruent(a, b, compareWith[1..]);
    }
  }

  /** When the compare slots have distinct times, the result grows by one slot per compare slot whose time is new. */
  lemma {:induction false} RoundRobinLength(slots: seq<Slot>, compareWith: seq<Slot>)
    requires Tagged(compareWith) && DistinctTimes(compareWith)
    ensures |RoundRobinSpec(slots, compareWith)| == |slots| + |Unmatched(slots, compareWith)|
    decreases |compareWith|
  {
    if compareWith != [] {
      var c := compareWith[0];
      var tail := compareWith[1..];
      var next := RoundRobinStep(slots, c);
      RoundRobinStepEffect(slots, c);
      RoundRobinLength(next, tail);
      forall k | 0 <= k < |tail| ensures HasTime(next, tail[k].time) == HasTime(slots, tail[k].time) {
        var t := tail[k].time;
        assert t == compareWith[k + 1].time && t != c.time;
        if HasTime(next, t) {
          var i :| 0 <= i < |next| && next[i].time == t;
          if HasTime(slots, c.time) {
            assert Times(next)[i] == Times(slots)[i];
          } else {
            assert i < |slots|;
          }
        }
        if HasTime(slots, t) {
          ExtendsHasTime(slots, next, t);
        }
      }
      UnmatchedCongruent(next, slots, tail);
    }
  }

  /** The ROUND_ROBIN method never introduces a second slot at the same time. */
  lemma {:induction false} RoundRobinDistinct(slots: seq<Slot>, compareWith: seq<Slot>)
    requires Tagged(compareWith) && DistinctTimes(slots)
    ensures DistinctTimes(RoundRobinSpec(slots, compareWith))
    decreases |compareWith|
  {
    if compareWith != [] {
      var next := RoundRobinStep(slots, compareWith[0]);
      RoundRobinStepEffect(slots, compareWith[0]);
      if HasTime(slots, compareWith[0].time) {
        forall i, j | 0 <= i < j < |next| ensures next[i].time != next[j].time {
          assert Times(next)[i] == Times(slots)[i] && Times(next)[j] == Times(slots)[j];
        }
      }
      RoundRobinDistinct(next, compareWith[1..]);
    }
  }

  /** Some result offers the time t. */
  predicate InSome(results: seq<seq<Slot>>, t: int)
  {
    exists j :: 0 <= j < |results| && HasTime(results[j], t)
  }

  /** A time is offered by some of init + [last] iff init or last offers it. */
  lemma InSomeSnoc(init: seq<seq<Slot>>, last: seq<Slot>, t: int)
    ensures InSome(init + [last], t) <==> InSome(init, t) || HasTime(last, t)
  {
    var all := init + [last];
    if InSome(init, t) {
      var j :| 0 <= j < |init| && HasTime(init[j], t);
      assert all[j] == init[j];
    }
    if HasTime(last, t) {
      assert all[|init|] == last;
    }
    if InSome(all, t) && !HasTime(last, t) {
      var j :| 0 <= j < |all| && HasTime(all[j], t);
      assert j < |init| && all[j] == init[j];
    }
  }

  /** The ROUND_ROBIN fold keeps the first result's slots in place. */
  lemma {:induction false} RoundRobinFoldExtends(first: seq<Slot>, rest: seq<seq<Slot>>)
    requires Poolable(RoundRobin, rest)
    ensures Extends(first, FoldPools(RoundRobin, first, rest))
    decreases |rest|
  {
    if rest != [] {
      var init := rest[..|rest| - 1];
      assert Tagged(rest[|rest| - 1]);
      RoundRobinFoldExtends(first, init);
      RoundRobinExtends(FoldPools(RoundRobin, first, init), rest[|rest| - 1]);
    }
  }

  /** The ROUND_ROBIN fold offers exactly the times offered by the first result or by a later one. */
  lemma {:induction false} RoundRobinFoldTimes(first: seq<Slot>, rest: seq<seq<Slot>>)
    requires Poolable(RoundRobin, rest)
    ensures forall t :: HasTime(FoldPools(RoundRobin, first, rest), t) <==> HasTime(first, t) || InSome(rest, t)
    decreases |rest|
  {
    if rest != [] {
      var init := rest[..|rest| - 1];
      var last := rest[|rest| - 1];
      assert Tagged(last);
      assert init + [last] == rest;
      RoundRobinFoldTimes(first, init);
      var acc := FoldPools(RoundRobin, first, init);
      RoundRobinCovers(acc, last);
      RoundRobinOnlyInputTimes(acc, last);
      forall t ensures InSome(rest, t) <==> InSome(init, t) || HasTime(last, t) {
        InSomeSnoc(init, last, t);
      }
    }
  }

  /** The ROUND_ROBIN fold of results with distinct times has distinct times. */
  lemma {:induction false} RoundRobinFoldDistinct(first: seq<Slot>, rest: seq<seq<Slot>>)
    requires Poolable(RoundRobin, rest) && DistinctTimes(first)
    ensures DistinctTimes(FoldPools(RoundRobin, first, rest))
    decreases |rest|
  {
    if rest != [] {
      var init := rest[..|rest| - 1];
      assert Tagged(rest[|rest| - 1]);
      RoundRobinFoldDistinct(first, init);
      RoundRobinDistinct(FoldPools(RoundRobin, first, init), rest[|rest| - 1]);
    }
  }

  /** HasTime of a non-empty sequence: its head or its tail offers t. */
  lemma HasTimeCons(s: seq<Slot>, t: int)
    requires s != []
    ensures HasTime(s, t) <==> s[0].time == t || HasTime(s[1..], t)
  {
    if HasTime(s, t) && s[0].time != t {
      var k :| 0 <= k < |s| && s[k].time == t;
      assert s[1..][k - 1] == s[k];
    }
    if HasTime(s[1..], t) {
      var k :| 0 <= k < |s[1..]| && s[1..][k].time == t;
      assert s[k + 1] == s[1..][k];
    }
  }

  /** A compare slot that is left unmatched comes from compareWith and names a time the slots lack. */
  lemma {:induction false} UnmatchedMembers(slots: seq<Slot>, compareWith: seq<Slot>)
    ensures forall x :: x in Unmatched(slots, compareWith) ==> x in compareWith && !HasTime(slots, x.time)
  {
    if compareWith != [] {
      UnmatchedMembers(slots, compareWith[1..]);
    }
  }

  /** One host's result: every slot names that host alone, and no two slots share a time. */
  predicate OfferedBy(slots: seq<Slot>, host: string)
  {
    DistinctTimes(slots) && forall k :: 0 <= k < |slots| ==> slots[k].users == [host]
  }

  /** The slots, each gaining host at the end of its users when compareWith offers its time. */
  function Mark(slots: seq<Slot>, compareWith: seq<Slot>, host: string): seq<Slot>
  {
    seq(|slots|, k requires 0 <= k < |slots| =>
      if HasTime(compareWith, slots[k].time) then Slot(slots[k].time, slots[k].users + [host]) else slots[k])
  }

  /** The matched case of one step of RoundRobinAttribution. */
  lemma AttributionMatched(slots: seq<Slot>, compareWith: seq<Slot>, host: string)
    requires DistinctTimes(slots) && OfferedBy(compareWith, host) && compareWith != []
    requires HasTime(slots, compareWith[0].time)
    ensures var next := RoundRobinStep(slots, compareWith[0]);
      DistinctTimes(next)
      && Mark(next, compareWith[1..], host) == Mark(slots, compareWith, host)
      && Unmatched(next, compareWith[1..]) == Unmatched(slots, compareWith)
  {
    var c := compareWith[0];
    var tail := compareWith[1..];
    var next := RoundRobinStep(slots, c);
    RoundRobinStepMatched(slots, c);
    var m := FindIndex(slots, c.time);
    forall i, j | 0 <= i < j < |next| ensures next[i].time != next[j].time {
      assert Times(next)[i] == Times(slots)[i] && Times(next)[j] == Times(slots)[j];
    }
    forall k | 0 <= k < |tail| ensures HasTime(next, tail[k].time) == HasTime(slots, tail[k].time) {
      var t := tail[k].time;
      if HasTime(next, t) {
        var i :| 0 <= i < |next| && next[i].time == t;
        assert Times(next)[i] == Times(slots)[i];
      }
      if HasTime(slots, t) {
        var i :| 0 <= i < |slots| && slots[i].time == t;
        assert Times(next)[i] == Times(slots)[i];
      }
    }
    UnmatchedCongruent(next, slots, tail);
    var a, b := Mark(next, tail, host), Mark(slots, compareWith, host);
    forall k | 0 <= k < |slots| ensures a[k] == b[k] {
      HasTimeCons(compareWith, slots[k].time);
      if k == m {
        forall i | 0 <= i < |tail| ensures tail[i].time != c.time {
          assert tail[i] == compareWith[i + 1];
        }
      } else {
        assert slots[k].time != c.time;
      }
    }
  }

  /** The unmatched case of one step of RoundRobinAttribution. */
  lemma AttributionUnmatched(slots: seq<Slot>, compareWith: seq<Slot>, host: string)
    requires DistinctTimes(slots) && OfferedBy(compareWith, host) && compareWith != []
    requires !HasTime(slots, compareWith[0].time)
    ensures var next := RoundRobinStep(slots, compareWith[0]);
      DistinctTimes(next)
      && Mark(next, compareWith[1..], host) == Mark(slots, compareWith, host) + [compareWith[0]]
      && Unmatched(next, compareWith[1..]) == Unmatched(slots, compareWith[1..])
      && Unmatched(slots, compareWith) == [compareWith[0]] + Unmatched(slots, compareWith[1..])
  {
    var c := compareWith[0];
    var tail := compareWith[1..];
    var next := RoundRobinStep(slots, c);
    RoundRobinStepUnmatched(slots, c);
    assert next == slots + [c];
    forall i | 0 <= i < |tail| ensures tail[i].time != c.time {
      assert tail[i] == compareWith[i + 1];
    }
    forall i, j | 0 <= i < j < |next| ensures next[i].time != next[j].time {
      if j == |slots| {
        assert next[i] == slots[i];
      }
    }
    forall k | 0 <= k < |tail| ensures HasTime(next, tail[k].time) == HasTime(slots, tail[k].time) {
      var t := tail[k].time;
      assert t == compareWith[k + 1].time && t != c.time;
      if HasTime(next, t) {
        var i :| 0 <= i < |next| && next[i].time == t;
        assert i < |slots| && next[i] == slots[i];
      }
      if HasTime(slots, t) {
        var i :| 0 <= i < |slots| && slots[i].time == t;
        assert next[i] == slots[i];
      }
    }
    UnmatchedCongruent(next, slots, tail);
    var a, b := Mark(next, tail, host), Mark(slots, compareWith, host) + [c];
    forall k | 0 <= k < |next| ensures a[k] == b[k] {
      if k < |slots| {
        HasTimeCons(compareWith, slots[k].time);
        assert slots[k].time != c.time;
        assert next[k] == slots[k];
      }
    }
    assert a == b;
  }

  /**
   * ROUND_ROBIN pooling of one host's result: each slot gains that host exactly
   * when the host offers its time, and the host's other slots are appended.
   */
  lemma {:induction false} RoundRobinAttribution(slots: seq<Slot>, compareWith: seq<Slot>, host: string)
    requires DistinctTimes(slots) && OfferedBy(compareWith, host)
    ensures Tagged(compareWith)
    ensures RoundRobinSpec(slots, compareWith) == Mark(slots, compareWith, host) + Unmatched(slots, compareWith)
    decreases |compareWith|, 1
  {
    OfferedByTagged(compareWith, host);
    if compareWith == [] {
      assert Mark(slots, compareWith, host) == slots;
    } else if HasTime(slots, compareWith[0].time) {
      AttributionMatchedCase(slots, compareWith, host);
    } else {
      AttributionUnmatchedCase(slots, compareWith, host);
    }
  }

  /** The ROUND_ROBIN method is its first step followed by the rest. */
  lemma RoundRobinSpecCons(slots: seq<Slot>, compareWith: seq<Slot>)
    requires Tagged(compareWith) && compareWith != []
    ensures RoundRobinSpec(slots, compareWith) == RoundRobinSpec(RoundRobinStep(slots, compareWith[0]), compareWith[1..])
  {
  }

  /** RoundRobinAttribution when the first compare slot's time is already present. */
  lemma {:induction false} AttributionMatchedCase(slots: seq<Slot>, compareWith: seq<Slot>, host: string)
    requires DistinctTimes(slots) && OfferedBy(compareWith, host) && Tagged(compareWith) && compareWith != []
    requires OfferedBy(compareWith[1..], host)
    requires HasTime(slots, compareWith[0].time)
    ensures RoundRobinSpec(slots, compareWith) == Mark(slots, compareWith, host) + Unmatched(slots, compareWith)
    decreases |compareWith|, 0
  {
    var c, tail := compareWith[0], compareWith[1..];
    var next := RoundRobinStep(slots, c);
    AttributionMatched(slots, compareWith, host);
    RoundRobinAttribution(next, tail, host);
    RoundRobinSpecCons(slots, compareWith);
  }

  /** RoundRobinAttribution when the first compare slot's time is new. */
  lemma {:induction false} AttributionUnmatchedCase(slots: seq<Slot>, compareWith: seq<Slot>, host: string)
    requires DistinctTimes(slots) && OfferedBy(compareWith, host) && Tagged(compareWith) && compareWith != []
    requires OfferedBy(compareWith[1..], host)
    requires !HasTime(slots, compareWith[0].time)
    ensures RoundRobinSpec(slots, compareWith) == Mark(slots, compareWith, host) + Unmatched(slots, compareWith)
    decreases |compareWith|, 0
  {
    var c, tail := compareWith[0], compareWith[1..];
    var next := RoundRobinStep(slots, c);
    AttributionUnmatched(slots, compareWith, host);
    RoundRobinAttribution(next, tail, host);
    RoundRobinSpecCons(slots, compareWith);
    var marked := Mark(slots, compareWith, host);
    calc {
      RoundRobinSpec(slots, compareWith);
      RoundRobinSpec(next, tail);
      Mark(next, tail, host) + Unmatched(next, tail);
      (marked + [c]) + Unmatched(slots, tail);
      marked + ([c] + Unmatched(slots, tail));
      marked + Unmatched(slots, compareWith);
    }
  }

  /** One host's result is tagged, and so is what follows its first slot. */
  lemma OfferedByTagged(compareWith: seq<Slot>, host: string)
    requires OfferedBy(compareWith, host)
    ensures Tagged(compareWith)
    ensures compareWith != [] ==> OfferedBy(compareWith[1..], host)
  {
    forall k | 0 <= k < |compareWith| ensures |compareWith[k].users| > 0 {
      assert compareWith[k].users == [host];
    }
    if compareWith != [] {
      var tail := compareWith[1..];
      forall i, j | 0 <= i < j < |tail| ensures tail[i].time != tail[j].time {
        assert tail[i] == compareWith[i + 1] && tail[j] == compareWith[j + 1];
      }
    }
  }

  /** Every result is one host's, and hosts names them in the same order. */
  predicate HostedBy(results: seq<seq<Slot>>, hosts: seq<string>)
  {
    |hosts| == |results| && forall j :: 0 <= j < |results| ==> OfferedBy(results[j], hosts[j])
  }

  /** The hosts, in the order of the results, whose result offers t. */
  function Offering(results: seq<seq<Slot>>, hosts: seq<string>, t: int): seq<string>
    requires |hosts| == |results|
    decreases |results|
  {
    if results == [] then []
    else Offering(results[..|results| - 1], hosts[..|hosts| - 1], t)
         + (if HasTime(results[|results| - 1], t) then [hosts[|hosts| - 1]] else [])
  }

  /** No host offers a time that no result holds. */
  lemma {:induction false} OfferingOfNone(results: seq<seq<Slot>>, hosts: seq<string>, t: int)
    requires |hosts| == |results| && !InSome(results, t)
    ensures Offering(results, hosts, t) == []
    decreases |results|
  {
    if results != [] {
      var init := results[..|results| - 1];
      assert !HasTime(results[|results| - 1], t);
      forall j | 0 <= j < |init| ensures !HasTime(init[j], t) {
        assert results[j] == init[j];
      }
      OfferingOfNone(init, hosts[..|hosts| - 1], t);
    }
  }

  /** A time is in some of a non-empty list of results iff the first or a later result holds it. */
  lemma InSomeCons(results: seq<seq<Slot>>, t: int)
    requires results != []
    ensures InSome(results, t) <==> HasTime(results[0], t) || InSome(results[1..], t)
  {
    if InSome(results, t) && !HasTime(results[0], t) {
      var j :| 0 <= j < |results| && HasTime(results[j], t);
      assert results[1..][j - 1] == results[j];
    }
    if InSome(results[1..], t) {
      var j :| 0 <= j < |results[1..]| && HasTime(results[1..][j], t);
      assert results[j + 1] == results[1..][j];
    }
  }

  /** The later results of hosted results may be pooled by ROUND_ROBIN. */
  lemma HostedPoolable(results: seq<seq<Slot>>, hosts: seq<string>)
    requires |results| > 0 && HostedBy(results, hosts)
    ensures Poolable(RoundRobin, results[1..])
  {
    forall j | 0 <= j < |results[1..]| ensures Tagged(results[1..][j]) {
      assert results[1..][j] == results[j + 1];
      var r, h := results[j + 1], hosts[j + 1];
      forall k | 0 <= k < |r| ensures |r[k].users| > 0 {
        assert r[k].users == [h];
      }
    }
  }

  /** Every slot names exactly the hosts whose result offers its time. */
  predicate Attributed(slots: seq<Slot>, results: seq<seq<Slot>>, hosts: seq<string>)
    requires |hosts| == |results|
  {
    forall k :: 0 <= k < |slots| ==> slots[k].users == Offering(results, hosts, slots[k].time)
  }

  /**
   * The ROUND_ROBIN fold names, on the slot at each time, exactly the hosts
   * whose result offers that time, in the order of the results.
   */
  lemma {:induction false} RoundRobinFoldAttribution(results: seq<seq<Slot>>, hosts: seq<string>)
    requires |results| > 0 && HostedBy(results, hosts)
    ensures Poolable(RoundRobin, results[1..])
    ensures Attributed(FoldPools(RoundRobin, results[0], results[1..]), results, hosts)
    decreases |results|
  {
    HostedPoolable(results, hosts);
    var first := results[0];
    var union := FoldPools(RoundRobin, first, results[1..]);
    var n := |results|;
    if n == 1 {
      assert results[1..] == [];
      forall k | 0 <= k < |union| ensures union[k].users == Offering(results, hosts, union[k].time) {
        assert HasTime(results[0], union[k].time);
        assert results[..0] == [];
      }
    } else {
      var init := results[..n - 1];
      var last := results[n - 1];
      var h := hosts[n - 1];
      assert init[0] == first;
      assert init[1..] == results[1..][..n - 2];
      assert results[1..][n - 2] == last;
      assert HostedBy(init, hosts[..n - 1]);
      RoundRobinFoldAttribution(init, hosts[..n - 1]);
      var acc := FoldPools(RoundRobin, first, init[1..]);
      assert FoldPools(RoundRobin, init[0], init[1..]) == acc;
      assert union == RoundRobinSpec(acc, last);
      RoundRobinFoldDistinct(first, init[1..]);
      assert OfferedBy(last, h);
      RoundRobinAttribution(acc, last, h);
      UnmatchedMembers(acc, last);
      RoundRobinFoldTimes(first, init[1..]);
      forall k | 0 <= k < |union| ensures union[k].users == Offering(results, hosts, union[k].time) {
        var t := union[k].time;
        assert Offering(results, hosts, t)
            == Offering(init, hosts[..n - 1], t) + (if HasTime(last, t) then [h] else []);
        if k < |acc| {
          assert union[k] == Mark(acc, last, h)[k];
          assert acc[k].users == Offering(init, hosts[..n - 1], acc[k].time);
        } else {
          var x := union[k];
          assert x == Unmatched(acc, last)[k - |acc|];
          assert x in last && !HasTime(acc, t);
          var i :| 0 <= i < |last| && last[i] == x;
          assert HasTime(last, t);
          InSomeCons(init, t);
          OfferingOfNone(init, hosts[..n - 1], t);
        }
      }
    }
  }

  /** The attribution of the ROUND_ROBIN fold survives the sort. */
  lemma SortedAttribution(results: seq<seq<Slot>>, hosts: seq<string>)
    requires |results| > 0 && HostedBy(results, hosts)
    ensures Poolable(RoundRobin, results[1..])
    ensures Attributed(SortByTime(FoldPools(RoundRobin, results[0], results[1..])), results, hosts)
  {
    RoundRobinFoldAttribution(results, hosts);
    var union := FoldPools(RoundRobin, results[0], results[1..]);
    var sorted := SortByTime(union);
    forall i | 0 <= i < |sorted| ensures sorted[i].users == Offering(results, hosts, sorted[i].time) {
      var x := sorted[i];
      assert x in multiset(sorted);
      assert x in union;
      var k :| 0 <= k < |union| && union[k] == x;
    }
  }

  /**
   * ROUND_ROBIN pooling of two or more tagged results: the sorted slots offer
   * exactly the times offered by some result, each time once when the first
   * result has distinct times.
   */
  lemma PooledRoundRobin(results: seq<seq<Slot>>, hosts: seq<string>)
    requires |results| >= 2 && Poolable(RoundRobin, results[1..])
    ensures var union := FoldPools(RoundRobin, results[0], results[1..]);
      Pooled(results, Some(RoundRobin)) == Ok(SortByTime(union))
      && Extends(results[0], union)
      && (forall t :: HasTime(union, t) <==> InSome(results, t))
      && (DistinctTimes(results[0]) ==> DistinctTimes(union))
      && multiset(SortByTime(union)) == multiset(union)
      && (HostedBy(results, hosts) ==> Attributed(SortByTime(union), results, hosts))
  {
    if HostedBy(results, hosts) {
      SortedAttribution(results, hosts);
    }
    RoundRobinFoldExtends(results[0], results[1..]);
    RoundRobinFoldTimes(results[0], results[1..]);
    if DistinctTimes(results[0]) {
      RoundRobinFoldDistinct(results[0], results[1..]);
    }
    forall t ensures InSome(results, t) <==> HasTime(results[0], t) || InSome(results[1..], t) {
      InSomeCons(results, t);
    }
  }

  // ---------------------------------------------------------------------------
  // Branches of the result continuation

  /** With exactly one result the slots are that result sorted by time, whatever the scheduling type. */
  lemma PooledSingle(results: seq<seq<Slot>>, st: Option<SchedulingType>)
    requires |results| == 1
    ensures Pooled(results, st).Ok?
    ensures SortedByTime(Pooled(results, st).value)
    ensures multiset(Pooled(results, st).value) == multiset(results[0])
  {
  }

  /** Without a scheduling type, any number of results other than one is an error. */
  lemma PooledWithoutSchedulingType(results: seq<seq<Slot>>)
    requires |results| != 1
    ensures Pooled(results, None) == Err(NoPoolingMethod(None))
  {
  }

  /** Whatever succeeds is in non-decreasing time order. */
  lemma PooledSorted(results: seq<seq<Slot>>, st: Option<SchedulingType>)
    requires st.Some? && |results| > 1 ==> Poolable(st.value, results[1..])
    ensures Pooled(results, st).Ok? ==> SortedByTime(Pooled(results, st).value)
  {
  }

  /** Sorting introduces no ties. */
  lemma SortNoTies(s: seq<Slot>)
    requires NoTies(s)
    ensures NoTies(SortByTime(s))
  {
    forall x | x in SortByTime(s) ensures x in s {
      assert x in multiset(SortByTime(s));
    }
    NoTiesOfMembers(SortByTime(s), s);
  }

  /** The pooling fold over a first result with distinct times has no ties. */
  lemma FoldNoTies(st: SchedulingType, first: seq<Slot>, rest: seq<seq<Slot>>)
    requires Poolable(st, rest) && DistinctTimes(first)
    ensures NoTies(FoldPools(st, first, rest))
  {
    if st == Collective {
      CollectiveFold(first, rest);
      CommonMembership(first, rest);
      DistinctTimesNoTies(first);
      NoTiesOfMembers(FoldPools(st, first, rest), first);
    } else {
      RoundRobinFoldDistinct(first, rest);
      DistinctTimesNoTies(FoldPools(st, first, rest));
    }
  }

  /** When the first result has distinct times, a successful pooled result has no ties. */
  lemma PooledNoTies(results: seq<seq<Slot>>, st: Option<SchedulingType>)
    requires st.Some? && |results| > 1 ==> Poolable(st.value, results[1..])
    requires |results| > 0 ==> DistinctTimes(results[0])
    ensures Pooled(results, st).Ok? ==> NoTies(Pooled(results, st).value)
  {
    if |results| == 1 {
      DistinctTimesNoTies(results[0]);
      SortNoTies(results[0]);
    } else if |results| == 0 {
      assert SortByTime([]) == [];
    } else if st.Some? {
      FoldNoTies(st.value, results[0], results[1..]);
      SortNoTies(FoldPools(st.value, results[0], results[1..]));
    }
  }

  /**
   * The comparator's answer for equal times never matters here: when the first
   * result has distinct times, every time-ordered permutation of a successful
   * pooled result is that result.
   */
  lemma PooledOrderDetermined(results: seq<seq<Slot>>, st: Option<SchedulingType>, r: seq<Slot>)
    requires st.Some? && |results| > 1 ==> Poolable(st.value, results[1..])
    requires |results| > 0 ==> DistinctTimes(results[0])
    requires Pooled(results, st).Ok? && SortedByTime(r) && multiset(r) == multiset(Pooled(results, st).value)
    ensures r == Pooled(results, st).value
  {
    PooledNoTies(results, st);
    PooledSorted(results, st);
    SortedPermutationUnique(Pooled(results, st).value, r);
  }
}
