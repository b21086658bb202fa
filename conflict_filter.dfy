/**
 * The conflict filter of the slot hook (getFilteredTimes): prunes the candidate
 * start times of one user against that user's busy intervals. Times are integer
 * minutes; the event length and the before/after buffers are durations in minutes.
 */
module ConflictFilter {
  import opened Subsequences

  /** A busy interval reported by a user's calendar. */
  datatype TimeRange = TimeRange(start: int, end: int)

  /** The event-type durations the filter uses. */
  datatype EventTiming = EventTiming(eventLength: nat, beforeBuffer: nat, afterBuffer: nat)

  /** dayjs `x.isBetween(lo, hi)` with its default exclusive bounds, for lo <= hi. */
  predicate Between(x: int, lo: int, hi: int)
  {
    lo < x < hi
  }

  /** dayjs `x.isBetween(lo, hi, null, "[)")`, for lo <= hi. */
  predicate BetweenHalfOpen(x: int, lo: int, hi: int)
  {
    lo <= x < hi
  }

  /** End of the event started at t. */
  function SlotEnd(t: int, ev: EventTiming): int { t + ev.eventLength }

  /** End of the event started at t, padded by the after buffer. */
  function SlotEndWithAfter(t: int, ev: EventTiming): int { t + ev.eventLength + ev.afterBuffer }

  /** Start of the event started at t, padded by the before buffer. */
  function SlotStartWithBefore(t: int, ev: EventTiming): int { t - ev.beforeBuffer }

  // The five clash tests, in the order the source tries them.

  /** The slot starts inside the busy interval, which is half open. */
  predicate StartInBusy(t: int, b: TimeRange)
  {
    BetweenHalfOpen(t, b.start, b.end)
  }

  /** The slot ends strictly inside the busy interval. */
  predicate EndInBusy(t: int, b: TimeRange, ev: EventTiming)
  {
    Between(SlotEnd(t, ev), b.start, b.end)
  }

  /** The busy interval starts strictly inside the slot. */
  predicate BusyStartsInSlot(t: int, b: TimeRange, ev: EventTiming)
  {
    Between(b.start, t, SlotEnd(t, ev))
  }

  /** The buffered slot start lies strictly inside the busy interval widened by both buffers. */
  predicate BeforeBufferClash(t: int, b: TimeRange, ev: EventTiming)
  {
    Between(SlotStartWithBefore(t, ev), b.start - ev.beforeBuffer, b.end + ev.afterBuffer)
  }

  /** The buffered slot end lies strictly inside the busy interval widened by both buffers. */
  predicate AfterBufferClash(t: int, b: TimeRange, ev: EventTiming)
  {
    Between(SlotEndWithAfter(t, ev), b.start - ev.beforeBuffer, b.end + ev.afterBuffer)
  }

  /** One busy interval disqualifies the candidate t. */
  predicate Conflicts(t: int, b: TimeRange, ev: EventTiming)
  {
    StartInBusy(t, b) || EndInBusy(t, b, ev) || BusyStartsInSlot(t, b, ev)
    || BeforeBufferClash(t, b, ev) || AfterBufferClash(t, b, ev)
  }

  /** The buffered end of the slot at t passes the finalization time. */
  predicate PastFinalization(t: int, ev: EventTiming, finalization: int)
  {
    SlotEndWithAfter(t, ev) > finalization
  }

  /** No busy interval disqualifies the candidate t. */
  predicate ClashFree(t: int, busy: seq<TimeRange>, ev: EventTiming)
  {
    forall k :: 0 <= k < |busy| ==> !Conflicts(t, busy[k], ev)
  }

  /** The candidate t stays: it is within the finalization time and clashes with no busy interval. */
  predicate Survives(t: int, busy: seq<TimeRange>, ev: EventTiming, finalization: int)
  {
    !PastFinalization(t, ev, finalization) && ClashFree(t, busy, ev)
  }

  /** The candidates of s that survive, in their order in s. */
  function FilterSpec(s: seq<int>, busy: seq<TimeRange>, ev: EventTiming, finalization: int): (r: seq<int>)
    ensures |r| <= |s|
    ensures forall x :: x in r <==> x in s && Survives(x, busy, ev, finalization)
  {
    if s == [] then []
    else
      var rest := FilterSpec(s[1..], busy, ev, finalization);
      assert forall x :: x in s <==> x == s[0] || x in s[1..];
      if Survives(s[0], busy, ev, finalization) then [s[0]] + rest else rest
  }

  /** The finalization time: the end of the event started at the last candidate. */
  function FinalizationTime(times: seq<int>, ev: EventTiming): int
    requires |times| > 0
  {
    times[|times| - 1] + ev.eventLength
  }

  /** What getFilteredTimes returns for the candidates `times`. */
  function FilteredTimes(times: seq<int>, busy: seq<TimeRange>, ev: EventTiming): seq<int>
  {
    if |times| < 1 then [] else FilterSpec(times, busy, ev, FinalizationTime(times, ev))
  }

  /** `Array.prototype.splice(i, 1)` on the live prefix a[..n]: the later elements move down by one. */
  method Splice(a: array<int>, n: nat, i: nat)
    requires i < n <= a.Length
    modifies a
    ensures a[..n - 1] == old(a[..n])[..i] + old(a[..n])[i + 1..]
    ensures a[n - 1..] == old(a[n - 1..])
  {
    var k := i;
    while k < n - 1
      invariant i <= k <= n - 1
      invariant a[..i] == old(a[..i])
      invariant forall m :: i <= m < k ==> a[m] == old(a[m + 1])
      invariant forall m :: k <= m < a.Length ==> a[m] == old(a[m])
    {
      a[k] := a[k + 1];
      k := k + 1;
    }
    ghost var live := old(a[..n]);
    ghost var moved := live[..i] + live[i + 1..];
    forall m | 0 <= m < n - 1
      ensures a[..n - 1][m] == moved[m]
    {
      if m < i {
        assert moved[m] == live[m] == old(a[m]);
        assert a[m] == a[..i][m];
      } else {
        assert moved[m] == live[i + 1..][m - i] == live[m + 1] == old(a[m + 1]);
      }
    }
  }

  /**
   * The `busy.every(...)` scan for the candidate t = a[i]: stops at the first
   * clashing interval, after splicing a[i] out of the live prefix a[..n].
   */
  method SpliceOnFirstClash(a: array<int>, n: nat, i: nat, busy: seq<TimeRange>, ev: EventTiming) returns (len: nat)
    requires i < n <= a.Length
    modifies a
    ensures ClashFree(old(a[i]), busy, ev) ==> len == n && a[..] == old(a[..])
    ensures !ClashFree(old(a[i]), busy, ev) ==> len == n - 1 && a[..len] == old(a[..n])[..i] + old(a[..n])[i + 1..]
  {
    var t := a[i];
    len := n;
    var j := 0;
    var removed := false;
    while j < |busy| && !removed
      invariant 0 <= j <= |busy|
      invariant !removed ==> forall k :: 0 <= k < j ==> !Conflicts(t, busy[k], ev)
      invariant removed ==> 0 < j && Conflicts(t, busy[j - 1], ev)
      invariant !removed ==> a[..] == old(a[..]) && len == n
      invariant removed ==> len == n - 1 && a[..len] == old(a[..n])[..i] + old(a[..n])[i + 1..]
    {
      if Conflicts(t, busy[j], ev) {
        Splice(a, n, i);
        len := n - 1;
        removed := true;
      }
      j := j + 1;
    }
  }

  /** One backward step of the filter on the candidates orig: candidate i joins the survivors after it, or is dropped. */
  lemma FilterStep(orig: seq<int>, i: nat, done: seq<int>, cur: seq<int>, busy: seq<TimeRange>, ev: EventTiming, finalization: int)
    requires i < |orig|
    requires done == FilterSpec(orig[i + 1..], busy, ev, finalization)
    requires cur == orig[..i + 1] + done
    ensures cur[i] == orig[i]
    ensures Survives(orig[i], busy, ev, finalization)
            ==> cur == orig[..i] + FilterSpec(orig[i..], busy, ev, finalization)
    ensures !Survives(orig[i], busy, ev, finalization)
            ==> cur[..i] + cur[i + 1..] == orig[..i] + FilterSpec(orig[i..], busy, ev, finalization)
  {
    assert orig[i..][1..] == orig[i + 1..];
    assert orig[..i + 1] == orig[..i] + [orig[i]];
    assert cur[..i] == orig[..i];
    assert cur[i + 1..] == done;
  }

  /**
   * getFilteredTimes: walks the candidates from the last to the first and splices
   * out, in place, every one that passes the finalization time or that the first
   * clashing busy interval disqualifies. The live candidates afterwards are
   * times[..len].
   */
  method GetFilteredTimes(times: array<int>, busy: seq<TimeRange>, ev: EventTiming) returns (len: nat)
    modifies times
    ensures len <= times.Length
    ensures times[..len] == FilteredTimes(old(times[..]), busy, ev)
  {
    if times.Length < 1 {
      return 0;
    }
    ghost var orig := times[..];
    var n := times.Length;
    var finalization := times[n - 1] + ev.eventLength;
    len := n;
    var i: int := n - 1;
    assert orig[n..] == [];
    while i >= 0
      invariant -1 <= i < n
      invariant i + 1 <= len <= n
      invariant times[..len] == orig[..i + 1] + FilterSpec(orig[i + 1..], busy, ev, finalization)
    {
      ghost var cur := times[..len];
      FilterStep(orig, i, FilterSpec(orig[i + 1..], busy, ev, finalization), cur, busy, ev, finalization);
      var t := times[i];
      assert t == cur[i] == orig[i];
      if t + ev.eventLength + ev.afterBuffer > finalization {
        Splice(times, len, i);
        len := len - 1;
      } else {
        len := SpliceOnFirstClash(times, len, i, busy, ev);
      }
      i := i - 1;
    }
    assert orig[..0] == [] && orig[0..] == orig;
  }

  // ---------------------------------------------------------------------------
  // Properties of the filter

  /** The survivors are an order-preserving subsequence of the candidates. */
  lemma {:induction false} FilterIsSubsequence(s: seq<int>, busy: seq<TimeRange>, ev: EventTiming, finalization: int)
    ensures IsSubsequence(FilterSpec(s, busy, ev, finalization), s)
  {
    if s != [] {
      FilterIsSubsequence(s[1..], busy, ev, finalization);
      var rest := FilterSpec(s[1..], busy, ev, finalization);
      if Survives(s[0], busy, ev, finalization) {
        assert ([s[0]] + rest)[1..] == rest;
      } else if rest != [] {
        assert IsSubsequence(rest, s[1..]);
      }
    }
  }

  /** Whether a candidate is removed depends on that candidate alone: filtering distributes over concatenation. */
  lemma {:induction false} FilterConcat(a: seq<int>, b: seq<int>, busy: seq<TimeRange>, ev: EventTiming, finalization: int)
    ensures FilterSpec(a + b, busy, ev, finalization)
         == FilterSpec(a, busy, ev, finalization) + FilterSpec(b, busy, ev, finalization)
  {
    if a == [] {
      assert a + b == b;
    } else {
      assert (a + b)[0] == a[0];
      assert (a + b)[1..] == a[1..] + b;
      FilterConcat(a[1..], b, busy, ev, finalization);
    }
  }

  /** When every candidate survives, the filter returns them all unchanged. */
  lemma {:induction false} FilterKeepsAllSurvivors(s: seq<int>, busy: seq<TimeRange>, ev: EventTiming, finalization: int)
    requires forall k :: 0 <= k < |s| ==> Survives(s[k], busy, ev, finalization)
    ensures FilterSpec(s, busy, ev, finalization) == s
  {
    if s != [] {
      assert Survives(s[0], busy, ev, finalization);
      FilterKeepsAllSurvivors(s[1..], busy, ev, finalization);
    }
  }

  /** Adding busy intervals never adds survivors: the survivors under more busy intervals are a subsequence of those under fewer. */
  lemma {:induction false} MoreBusyFewerSurvivors(s: seq<int>, busy: seq<TimeRange>, more: seq<TimeRange>, ev: EventTiming, finalization: int)
    requires forall b :: b in busy ==> b in more
    ensures IsSubsequence(FilterSpec(s, more, ev, finalization), FilterSpec(s, busy, ev, finalization))
  {
    if s != [] {
      MoreBusyFewerSurvivors(s[1..], busy, more, ev, finalization);
      var fewer := FilterSpec(s[1..], busy, ev, finalization);
      var fewerMore := FilterSpec(s[1..], more, ev, finalization);
      if Survives(s[0], more, ev, finalization) {
        forall k | 0 <= k < |busy| ensures !Conflicts(s[0], busy[k], ev) {
          assert busy[k] in more;
          var m :| 0 <= m < |more| && more[m] == busy[k];
        }
        assert ClashFree(s[0], busy, ev);
        assert ([s[0]] + fewerMore)[1..] == fewerMore;
        assert ([s[0]] + fewer)[1..] == fewer;
      } else if Survives(s[0], busy, ev, finalization) && fewerMore != [] {
        assert ([s[0]] + fewer)[1..] == fewer;
      }
    }
  }

  /** getFilteredTimes keeps exactly the candidates within the finalization time that clash with no busy interval. */
  lemma FilteredTimesMembership(times: seq<int>, busy: seq<TimeRange>, ev: EventTiming, x: int)
    requires |times| > 0
    ensures x in FilteredTimes(times, busy, ev)
        <==> x in times
             && SlotEndWithAfter(x, ev) <= times[|times| - 1] + ev.eventLength
             && forall k :: 0 <= k < |busy| ==>
                  !(BetweenHalfOpen(x, busy[k].start, busy[k].end)
                    || Between(x + ev.eventLength, busy[k].start, busy[k].end)
                    || Between(busy[k].start, x, x + ev.eventLength)
                    || Between(x - ev.beforeBuffer, busy[k].start - ev.beforeBuffer, busy[k].end + ev.afterBuffer)
                    || Between(x + ev.eventLength + ev.afterBuffer, busy[k].start - ev.beforeBuffer, busy[k].end + ev.afterBuffer))
  {
  }

  /** The result of getFilteredTimes is an order-preserving subsequence of its input. */
  lemma FilteredTimesIsSubsequence(times: seq<int>, busy: seq<TimeRange>, ev: EventTiming)
    ensures IsSubsequence(FilteredTimes(times, busy, ev), times)
  {
    if |times| > 0 {
      FilterIsSubsequence(times, busy, ev, FinalizationTime(times, ev));
    }
  }

  /** Strictly increasing candidates give strictly increasing survivors. */
  lemma FilteredTimesIncreasing(times: seq<int>, busy: seq<TimeRange>, ev: EventTiming)
    requires StrictlyIncreasing(times)
    ensures StrictlyIncreasing(FilteredTimes(times, busy, ev))
  {
    FilteredTimesIsSubsequence(times, busy, ev);
    SubsequenceOfIncreasing(FilteredTimes(times, busy, ev), times);
  }

  /** Without an after buffer the finalization check removes no candidate that is no later than the last one. */
  lemma BoundaryKeepsAllWithoutAfterBuffer(times: seq<int>, ev: EventTiming)
    requires |times| > 0 && ev.afterBuffer == 0
    requires forall k :: 0 <= k < |times| ==> times[k] <= times[|times| - 1]
    ensures forall k :: 0 <= k < |times| ==> !PastFinalization(times[k], ev, FinalizationTime(times, ev))
  {
  }

  /** With a positive after buffer the last candidate always passes the finalization time and is removed. */
  lemma LastRemovedWithAfterBuffer(times: seq<int>, busy: seq<TimeRange>, ev: EventTiming)
    requires |times| > 0 && ev.afterBuffer > 0
    ensures PastFinalization(times[|times| - 1], ev, FinalizationTime(times, ev))
    ensures times[|times| - 1] !in FilteredTimes(times, busy, ev)
  {
  }

  /** Without busy intervals and without an after buffer, increasing candidates pass through unchanged. */
  lemma NoBusyNoAfterBufferIsIdentity(times: seq<int>, ev: EventTiming)
    requires StrictlyIncreasing(times) && ev.afterBuffer == 0
    ensures FilteredTimes(times, [], ev) == times
  {
    if |times| > 0 {
      BoundaryKeepsAllWithoutAfterBuffer(times, ev);
      FilterKeepsAllSurvivors(times, [], ev, FinalizationTime(times, ev));
    }
  }

  /** Adding busy intervals to a user's calendar never adds survivors. */
  lemma FilteredTimesAntitone(times: seq<int>, busy: seq<TimeRange>, more: seq<TimeRange>, ev: EventTiming)
    requires forall b :: b in busy ==> b in more
    ensures IsSubsequence(FilteredTimes(times, more, ev), FilteredTimes(times, busy, ev))
  {
    if |times| > 0 {
      MoreBusyFewerSurvivors(times, busy, more, ev, FinalizationTime(times, ev));
    }
  }
}
