/**
 * The slot hook around the filter and the pooling engine: turns each user's
 * availability response into tagged slots, and keeps the hook's state (slots,
 * loading, error) as the query starts, succeeds or fails.
 */
module UseSlots {
  import opened Wrappers
  import opened Subsequences
  import opened ConflictFilter
  import opened Pooling
  import opened PoolingProperties

  // ---------------------------------------------------------------------------
  // The user name in the response URL: `url.substring(url.lastIndexOf("/") + 1, url.indexOf("?"))`

  /** `s.lastIndexOf(c)`: the last index of c in s, or -1. */
  function LastIndexOf(s: string, c: char): (r: int)
    ensures -1 <= r < |s|
    ensures r == -1 ==> c !in s
    ensures r >= 0 ==> s[r] == c && c !in s[r + 1..]
  {
    if s == [] then -1
    else if s[|s| - 1] == c then |s| - 1
    else
      assert s[..|s| - 1] + [s[|s| - 1]] == s;
      LastIndexOf(s[..|s| - 1], c)
  }

  /** `s.indexOf(c)`: the first index of c in s, or -1. */
  function IndexOf(s: string, c: char): (r: int)
    ensures -1 <= r < |s|
    ensures r == -1 ==> c !in s
    ensures r >= 0 ==> s[r] == c && c !in s[..r]
  {
    if s == [] then -1
    else if s[0] == c then 0
    else
      var m := IndexOf(s[1..], c);
      assert s == [s[0]] + s[1..];
      if m == -1 then -1
      else
        assert s[..m + 1] == [s[0]] + s[1..][..m];
        m + 1
  }

  /** A substring bound clamped to 0..n, as `String.prototype.substring` does. */
  function Clamp(x: int, n: nat): nat
  {
    if x < 0 then 0 else if x > n then n else x
  }

  /** `s.substring(start, end)`: bounds clamped to the string, and swapped when start > end. */
  function Substring(s: string, start: int, end: int): string
  {
    var a := Clamp(start, |s|);
    var b := Clamp(end, |s|);
    if a <= b then s[a..b] else s[b..a]
  }

  /** The user name the hook reads from the response URL. */
  function UserFromUrl(url: string): string
  {
    Substring(url, LastIndexOf(url, '/') + 1, IndexOf(url, '?'))
  }

  /** The user name between the last `/` and the `?` of an availability URL is what comes back. */
  lemma UserFromUrlRoundTrip(prefix: string, user: string, query: string)
    requires '?' !in prefix && '/' !in user && '?' !in user && '/' !in query
    ensures UserFromUrl(prefix + "/" + user + "?" + query) == user
  {
    var url := prefix + "/" + user + "?" + query;
    var slash := |prefix|;
    var mark := |prefix| + 1 + |user|;
    assert url[slash] == '/' && url[mark] == '?';
    assert url[slash + 1..mark] == user;
    assert url[mark + 1..] == query;
    assert forall i :: slash < i < |url| ==> url[i] != '/' by {
      assert url[slash + 1..] == user + "?" + query;
      forall i | slash < i < |url| ensures url[i] != '/' {
        assert url[i] == url[slash + 1..][i - slash - 1];
      }
    }
    assert forall i :: 0 <= i < mark ==> url[i] != '?' by {
      assert url[..mark] == prefix + "/" + user;
      forall i | 0 <= i < mark ensures url[i] != '?' {
        assert url[i] == url[..mark][i];
      }
    }
    var l := LastIndexOf(url, '/');
    forall i | l < i < |url| ensures url[i] in url[l + 1..] {
      assert url[l + 1..][i - l - 1] == url[i];
    }
    assert l == slash;
    var q := IndexOf(url, '?');
    forall i | 0 <= i < q ensures url[i] in url[..q] {
      assert url[..q][i] == url[i];
    }
    assert q == mark;
  }

  /** Without a `?` the end bound is clamped to 0 and the bounds swap: everything up to and including the last `/` comes back. */
  lemma UserFromUrlWithoutQuery(url: string)
    requires '?' !in url
    ensures UserFromUrl(url) == url[..LastIndexOf(url, '/') + 1]
  {
  }

  // ---------------------------------------------------------------------------
  // handleAvailableSlots

  /** `filteredTimes.map(time => ({ time, users: [user] }))`. */
  function TagWithUser(times: seq<int>, user: string): (r: seq<Slot>)
    ensures Times(r) == times
    ensures Tagged(r)
    ensures forall k :: 0 <= k < |r| ==> r[k].users == [user]
  {
    seq(|times|, k requires 0 <= k < |times| => Slot(times[k], [user]))
  }

  /** One user's availability response, with the candidate times the slot generator produced for it. */
  datatype Availability = Availability(url: string, candidates: seq<int>, busy: seq<TimeRange>)

  /** The tagged slots handleAvailableSlots produces for one response. */
  function UserSlots(a: Availability, ev: EventTiming): seq<Slot>
  {
    TagWithUser(FilteredTimes(a.candidates, a.busy, ev), UserFromUrl(a.url))
  }

  /**
   * handleAvailableSlots: filters the candidate times in place, then tags every
   * surviving time with the user named in the response URL.
   */
  method HandleAvailableSlots(a: Availability, ev: EventTiming) returns (slots: seq<Slot>)
    ensures slots == UserSlots(a, ev)
  {
    var times := new int[|a.candidates|](k requires 0 <= k < |a.candidates| => a.candidates[k]);
    assert times[..] == a.candidates;
    var len := GetFilteredTimes(times, a.busy, ev);
    var user := UserFromUrl(a.url);
    slots := TagWithUser(times[..len], user);
  }

  /** For increasing candidates, a user's slots are distinct, in increasing order, and all carry that user alone. */
  lemma UserSlotsShape(a: Availability, ev: EventTiming)
    requires StrictlyIncreasing(a.candidates)
    ensures var s := UserSlots(a, ev);
      Tagged(s) && DistinctTimes(s) && StrictlyIncreasing(Times(s))
      && IsSubsequence(Times(s), a.candidates)
      && forall k :: 0 <= k < |s| ==> s[k].users == [UserFromUrl(a.url)]
  {
    var s := UserSlots(a, ev);
    FilteredTimesIsSubsequence(a.candidates, a.busy, ev);
    FilteredTimesIncreasing(a.candidates, a.busy, ev);
    forall i, j | 0 <= i < j < |s| ensures s[i].time != s[j].time {
      assert Times(s)[i] < Times(s)[j];
    }
  }

  /** The per-user results, in the order of the hook's users. */
  function PerUserSlots(users: seq<Availability>, ev: EventTiming): (r: seq<seq<Slot>>)
    ensures |r| == |users|
    ensures forall k :: 0 <= k < |users| ==> r[k] == UserSlots(users[k], ev)
  {
    seq(|users|, k requires 0 <= k < |users| => UserSlots(users[k], ev))
  }

  /** Every per-user result is tagged, so the pooling fold may read `users[0]`. */
  lemma PerUserSlotsPoolable(users: seq<Availability>, ev: EventTiming, st: SchedulingType)
    ensures forall k :: 0 <= k < |users| ==> Tagged(PerUserSlots(users, ev)[k])
    ensures |users| > 0 ==> Poolable(st, PerUserSlots(users, ev)[1..])
  {
    var r := PerUserSlots(users, ev);
    if |users| > 0 {
      forall k | 0 <= k < |r[1..]| ensures Tagged(r[1..][k]) {
        assert r[1..][k] == UserSlots(users[k + 1], ev);
      }
    }
  }

  /** The user names the hook reads from the responses, in the order of the hook's users. */
  function UserNames(users: seq<Availability>): (r: seq<string>)
    ensures |r| == |users|
    ensures forall j :: 0 <= j < |users| ==> r[j] == UserFromUrl(users[j].url)
  {
    seq(|users|, j requires 0 <= j < |users| => UserFromUrl(users[j].url))
  }

  /** For increasing candidates, each per-user result is that user's alone, with distinct times. */
  lemma PerUserSlotsHosted(users: seq<Availability>, ev: EventTiming)
    requires forall j :: 0 <= j < |users| ==> StrictlyIncreasing(users[j].candidates)
    ensures HostedBy(PerUserSlots(users, ev), UserNames(users))
  {
    var r, names := PerUserSlots(users, ev), UserNames(users);
    forall j | 0 <= j < |users| ensures OfferedBy(r[j], names[j]) {
      UserSlotsShape(users[j], ev);
    }
  }

  /**
   * ROUND_ROBIN across the hook's users: every offered slot names exactly the
   * users whose filtered times contain it, in the order of the hook's users.
   */
  lemma RoundRobinNamesFreeUsers(users: seq<Availability>, ev: EventTiming)
    requires |users| > 1
    requires forall j :: 0 <= j < |users| ==> StrictlyIncreasing(users[j].candidates)
    ensures Poolable(RoundRobin, PerUserSlots(users, ev)[1..])
      && Pooled(PerUserSlots(users, ev), Some(RoundRobin)).Ok?
      && Attributed(Pooled(PerUserSlots(users, ev), Some(RoundRobin)).value, PerUserSlots(users, ev), UserNames(users))
  {
    var r := PerUserSlots(users, ev);
    PerUserSlotsPoolable(users, ev, RoundRobin);
    PerUserSlotsHosted(users, ev);
    PooledRoundRobin(r, UserNames(users));
  }

  /**
   * Whatever order the sort gives slots with equal times, the hook shows the
   * same list: for increasing candidates, every time-ordered permutation of the
   * pooled result is that result.
   */
  lemma HookOrderDetermined(users: seq<Availability>, ev: EventTiming, st: Option<SchedulingType>, r: seq<Slot>)
    requires forall j :: 0 <= j < |users| ==> StrictlyIncreasing(users[j].candidates)
    ensures (st.Some? && |users| > 1 ==> Poolable(st.value, PerUserSlots(users, ev)[1..]))
      && (Pooled(PerUserSlots(users, ev), st).Ok? && SortedByTime(r)
          && multiset(r) == multiset(Pooled(PerUserSlots(users, ev), st).value)
          ==> r == Pooled(PerUserSlots(users, ev), st).value)
  {
    var results := PerUserSlots(users, ev);
    if st.Some? {
      PerUserSlotsPoolable(users, ev, st.value);
    }
    if |users| > 0 {
      UserSlotsShape(users[0], ev);
    }
    var p := Pooled(results, st);
    if p.Ok? && SortedByTime(r) && multiset(r) == multiset(p.value) {
      PooledOrderDetermined(results, st, r);
    }
  }

  // ---------------------------------------------------------------------------
  // The hook's state

  /** Why the hook entered its error state. */
  datatype HookError = RequestFailed(message: string) | PoolingFailed(cause: PoolError)

  /** The state of one useSlots hook: the slots, the loading flag and the error. */
  class SlotsHook {
    var slots: seq<Slot>
    var loading: bool
    var error: Option<HookError>

    /** The initial state of the three `useState` cells. */
    constructor ()
      ensures slots == [] && !loading && error == None
    {
      slots := [];
      loading := false;
      error := None;
    }

    /** The effect starts a query for a new date: no slots, loading, no error. */
    method StartQuery()
      modifies this
      ensures slots == [] && loading && error == None
    {
      slots := [];
      loading := true;
      error := None;
    }

    /**
     * The query's results arrive: on success the pooled, sorted slots are shown
     * and loading stops; when pooling throws, only the error is set and loading
     * stays as it was.
     */
    method Settle(results: seq<seq<Slot>>, st: Option<SchedulingType>)
      requires st.Some? && |results| > 1 ==> Poolable(st.value, results[1..])
      modifies this
      ensures Pooled(results, st).Ok? ==>
                slots == Pooled(results, st).value && !loading && error == old(error)
      ensures Pooled(results, st).Err? ==>
                slots == old(slots) && loading == old(loading)
                && error == Some(PoolingFailed(Pooled(results, st).error))
    {
      var r := PoolResults(results, st);
      match r
      case Ok(s) =>
        slots := s;
        loading := false;
      case Err(e) =>
        error := Some(PoolingFailed(e));
    }

    /** A request failed: only the error is set. */
    method Fail(message: string)
      modifies this
      ensures error == Some(RequestFailed(message)) && slots == old(slots) && loading == old(loading)
    {
      error := Some(RequestFailed(message));
    }

    /**
     * A whole query whose requests all succeed: reset, let every user's response
     * through handleAvailableSlots in order, then settle.
     */
    method RunQuery(users: seq<Availability>, ev: EventTiming, st: Option<SchedulingType>)
      modifies this
      ensures var p := Pooled(PerUserSlots(users, ev), st);
        (p.Ok? ==> slots == p.value && !loading && error == None)
        && (p.Err? ==> slots == [] && loading && error == Some(PoolingFailed(p.error)))
    {
      StartQuery();
      var results: seq<seq<Slot>> := [];
      var k := 0;
      while k < |users|
        invariant 0 <= k <= |users|
        invariant results == PerUserSlots(users[..k], ev)
        invariant slots == [] && loading && error == None
      {
        var s := HandleAvailableSlots(users[k], ev);
        assert users[..k + 1] == users[..k] + [users[k]];
        results := results + [s];
        k := k + 1;
      }
      assert users[..k] == users;
      if st.Some? {
        PerUserSlotsPoolable(users, ev, st.value);
      }
      Settle(results, st);
    }
  }

  /**
   * Nothing guards against a superseded query: when the query for an older date
   * completes after the query for a newer one, its slots are the ones shown.
   */
  method StaleCompletionWins(older: seq<Availability>, newer: seq<Availability>, ev: EventTiming, st: SchedulingType)
    returns (h: SlotsHook)
    ensures fresh(h)
    ensures h.slots == Pooled(PerUserSlots(older, ev), Some(st)).value && !h.loading
  {
    h := new SlotsHook();
    h.StartQuery();
    var olderResults := PerUserSlots(older, ev);
    PerUserSlotsPoolable(older, ev, st);
    h.StartQuery();
    var newerResults := PerUserSlots(newer, ev);
    PerUserSlotsPoolable(newer, ev, st);
    h.Settle(newerResults, Some(st));
    h.Settle(olderResults, Some(st));
  }
}
