/** Worked cases of the filter and the pooling engine, times in minutes after midnight. */
module Scenarios {
  import opened Wrappers
  import opened ConflictFilter
  import opened Pooling
  import opened PoolingProperties

  /** A candidate at 10:00 for 30 minutes clashes with a meeting 10:00-10:30. */
  lemma SameStartClashes()
    ensures Conflicts(600, TimeRange(600, 630), EventTiming(30, 0, 0))
  {
  }

  /** 09:45 for 15 minutes with a 15 minute after buffer clashes with 10:00-10:30; without the buffer it does not. */
  lemma AfterBufferDecides()
    ensures AfterBufferClash(585, TimeRange(600, 630), EventTiming(15, 0, 15))
    ensures !Conflicts(585, TimeRange(600, 630), EventTiming(15, 0, 0))
  {
  }

  /** A single candidate is removed by the finalization check as soon as there is an after buffer. */
  lemma SingleCandidateWithAfterBuffer()
    ensures FilteredTimes([540], [], EventTiming(30, 0, 15)) == []
    ensures FilteredTimes([540], [], EventTiming(30, 0, 0)) == [540]
  {
  }

  /** Three slots of one user, at the given times. */
  function UserAt(user: string, a: int, b: int, c: int): seq<Slot>
  {
    [Slot(a, [user]), Slot(b, [user]), Slot(c, [user])]
  }

  /** The COLLECTIVE step: 09:30 is dropped, 09:00 and 10:00 stay. */
  lemma CollectiveExampleStep()
    ensures CollectivePool(UserAt("u1", 540, 570, 600), UserAt("u2", 540, 600, 630))
         == [Slot(540, ["u1"]), Slot(600, ["u1"])]
  {
    var u1, u2 := UserAt("u1", 540, 570, 600), UserAt("u2", 540, 600, 630);
    assert u2[0].time == 540 && u2[1].time == 600;
    assert !HasTime(u2, 570) by {
      assert forall k :: 0 <= k < |u2| ==> u2[k].time != 570;
    }
    assert u1[1..][1..][1..] == [];
    assert u1[1..][0] == u1[1] && u1[1..][1..][0] == u1[2];
  }

  /** COLLECTIVE pooling of 09:00, 09:30, 10:00 with 09:00, 10:00, 10:30 offers 09:00 and 10:00. */
  lemma CollectiveExample()
    ensures Pooled([UserAt("u1", 540, 570, 600), UserAt("u2", 540, 600, 630)], Some(Collective))
         == Ok([Slot(540, ["u1"]), Slot(600, ["u1"])])
  {
    CollectiveExampleStep();
    var results := [UserAt("u1", 540, 570, 600), UserAt("u2", 540, 600, 630)];
    var rest := results[1..];
    assert rest == [UserAt("u2", 540, 600, 630)];
    assert rest[..0] == [];
    assert FoldPools(Collective, results[0], rest) == CollectivePool(results[0], rest[0]);
    SortSortedIsIdentity([Slot(540, ["u1"]), Slot(600, ["u1"])]);
  }

  /** The slots ROUND_ROBIN pooling of the two users offers. */
  function RoundRobinOffer(): seq<Slot>
  {
    [Slot(540, ["u1", "u2"]), Slot(570, ["u1"]), Slot(600, ["u1", "u2"]), Slot(630, ["u2"])]
  }

  /** The three forEach steps: 09:00 and 10:00 gain u2, 10:30 is appended. */
  lemma RoundRobinExampleSteps()
    ensures RoundRobinSpec(UserAt("u1", 540, 570, 600), UserAt("u2", 540, 600, 630)) == RoundRobinOffer()
  {
    var u1, u2 := UserAt("u1", 540, 570, 600), UserAt("u2", 540, 600, 630);
    var s1 := u1[0 := Slot(540, ["u1", "u2"])];
    assert FindIndex(u1, 540) == 0;
    assert u1[0].users + [u2[0].users[0]] == ["u1", "u2"];
    assert RoundRobinStep(u1, u2[0]) == s1;
    var s2 := s1[2 := Slot(600, ["u1", "u2"])];
    assert s1[2].time == 600;
    assert FindIndex(s1, 600) == 2;
    assert s1[2].users + [u2[1].users[0]] == ["u1", "u2"];
    assert RoundRobinStep(s1, u2[1]) == s2;
    assert FindIndex(s2, 630) == -1 by {
      assert forall k :: 0 <= k < |s2| ==> s2[k].time != 630;
    }
    assert RoundRobinStep(s2, u2[2]) == s2 + [u2[2]] == RoundRobinOffer();
    assert u2[1..][1..][1..] == [];
    assert u2[1..][0] == u2[1] && u2[1..][1..][0] == u2[2];
  }

  /** ROUND_ROBIN pooling of the same users offers all four times, each with the users free then. */
  lemma RoundRobinExample()
    ensures Pooled([UserAt("u1", 540, 570, 600), UserAt("u2", 540, 600, 630)], Some(RoundRobin))
         == Ok(RoundRobinOffer())
  {
    RoundRobinExampleSteps();
    var results := [UserAt("u1", 540, 570, 600), UserAt("u2", 540, 600, 630)];
    assert results[1..] == [UserAt("u2", 540, 600, 630)];
    assert FoldPools(RoundRobin, results[0], results[1..]) == RoundRobinOffer();
    SortSortedIsIdentity(RoundRobinOffer());
  }
}
