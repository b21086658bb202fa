# Slot availability and branding, modelled in Dafny

This project models the part of the booking page that computes which slots a
visitor may book. The booking page runs a `useSlots` hook. For every host of
the event type, the hook fetches that host's availability and takes the
candidate start times the slot generator produced. It drops every candidate
that clashes with a busy interval or runs past the end of the day's
availability, and tags each surviving time with the host's user name. It then
pools the per-host lists under the event type's scheduling type:

- COLLECTIVE keeps the times every host offers;
- ROUND_ROBIN keeps the times any host offers, and records who offers each one.

Finally the hook sorts the pooled slots by time. The project also models the
rule that decides whether a user's page hides the platform's branding.

Modules:

- `ConflictFilter` (conflict_filter.dfy) models `getFilteredTimes`. It is a
  method over an `array<int>` that walks the candidates from the back and
  splices rejected times out in place. The method is proved equal to the
  front-recursive specification function `FilteredTimes`.
- `Pooling` (pooling.dfy) holds the two pooling methods and the fold over the
  per-host results. It covers the single-result shortcut, the error for a
  missing scheduling type, and the final sort. The ROUND_ROBIN `forEach` loop
  becomes the method `RoundRobinPool`. The result continuation becomes the
  method `PoolResults`. Each is proved against its own specification
  function.
- `PoolingProperties` (pooling_properties.dfy) proves what the pooled result
  means:
  - COLLECTIVE gives the intersection by time;
  - ROUND_ROBIN gives the union by time, with first-host slots kept and
    extended, and each slot names exactly the hosts that offer its time;
  - the sort gives a sorted permutation, and for the hook's results (no two
    slots at one time) every sorted permutation is the same list, so the
    order the engine gives to equal times never matters.
- `UseSlots` (use_slots.dfy) models `handleAvailableSlots`: the user name is
  read from the response URL, and the filtered times are tagged with it. The
  hook's three state cells become the class `SlotsHook`.
- `Branding` (branding.dfy) models `isBrandingHidden`.
- `Scenarios` (scenarios.dfy) holds worked cases, with times in minutes after
  midnight.
- `Subsequences` and `Wrappers` are shared helpers: an order-preserving
  subsequence relation, and `Option`/`Result`.

Modelling choices:

- **Times.** Times are integer minutes and durations are naturals. dayjs's
  `isBetween(a, b)` is `a < x < b`, and its `"[)"` form is `a <= x < b`.
- **Splicing.** A JavaScript `splice` shrinks the array in place. The model
  shifts the array's tail left and returns the new live length instead.
- **The end-of-day boundary.** The finalization time is the last candidate
  plus the event length. A candidate is dropped when its end, plus the after
  buffer, lies after the finalization time. So with a positive after buffer
  the last candidate itself, which defines the finalization time, is always
  dropped (`ConflictFilter.LastRemovedWithAfterBuffer`).

## Model

| member | source | states |
|---|---|---|
| ConflictFilter.Between | apps/web/lib/hooks/useSlots.ts:72-94 | dayjs `isBetween` with its default exclusive bounds: x lies strictly between the two bounds; used by four of the five clash tests |
| ConflictFilter.BetweenHalfOpen | apps/web/lib/hooks/useSlots.ts:68 | dayjs `isBetween` with `"[)"`: x is at least the lower bound and below the upper one |
| ConflictFilter.SlotEndWithAfter | apps/web/lib/hooks/useSlots.ts:57 | the candidate plus the event length plus the after buffer |
| ConflictFilter.SlotEnd | apps/web/lib/hooks/useSlots.ts:62 | the candidate plus the event length |
| ConflictFilter.SlotStartWithBefore | apps/web/lib/hooks/useSlots.ts:63 | the candidate minus the before buffer |
| ConflictFilter.Conflicts | apps/web/lib/hooks/useSlots.ts:64-99 | one busy interval rejects the candidate when any of the five tests fires: start in `[start, end)`, end strictly inside, the busy start strictly inside the slot, or the buffered start or buffered end strictly inside the buffered busy interval; its use is stated by FilteredTimesMembership |
| ConflictFilter.StartInBusy | apps/web/lib/hooks/useSlots.ts:68 | the slot start lies in the half-open busy interval |
| ConflictFilter.EndInBusy | apps/web/lib/hooks/useSlots.ts:72 | the slot end lies strictly inside the busy interval |
| ConflictFilter.BusyStartsInSlot | apps/web/lib/hooks/useSlots.ts:76 | the busy start lies strictly inside the slot |
| ConflictFilter.BeforeBufferClash | apps/web/lib/hooks/useSlots.ts:80-85 | the slot start minus the before buffer lies strictly inside the busy interval widened by both buffers |
| ConflictFilter.AfterBufferClash | apps/web/lib/hooks/useSlots.ts:89-94 | the slot end plus the after buffer lies strictly inside the busy interval widened by both buffers |
| ConflictFilter.PastFinalization | apps/web/lib/hooks/useSlots.ts:57-58 | the slot end plus the after buffer lies after the finalization time |
| ConflictFilter.ClashFree | apps/web/lib/hooks/useSlots.ts:64-100 | the outcome of `busy.every`: no busy interval makes any of the five tests fire; its use is stated by SpliceOnFirstClash and FilteredTimesMembership |
| ConflictFilter.Survives | apps/web/lib/hooks/useSlots.ts:57-100 | a candidate is kept when it is not past the finalization time and no busy interval rejects it |
| ConflictFilter.FinalizationTime | apps/web/lib/hooks/useSlots.ts:52 | the last candidate plus the event length; its effect is stated by BoundaryKeepsAllWithoutAfterBuffer and LastRemovedWithAfterBuffer |
| ConflictFilter.FilteredTimes | apps/web/lib/hooks/useSlots.ts:48-52 | the filter with the finalization time of the last candidate, and [] for no candidates; its meaning is stated by FilteredTimesMembership |
| ConflictFilter.FilterSpec | apps/web/lib/hooks/useSlots.ts:54-102 | a time is in the result exactly when it is a candidate that survives both the boundary check and every busy interval; the result is no longer than the input |
| ConflictFilter.Splice | apps/web/lib/hooks/useSlots.ts:59 | `times.splice(i, 1)`: the live prefix loses exactly element i, the rest keep their order; the cells past the live prefix are untouched |
| ConflictFilter.SpliceOnFirstClash | apps/web/lib/hooks/useSlots.ts:64-100 | the `busy.every` scan removes the candidate once, at the first clashing interval, and leaves the array as it was when no interval clashes |
| ConflictFilter.FilterStep | apps/web/lib/hooks/useSlots.ts:54-60 | one backward iteration: keeping a surviving candidate or splicing out a failing one extends the already filtered suffix by FilterSpec of one more element |
| ConflictFilter.GetFilteredTimes | apps/web/lib/hooks/useSlots.ts:45-104 | after the in-place backward loop the live prefix of the array is exactly FilteredTimes of the original candidates (empty for an empty input) |
| ConflictFilter.FilterIsSubsequence | apps/web/lib/hooks/useSlots.ts:54-102 | the filter only removes times: the result is an order-preserving subsequence of the candidates |
| ConflictFilter.FilterConcat | apps/web/lib/hooks/useSlots.ts:54-102 | each candidate is judged on its own: filtering a concatenation is concatenating the filtered parts |
| ConflictFilter.FilterKeepsAllSurvivors | apps/web/lib/hooks/useSlots.ts:54-102 | when every candidate survives, nothing is removed |
| ConflictFilter.MoreBusyFewerSurvivors | apps/web/lib/hooks/useSlots.ts:64-100 | adding busy intervals can only remove more times: the survivors under more busy intervals are a subsequence of those under fewer |
| ConflictFilter.FilteredTimesMembership | apps/web/lib/hooks/useSlots.ts:52-100 | a time survives iff it is a candidate, its end plus after buffer is not after the last candidate's end, and none of the five clash tests fires for any busy interval |
| ConflictFilter.FilteredTimesIsSubsequence | apps/web/lib/hooks/useSlots.ts:45-104 | getFilteredTimes keeps a subsequence of its input, in the input's order |
| ConflictFilter.FilteredTimesIncreasing | apps/web/lib/hooks/useSlots.ts:45-104 | increasing candidate times stay increasing after filtering |
| ConflictFilter.BoundaryKeepsAllWithoutAfterBuffer | apps/web/lib/hooks/useSlots.ts:52-59 | with no after buffer the boundary check removes no candidate that is no later than the last one |
| ConflictFilter.LastRemovedWithAfterBuffer | apps/web/lib/hooks/useSlots.ts:52-59 | with a positive after buffer the last candidate always fails the boundary check and is removed |
| ConflictFilter.NoBusyNoAfterBufferIsIdentity | apps/web/lib/hooks/useSlots.ts:45-104 | with no busy intervals and no after buffer an increasing candidate list comes back unchanged |
| ConflictFilter.FilteredTimesAntitone | apps/web/lib/hooks/useSlots.ts:45-104 | more busy intervals give a subsequence of the survivors of fewer |
| Pooling.HasTime | apps/web/lib/hooks/useSlots.ts:147 | `compareWith.some(compare => compare.time.isSame(t))`: some slot starts at t; its use is stated by CollectivePool and FindIndex |
| Pooling.Times | apps/web/lib/hooks/useSlots.ts:20-23 | the slot times, one per slot, in order |
| Pooling.FindIndex | apps/web/lib/hooks/useSlots.ts:154 | `findIndex`: -1 exactly when no slot has the time, otherwise the first index of a slot with that time |
| Pooling.CollectivePool | apps/web/lib/hooks/useSlots.ts:145-147 | a slot is kept exactly when it is in `slots` and some compare slot has the same time |
| Pooling.RoundRobinPool | apps/web/lib/hooks/useSlots.ts:152-162 | the `forEach` loop returns what the step-by-step specification RoundRobinSpec computes |
| Pooling.RoundRobinStep | apps/web/lib/hooks/useSlots.ts:153-160 | one `forEach` step: the first slot at the compare time gains the compare slot's first user, or the compare slot is appended; its effect is stated by PoolingProperties.RoundRobinStepEffect |
| Pooling.RoundRobinSpec | apps/web/lib/hooks/useSlots.ts:152-162 | the `forEach` over compareWith in order; its meaning is stated by RoundRobinExtends, RoundRobinCovers, RoundRobinOnlyInputTimes and RoundRobinAttribution |
| Pooling.Pool | apps/web/lib/hooks/useSlots.ts:143-164 | the `switch` that picks the pooling method: COLLECTIVE gives the `filter`/`some` intersection and ROUND_ROBIN the `forEach` merge; stated by CollectiveOfCommon and RoundRobinAttribution through FoldPools |
| Pooling.FoldPools | apps/web/lib/hooks/useSlots.ts:170-172 | the results loop from index 1; its meaning is stated by CollectiveFold and the ROUND_ROBIN fold lemmas |
| Pooling.Pooled | apps/web/lib/hooks/useSlots.ts:133-176 | the result continuation's value: sorted single result, error without a scheduling type, or the sorted fold; its branches are stated by PooledSingle, PooledWithoutSchedulingType, PooledCollective and PooledRoundRobin |
| Pooling.InsertByTime | apps/web/lib/hooks/useSlots.ts:173 | inserting into a sorted list keeps it sorted and adds exactly the one slot |
| Pooling.SortByTime | apps/web/lib/hooks/useSlots.ts:136-173 | the sort returns a time-ordered permutation of its input |
| Pooling.PrependSorted | apps/web/lib/hooks/useSlots.ts:173 | a slot no later than the head of a sorted list can go in front of it |
| Pooling.FoldPoolsStep | apps/web/lib/hooks/useSlots.ts:170-172 | one more iteration of the results loop is one more call of the pooling method |
| Pooling.PoolResults | apps/web/lib/hooks/useSlots.ts:133-176 | the result continuation (the single-result shortcut, the error without a pooling method, the loop and the sort) returns what Pooled specifies |
| PoolingProperties.SortSortedIsIdentity | apps/web/lib/hooks/useSlots.ts:173 | the model's insertion sort returns an already sorted list as it is (for lists without ties this holds of any sort, by AnySortIsSortByTime) |
| PoolingProperties.SortIdempotent | apps/web/lib/hooks/useSlots.ts:173 | for the model's insertion sort, sorting twice is sorting once |
| PoolingProperties.DistinctTimesNoTies | apps/web/lib/hooks/useSlots.ts:173 | slots with distinct times give the comparator no tie between different slots |
| PoolingProperties.NoTiesOfMembers | apps/web/lib/hooks/useSlots.ts:173 | a list drawn from a list without ties has no ties |
| PoolingProperties.SortedPermutationUnique | apps/web/lib/hooks/useSlots.ts:173 | without ties, two time-ordered permutations of the same slots are equal, whichever sort produced them |
| PoolingProperties.SortedHeadsAgree | apps/web/lib/hooks/useSlots.ts:173 | two time-ordered permutations without ties start with the same slot |
| PoolingProperties.MultisetOfTails | apps/web/lib/hooks/useSlots.ts:173 | permutations with the same head have permuted tails |
| PoolingProperties.AnySortIsSortByTime | apps/web/lib/hooks/useSlots.ts:173 | without ties, every time-ordered permutation of the slots, and so the result of `sort` with the source's comparator, is SortByTime of them |
| PoolingProperties.SortNoTies | apps/web/lib/hooks/useSlots.ts:173 | sorting introduces no ties |
| PoolingProperties.CommonIsSubsequence | apps/web/lib/hooks/useSlots.ts:145-147 | the intersection keeps the first result's slots in their order |
| PoolingProperties.CommonMembership | apps/web/lib/hooks/useSlots.ts:145-147 | a slot is in the intersection iff it is in the first result and its time is in every later result |
| PoolingProperties.CommonOfNone | apps/web/lib/hooks/useSlots.ts:145-147 | intersecting with no further results keeps everything |
| PoolingProperties.CollectiveOfCommon | apps/web/lib/hooks/useSlots.ts:145-172 | one more COLLECTIVE call narrows the intersection by one more result |
| PoolingProperties.CollectiveFold | apps/web/lib/hooks/useSlots.ts:170-172 | the COLLECTIVE fold over the results is the intersection by time of all of them |
| PoolingProperties.PooledCollective | apps/web/lib/hooks/useSlots.ts:133-176 | with two or more results, COLLECTIVE pooling succeeds with the sorted intersection: the first host's slots whose time every other host offers |
| PoolingProperties.ExtendsHasTime | apps/web/lib/hooks/useSlots.ts:152-162 | a time present before a round-robin step is still present after it |
| PoolingProperties.RoundRobinStepMatched | apps/web/lib/hooks/useSlots.ts:154-156 | for a time already present, the first slot at that time gains the compare slot's first user at the end; all other slots and all times are unchanged |
| PoolingProperties.TimesOfUpdate | apps/web/lib/hooks/useSlots.ts:156 | replacing a slot by one with the same time leaves the times unchanged |
| PoolingProperties.RoundRobinStepUnmatched | apps/web/lib/hooks/useSlots.ts:157-158 | for a new time, the compare slot is appended |
| PoolingProperties.RoundRobinStepExtends | apps/web/lib/hooks/useSlots.ts:153-160 | a step keeps every slot at its index and time, with users only added at the end, and afterwards the compare time is present |
| PoolingProperties.RoundRobinStepEffect | apps/web/lib/hooks/useSlots.ts:153-160 | a step grows the list by one slot exactly when the compare time was missing, and otherwise changes no time |
| PoolingProperties.RoundRobinExtends | apps/web/lib/hooks/useSlots.ts:152-162 | ROUND_ROBIN pooling keeps every slot of `slots` at its index and time, with its users as a prefix |
| PoolingProperties.RoundRobinCovers | apps/web/lib/hooks/useSlots.ts:152-162 | every time of either input is offered afterwards |
| PoolingProperties.RoundRobinOnlyInputTimes | apps/web/lib/hooks/useSlots.ts:152-162 | no other time is offered afterwards |
| PoolingProperties.UnmatchedCongruent | apps/web/lib/hooks/useSlots.ts:154 | which compare slots are new depends only on which times are present |
| PoolingProperties.RoundRobinLength | apps/web/lib/hooks/useSlots.ts:152-162 | for compare slots with distinct times, the result has the input's slots plus exactly one per compare time that was missing |
| PoolingProperties.RoundRobinDistinct | apps/web/lib/hooks/useSlots.ts:152-162 | distinct times stay distinct: a second slot at the same time is never appended |
| PoolingProperties.InSomeSnoc | apps/web/lib/hooks/useSlots.ts:170-172 | a time is in some of the results plus one more result iff it is in some of them or in the new one |
| PoolingProperties.RoundRobinFoldExtends | apps/web/lib/hooks/useSlots.ts:170-172 | the ROUND_ROBIN fold keeps the first result's slots at their indices and times, users extended |
| PoolingProperties.RoundRobinFoldTimes | apps/web/lib/hooks/useSlots.ts:170-172 | the ROUND_ROBIN fold offers exactly the times of the first result or of some later one |
| PoolingProperties.RoundRobinFoldDistinct | apps/web/lib/hooks/useSlots.ts:170-172 | the ROUND_ROBIN fold of a first result with distinct times has distinct times |
| PoolingProperties.HasTimeCons | apps/web/lib/hooks/useSlots.ts:154 | a time is in a non-empty list iff the head has it or the tail does |
| PoolingProperties.UnmatchedMembers | apps/web/lib/hooks/useSlots.ts:157-158 | the appended slots are compare slots whose time the slots lacked |
| PoolingProperties.AttributionMatched | apps/web/lib/hooks/useSlots.ts:154-156 | for one host's result, a matched step marks the slot at that time with the host and leaves the rest of the marking and the unmatched slots as they were |
| PoolingProperties.AttributionUnmatched | apps/web/lib/hooks/useSlots.ts:157-158 | for one host's result, an unmatched step appends the compare slot, which no later compare slot marks |
| PoolingProperties.RoundRobinSpecCons | apps/web/lib/hooks/useSlots.ts:153-160 | the `forEach` is its first step followed by the rest |
| PoolingProperties.AttributionMatchedCase | apps/web/lib/hooks/useSlots.ts:152-162 | RoundRobinAttribution when the first compare time is already present |
| PoolingProperties.AttributionUnmatchedCase | apps/web/lib/hooks/useSlots.ts:152-162 | RoundRobinAttribution when the first compare time is new |
| PoolingProperties.RoundRobinAttribution | apps/web/lib/hooks/useSlots.ts:152-162 | pooling one host's result into slots with distinct times: every slot gains that host at the end of its users exactly when the host offers its time, and the host's other slots are appended in its order |
| PoolingProperties.OfferedByTagged | apps/web/lib/hooks/useSlots.ts:156 | one host's result names a user on every slot, so `users![0]` exists |
| PoolingProperties.OfferingOfNone | apps/web/lib/hooks/useSlots.ts:170-172 | no host is named for a time no result offers |
| PoolingProperties.InSomeCons | apps/web/lib/hooks/useSlots.ts:170-172 | a time is in some result iff the first or a later result has it |
| PoolingProperties.HostedPoolable | apps/web/lib/hooks/useSlots.ts:156 | results that each belong to one host are tagged, so ROUND_ROBIN may read their users |
| PoolingProperties.RoundRobinFoldAttribution | apps/web/lib/hooks/useSlots.ts:170-172 | when each result is one host's with distinct times, the ROUND_ROBIN fold names on the slot at each time exactly the hosts whose result offers it, in the order of the results |
| PoolingProperties.SortedAttribution | apps/web/lib/hooks/useSlots.ts:173 | the attribution survives the sort |
| PoolingProperties.PooledRoundRobin | apps/web/lib/hooks/useSlots.ts:133-176 | with two or more results, ROUND_ROBIN pooling succeeds with the sorted union by time, which extends the first host's slots, has no duplicate times when the first host had none, and, when each result is one host's, names on every slot exactly the hosts offering its time, in host order |
| PoolingProperties.PooledSingle | apps/web/lib/hooks/useSlots.ts:134-140 | a single result is returned sorted, as a permutation of itself, whatever the scheduling type |
| PoolingProperties.PooledWithoutSchedulingType | apps/web/lib/hooks/useSlots.ts:142-168 | without a scheduling type, any number of results other than one throws "no poolingMethod" |
| PoolingProperties.PooledSorted | apps/web/lib/hooks/useSlots.ts:133-176 | every successful pooled result is sorted by time |
| PoolingProperties.FoldNoTies | apps/web/lib/hooks/useSlots.ts:170-172 | the pooling fold of a first result with distinct times has no ties |
| PoolingProperties.PooledNoTies | apps/web/lib/hooks/useSlots.ts:133-176 | when the first result has distinct times, a successful pooled result has no ties |
| PoolingProperties.PooledOrderDetermined | apps/web/lib/hooks/useSlots.ts:133-176 | when the first result has distinct times, every time-ordered permutation of a successful pooled result is that result, so the comparator's answer for equal times never matters |
| UseSlots.LastIndexOf | apps/web/lib/hooks/useSlots.ts:201 | `lastIndexOf`: -1 exactly when the character is absent, otherwise the last index holding it |
| UseSlots.IndexOf | apps/web/lib/hooks/useSlots.ts:201 | `indexOf`: -1 exactly when the character is absent, otherwise the first index holding it |
| UseSlots.Clamp | apps/web/lib/hooks/useSlots.ts:201 | a `substring` bound below 0 becomes 0 and one above the length becomes the length |
| UseSlots.Substring | apps/web/lib/hooks/useSlots.ts:201 | `String.prototype.substring`: both bounds clamped to the string, swapped when the start exceeds the end; stated by UserFromUrlRoundTrip and UserFromUrlWithoutQuery |
| UseSlots.UserFromUrl | apps/web/lib/hooks/useSlots.ts:201 | the text between the last `/` and the first `?` of the response URL; stated by UserFromUrlRoundTrip and UserFromUrlWithoutQuery |
| UseSlots.UserFromUrlRoundTrip | apps/web/lib/hooks/useSlots.ts:201 | for a URL `<prefix>/<user>?<query>` with no `?` in the prefix, no `/` or `?` in the user and no `/` in the query, the extraction returns exactly the user text |
| UseSlots.UserFromUrlWithoutQuery | apps/web/lib/hooks/useSlots.ts:201 | a URL without `?` makes `substring` swap its bounds and return everything up to and including the last `/` |
| UseSlots.TagWithUser | apps/web/lib/hooks/useSlots.ts:202-205 | the tagged slots have exactly the filtered times, in order, each with the single user |
| UseSlots.UserSlots | apps/web/lib/hooks/useSlots.ts:199-205 | the filtered times tagged with the URL's user; its shape is stated by UserSlotsShape |
| UseSlots.HandleAvailableSlots | apps/web/lib/hooks/useSlots.ts:183-206 | filters the candidate times in place and tags the survivors: the result is UserSlots of the response |
| UseSlots.UserSlotsShape | apps/web/lib/hooks/useSlots.ts:183-206 | for increasing candidates, a host's slots are tagged with that host alone, have distinct increasing times, and are a subsequence of the candidates |
| UseSlots.PerUserSlots | apps/web/lib/hooks/useSlots.ts:130-132 | `Promise.all` over the hosts: one result per host, in the hosts' order |
| UseSlots.PerUserSlotsPoolable | apps/web/lib/hooks/useSlots.ts:202-205 | every per-user result names a user on every slot, so the round-robin `users![0]` always exists |
| UseSlots.UserNames | apps/web/lib/hooks/useSlots.ts:201 | the user name of each response, in the order of the hook's users |
| UseSlots.PerUserSlotsHosted | apps/web/lib/hooks/useSlots.ts:183-206 | for increasing candidates, each per-user result belongs to that user alone and has distinct times |
| UseSlots.RoundRobinNamesFreeUsers | apps/web/lib/hooks/useSlots.ts:130-176 | ROUND_ROBIN across the hook's users succeeds, and every offered slot names exactly the users whose filtered times contain it, in the order of the hook's users |
| UseSlots.HookOrderDetermined | apps/web/lib/hooks/useSlots.ts:130-176 | for increasing candidates, every time-ordered permutation of the hook's pooled result is that result, so the engine's order for equal times never matters |
| UseSlots.SlotsHook.constructor | apps/web/lib/hooks/useSlots.ts:117-119 | initial state: no slots, not loading, no error |
| UseSlots.SlotsHook.StartQuery | apps/web/lib/hooks/useSlots.ts:122-124 | a new date clears the slots, sets loading and clears the error |
| UseSlots.SlotsHook.Settle | apps/web/lib/hooks/useSlots.ts:133-180 | on success the pooled slots are shown and loading stops; when pooling throws only the error is set and loading stays on |
| UseSlots.SlotsHook.Fail | apps/web/lib/hooks/useSlots.ts:177-180 | a failed request sets only the error |
| UseSlots.SlotsHook.RunQuery | apps/web/lib/hooks/useSlots.ts:121-181 | a whole query shows the pooled slots of all hosts with loading off and no error, or leaves no slots, loading on and the pooling error |
| UseSlots.StaleCompletionWins | apps/web/lib/hooks/useSlots.ts:121-181 | nothing discards a superseded query: when the older date's results arrive last, its slots are the ones shown |
| Branding.IsBrandingHidden | apps/web/lib/isBrandingHidden.tsx:3-4 | `hideBranding && plan !== FREE`; stated by BrandingHiddenExactly |
| Branding.FreePlanShowsBranding | apps/web/lib/isBrandingHidden.tsx:4 | a user on the free plan never hides the branding |
| Branding.BrandingShownUnlessRequested | apps/web/lib/isBrandingHidden.tsx:4 | a user who did not ask to hide the branding shows it |
| Branding.BrandingHiddenExactly | apps/web/lib/isBrandingHidden.tsx:3-4 | branding is hidden iff the user asked for it and is on a trial or pro plan |
| Branding.BrandingDependsOnFlagAndPlan | apps/web/lib/isBrandingHidden.tsx:3-4 | only the flag and the plan matter: two users who agree on them get the same answer |
| Scenarios.SameStartClashes | apps/web/lib/hooks/useSlots.ts:68 | a slot that starts when a busy interval starts clashes |
| Scenarios.AfterBufferDecides | apps/web/lib/hooks/useSlots.ts:89-95 | the after buffer alone can make a slot clash with a later meeting |
| Scenarios.SingleCandidateWithAfterBuffer | apps/web/lib/hooks/useSlots.ts:52-59 | a lone candidate survives without an after buffer and is removed with one |
| Scenarios.CollectiveExampleStep | apps/web/lib/hooks/useSlots.ts:145-147 | one COLLECTIVE call on two three-slot hosts keeps the two shared times |
| Scenarios.CollectiveExample | apps/web/lib/hooks/useSlots.ts:133-176 | two hosts at 09:00/09:30/10:00 and 09:00/10:00/10:30 pooled COLLECTIVE offer 09:00 and 10:00 |
| Scenarios.RoundRobinExampleSteps | apps/web/lib/hooks/useSlots.ts:152-162 | the three `forEach` steps for the same hosts: two slots gain the second host, one is appended |
| Scenarios.RoundRobinExample | apps/web/lib/hooks/useSlots.ts:133-176 | the same hosts pooled ROUND_ROBIN offer all four times, each with the hosts free then |

## Left out

- Fetching, `res.json()`, `Promise.all` and the async scheduling are not modelled. Each host's response is an `Availability` value, given in the hosts' order. A rejected request is modelled only as `SlotsHook.Fail`; which of several rejections wins is not modelled.
- `getSlots` (the slot generator, `apps/web/lib/slots.ts`) is not part of this model. Its candidate times are part of the input, so `slotInterval`, `minimumBookingNotice`, working hours and the query string only reach the model through those candidates. Its output is taken to be strictly increasing, and the lemmas that say no two slots of a host's result share a time (`UseSlots.UserSlotsShape`, `UseSlots.HookOrderDetermined`) require exactly that.
- Time zones, UTC conversion and dayjs's parsing of busy-interval strings are not modelled. Times are integer minutes on one axis.
- ConflictFilter.Between: dayjs `isBetween` also accepts reversed bounds. The model only treats ordered bounds, which every busy interval with start before end gives.
- Pooling.SortByTime: JavaScript's `sort` is replaced by an insertion sort. The contract states a sorted permutation. The comparator returns -1 for equal times, so the engine's order among equal times is left open, and stability is not claimed. Where no two different slots share a time, which holds for the hook's results, every sorted permutation is the same list (`PoolingProperties.AnySortIsSortByTime`, `UseSlots.HookOrderDetermined`).
- PoolingProperties.SortSortedIsIdentity: for lists with ties it states the stable order of the model's insertion sort, which the source's comparator does not promise; for lists without ties it holds of any sort through `AnySortIsSortByTime`.
- PoolingProperties.SortIdempotent: the same holds; with ties it is a fact of the model's insertion sort only.
- Pooling.RoundRobinPool: the source pushes onto `slots` and onto the `users` arrays of its slots in place. Those arrays alias the first host's result objects, and also the objects of later hosts that were appended at line 158 and gain users from still later hosts at line 156. The model works on values, so this aliasing is not captured; nothing reads those objects again after pooling.
- Pooling.RoundRobinStep: the source reads `compare.users![0]` without a check. The model requires every later result to be tagged, which `UseSlots.PerUserSlotsPoolable` proves for the hook's own results.
- Pooling.Slot: the source's `users` field is optional, and `users?.push` at line 156 skips a slot without one. The model's `users` is always present. No behaviour is lost, because `handleAvailableSlots` sets `users: [user]` on every slot (lines 202-205).
- UseSlots.UserFromUrl: the response URL `res.url` is taken to be the literal request URL. The URL parser's percent-encoding is not modelled, so `UserFromUrlRoundTrip` holds for user names the parser leaves unchanged. A name such as "a b" would come back encoded as "a%20b".
- UseSlots.SlotsHook.Fail: `console.error` is left out.
- React's rendering, the effect's dependency list and the returned `{ slots, loading, error }` object are not modelled beyond the three state cells.
