# Scheduling core of an OpenADR 3.1 stack, modelled in Dafny

This project models the deterministic core of the repository: how an event becomes a sequence of
intervals, how several events become one schedule, which reports fall due and how they are summed,
the loop a VEN runs on top of that, and four self-contained pieces beside it (the duration
recogniser, the dispatcher's lease, the wire adapters, object privacy). `dafny verify dfyconfig.toml`
checks all of it.

Time is an integer number of nanoseconds within the range of the time library's timestamp
(`Model.Timestamp`). Code that works by loops and updates is a method or a class, proved against a
specification function; the properties are lemmas about those functions.

## Files

| file | what it holds |
|---|---|
| `Wrappers`, `Arithmetic`, `Sequences`, `Ordering` | options and results, machine arithmetic, list flattening, byte-wise order and the stable sort |
| `Model` | the wire model as far as scheduling reads it |
| `Interval`, `IntervalWindows`, `IntervalTiling`, `IntervalInheritance` | the expander and the infinite sequence; windows against the naive walk; subdivision and tiling; where each interval is placed, from the event's fields |
| `Timeline`, `TimelineLayers`, `TimelineLookup`, `TimelinePriority`, `TimelineClashes` | the priority timeline; what every iteration of the build keeps; lookup as an argmin, and in plain priority numbers; which clashes are reported |
| `Report`, `ReportEnumeration`, `ReportPlans`, `ReportLosses` | report schedules; jump and breaks against full enumeration; coverage and due times from the descriptor's integers; exactly when a schedule loses nothing, with events that lose a report |
| `Aggregate`, `AggregateNumbers` | aggregation; its totals in the reported numbers, and that there is one outcome only |
| `VenSchedule`, `StateKeys`, `VenReports`, `VenRuntime`, `VenForesight`, `VenInForce` | the VEN loop as a class, which reports are owed, its run invariant, restart, cached timelines, sleeping, what is in force across programmes |
| `Regex`, `DurationSyntax` | regular expressions with lookahead; the recogniser against the pattern |
| `Dispatch`, `Outbox`, `DispatchRuns` | bounded-concurrency execution and the lease; the outbox; runs of several dispatchers |
| `Adapt` | the JSON walk, its inverse, adapter chains |
| `Privacy` | grants, visibility, non-interference |

## What the code does differently from what is said of it

Each of these is stated with the exact condition under which the promise holds.

- `expand_window` addresses intervals by 64-bit indices. A repetition beyond that bound is silently
  absent from a window that otherwise succeeds (`UnaddressableWindowIsLost`). Nothing is lost when every
  repetition before the window's end is addressable (`WindowCompleteIff`), and something is once the
  repetitions before the last one already are not, in a window that reaches back before it
  (`UnaddressableIsLost`).
- An inherited, gapless schedule covers every instant up to its limit except those whose interval
  would end past the last representable instant (`InheritedTilesTime`).
- The report loop can lose a report that is due in its window, in two ways. Its early breaks assume
  due times in ascending order, which intervals declared out of time order need not have
  (`OutOfOrderLosesReport`). Its jump leaves one repetition of slack, which covers any declared order but
  not a forecast due at the start of an interval that starts two periods or more after the sequence does,
  as one closed by its successor's earlier start may (`BackwardIntervalLosesReport`). Those two are all:
  a schedule loses nothing, in any window below the ceiling, exactly when due times are ordered and
  forecasts start in time (`LosesNothingIff`). When no interval ends before it starts only the order
  matters (`ForwardLosesNothingIff`), and intervals declared in time order lose nothing
  (`TimeOrderLosesNothing`). All of this is about report numbers whose range fits a signed 64-bit
  integer: beyond it a number wraps to an early interval (`LargeNumberWraps`).
- Staleness compares whole seconds, and the library truncates them toward the epoch. Timelines built
  at a fractional second within the day before 1970 may be kept slightly longer than half the horizon,
  so they then reach less than a day ahead (`FreshReachesADayIff`).
- The lease saturates, at a u32 count of waves and at the longest duration, and then no longer covers
  the batch (`LeaseCoversEveryScheduleIff`). The in-memory outbox also truncates it to whole seconds
  and falls back to "now" past the end of time: with an attempt timeout under a second an entry can be
  in flight at two dispatchers (`ShortTimeoutIsUnsafe`, `UnsafeClaimIsHeldTwice`).
- The Fluvius adapter overwrites a key that is already preserved, so its round trip is the identity
  exactly on documents whose descriptors hold none (`ReturnsIff`).
- A `debug_assert` that the date part stops at a `T`, and the overflow error of a sub-interval
  boundary, are dead code (`ScanDate`, `ShiftToBoundary`).

## Model

| member | source | states |
|---|---|---|
| `Intervals.Boundary` | src/core/interval.rs:392-401 | a sub-interval boundary lies inside its parent whichever way round the parent is, so the shift cannot overflow |
| `Intervals.ShiftToBoundary` | src/core/interval.rs:588-594 | the boundary shift always succeeds |
| `Intervals.CountSubintervals` | src/core/interval.rs:354-363 | the count is the largest any payload implies, at least one |
| `Intervals.Split` | src/core/interval.rs:346-416 | the loop yields exactly the pieces of the subdivision, or the limit error |
| `Intervals.ExpandPass` | src/core/interval.rs:286-343 | the cursor loop computes the expansion: inherited starts and durations, successors closing open intervals, the first error in declaration order |
| `Intervals.MinStart` | src/core/interval.rs:139-216 | the sequence starts at the earliest declared start |
| `Intervals.MaxEnd` | src/core/interval.rs:139-216 | the span ends at the latest declared end |
| `Intervals.SequenceWellFormed` | src/core/interval.rs:139-216 | every sequence the expander builds has a positive period no shorter than its span, and starts at its earliest interval |
| `Intervals.BuildSequence` | src/core/interval.rs:139-216 | the imperative build gives the declared or implied sequence |
| `Intervals.Collect` | src/core/interval.rs:245-255 | the index loop collects every existing interval of the range in index order, stopping only at an error |
| `Intervals.Filter` | src/core/interval.rs:602-615 | the filter keeps the intervals meeting the window, in order |
| `Intervals.ExpandWindow` | src/core/interval.rs:227-257 | windowing is sequence, index range, get and select in turn |
| `IntervalWindows.GetMeaning` | src/core/interval.rs:503-540 | `get` fails exactly when the ideal interval is not representable, is absent exactly past the declared list or the event's end, and otherwise is the ideal interval cut at that end |
| `IntervalWindows.HitRepetition` | src/core/interval.rs:546-585 | an interval that meets the window belongs to a repetition of the computed range |
| `IntervalWindows.RangeIsTight` | src/core/interval.rs:546-585 | and each repetition of the computed range reaches the window |
| `IntervalWindows.WindowIsNaiveWalk` | src/core/interval.rs:227-257 | a successful window is, in index order, exactly the `get(i)` over all naturals that meet it, below the 64-bit bound, declared order notwithstanding |
| `IntervalWindows.WindowCompleteIff` | src/core/interval.rs:546-585 | nothing is missing when every repetition before the window's end is addressable, and in general exactly when no interval of the window is at or above the bound |
| `IntervalWindows.WindowFailsIff` | src/core/interval.rs:227-257 | a window fails exactly when its range is over the limit or holds an index at which time runs out |
| `IntervalWindows.UnaddressableIsLost` | src/core/interval.rs:578-584 | the converse from the sequence's arithmetic, for a window reaching back before its last repetition; exact for one declared interval |
| `IntervalWindows.UnaddressableWindowIsLost` | src/core/interval.rs:582-584 | a concrete event and window where an interval is lost to the bound |
| `IntervalWindows.InsideActiveWindow` | src/core/interval.rs:627-647 | every interval of an event lies in the window stored when it was written |
| `IntervalWindows.InactiveMeansEmpty` | src/core/interval.rs:627-647 | a window disjoint from it expands to nothing |
| `IntervalInheritance.ActiveWindowFromFields` | src/core/interval.rs:627-647 | when an event is live, from its own duration, or from its intervals when it has none |
| `IntervalTiling.BoundaryFloor` | src/core/interval.rs:392-401 | a boundary is the exact rational boundary rounded down, so rounding does not accumulate |
| `IntervalTiling.PieceLength` | src/core/interval.rs:392-401 | a piece is the floor of the exact share or one nanosecond more |
| `IntervalTiling.SubdivisionIsExact` | src/core/interval.rs:346-416 | the pieces chain from start to end without gap or overlap, lengths differ by at most a nanosecond, full-count payloads are recovered in order, others are carried whole |
| `IntervalTiling.PassChain` | src/core/interval.rs:286-343 | with inherited starts and forward durations the pass output is one unbroken chain |
| `IntervalTiling.GaplessTiles` | src/core/interval.rs:503-540 | in a gapless sequence no instant is in two `get(i)`, and it is in one exactly when within the limit and representable |
| `IntervalTiling.InheritedIsGapless` | src/core/interval.rs:139-216 | what the event's duration makes of the period and the limit of an inherited schedule |
| `IntervalTiling.InheritedTilesTime` | src/core/interval.rs:139-216 | infinite tiling across subdivision, looping and truncation |
| `IntervalInheritance.ExpandPlaces` | src/core/interval.rs:286-343 | each declared interval takes up one stretch of the expansion, placed by the event's fields alone: its own start, duration and randomizeStart where it states them, the event's where it does not, its successor's start where there is no duration; with the pieces and payload shares its scalar payloads imply |
| `IntervalInheritance.OwnDurationCounts` | src/core/interval.rs:304-309 | an interval that states a bounded duration ends where the calendar puts that, whatever the event's default |
| `IntervalInheritance.DefaultDurationCounts` | src/core/interval.rs:304-309 | one that states none ends where the calendar puts the event's default |
| `IntervalInheritance.ExpandFails` | src/core/interval.rs:286-343 | an expansion fails only for what its error says of the event |
| `IntervalInheritance.LimitDecides` | src/core/interval.rs:346-366 | the limit changes no interval: it refuses exactly what exceeds it, in the result or in one payload |
| `IntervalInheritance.SequenceFromFields` | src/core/interval.rs:139-216 | when declared intervals repeat, what a list without intervals implies, and the limit the event's own duration sets |
| `Timelines.CutPieces` | src/core/timeline.rs:208-241 | one taken segment is cut out of every piece |
| `Timelines.DropEmpty` | src/core/timeline.rs:208-241 | empty and inverted pieces are dropped |
| `Timelines.SubtractCovered` | src/core/timeline.rs:208-241 | the rebuild loop computes the free stretches |
| `Timelines.ExpandEvents` | src/core/timeline.rs:92-113 | events are expanded over the window, those that fail are listed, payload-less intervals dispatch nothing |
| `Timelines.LayDown` | src/core/timeline.rs:115-152 | laying one event adds a segment per free stretch of each of its intervals and notes its clashes |
| `Timelines.BuildWith` | src/core/timeline.rs:87-160 | the whole build: segments sorted by start, the skipped events, the clashes |
| `TimelineLayers.SubtractionIsExact` | src/core/timeline.rs:208-241 | subtraction removes exactly the claimed instants; what is left is ordered, disjoint, non-empty and inside the interval |
| `TimelineLayers.LayOneFaithful` | src/core/timeline.rs:115-152 | one iteration keeps the segments disjoint, inside their event's interval and covering exactly what was laid |
| `TimelineLayers.EveryIterationFaithful` | src/core/timeline.rs:115-152 | so does every iteration of the build, outer and inner |
| `TimelineLayers.SortedByStart` | src/core/timeline.rs:154 | the final sort is strict and loses nothing |
| `TimelineClashes.EqualPriorityIsReported` | src/core/timeline.rs:124-139 | an event that ties with the winner's priority at some instant is reported as clashing, whatever else is skipped: no tie is hidden |
| `TimelineClashes.ReportedIsReal` | src/core/timeline.rs:124-139 | every reported pair is two different events of equal priority with overlapping intervals |
| `TimelineLookup.LookupIsArgmin` | src/core/timeline.rs:186-188 | lookup is the (priority, id)-least event with a dispatching interval there among all repetitions of every event not skipped, at its lowest index, and nothing exactly when there is none |
| `TimelineLookup.LookupIndependent` | src/core/timeline.rs:87-160 | the answer depends neither on input order nor on which window holding the instant was built, when both builds skip the same events |
| `TimelinePriority.LowerNumberWins` | src/core/timeline.rs:116 | of two events with an interval at an instant the one with the higher number, with none against any, or on a tie with the later id is not shown; what is shown has a number no higher than any candidate's |
| `Ordering.LexIsDictionary` | src/core/timeline.rs:116 | ids are compared as in a dictionary: a smaller byte where they first differ, or nothing left |
| `TimelineLookup.BuiltTimelineIsConflictFree` | src/core/timeline.rs:87-160 | the built timeline is strictly sorted, disjoint, attributed to the first event laid and covers exactly what was laid |
| `TimelineLookup.ConstantUntilNextChange` | src/core/timeline.rs:191-198 | the outcome is constant up to the next change |
| `TimelineLookup.NextChangeIsLeastEdge` | src/core/timeline.rs:191-198 | the next change is the least edge after the instant |
| `Reports.MakePlan` | src/core/report.rs:143-194 | the clamps of step, count and repeat leave usable machine values; what they come to is `ReportPlans` |
| `Reports.CollectCoverage` | src/core/report.rs:268-286 | the coverage loop computes the recursive coverage |
| `Reports.Walk` | src/core/report.rs:198-256 | the `while` over `k`, with its jump, breaks and ceiling, terminates even for `repeat = -1` and computes the walk |
| `Reports.Compute` | src/core/report.rs:122-263 | the schedule with its ad hoc and VEN-chosen cases |
| `ReportEnumeration.CoverMeaning` | src/core/report.rs:268-286 | a coverage runs from its first index to the last that exists and quotes those ids |
| `ReportEnumeration.CoverDownward` | src/core/report.rs:268-286 | in time order a coverable range vouches for every earlier one |
| `ReportEnumeration.BreakIsFinal` | src/core/report.rs:198-256 | after an early break no later report is due in the window |
| `ReportEnumeration.JumpKeeps` | src/core/report.rs:288-321 | a report the arithmetic jump passes over was due before the window, for any historical report and any forecast that starts within two periods |
| `ReportEnumeration.JumpLoses` | src/core/report.rs:288-321 | any other forecast is passed over by some window it is due in |
| `ReportEnumeration.JumpIsSound` | src/core/report.rs:288-321 | so the jump loses nothing in any declared order, as long as no interval ends before it starts |
| `ReportEnumeration.DueMeaning` | src/core/report.rs:198-256 | what the loop lists, in any order of intervals: the wanted reports of the numbers it visited, ascending |
| `ReportEnumeration.ScheduleIsEnumeration` | src/core/report.rs:122-263 | for time-ordered intervals a report is listed exactly when its number is below `repeat` and its due time in the window |
| `ReportEnumeration.WindowsAgree` | src/core/report.rs:122-263 | two windows agree on every field of a report they share |
| `ReportPlans.ReportFromDescriptor` | src/core/report.rs:143-255 | every listed report, sentinels and clamps included: anchored at start + k * step, covering `count` intervals back to it or on from it, due at its end or its start, quoting their ids unless the VEN chooses |
| `ReportPlans.HistoricalInsideList` | src/core/report.rs:202-255 | inside a list that does not repeat, report `k` covers `numIntervals` back from interval `startInterval + k * frequency` and is due as that ends |
| `ReportPlans.ForecastInsideList` | src/core/report.rs:202-255 | a forecast covers `numIntervals` on from it and is due as it starts |
| `ReportPlans.ListedWhenDue` | src/core/report.rs:198-256 | for intervals in time order such a report is listed exactly when it is within the repeat count and due in the window |
| `ReportLosses.LosesNothingIff` | src/core/report.rs:198-256 | for any plan, the default repeat included: no window below the ceiling loses a report due in it exactly when due times are ordered and forecasts start in time |
| `ReportLosses.ForwardLosesNothingIff` | src/core/report.rs:198-256 | with no interval ending before it starts, exactly when due times are ordered |
| `ReportLosses.TimeOrderLosesNothing` | src/core/report.rs:198-256 | intervals declared in time order have ordered due times and lose nothing |
| `ReportLosses.OutOfOrderLosesReport` | src/core/report.rs:243-245 | an event whose schedule loses a report to a break |
| `ReportLosses.BackwardIntervalLosesReport` | src/core/report.rs:294-321 | an event whose schedule loses a report to the jump |
| `ReportLosses.LargeNumberWraps` | src/core/report.rs:203 | under `repeat = -1` a number past the signed range wraps to an early interval |
| `ReportLosses.BoundedListsOnlyFitting` | src/core/report.rs:213-215 | a sequence that does not repeat never lists such a number |
| `ReportEnumeration.DefaultFrequencyIsBackToBack` | src/core/report.rs:161-187 | when the default frequency gives back-to-back batches |
| `ReportLosses.LoopingTariffQualifies` | src/core/report.rs:143-194 | an event looping for ever under the default descriptor meets every hypothesis of these lemmas and loses nothing, with its due times worked out |
| `ReportEnumeration.BatchOf` | src/core/report.rs:143-233 | report `k` covers exactly its batch of indices, clipped to the sequence |
| `ReportEnumeration.ReportedAtMostOnce` | src/core/report.rs:143-233 | no interval is in two reports |
| `ReportEnumeration.EveryIntervalHasReport` | src/core/report.rs:143-233 | every interval is in its batch's report, except exactly where time runs out inside the batch |
| `ReportEnumeration.EveryIntervalReportedOnce` | src/core/report.rs:122-263 | listed reports quote such an interval exactly once |
| `Aggregation.Combine` | src/core/report.rs:489-535 | position-wise sums of equally long numeric entries, agreement for the rest, the two errors otherwise; what the numbers are is `AggregateNumbers` |
| `Aggregation.Push` | src/core/report.rs:450-455 | a payload joins the series of its type, types in order of first appearance |
| `Aggregation.Gather` | src/core/report.rs:433-457 | the gathering loops hold every entry of every interval id once |
| `Aggregation.Aggregate` | src/core/report.rs:419-481 | succeeds exactly when every series combines; then it is the aggregate, ids ascending and exactly the union |
| `Aggregation.TotalsConserved` | src/core/report.rs:419-535 | for every id and type the output is the combination of every reported entry, carried once |
| `Aggregation.AggregateTwice` | src/core/report.rs:425-431 | aggregating an aggregate changes nothing |
| `Aggregation.CombinationPermutes` | src/core/report.rs:489-535 | whether and to what entries combine does not depend on their order |
| `Aggregation.OrderOfResourcesIrrelevant` | src/core/report.rs:419-535 | success, ids and totals do not depend on resource order |
| `AggregateNumbers.IntegerAndDecimalAdd` | src/model/values.rs:79-85 | an integer and a decimal combine to their sum, as a decimal |
| `AggregateNumbers.OneEntryIsItsTotal` | src/core/report.rs:513-516 | the total of one entry is the numbers it reports |
| `AggregateNumbers.OneMoreEntryRaises` | src/core/report.rs:517-533 | one more entry raises every position of the total by the number it reports there |
| `AggregateNumbers.CombinableIff` | src/core/report.rs:496-528 | numbers combine when equally long; anything else only when all entries are alike, and then to the first |
| `AggregateNumbers.WhatIsSummed` | src/core/report.rs:425-431 | nothing and a lone aggregate pass; several resources, and a lone one of any other name, become one under the reserved name |
| `AggregateNumbers.TwoMetersAdd` | src/core/report.rs:419-535 | two resources reporting one interval: the aggregate holds their sum |
| `AggregateNumbers.AggregateIsOne` | src/core/report.rs:419-481 | there is one outcome, down to the order of intervals and payloads |
| `VenSchedule.BuildTimelines` | src/ven/mod.rs:1015-1051 | one timeline per programme of the held events, each over the build's window with the held anchors |
| `VenSchedule.GroupByProgram` | src/ven/mod.rs:1030-1036 | the grouping loop gives each programme its events in id order |
| `VenSchedule.ComputeDueReports` | src/ven/mod.rs:824-880 | the three nested loops give the owed reports that are not remembered, in order |
| `VenReports.ScheduleAscends` | src/core/report.rs:198-256 | listed report numbers strictly ascend and fit 64 bits |
| `VenReports.OwedInOrder` | src/ven/mod.rs:824-880 | reports are owed in ascending order of event, descriptor and number, so no two share a key |
| `VenReports.OverdueMembers` | src/core/report.rs:350-360 | overdue is exactly what was due by then |
| `VenReports.OwedIff` | src/ven/mod.rs:824-880 | exactly which reports are owed: of every held event that can be placed, of every descriptor, every one that fell due within the catch-up window, with its fields |
| `VenReports.UnfiledMore` | src/ven/mod.rs:888-935 | remembering more removes exactly the newly remembered reports |
| `StateKeys.KeyRoundTrip` | src/ven/mod.rs:424-451 | a written key reads back as itself, whatever the event id holds |
| `StateKeys.StateRoundTrip` | src/ven/mod.rs:424-451 | export and restore keep exactly the memory of filed reports |
| `StateKeys.WrittenForm` | src/ven/mod.rs:440-451 | a key is written as event, descriptor and number, colons between |
| `VenLoop.ListAll` | src/client.rs:904-928 | paging at the named limit returns the whole collection, in order, and ends |
| `VenLoop.Compare` | src/ven/mod.rs:614-632 | added, updated and removed are exact, and `changed` says whether the id-to-modification view moved |
| `VenLoop.LaterWins` | src/ven/mod.rs:612-613 | of several events with one id the last is held |
| `VenLoop.FileKeepsConsistent` | src/ven/mod.rs:930-932 | acknowledging an unremembered report keeps the at-most-once history |
| `VenLoop.CancelKeepsConsistent` | src/ven/mod.rs:645-649 | forgetting a cancelled event's reports keeps it too |
| `VenLoop.ShortPageIsAll` | src/ven/mod.rs:592-610 | a tag kept for one short page, met again, vouches for the whole collection |
| `VenLoop.VenRuntime.constructor` | src/ven/mod.rs:406-415 | a new runtime is empty and valid |
| `VenLoop.VenRuntime.RebuildTimelines` | src/ven/mod.rs:365-368 | timelines of the held events and anchors, as of now |
| `VenLoop.VenRuntime.Sync` | src/ven/mod.rs:571-654 | after every sync the held view is the VTN's, the tag is kept exactly when one short page was everything, the timelines are fresh, and anchors and memory moved only with the ids reported |
| `VenLoop.VenRuntime.Adopt` | src/ven/mod.rs:635-649 | anchors exactly the held ids; only added or updated ids are re-anchored; only cancelled events are forgotten |
| `VenLoop.Prepare` | src/ven/mod.rs:893-908 | fails exactly when the meter cannot be read or its readings cannot be summed, and is empty exactly when the meter has nothing to say |
| `VenLoop.VenRuntime.FileOne` | src/ven/mod.rs:892-933 | one turn: filed exactly when accepted, and the cycle goes on exactly when nothing failed |
| `VenLoop.VenRuntime.SubmitDueReports` | src/ven/mod.rs:888-935 | the cycle ends exactly at the first due report that cannot be read, cannot be summed or is refused; of those before it exactly the accepted ones are filed, in order, and leave the due list; the run invariant, at-most-once filing, is kept |
| `VenLoop.Restart` | src/ven/mod.rs:424-451 | a restart keeps the memory and with it at-most-once filing over the whole history |
| `VenForesight.FreshReachesADayIff` | src/ven/mod.rs:357-362 | timelines that are not stale reach a day ahead of every reading, exactly for the build instants stated |
| `VenForesight.BuildsAgree` | src/ven/mod.rs:1015-1051 | two builds of the same anchored events that skip the same of them agree wherever both windows reach |
| `VenForesight.CachedAgreesWithRebuilt` | src/ven/mod.rs:345-369 | held timelines answer for a day ahead what timelines rebuilt now would, programme by programme |
| `VenForesight.NeverSleepsThroughChange` | src/ven/mod.rs:754-764 | what is in force does not change while the VEN waits |
| `VenForesight.WaitIsBounded` | src/ven/mod.rs:754-764 | the wait is at most the poll interval and ends at the next change when that is sooner |
| `VenForesight.LeastSegmentIsLeast` | src/ven/mod.rs:714-720 | what is in force is the least of the programmes' segments by priority and event id |
| `VenInForce.ActiveIsLeastShown` | src/ven/mod.rs:714-732 | what is in force is one of the programmes' segments, every programme consulted, and none shows a lower number or on a tie an earlier id |
| `VenInForce.ActiveIsLeastHeld` | src/ven/mod.rs:714-732 | it is instructed by a held event, and no held event of any programme that instructs something then goes before it |
| `VenInForce.NextChangeIsLeastOfAll` | src/ven/mod.rs:735-742 | the next change is the least of all programmes' |
| `VenInForce.BuildWindowIs` | src/ven/mod.rs:1015-1029 | a build reaches two days ahead and back by the poll interval in whole seconds, one at the least |
| `DurationSyntax.ComponentMatches` | src/model/time.rs:360 | a number and its unit match in one way only |
| `DurationSyntax.TakeOrLeave` | src/model/time.rs:360 | an optional component takes the one component that starts there or nothing |
| `DurationSyntax.MustTake` | src/model/time.rs:360 | where one component starts and the tail does not, greedy and backtracking matching agree |
| `DurationSyntax.Advance` | src/model/time.rs:402-408 | the unit cursor finds the next unit in order or runs out |
| `DurationSyntax.ScanDate` | src/model/time.rs:383-419 | the date loop accepts exactly what the date part of the pattern matches, and stops at the end or a `T` |
| `DurationSyntax.ScanTime` | src/model/time.rs:434-472 | the time loop accepts exactly what the rest of the pattern matches, an empty time part included |
| `DurationSyntax.PatternMatches` | src/model/time.rs:360 | the pattern as a sign, a `P`, the lookahead and the date part |
| `DurationSyntax.IsSchemaDuration` | src/model/time.rs:366-473 | for every string: accepted if and only if the pattern matches it |
| `Dispatching.ForEachConcurrent` | src/vtn/dispatch.rs:164-169 | each entry starts, in order, when a slot is first free |
| `Dispatching.GreedyFinishesInRounds` | src/vtn/dispatch.rs:68-88 | any batch, any lengths up to the timeout: over within the rounds times the timeout |
| `Dispatching.ConcurrencyIsExact` | src/vtn/dispatch.rs:164-169 | never more than the limit in flight, never fewer while an entry waits |
| `Dispatching.WorstCaseIsReached` | src/vtn/dispatch.rs:68-88 | a batch of timeouts takes exactly that long |
| `Dispatching.LeaseCoversEveryScheduleIff` | src/vtn/dispatch.rs:68-88 | the lease outlasts every schedule exactly when the timeout is positive and neither saturation bites |
| `Dispatching.LeaseIs` | src/vtn/dispatch.rs:84-88 | short of saturation, the timeout for every round and for one more |
| `Outboxes.MemoryOutbox.Push` | src/vtn/store/memory.rs:104-118 | a new entry is due now, unleased, under a fresh id |
| `Outboxes.MemoryOutbox.FirstDue` | src/vtn/store/memory.rs:1061-1071 | the first `limit` due entries in id order: no due entry before them is left out |
| `Outboxes.MemoryOutbox.ClaimDue` | src/vtn/store/memory.rs:1049-1085 | exactly those are leased until the lease's end, and nothing else changes |
| `Outboxes.ClaimsOpenOnly` | src/vtn/store/memory.rs:1061-1071 | only entries whose time has come and that no lease holds are claimed, none is passed over for a later one, and all are when there is room |
| `Outboxes.LeaseEndsAt` | src/vtn/store/memory.rs:1056-1058 | the recorded lease in whole seconds, and what becomes of it past the end of time |
| `Outboxes.MemoryOutbox.RecordFailure` | src/vtn/store/memory.rs:1092-1112 | one more attempt, no lease, another try later or abandoned; a missing entry is left missing |
| `Outboxes.MemoryOutbox.ReviveDead` | src/vtn/store/memory.rs:1156-1168 | exactly the abandoned entries start over |
| `DispatchRuns.Attempt` | src/vtn/dispatch.rs:173-242 | the outcome of an attempt is recorded on its own entry only |
| `DispatchRuns.StepKeepsInv` | src/vtn/dispatch.rs:150-242 | every step keeps each held entry leased past the end of its attempt, and held once |
| `DispatchRuns.NeverHeldTwice` | src/vtn/dispatch.rs:7-9 | in every run whose claims are safe no entry is ever in flight at two dispatchers |
| `DispatchRuns.SafeToClaimIff` | src/vtn/store/memory.rs:1056-1058 | a claim is safe exactly when the worst case ends before the recorded lease does |
| `DispatchRuns.WholeSecondTimeoutsAreSafe` | src/vtn/store/memory.rs:1056-1058 | an attempt timeout of a second or more makes every claim within range safe, truncation included |
| `DispatchRuns.ShortTimeoutIsUnsafe` | src/vtn/store/memory.rs:1056-1058 | a concrete configuration that is never safe |
| `DispatchRuns.LetPass` | src/vtn/dispatch.rs:150-171 | from any state time can pass to any later instant, attempts ending when they are over |
| `DispatchRuns.UnsafeClaimIsHeldTwice` | src/vtn/dispatch.rs:7-9 | whenever a claim is not safe there is a run in which two dispatchers hold one entry |
| `Adapters.RewriteDescriptors` | src/model/adapt.rs:74-80 | each descriptor object of a list is rewritten, other elements are left |
| `Adapters.Walk` | src/model/adapt.rs:67-89 | the two-phase walk rewrites every descriptor once, at any depth, those nested in descriptors included |
| `Adapters.DescriptorCommutes` | src/model/adapt.rs:67-89 | rewriting a descriptor before or after what it holds is the same |
| `Adapters.ReturnsIff` | src/model/adapt.rs:97-119 | one way and back is the identity exactly on documents whose every descriptor is tidy, in either direction |
| `Adapters.FluviusInbound` | src/model/adapt.rs:97-109 | sending back what arrived restores it exactly when no descriptor held a preserved key |
| `Adapters.FluviusOutbound` | src/model/adapt.rs:111-119 | receiving back what was sent restores it exactly for canonical descriptors |
| `Adapters.DescriptorArrives` | src/model/adapt.rs:97-109 | in the profile's own keys: a string frequency and any required flag are set aside, nothing else comes or goes |
| `Adapters.DescriptorDeparts` | src/model/adapt.rs:111-119 | whatever was set aside is put back under its own key |
| `Adapters.AdapterChain.ApplyInbound` | src/model/adapt.rs:156-160 | last adapter first |
| `Adapters.AdapterChain.ApplyOutbound` | src/model/adapt.rs:163-167 | in the order added |
| `Adapters.ChainUndoesItself` | src/model/adapt.rs:150-167 | a chain whose every adapter undoes itself undoes itself |
| `Adapters.ChainRedoesItself` | src/model/adapt.rs:150-167 | and the other way round |
| `Adapters.OrderMatters` | src/model/adapt.rs:150-155 | two adapters on one field: reverse order restores it, the same order does not |
| `Privacy.ContainsIff` | src/core/privacy.rs:109-112 | the binary search finds a target exactly when it is granted |
| `Privacy.Extended` | src/core/privacy.rs:114-119 | extending keeps the grant sorted and unique and adds exactly the targets given |
| `Privacy.ExtendedIsFromAll` | src/core/privacy.rs:92-119 | portions and their order do not matter |
| `Privacy.SameMembersSameList` | src/core/privacy.rs:77-80 | a grant is determined by what is in it |
| `Privacy.GrantIndex.Add` | src/core/privacy.rs:403-411 | extends one client's grant and no other |
| `Privacy.GrantFor` | src/vtn/store/memory.rs:1029-1039 | the grant holds exactly the targets on the client's VENs and their resources |
| `Privacy.AllGrants` | src/vtn/store/memory.rs:1257-1271 | one entry per VEN, with a grant of exactly the targets its client was granted anywhere |
| `Privacy.OneGrantPerClient` | src/vtn/store/memory.rs:1029-1039 | push delivery uses the very grant its client would be read with |
| `Privacy.Narrowed` | src/core/privacy.rs:228-236 | the request narrowed to the grant, through the binary search |
| `Privacy.VisibleIff` | src/core/privacy.rs:220-252 | which objects a reader other than business logic sees at all |
| `Privacy.BusinessLogicSeesWhole` | src/core/privacy.rs:293-303 | business logic sees objects whole, filtered only by the targets it names |
| `Privacy.ShownUnasked` | src/core/privacy.rs:151-179 | who is shown what by a list, a read by id and a push when no target is named, reader by reader |
| `Privacy.ShownWhenAsked` | src/core/privacy.rs:228-236 | naming targets narrows a client to those it was granted |
| `Privacy.ShownIsIntersection` | src/core/privacy.rs:293-317 | the shown list is exactly the object's targets that are granted and, if any were named, requested; sorted, unique, empty only for an untargeted object |
| `Privacy.ShownTellsExactly` | src/core/privacy.rs:293-317 | two objects look the same exactly when they agree on the entitled targets and, where nothing was named, on being targeted |
| `Privacy.ReadByIdShowsMost` | src/core/privacy.rs:151-179 | what a list or a push shows, a read by id shows too; a push naming targets shows what a list naming them shows |
| `Privacy.UngrantedTargetsDoNotInterfere` | src/core/privacy.rs:293-317 | non-interference: targets that were not granted leave no trace |

## Left out

- HTTP, OAuth2, TLS, MQTT, mDNS, routing, metrics, logging and the conformance suite: plumbing with no state of its own to reason about.
- Calendar arithmetic, ISO 8601 parsing beyond the schema pattern, and printing: a library's; `Calendar` is a function parameter, and tiling assumes only that a positive duration moves forward.
- Error detail strings, and the human-readable form of a timeline: no claim rests on them.
- IntervalWindows.GetMeaning: does not model overflow of the 128-bit product of index and period; repetitions that far out fail the range check in the model, while the code's product would wrap or trap first.
- ReportLosses.LosesNothingIff: speaks of report numbers whose range fits a signed 64-bit integer; what a repeating sequence does with larger ones is computed by the model but not characterised.
- `randomizeStart` offsets: carried through the expansion, not applied to active segments.
- The payload table: which payload types are scalar event payloads is a function parameter of the expander.
- Rounding of decimals: values are exact rationals.
- `register`, `sync_resources`, `sync_programs`, `intervals_for`, `check_clock`: requests and formatting around the loop that is modelled.
- Concurrent callers of one runtime and the waker: the loop is one sequence of sync, submit, export and restore steps.
- The VTN during one sync: its collection does not change between the pages of one sync, and different pages have different tags.
- Poll intervals, catch-up windows and leases beyond what the time library's span can hold: the library panics there.
- The report request that `submit_due_reports` sends: the meter's series and the VTN's answer are modelled, the envelope is not.
- Retry backoff and the circuit breaker: when a failed entry may be tried again is a parameter of the step; which subscriber is cut off is not modelled.
- The SQL outboxes: the in-memory one stands for the claim-under-lease contract; entries carry no delivery payload.
- JSON documents are values: the walk returns the rewritten document instead of updating it in place. A document owns what is in it, so nothing else could observe the update.
- Grants are values for the same reason; the index that holds them is a class.
- Duration strings are taken as their bytes; the pattern's digits are the ten ASCII digits.
- Ownership of `ven`, `resource`, `subscription` and `report` objects, and the plain `targets` filter on them: one comparison each.
