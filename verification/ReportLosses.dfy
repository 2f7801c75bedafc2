/** Exactly when a report schedule loses nothing, and inputs for which it does lose a report. */
module ReportLosses {
  import opened Wrappers
  import opened Arithmetic
  import opened Model
  import opened Intervals
  import opened IntervalWindows
  import opened Reports
  import opened ReportEnumeration

  // ------------------------------------------------------------------------
  // The exact condition
  // ------------------------------------------------------------------------

  /** A report with a known due time. */
  predicate Known(v: Visit) {
    v.Report? && v.due.dueAt.Some?
  }

  /** Visit `k'` cannot end the walk while `k` is still to be listed. */
  ghost predicate NoLater(v: Visits, k': nat, k: nat) {
    Known(v(k)) ==> !v(k').Nothing? && (Known(v(k')) ==> v(k').due.dueAt.value <= v(k).due.dueAt.value)
  }

  /** Due times never go back, and no number before a known report is without one. */
  ghost predicate DueOrdered(p: Plan, s: IntervalSequence) {
    forall k': nat, k: nat :: k' < k < p.repeat && Fits(p, k) ==> NoLater(VisitsOf(p, s), k', k)
  }

  /** A forecast starts its reports with intervals that start before the next repetition is over. */
  ghost predicate AllStartInTime(p: Plan, s: IntervalSequence) {
    forall k: nat :: k < p.repeat && Fits(p, k) && VisitsOf(p, s)(k).Report? ==> p.backwards || StartsInTime(p, s, k)
  }

  /** Unless the ceiling is reached, the schedule lists report `k` when it is due in the window. */
  ghost predicate ListsWhenDue(p: Plan, s: IntervalSequence, max: nat, from: Timestamp, to: Timestamp, k: nat)
    requires p.step >= 1
  {
    var due, v := DueIn(p, s, max, from, to), VisitsOf(p, s)(k);
    |due| < max && k < p.repeat && Fits(p, k) && Known(v) && from <= v.due.dueAt.value <= to ==> v.due in due
  }

  ghost predicate LosesNothing(p: Plan, s: IntervalSequence)
    requires p.step >= 1
  {
    forall max: nat, from: Timestamp, to: Timestamp, k: nat :: ListsWhenDue(p, s, max, from, to, k)
  }

  lemma {:induction false} WalkEndsAtStop(v: Visits, repeat: nat, max: nat, from: Timestamp, to: Timestamp,
                                          k: nat, due: seq<ReportDue>, stop: nat)
    requires Numbered(v) && k <= stop && Stops(v(stop), to)
    requires forall d :: d in due ==> d.sequence < stop
    ensures forall d :: d in WalkFrom(v, repeat, max, from, to, k, due) ==> d.sequence < stop
    decreases repeat - k
  {
    if k < repeat && |due| < max && !Stops(v(k), to) {
      WalkEndsAtStop(v, repeat, max, from, to, k + 1,
                     if v(k).Report? && Wanted(v(k).due.dueAt, from, to) then due + [v(k).due] else due, stop);
    }
  }

  lemma {:induction false} WalkLength(v: Visits, repeat: nat, max: nat, from: Timestamp, to: Timestamp, k: nat,
      due: seq<ReportDue>)
    requires |due| <= Min(k, repeat)
    ensures |WalkFrom(v, repeat, max, from, to, k, due)| <= repeat
    decreases repeat - k
  {
    if k < repeat && |due| < max && !Stops(v(k), to) {
      WalkLength(v, repeat, max, from, to, k + 1,
                 if v(k).Report? && Wanted(v(k).due.dueAt, from, to) then due + [v(k).due] else due);
    }
  }

  lemma FirstWindowDoesNotJump(p: Plan, s: IntervalSequence)
    requires p.step >= 1
    ensures FirstKReaching(p, s, MIN_TIME) == 0
  {}

  /** A window that opens with time and closes with report `k` misses it when `k'` is out of order. */
  lemma BreakLoses(p: Plan, s: IntervalSequence, k': nat, k: nat)
    requires Sound(p, s) && k' < k < p.repeat && Fits(p, k) && !NoLater(VisitsOf(p, s), k', k)
    ensures !ListsWhenDue(p, s, p.repeat + 1, MIN_TIME, VisitsOf(p, s)(k).due.dueAt.value, k)
  {
    var v := VisitsOf(p, s);
    var to := v(k).due.dueAt.value;
    FirstWindowDoesNotJump(p, s);
    CeilingIsFar(p, s, MIN_TIME, to);
    WalkEndsAtStop(v, p.repeat, p.repeat + 1, MIN_TIME, to, 0, [], k');
  }

  lemma JumpLosesInWindow(p: Plan, s: IntervalSequence, k: nat) returns (from: Timestamp)
    requires WellFormed(s) && Sound(p, s) && k < p.repeat && Fits(p, k) && VisitsOf(p, s)(k).Report?
    requires !p.backwards && !StartsInTime(p, s, k)
    ensures !ListsWhenDue(p, s, p.repeat + 1, from, MAX_TIME, k)
  {
    from := JumpLoses(p, s, k);
    CeilingIsFar(p, s, from, MAX_TIME);
    ListedAreNotJumped(p, s, p.repeat + 1, from, MAX_TIME);
    assert VisitsOf(p, s)(k).due.sequence == k;
  }

  lemma CeilingIsFar(p: Plan, s: IntervalSequence, from: Timestamp, to: Timestamp)
    requires p.step >= 1
    ensures |DueIn(p, s, p.repeat + 1, from, to)| <= p.repeat
  {
    WalkLength(VisitsOf(p, s), p.repeat, p.repeat + 1, from, to, FirstKReaching(p, s, from), []);
  }

  lemma ListedAreNotJumped(p: Plan, s: IntervalSequence, max: nat, from: Timestamp, to: Timestamp)
    requires p.step >= 1
    ensures forall d :: d in DueIn(p, s, max, from, to) ==> d.sequence >= FirstKReaching(p, s, from)
  {
    var due, first := DueIn(p, s, max, from, to), FirstKReaching(p, s, from);
    var next := DueMeaning(p, s, max, from, to);
    forall d | d in due ensures d.sequence >= first {
      var i :| 0 <= i < |due| && due[i] == d;
      assert ListedOne(due[i], VisitsOf(p, s), p.repeat, first, next, from, to);
    }
  }

  lemma OrderedListsWhenDue(p: Plan, s: IntervalSequence, max: nat, from: Timestamp, to: Timestamp, k: nat)
    requires WellFormed(s) && Sound(p, s) && DueOrdered(p, s) && AllStartInTime(p, s)
    ensures ListsWhenDue(p, s, max, from, to, k)
  {
    var due, v := DueIn(p, s, max, from, to), VisitsOf(p, s);
    if |due| < max && k < p.repeat && Fits(p, k) && Known(v(k)) && from <= v(k).due.dueAt.value <= to {
      var next := DueMeaning(p, s, max, from, to);
      if k < FirstKReaching(p, s, from) {
        JumpKeeps(p, s, from, k);
      }
      assert next < k ==> NoLater(v, next, k);
    }
  }

  /**
   For any plan, the default of repeating for ever included: no window that stays below the ceiling
   loses a report that is due in it, exactly when due times are ordered, which is what the early breaks
   need, and forecasts start their reports in time, which is what the jump needs.
   */
  lemma LosesNothingIff(p: Plan, s: IntervalSequence)
    requires WellFormed(s) && Sound(p, s)
    ensures LosesNothing(p, s) <==> DueOrdered(p, s) && AllStartInTime(p, s)
  {
    if !DueOrdered(p, s) {
      var k': nat, k: nat :| k' < k < p.repeat && Fits(p, k) && !NoLater(VisitsOf(p, s), k', k);
      BreakLoses(p, s, k', k);
    } else if !AllStartInTime(p, s) {
      var k: nat :| k < p.repeat && Fits(p, k) && VisitsOf(p, s)(k).Report? && !p.backwards && !StartsInTime(p, s, k);
      var from := JumpLosesInWindow(p, s, k);
    } else {
      forall max: nat, from: Timestamp, to: Timestamp, k: nat ensures ListsWhenDue(p, s, max, from, to, k) {
        OrderedListsWhenDue(p, s, max, from, to, k);
      }
    }
  }

  /** With no interval ending before it starts, only the order of due times matters. */
  lemma ForwardLosesNothingIff(p: Plan, s: IntervalSequence)
    requires WellFormed(s) && RunsForward(s) && Sound(p, s)
    ensures LosesNothing(p, s) <==> DueOrdered(p, s)
  {
    forall k: nat | k < p.repeat && Fits(p, k) && VisitsOf(p, s)(k).Report?
      ensures p.backwards || StartsInTime(p, s, k)
    {
      ForwardStartsInTime(p, s, k);
    }
    LosesNothingIff(p, s);
  }

  lemma ForwardStartsInTime(p: Plan, s: IntervalSequence, k: nat)
    requires WellFormed(s) && RunsForward(s)
    ensures StartsInTime(p, s, k)
  {
    if s.period.Some? && Def(LookupOf(s), FirstOf(p, k)) {
      var j := Position(s, FirstOf(p, k));
      assert s.base[j].end.Some?;
    }
  }

  /** Declared intervals in time order have ordered due times, and so lose nothing. */
  lemma TimeOrderLosesNothing(p: Plan, s: IntervalSequence)
    requires WellFormed(s) && TimeOrdered(s) && Sound(p, s)
    ensures DueOrdered(p, s) && LosesNothing(p, s)
  {
    var v := VisitsOf(p, s);
    forall k': nat, k: nat | k' < k < p.repeat && Fits(p, k) ensures NoLater(v, k', k) {
      if Known(v(k)) && Stops(v(k'), v(k).due.dueAt.value) {
        BreakIsFinal(p, s, v(k).due.dueAt.value, k', k);
      }
    }
    ForwardLosesNothingIff(p, s);
  }

  // ------------------------------------------------------------------------
  // Events that do lose a report, and one that loses none
  // ------------------------------------------------------------------------

  const USUAL: ScheduleOptions := ScheduleOptions(false, 1000, 10_000)

  /** An interval of its own start and length, without payloads. */
  function Timed(id: int, start: Timestamp, nanos: Option<int>): Interval {
    var duration := if nanos.Some? then Some(Finite(Span(0, 0, nanos.value))) else None;
    Interval(id, Some(IntervalPeriod(Some(At(start)), duration, None)), [])
  }

  function Whole(id: int, index: nat, start: Timestamp, end: Timestamp): ExpandedInterval {
    ExpandedInterval(id, index, 0, 0, start, Some(end), None, [])
  }

  lemma PayloadlessIsWhole(iv: Interval, index: nat, start: Timestamp, end: Timestamp)
    requires iv.payloads == []
    ensures Pieces(NANO_EXPANDER, iv, index, start, Some(end), None) == Ok([Whole(iv.id, index, start, end)])
  {
    assert MaxSubintervals(NANO_EXPANDER, iv.payloads) == 1;
  }

  lemma ExpandTwo(e: EventRequest, a: Interval, b: Interval, starts: (Timestamp, Timestamp),
      ends: (Timestamp, Timestamp))
    requires e.intervalPeriod.None? && e.intervals == Some([a, b]) && a.payloads == [] && b.payloads == []
    requires RandomizeOf(None, a).None? && RandomizeOf(None, b).None?
    requires StartOf(NANO_EXPANDER, a, 0, None) == Ok(starts.0)
    requires EndOf(NANO_EXPANDER, None, [a, b], 0, starts.0) == Ok(Some(ends.0))
    requires StartOf(NANO_EXPANDER, b, 1, Some(ends.0)) == Ok(starts.1)
    requires EndOf(NANO_EXPANDER, None, [a, b], 1, starts.1) == Ok(Some(ends.1))
    ensures Expand(NANO_EXPANDER, e) == Ok([Whole(a.id, 0, starts.0, ends.0), Whole(b.id, 1, starts.1, ends.1)])
  {
    var x, one, two := NANO_EXPANDER, Whole(a.id, 0, starts.0, ends.0), Whole(b.id, 1, starts.1, ends.1);
    PayloadlessIsWhole(a, 0, starts.0, ends.0);
    PayloadlessIsWhole(b, 1, starts.1, ends.1);
    assert [] + [one] == [one] && [one] + [two] == [one, two];
    assert ExpandFrom(x, None, [a, b], 2, Some(ends.1), [one, two]) == Ok([one, two]);
    assert ExpandFrom(x, None, [a, b], 1, Some(ends.0), [one]) == Ok([one, two]);
  }

  /** Its first declared interval comes after its second. */
  const LATE_FIRST_EVENT: EventRequest :=
    EventRequest(PROGRAM, None, None, None, None, Some([Timed(0, 100, Some(100)), Timed(1, 0, Some(50))]))
  const LATE_FIRST: IntervalSequence :=
    IntervalSequence([Whole(0, 0, 100, 200), Whole(1, 1, 0, 50)], None, 0, None, false)

  lemma LateFirstIsExpanded()
    ensures Sequence(NANO_EXPANDER, LATE_FIRST_EVENT) == Ok(LATE_FIRST)
  {
    ExpandTwo(LATE_FIRST_EVENT, Timed(0, 100, Some(100)), Timed(1, 0, Some(50)), (100, 0), (200, 50));
  }

  const EACH_AS_IT_STARTS: ReportDescriptor := ReportDescriptor("USAGE", false, 0, 1, false, 1, 2, false)

  lemma VisitLateFirst(p: Plan, k: nat)
    requires p == Plan(true, 2, 1, 0, 1, 2, false, false) && k < 2
    ensures VisitsOf(p, LATE_FIRST)(k) ==
      Report(MakeReport(p, k, if k == 0 then Coverage(100, Some(200), [0]) else Coverage(0, Some(50), [1])))
  {
    RangeOf(p, LATE_FIRST, k);
    assert Get(LATE_FIRST, k) == Ok(Some(LATE_FIRST.base[k]));
  }

  /** Out of time order a break loses a report: the second interval's, due inside the window. */
  lemma OutOfOrderLosesReport()
    ensures Sequence(NANO_EXPANDER, LATE_FIRST_EVENT) == Ok(LATE_FIRST)
    ensures
      var p := MakePlan(EACH_AS_IT_STARTS, LATE_FIRST, USUAL);
      && p.repeat == 2 && Fits(p, 1)
      && VisitsOf(p, LATE_FIRST)(1) == Report(ReportDue(1, Some(0), 0, Some(50), [1]))
      && Schedule(EACH_AS_IT_STARTS, LATE_FIRST, 0, 10, USUAL).due == []
  {
    LateFirstIsExpanded();
    var p := MakePlan(EACH_AS_IT_STARTS, LATE_FIRST, USUAL);
    assert p == Plan(true, 2, 1, 0, 1, 2, false, false);
    VisitLateFirst(p, 0);
    VisitLateFirst(p, 1);
  }

  /** Its first interval is closed by the second one's earlier start, and so ends before it starts. */
  const BACKWARD_EVENT: EventRequest :=
    EventRequest(PROGRAM, Some(Forever), None, None, None, Some([Timed(0, 1000, None), Timed(1, 0, Some(10))]))
  const BACKWARD: IntervalSequence :=
    IntervalSequence([Whole(0, 0, 1000, 0), Whole(1, 1, 0, 10)], Some(10), 0, None, false)

  lemma BackwardIsExpanded()
    ensures Sequence(NANO_EXPANDER, BACKWARD_EVENT) == Ok(BACKWARD)
  {
    ExpandTwo(BACKWARD_EVENT, Timed(0, 1000, None), Timed(1, 0, Some(10)), (1000, 0), (0, 10));
    assert MinStart(BACKWARD.base) == 0 && MaxEnd(BACKWARD.base) == 10 && !AnyOpenEnded(BACKWARD.base);
  }

  const EVERY_REPETITION: ReportDescriptor := ReportDescriptor("USAGE", false, 0, 1, false, 2, 100, false)

  lemma VisitBackward(p: Plan)
    requires p == Plan(false, 2, 1, 0, 2, 100, false, false)
    ensures VisitsOf(p, BACKWARD)(0) == Report(ReportDue(0, Some(1000), 1000, Some(0), [0]))
  {
    RangeOf(p, BACKWARD, 0);
    assert Get(BACKWARD, 0) == Ok(Some(BACKWARD.base[0]));
  }

  lemma JumpBackward(p: Plan)
    requires p == Plan(false, 2, 1, 0, 2, 100, false, false)
    ensures FirstKReaching(p, BACKWARD, 500) == 49
  {
    assert (500 - 0) / 10 == 50 && CeilDiv(98, 2) == 49;
  }

  /** The jump loses a report too: the backward interval's, due inside the window, long before the jump lands. */
  lemma BackwardIntervalLosesReport()
    ensures Sequence(NANO_EXPANDER, BACKWARD_EVENT) == Ok(BACKWARD)
    ensures
      var p := MakePlan(EVERY_REPETITION, BACKWARD, USUAL);
      && p.repeat == 100 && Fits(p, 0) && FirstKReaching(p, BACKWARD, 500) == 49
      && VisitsOf(p, BACKWARD)(0) == Report(ReportDue(0, Some(1000), 1000, Some(0), [0]))
      && VisitsOf(p, BACKWARD)(0).due !in Schedule(EVERY_REPETITION, BACKWARD, 500, 2000, USUAL).due
  {
    BackwardIsExpanded();
    var p := MakePlan(EVERY_REPETITION, BACKWARD, USUAL);
    assert p == Plan(false, 2, 1, 0, 2, 100, false, false);
    VisitBackward(p);
    JumpBackward(p);
    ListedAreNotJumped(p, BACKWARD, USUAL.maxReports, 500, 2000);
  }

  /** One interval, looping for ever. */
  const LOOPING_EVENT: EventRequest :=
    EventRequest(PROGRAM, Some(Forever), None, None,
                 Some(IntervalPeriod(Some(At(0)), Some(Finite(Span(0, 0, 10))), None)), Some([Interval(0, None, [])]))
  const LOOPING: IntervalSequence := IntervalSequence([Whole(0, 0, 0, 10)], Some(10), 0, None, false)

  lemma LoopingIsExpanded()
    ensures Sequence(NANO_EXPANDER, LOOPING_EVENT) == Ok(LOOPING)
  {
    var x, e, one := NANO_EXPANDER, LOOPING_EVENT, Whole(0, 0, 0, 10);
    var iv := e.intervals.value[0];
    PayloadlessIsWhole(iv, 0, 0, 10);
    assert ExpandFrom(x, e.intervalPeriod, e.intervals.value, 1, Some(10), [one]) == Ok([one]);
    assert [] + [one] == [one];
    assert Expand(x, e) == Ok([one]);
  }

  const ALL_DEFAULTS: ReportDescriptor := ReportDescriptor("USAGE", false, -1, -1, true, -1, -1, false)

  lemma LoopingAt(k: nat)
    requires k <= 1_000_000
    ensures Get(LOOPING, k) == Ok(Some(ExpandedInterval(0, 0, k, 0, 10 * k, Some(10 * k + 10), None, [])))
  {
    assert k / 1 == k && k % 1 == 0;
  }

  lemma LoopingCover(k: nat)
    requires k <= 1_000_000
    ensures Cover(LookupOf(LOOPING), k, k) == Some(Coverage(10 * k, Some(10 * k + 10), [0]))
  {
    LoopingAt(k);
  }

  const LOOPING_PLAN: Plan := Plan(false, 1, 1, 0, 1, U64_MAX, true, false)

  lemma VisitLooping(k: nat)
    requires k <= 1_000_000
    ensures Fits(LOOPING_PLAN, k) && k < LOOPING_PLAN.repeat
    ensures VisitsOf(LOOPING_PLAN, LOOPING)(k)
      == Report(ReportDue(k, Some(10 * k + 10), 10 * k, Some(10 * k + 10), [0]))
  {
    RangeOf(LOOPING_PLAN, LOOPING, k);
    assert FirstOf(LOOPING_PLAN, k) == k && LastOf(LOOPING_PLAN, k) == k;
    LoopingCover(k);
  }

  lemma LoopingIsOrdered()
    ensures WellFormed(LOOPING) && TimeOrdered(LOOPING)
  {
    LoopingIsExpanded();
    SequenceWellFormed(NANO_EXPANDER, LOOPING_EVENT);
  }

  /** A tariff looping for ever under a default descriptor meets every hypothesis here and loses nothing. */
  lemma LoopingTariffQualifies(k: nat)
    requires k <= 1_000_000
    ensures Sequence(NANO_EXPANDER, LOOPING_EVENT) == Ok(LOOPING) && WellFormed(LOOPING) && TimeOrdered(LOOPING)
    ensures MakePlan(ALL_DEFAULTS, LOOPING, USUAL) == LOOPING_PLAN && Sound(LOOPING_PLAN, LOOPING)
    ensures BackToBack(LOOPING_PLAN) && Fits(LOOPING_PLAN, k) && LosesNothing(LOOPING_PLAN, LOOPING)
    ensures VisitsOf(LOOPING_PLAN, LOOPING)(k)
      == Report(ReportDue(k, Some(10 * k + 10), 10 * k, Some(10 * k + 10), [0]))
  {
    LoopingIsExpanded();
    LoopingIsOrdered();
    VisitLooping(k);
    TimeOrderLosesNothing(LOOPING_PLAN, LOOPING);
  }

  // ------------------------------------------------------------------------
  // Numbers that do not fit
  // ------------------------------------------------------------------------

  const FROM_THE_FIFTH: ReportDescriptor := ReportDescriptor("USAGE", false, 4, 1, false, 1, -1, false)

  /** A number past the signed range wraps to an early interval, which is why numbers are asked to fit. */
  lemma LargeNumberWraps()
    ensures
      var p, k := MakePlan(FROM_THE_FIFTH, LOOPING, USUAL), U64_MAX - 1;
      && k < p.repeat && !Fits(p, k) && AsI64(k) == -2
      && VisitsOf(p, LOOPING)(k) == Report(ReportDue(k, Some(20), 20, Some(30), [0]))
  {
    var p, k := MakePlan(FROM_THE_FIFTH, LOOPING, USUAL), U64_MAX - 1;
    assert p == Plan(false, 1, 1, 4, 1, U64_MAX, false, false);
    assert FirstOf(p, k) == 2 && LastOf(p, k) == 2;
    LoopingCover(2);
  }

  /** On a sequence that does not repeat, no such number is ever listed: the walk has ended long before. */
  lemma BoundedListsOnlyFitting(p: Plan, s: IntervalSequence, max: nat, from: Timestamp, to: Timestamp)
    requires Sound(p, s) && p.bounded && Fits(p, p.declared + p.num)
    ensures forall d :: d in DueIn(p, s, max, from, to) ==> Fits(p, d.sequence)
  {
    var end := p.declared + p.num;
    RangeOf(p, s, end);
    MulMonotone(1, p.step, end);
    WalkEndsAtStop(VisitsOf(p, s), p.repeat, max, from, to, 0, [], end);
    forall d | d in DueIn(p, s, max, from, to) ensures Fits(p, d.sequence) {
      MulMonotone(d.sequence, end, p.step);
    }
  }
}
