/** What a scheduled report covers and when it is due, worked out from the descriptor's own integers. */
module ReportPlans {
  import opened Wrappers
  import opened Arithmetic
  import opened Model
  import opened Intervals
  import opened IntervalWindows
  import opened Reports
  import opened ReportEnumeration

  /** The descriptor asks for so many intervals a report: at least one, and no more than there are to quote. */
  predicate AsksFor(d: ReportDescriptor, s: IntervalSequence, o: ScheduleOptions, count: nat) {
    var most := if s.period.None? then |s.base| else if o.maxIntervals >= 1 then o.maxIntervals else 1;
    && (d.numIntervals == 0 ==> count == 1)
    && (0 < d.numIntervals <= most ==> count == d.numIntervals)
    && (d.numIntervals > most ==> count == most)
    && (d.numIntervals < 0 && |s.base| <= most ==> count == |s.base|)
    && (d.numIntervals < 0 && |s.base| > most ==> count == most)
  }

  /**
   Report 0 is anchored there: where the descriptor says, but inside a list that does not repeat; when it
   does not say, at the far end of the list going back and at the near end going forward.
   */
  predicate StartsAt(d: ReportDescriptor, s: IntervalSequence, o: ScheduleOptions, count: nat, start: nat) {
    && (d.startInterval >= 0 && (s.period.Some? || d.startInterval < |s.base|) ==> start == d.startInterval)
    && (d.startInterval >= |s.base| && s.period.None? ==> start == |s.base| - 1)
    && (d.startInterval < 0 && o.startIntervalIsFirstCovered && count <= |s.base| ==> start == |s.base| - count)
    && (d.startInterval < 0 && o.startIntervalIsFirstCovered && count > |s.base| ==> start == 0)
    && (d.startInterval < 0 && !o.startIntervalIsFirstCovered && d.historical ==> start == |s.base| - 1)
    && (d.startInterval < 0 && !o.startIntervalIsFirstCovered && !d.historical ==> start == 0)
  }

  /** The next report is anchored so many intervals on. */
  predicate MovesBy(d: ReportDescriptor, count: nat, step: nat) {
    (d.frequency < 0 ==> step == count) && (d.frequency > 0 ==> step == d.frequency)
  }

  predicate Asks(d: ReportDescriptor, s: IntervalSequence, o: ScheduleOptions, count: nat, start: nat, step: nat) {
    && s.base != [] && d.frequency != 0
    && AsksFor(d, s, o, count) && StartsAt(d, s, o, count, start) && MovesBy(d, count, step)
  }

  predicate GoesBack(d: ReportDescriptor, o: ScheduleOptions) {
    d.historical && !o.startIntervalIsFirstCovered
  }

  /** The report quotes the intervals from `first` to the last that exists up to `last`. */
  ghost predicate Quotes(s: IntervalSequence, r: ReportDue, first: nat, last: int, venChooses: bool) {
    exists m: nat :: QuotesUpTo(s, r, first, m, venChooses) && m <= last && (m == last || Get(s, m + 1) == Ok(None))
  }

  ghost predicate QuotesUpTo(s: IntervalSequence, r: ReportDue, first: nat, m: nat, venChooses: bool) {
    && first <= m && (forall i: nat :: first <= i <= m ==> Defined(s, i))
    && r.coversFrom == IntervalAt(s, first).start && r.coversTo == IntervalAt(s, m).end
    && (venChooses ==> r.intervalIds == [])
    && (venChooses || |r.intervalIds| == m - first + 1)
    && (venChooses || forall j :: 0 <= j <= m - first ==> r.intervalIds[j] == IntervalAt(s, first + j).id)
  }

  lemma PlanIs(d: ReportDescriptor, s: IntervalSequence, o: ScheduleOptions, count: nat, start: nat, step: nat)
    requires Asks(d, s, o, count, start, step)
    ensures var p := MakePlan(d, s, o);
      && p.num == count && p.anchor0 == start && p.step == step && Sound(p, s)
      && p.backwards == GoesBack(d, o) && p.venChooses == (d.openIntervals || s.implied)
      && p.repeat == if d.repeat < 0 then U64_MAX else d.repeat
  {}

  lemma {:induction false} IdsInOrder(g: Lookup, first: nat, m: int)
    requires first <= m + 1 && AllDef(g, first, m)
    ensures |IdsOf(g, first, m)| == m - first + 1
    ensures forall j :: 0 <= j <= m - first ==> IdsOf(g, first, m)[j] == Item(g, first + j).id
    decreases m + 1 - first
  {
    if first <= m {
      IdsInOrder(g, first, m - 1);
    }
  }

  lemma AllDefined(s: IntervalSequence, first: nat, m: int)
    requires AllDef(LookupOf(s), first, m)
    ensures forall i: nat :: first <= i <= m ==> Defined(s, i) && IntervalAt(s, i) == Item(LookupOf(s), i)
  {
    forall i: nat | first <= i <= m ensures Defined(s, i) && IntervalAt(s, i) == Item(LookupOf(s), i) {
      assert Def(LookupOf(s), i);
    }
  }

  lemma CoverageQuotes(s: IntervalSequence, r: ReportDue, first: nat, m: nat, venChooses: bool)
    requires first <= m && AllDef(LookupOf(s), first, m)
    requires r.coversFrom == Item(LookupOf(s), first).start && r.coversTo == Item(LookupOf(s), m).end
    requires r.intervalIds == if venChooses then [] else IdsOf(LookupOf(s), first, m)
    ensures QuotesUpTo(s, r, first, m, venChooses)
  {
    AllDefined(s, first, m);
    IdsInOrder(LookupOf(s), first, m);
  }

  lemma VisitQuotes(p: Plan, s: IntervalSequence, k: nat)
    requires VisitsOf(p, s)(k).Report? && FirstOf(p, k) <= LastOf(p, k)
    ensures var r := VisitsOf(p, s)(k).due;
      && r.sequence == k && Quotes(s, r, FirstOf(p, k), LastOf(p, k), p.venChooses)
      && r.dueAt == (if p.backwards then r.coversTo else Some(r.coversFrom))
  {
    var first, last := FirstOf(p, k), LastOf(p, k);
    var m := CoverMeaning(LookupOf(s), first, last);
    CoverageQuotes(s, VisitsOf(p, s)(k).due, first, m, p.venChooses);
  }

  lemma ListedIsVisited(p: Plan, s: IntervalSequence, max: nat, from: Timestamp, to: Timestamp, r: ReportDue)
    requires p.step >= 1 && r in DueIn(p, s, max, from, to)
    ensures r.sequence < p.repeat && VisitsOf(p, s)(r.sequence) == Report(r) && Wanted(r.dueAt, from, to)
  {
    var due := DueIn(p, s, max, from, to);
    var next := DueMeaning(p, s, max, from, to);
    var i :| 0 <= i < |due| && due[i] == r;
    assert ListedOne(due[i], VisitsOf(p, s), p.repeat, FirstKReaching(p, s, from), next, from, to);
  }

  /** Where report `k` is anchored. */
  function AnchoredAt(start: nat, step: nat, k: nat): (a: nat)
    ensures a == start + k * step
  {
    MulMonotone(0, k, step);
    start + k * step
  }

  /** Going back, so many intervals up to the anchor, or all there are; going forward, the anchor is the first. */
  function FirstQuoted(d: ReportDescriptor, o: ScheduleOptions, anchor: nat, count: nat): nat {
    if !GoesBack(d, o) then anchor else if anchor >= count then anchor - count + 1 else 0
  }

  /** Going back, the anchor is the last; going forward, so many from it, or to the end of a list that has one. */
  function LastQuoted(d: ReportDescriptor, s: IntervalSequence, o: ScheduleOptions, anchor: nat, count: nat): int {
    if s.period.None? && (GoesBack(d, o) || anchor + count > |s.base|) && anchor + 1 >= |s.base| then |s.base| - 1
    else if GoesBack(d, o) then anchor
    else if s.period.None? && anchor + count > |s.base| then |s.base| - 1
    else anchor + count - 1
  }

  lemma RangeIs(d: ReportDescriptor, s: IntervalSequence, o: ScheduleOptions, k: nat, count: nat, start: nat, step: nat)
    requires Asks(d, s, o, count, start, step) && AnchoredAt(start, step, k) + count <= I64_MAX
    ensures var p, anchor := MakePlan(d, s, o), AnchoredAt(start, step, k);
      && Fits(p, k) && FirstOf(p, k) == FirstQuoted(d, o, anchor, count)
      && LastOf(p, k) == LastQuoted(d, s, o, anchor, count)
  {
    PlanIs(d, s, o, count, start, step);
    RangeOf(MakePlan(d, s, o), s, k);
  }

  /**
   Every listed report, sentinels and all: it is anchored `step` intervals on from the one before. A
   historical one covers the `count` intervals that end with its anchor and is due when that is over; any
   other covers the `count` from its anchor on and is due when that starts.
   */
  lemma ReportFromDescriptor(d: ReportDescriptor, s: IntervalSequence, from: Timestamp, to: Timestamp,
      o: ScheduleOptions, r: ReportDue, count: nat, start: nat, step: nat)
    requires Asks(d, s, o, count, start, step) && r in Schedule(d, s, from, to, o).due
    requires AnchoredAt(start, step, r.sequence) + count <= I64_MAX
    ensures d.repeat >= 0 ==> r.sequence < d.repeat
    ensures r.dueAt.Some? ==> from <= r.dueAt.value <= to
    ensures r.dueAt == if GoesBack(d, o) then r.coversTo else Some(r.coversFrom)
    ensures var anchor := AnchoredAt(start, step, r.sequence);
      Quotes(s, r, FirstQuoted(d, o, anchor, count), LastQuoted(d, s, o, anchor, count), d.openIntervals || s.implied)
  {
    var p := MakePlan(d, s, o);
    PlanIs(d, s, o, count, start, step);
    ListedIsVisited(p, s, o.maxReports, from, to, r);
    VisitQuotes(p, s, r.sequence);
    RangeIs(d, s, o, r.sequence, count, start, step);
  }

  lemma Unlimited(s: IntervalSequence, i: nat)
    requires s.period.None? && s.lifespanEnd.None? && i < |s.base|
    ensures Get(s, i).Ok? && Defined(s, i)
    ensures var iv := IntervalAt(s, i);
      iv.start == s.base[i].start && iv.end == s.base[i].end && iv.id == s.base[i].id
  {}

  /** The report quotes these declared intervals, all of them. */
  ghost predicate QuotesDeclared(s: IntervalSequence, r: ReportDue, first: nat, last: nat, venChooses: bool)
    requires first <= last < |s.base|
  {
    && r.coversFrom == s.base[first].start && r.coversTo == s.base[last].end
    && (venChooses ==> r.intervalIds == [])
    && (venChooses || |r.intervalIds| == last - first + 1)
    && (venChooses || forall j :: 0 <= j <= last - first ==> r.intervalIds[j] == s.base[first + j].id)
  }

  lemma UnlimitedQuotes(s: IntervalSequence, r: ReportDue, first: nat, last: nat, venChooses: bool)
    requires s.period.None? && s.lifespanEnd.None? && first <= last < |s.base|
    requires Quotes(s, r, first, last, venChooses)
    ensures QuotesDeclared(s, r, first, last, venChooses)
  {
    var m: nat :| QuotesUpTo(s, r, first, m, venChooses) && m <= last && (m == last || Get(s, m + 1) == Ok(None));
    Unlimited(s, first);
    Unlimited(s, m);
    assert m == last;
    if !venChooses {
      forall j | 0 <= j <= last - first ensures r.intervalIds[j] == s.base[first + j].id {
        Unlimited(s, first + j);
      }
    }
  }

  lemma AsksLiterally(d: ReportDescriptor, s: IntervalSequence, o: ScheduleOptions)
    requires s.period.None? && d.startInterval >= 0 && 1 <= d.numIntervals <= |s.base| && d.frequency >= 1
    requires d.startInterval < |s.base|
    ensures Asks(d, s, o, d.numIntervals, d.startInterval, d.frequency)
  {}

  lemma AnchorInside(d: ReportDescriptor, k: nat, anchor: nat)
    requires d.startInterval >= 0 && d.frequency >= 1 && anchor == d.startInterval + k * d.frequency
    ensures AnchoredAt(d.startInterval, d.frequency, k) == anchor && d.startInterval <= anchor
  {}

  lemma BackwardsLiterally(d: ReportDescriptor, s: IntervalSequence, o: ScheduleOptions, r: ReportDue, anchor: nat)
    requires s.period.None? && s.lifespanEnd.None? && GoesBack(d, o) && d.numIntervals >= 1 && anchor < |s.base|
    requires Quotes(s, r, FirstQuoted(d, o, anchor, d.numIntervals), LastQuoted(d, s, o, anchor, d.numIntervals),
      d.openIntervals || s.implied)
    ensures var first := if anchor >= d.numIntervals then anchor - d.numIntervals + 1 else 0;
      QuotesDeclared(s, r, first, anchor, d.openIntervals || s.implied)
  {
    UnlimitedQuotes(s, r, FirstQuoted(d, o, anchor, d.numIntervals), anchor, d.openIntervals || s.implied);
  }

  lemma ForwardsLiterally(d: ReportDescriptor, s: IntervalSequence, o: ScheduleOptions, r: ReportDue, anchor: nat)
    requires s.period.None? && s.lifespanEnd.None? && !GoesBack(d, o) && d.numIntervals >= 1 && anchor < |s.base|
    requires Quotes(s, r, FirstQuoted(d, o, anchor, d.numIntervals), LastQuoted(d, s, o, anchor, d.numIntervals),
      d.openIntervals || s.implied)
    ensures var last := if anchor + d.numIntervals <= |s.base| then anchor + d.numIntervals - 1 else |s.base| - 1;
      QuotesDeclared(s, r, anchor, last, d.openIntervals || s.implied)
  {
    UnlimitedQuotes(s, r, anchor, LastQuoted(d, s, o, anchor, d.numIntervals), d.openIntervals || s.implied);
  }

  /**
   Inside a list that does not repeat, in so many words: historical report `k` looks back from interval
   `startInterval + k * frequency` over `numIntervals`, or to the beginning, and is due as that one ends.
   */
  lemma HistoricalInsideList(d: ReportDescriptor, s: IntervalSequence, from: Timestamp, to: Timestamp,
      o: ScheduleOptions, r: ReportDue, anchor: nat)
    requires s.period.None? && s.lifespanEnd.None? && |s.base| <= 0xffff_ffff_ffff
    requires d.historical && !o.startIntervalIsFirstCovered
    requires d.startInterval >= 0 && 1 <= d.numIntervals <= |s.base| && d.frequency >= 1
    requires r in Schedule(d, s, from, to, o).due
    requires anchor == d.startInterval + r.sequence * d.frequency < |s.base|
    ensures var first := if anchor >= d.numIntervals then anchor - d.numIntervals + 1 else 0;
      QuotesDeclared(s, r, first, anchor, d.openIntervals || s.implied) && r.dueAt == s.base[anchor].end
  {
    AnchorInside(d, r.sequence, anchor);
    AsksLiterally(d, s, o);
    ReportFromDescriptor(d, s, from, to, o, r, d.numIntervals, d.startInterval, d.frequency);
    BackwardsLiterally(d, s, o, r, anchor);
  }

  /** A forecast looks ahead from there over `numIntervals`, or to the end, and is due as that one starts. */
  lemma ForecastInsideList(d: ReportDescriptor, s: IntervalSequence, from: Timestamp, to: Timestamp,
      o: ScheduleOptions, r: ReportDue, anchor: nat)
    requires s.period.None? && s.lifespanEnd.None? && |s.base| <= 0xffff_ffff_ffff
    requires !d.historical
    requires d.startInterval >= 0 && 1 <= d.numIntervals <= |s.base| && d.frequency >= 1
    requires r in Schedule(d, s, from, to, o).due
    requires anchor == d.startInterval + r.sequence * d.frequency < |s.base|
    ensures var last := if anchor + d.numIntervals <= |s.base| then anchor + d.numIntervals - 1 else |s.base| - 1;
      QuotesDeclared(s, r, anchor, last, d.openIntervals || s.implied) && r.dueAt == Some(s.base[anchor].start)
  {
    AnchorInside(d, r.sequence, anchor);
    AsksLiterally(d, s, o);
    ReportFromDescriptor(d, s, from, to, o, r, d.numIntervals, d.startInterval, d.frequency);
    ForwardsLiterally(d, s, o, r, anchor);
  }

  // ------------------------------------------------------------------------
  // And each is listed
  // ------------------------------------------------------------------------

  /**
   For intervals in time order, a report whose anchor exists and whose range time does not run out in is
   listed, in any window below the ceiling, exactly when it is within the repeat count and due there.
   */
  lemma ListedWhenDue(d: ReportDescriptor, s: IntervalSequence, from: Timestamp, to: Timestamp, o: ScheduleOptions,
      k: nat, count: nat, start: nat, step: nat, dueAt: Timestamp)
    requires WellFormed(s) && TimeOrdered(s) && Asks(d, s, o, count, start, step)
    requires |Schedule(d, s, from, to, o).due| < o.maxReports
    requires AnchoredAt(start, step, k) + count <= I64_MAX && Defined(s, AnchoredAt(start, step, k))
    requires GoesBack(d, o) || forall i: nat ::
      AnchoredAt(start, step, k) <= i < AnchoredAt(start, step, k) + count ==> Get(s, i).Ok?
    requires var iv := IntervalAt(s, AnchoredAt(start, step, k));
      if GoesBack(d, o) then iv.end == Some(dueAt) else iv.start == dueAt
    ensures (exists r :: r in Schedule(d, s, from, to, o).due && r.sequence == k)
      <==> (d.repeat < 0 || k < d.repeat) && from <= dueAt <= to
    ensures forall r :: r in Schedule(d, s, from, to, o).due && r.sequence == k ==> r.dueAt == Some(dueAt)
  {
    var p, anchor := MakePlan(d, s, o), AnchoredAt(start, step, k);
    PlanIs(d, s, o, count, start, step);
    RangeOf(p, s, k);
    AnchorIsVisited(p, s, k, anchor, dueAt);
    StepsAreCounted(start, step, k);
    ScheduleIsEnumeration(p, s, o.maxReports, from, to, k);
    var due := VisitsOf(p, s)(k).due;
    VisitQuotes(p, s, k);
    forall r | r in Schedule(d, s, from, to, o).due && r.sequence == k ensures r == due {
      ListedIsVisited(p, s, o.maxReports, from, to, r);
    }
  }

  lemma StepsAreCounted(start: nat, step: nat, k: nat)
    requires step >= 1
    ensures k <= AnchoredAt(start, step, k)
  {
    MulMonotone(1, step, k);
    assert step * k == k * step;
  }

  lemma AnchorIsVisited(p: Plan, s: IntervalSequence, k: nat, anchor: nat, dueAt: Timestamp)
    requires WellFormed(s) && TimeOrdered(s) && Sound(p, s) && Fits(p, k)
    requires anchor == p.anchor0 + k * p.step && Defined(s, anchor)
    requires p.backwards || forall i: nat :: anchor <= i < anchor + p.num ==> Get(s, i).Ok?
    requires if p.backwards then IntervalAt(s, anchor).end == Some(dueAt) else IntervalAt(s, anchor).start == dueAt
    ensures VisitsOf(p, s)(k).Report? && VisitsOf(p, s)(k).due.dueAt == Some(dueAt)
  {
    RangeOf(p, s, k);
    DefinedExists(s, anchor);
    if p.backwards {
      AllBeforeDefined(s, anchor);
      DefinedIsCovered(LookupOf(s), FirstOf(p, k), anchor);
    } else {
      NoneFailingCovered(s, anchor, LastOf(p, k));
    }
  }

  lemma AllBeforeDefined(s: IntervalSequence, anchor: nat)
    requires WellFormed(s) && TimeOrdered(s) && Defined(s, anchor)
    ensures AllDef(LookupOf(s), 0, anchor)
  {
    var g := LookupOf(s);
    LookupOrdered(s);
    forall i: nat | i <= anchor ensures Def(g, i) {
      assert i < anchor ==> Follows(g, i, anchor);
    }
  }

  lemma DefinedIsCovered(g: Lookup, first: nat, anchor: nat)
    requires first <= anchor && AllDef(g, 0, anchor)
    ensures Cover(g, first, anchor).Some? && Cover(g, first, anchor).value.to == Item(g, anchor).end
  {
    var iv := Item(g, first);
    ExtendReaches(g, first + 1, anchor, Coverage(iv.start, iv.end, [iv.id]), anchor);
    var m := CoverMeaning(g, first, anchor);
    assert m < anchor ==> Def(g, m + 1);
  }

  lemma NoneFailingCovered(s: IntervalSequence, anchor: nat, last: int)
    requires Defined(s, anchor) && forall i: nat :: anchor <= i <= last ==> Get(s, i).Ok?
    ensures Cover(LookupOf(s), anchor, last).Some?
    ensures Cover(LookupOf(s), anchor, last).value.from == IntervalAt(s, anchor).start
  {
    var g := LookupOf(s);
    CoverOrLoses(g, anchor, last);
    forall j: nat | anchor < j <= last ensures g(j).Ok? {
      assert Get(s, j).Ok?;
    }
    var m := CoverMeaning(g, anchor, last);
  }
}
