/** The scheduled walk gives what enumerating every report would give. */
module ReportEnumeration {
  import opened Wrappers
  import opened Arithmetic
  import opened Model
  import opened Intervals
  import opened IntervalWindows
  import opened Reports

  // ------------------------------------------------------------------------
  // Time order
  // ------------------------------------------------------------------------

  /** "No end" is later than every end. */
  predicate EndLeq(a: Option<int>, b: Option<int>) {
    b.None? || (a.Some? && a.value <= b.value)
  }

  /** The declared intervals run forwards, in order of start and of end. */
  ghost predicate TimeOrdered(s: IntervalSequence) {
    && RunsForward(s)
    && (forall i, j :: 0 <= i < j < |s.base| ==>
          s.base[i].start <= s.base[j].start && EndLeq(s.base[i].end, s.base[j].end))
  }

  /** An index lies within its own repetition, start and end. */
  lemma InsideRepetition(s: IntervalSequence, i: nat)
    requires WellFormed(s) && RunsForward(s) && Exists(s, i) && s.period.Some?
    ensures IdealEnd(s, i).Some?
    ensures s.start + Offset(s, i) <= IdealStart(s, i) <= IdealEnd(s, i).value <= s.start + s.period.value
      + Offset(s, i)
  {}

  /** A later index is a later position of the same repetition, or lies at least a period on. */
  lemma OffsetsOrdered(s: IntervalSequence, i: nat, j: nat)
    requires WellFormed(s) && s.base != [] && s.period.Some? && i < j
    ensures (Offset(s, i) == Offset(s, j) && Position(s, i) < Position(s, j))
      || Offset(s, i) + s.period.value <= Offset(s, j)
  {
    var len, p := |s.base|, s.period.value;
    DivMonotone(i, j, len);
    if i / len < j / len {
      MulStrict(i / len, j / len, p);
    } else {
      DivBracket(i, len);
      DivBracket(j, len);
    }
  }

  lemma IdealOrdered(s: IntervalSequence, i: nat, j: nat)
    requires WellFormed(s) && TimeOrdered(s) && Exists(s, j) && i < j
    ensures Exists(s, i)
    ensures IdealStart(s, i) <= IdealStart(s, j) && EndLeq(IdealEnd(s, i), IdealEnd(s, j))
  {
    if s.period.Some? {
      InsideRepetition(s, i);
      InsideRepetition(s, j);
      OffsetsOrdered(s, i, j);
    }
  }

  /** In time order everything is monotone in the index, truncation and overflow included. */
  lemma GetOrdered(s: IntervalSequence, i: nat, j: nat)
    requires WellFormed(s) && TimeOrdered(s) && i < j && Defined(s, j)
    ensures Defined(s, i)
    ensures IntervalAt(s, i).start <= IntervalAt(s, j).start
    ensures EndLeq(IntervalAt(s, i).end, IntervalAt(s, j).end)
  {
    GetMeaning(s, j);
    IdealOrdered(s, i, j);
    GetMeaning(s, i);
  }

  predicate Def(g: Lookup, i: nat) {
    g(i).Ok? && g(i).value.Some?
  }

  function Item(g: Lookup, i: nat): ExpandedInterval
    requires Def(g, i)
  {
    g(i).value.value
  }

  ghost predicate Follows(g: Lookup, i: nat, j: nat) {
    Def(g, j) ==> Def(g, i) && Item(g, i).start <= Item(g, j).start && EndLeq(Item(g, i).end, Item(g, j).end)
  }

  ghost predicate Ordered(g: Lookup) {
    forall i: nat, j: nat :: i < j ==> Follows(g, i, j)
  }

  lemma LookupOrdered(s: IntervalSequence)
    requires WellFormed(s) && TimeOrdered(s)
    ensures Ordered(LookupOf(s))
  {
    var g := LookupOf(s);
    forall i: nat, j: nat | i < j ensures Follows(g, i, j) {
      if Def(g, j) {
        GetOrdered(s, i, j);
      }
    }
  }

  // ------------------------------------------------------------------------
  // What one report covers
  // ------------------------------------------------------------------------

  ghost predicate AllDef(g: Lookup, first: nat, last: int) {
    forall i: nat :: first <= i <= last ==> Def(g, i)
  }

  function IdsOf(g: Lookup, first: nat, last: int): seq<int>
    requires AllDef(g, first, last)
    decreases last - first
  {
    if first > last then [] else IdsOf(g, first, last - 1) + [Item(g, last).id]
  }

  lemma {:induction false} ExtendMeaning(g: Lookup, first: nat, index: nat, last: int, c: Coverage) returns (m: nat)
    requires first < index && Extend(g, index, last, c).Some?
    requires AllDef(g, first, index - 1)
    requires c == Coverage(Item(g, first).start, Item(g, index - 1).end, IdsOf(g, first, index - 1))
    ensures first <= m <= Max(index - 1, last) && AllDef(g, first, m)
    ensures Extend(g, index, last, c).value == Coverage(Item(g, first).start, Item(g, m).end, IdsOf(g, first, m))
    ensures m >= last || g(m + 1) == Ok(None)
    decreases last - index
  {
    if index > last || g(index) == Ok(None) {
      m := index - 1;
    } else {
      var iv := Item(g, index);
      m := ExtendMeaning(g, first, index + 1, last, Coverage(c.from, iv.end, c.ids + [iv.id]));
    }
  }

  /** A coverage runs from its first index to the last one that exists in the range. */
  lemma CoverMeaning(g: Lookup, first: nat, last: int) returns (m: nat)
    requires Cover(g, first, last).Some?
    ensures first <= m <= Max(first, last) && AllDef(g, first, m)
    ensures Cover(g, first, last).value == Coverage(Item(g, first).start, Item(g, m).end, IdsOf(g, first, m))
    ensures m >= last || g(m + 1) == Ok(None)
  {
    var iv := Item(g, first);
    assert IdsOf(g, first, first) == [iv.id];
    m := ExtendMeaning(g, first, first + 1, last, Coverage(iv.start, iv.end, [iv.id]));
  }

  lemma {:induction false} ExtendReaches(g: Lookup, index: nat, last: int, c: Coverage, m: int)
    requires AllDef(g, index, m)
    requires index <= m + 1 && (m >= last || g(m + 1) == Ok(None))
    ensures Extend(g, index, last, c).Some?
    decreases last - index
  {
    if index <= last && index <= m {
      var iv := Item(g, index);
      ExtendReaches(g, index + 1, last, Coverage(c.from, iv.end, c.ids + [iv.id]), m);
    }
  }

  /** A later range that can be covered vouches for every earlier one. */
  lemma CoverDownward(g: Lookup, first: nat, last: int, first': nat, last': int)
    requires Ordered(g) && first' <= first && last' <= last
    requires Cover(g, first, last).Some?
    ensures Cover(g, first', last').Some?
    ensures Cover(g, first', last').value.from <= Cover(g, first, last).value.from
    ensures EndLeq(Cover(g, first', last').value.to, Cover(g, first, last).value.to)
  {
    var m := CoverMeaning(g, first, last);
    forall i: nat | first' <= i <= m ensures Def(g, i) {
      assert i < first ==> Follows(g, i, first);
    }
    assert first' < first ==> Follows(g, first', first);
    var iv := Item(g, first');
    ExtendReaches(g, first' + 1, last', Coverage(iv.start, iv.end, [iv.id]), m);
    var m' := CoverMeaning(g, first', last');
    assert m >= last || !Def(g, m + 1);
    assert m' <= m;
    assert m' < m ==> Follows(g, m', m);
  }

  // ------------------------------------------------------------------------
  // Report numbers without overflow
  // ------------------------------------------------------------------------

  /** The anchor of report `k` and the interval after its range fit 64 bits. */
  predicate Fits(p: Plan, k: nat) {
    p.anchor0 + k * p.step + p.num <= I64_MAX
  }

  ghost predicate Sound(p: Plan, s: IntervalSequence) {
    && p.num >= 1 && p.anchor0 >= 0 && p.step >= 1 && p.declared == |s.base| && s.base != []
    && (p.bounded <==> s.period.None?)
  }

  /** The same range in unbounded arithmetic. */
  lemma RangeOf(p: Plan, s: IntervalSequence, k: nat)
    requires Sound(p, s) && Fits(p, k)
    ensures Anchor(p, k) == p.anchor0 + k * p.step
    ensures FirstOf(p, k) == Max(if p.backwards then p.anchor0 + k * p.step - p.num + 1 else p.anchor0 + k * p.step, 0)
    ensures var last := if p.backwards then p.anchor0 + k * p.step else p.anchor0 + k * p.step + p.num - 1;
            LastOf(p, k) == if p.bounded then Min(last, p.declared - 1) else last
  {
    MulMonotone(1, p.step, k);
    assert 1 * k == k && p.step * k == k * p.step;
    AsI64Small(k);
    MulMonotone(0, k, p.step);
  }

  lemma AsI64Small(k: nat)
    requires k <= I64_MAX
    ensures AsI64(k) == k
  {}

  lemma FitsBelow(p: Plan, k': nat, k: nat)
    requires p.step >= 1 && k' <= k && Fits(p, k)
    ensures Fits(p, k') && k' * p.step <= k * p.step
  {
    MulMonotone(k', k, p.step);
  }

  lemma RangesOrdered(p: Plan, s: IntervalSequence, k': nat, k: nat)
    requires Sound(p, s) && Fits(p, k) && k' <= k
    ensures FirstOf(p, k') <= FirstOf(p, k) && LastOf(p, k') <= LastOf(p, k)
  {
    FitsBelow(p, k', k);
    RangeOf(p, s, k');
    RangeOf(p, s, k);
  }

  /** Each early break is final: no later report can be due in the window. */
  lemma BreakIsFinal(p: Plan, s: IntervalSequence, to: Timestamp, k': nat, k: nat)
    requires WellFormed(s) && TimeOrdered(s) && Sound(p, s) && Fits(p, k) && k' <= k
    requires Stops(VisitsOf(p, s)(k'), to)
    ensures var v := VisitsOf(p, s)(k);
      v.Report? ==> v.due.dueAt.None? || v.due.dueAt.value > to
  {
    RangesOrdered(p, s, k', k);
    LookupOrdered(s);
    var g := LookupOf(s);
    if VisitAt(p, g, k).Report? {
      CoverDownward(g, FirstOf(p, k), LastOf(p, k), FirstOf(p, k'), LastOf(p, k'));
    }
  }

  lemma AnchorBeforeJump(p: Plan, s: IntervalSequence, from: Timestamp, k: nat) returns (n: nat)
    requires WellFormed(s) && Sound(p, s) && k < FirstKReaching(p, s, from)
    ensures s.period.Some? && p.anchor0 + k * p.step < n * |s.base|
    ensures s.start + n * s.period.value + s.period.value <= from
  {
    n := Max((from - s.start) / s.period.value - 1, 0);
    var ahead := SaturateI64(SaturateI64(n * |s.base|) - p.anchor0);
    CeilDivIsLeast(ahead, p.step, k);
    DivBracket(from - s.start, s.period.value);
  }

  lemma OffsetBound(s: IntervalSequence, i: nat, n: nat)
    requires WellFormed(s) && s.period.Some? && s.base != [] && i < n * |s.base|
    ensures Offset(s, i) + s.period.value <= n * s.period.value
  {
    RepetitionBounds(i, |s.base|, 0, n);
    MulStrict(i / |s.base|, n, s.period.value);
  }

  /** Where the jump lands: the indices it anchors on lie in `bound`, a repetition and more before `from`. */
  lemma JumpLands(p: Plan, s: IntervalSequence, from: Timestamp, k: nat) returns (bound: int)
    requires WellFormed(s) && Sound(p, s) && Fits(p, k) && k < FirstKReaching(p, s, from)
    ensures s.period.Some? && s.start + bound + s.period.value <= from
    ensures FirstOf(p, k) <= Max(FirstOf(p, k), LastOf(p, k))
    ensures forall i: nat :: i <= (if p.backwards then Max(FirstOf(p, k), LastOf(p, k)) else FirstOf(p, k)) ==>
      Offset(s, i) + s.period.value <= bound
  {
    var n := AnchorBeforeJump(p, s, from, k);
    var anchor := p.anchor0 + k * p.step;
    MulMonotone(0, k, p.step);
    RangeOf(p, s, k);
    bound := n * s.period.value;
    forall i: nat | i <= anchor ensures Offset(s, i) + s.period.value <= bound {
      OffsetBound(s, i, n);
    }
  }

  /** The interval a report starts with starts, in its repetition, before the next one is over. */
  ghost predicate StartsInTime(p: Plan, s: IntervalSequence, k: nat) {
    s.period.Some? && Def(LookupOf(s), FirstOf(p, k)) ==>
      s.base[Position(s, FirstOf(p, k))].start < s.start + 2 * s.period.value
  }

  /** An index below `bound` ends there at the latest, and starts before the repetition after it is over. */
  lemma BeforeRepetition(s: IntervalSequence, i: nat, bound: int)
    requires WellFormed(s) && s.period.Some? && Def(LookupOf(s), i)
    requires Offset(s, i) + s.period.value <= bound
    ensures Item(LookupOf(s), i).end.Some? && Item(LookupOf(s), i).end.value <= s.start + bound
    ensures s.base[Position(s, i)].start < s.start + 2 * s.period.value ==>
      Item(LookupOf(s), i).start < s.start + bound + s.period.value
  {
    GetMeaning(s, i);
  }

  /** A report the jump passes over was due before the window, unless it is due at a start that far out. */
  lemma JumpKeeps(p: Plan, s: IntervalSequence, from: Timestamp, k: nat)
    requires WellFormed(s) && Sound(p, s) && Fits(p, k)
    requires k < FirstKReaching(p, s, from)
    requires p.backwards || StartsInTime(p, s, k)
    ensures var v := VisitsOf(p, s)(k);
      v.Report? ==> v.due.dueAt.Some? && v.due.dueAt.value < from
  {
    var g := LookupOf(s);
    var bound := JumpLands(p, s, from, k);
    var first, last := FirstOf(p, k), LastOf(p, k);
    if VisitAt(p, g, k).Report? {
      var m := CoverMeaning(g, first, last);
      BeforeRepetition(s, if p.backwards then m else first, bound);
    }
  }

  /** The earliest window whose jump passes over report `k`. */
  lemma JumpReaches(p: Plan, s: IntervalSequence, k: nat, i: nat, from: Timestamp)
    requires WellFormed(s) && s.period.Some? && Sound(p, s) && Fits(p, k)
    requires i == p.anchor0 + k * p.step && from == s.start + (i / |s.base| + 2) * s.period.value
    ensures k < FirstKReaching(p, s, from)
  {
    var len, period := |s.base|, s.period.value;
    var n := i / len + 1;
    MulStrict(0, n + 1, period);
    DivUnique(from - s.start, period, n + 1);
    RepetitionBounds(i, len, 0, n);
    RepetitionAtMost(i, len);
    var ahead := SaturateI64(SaturateI64(n * len) - p.anchor0);
    assert ahead > k * p.step;
    CeilDivIsLeast(ahead, p.step, k);
  }

  lemma RepetitionAtMost(i: nat, len: nat)
    requires len > 0
    ensures 0 <= i / len <= i
  {
    DivBracket(i, len);
    if i / len > i {
      MulStrict(i, i / len, len);
      MulMonotone(1, len, i);
    }
  }

  /** Such a report is passed over by a window that it is due in. */
  lemma JumpLoses(p: Plan, s: IntervalSequence, k: nat) returns (from: Timestamp)
    requires WellFormed(s) && Sound(p, s) && Fits(p, k) && VisitsOf(p, s)(k).Report?
    requires !p.backwards && !StartsInTime(p, s, k)
    ensures k < FirstKReaching(p, s, from) && VisitsOf(p, s)(k).due.dueAt.value >= from
  {
    var i := FirstOf(p, k);
    RangeOf(p, s, k);
    MulMonotone(0, k, p.step);
    var g := LookupOf(s);
    var m := CoverMeaning(g, i, LastOf(p, k));
    from := TwoPeriodsOn(s, i);
    JumpReaches(p, s, k, i, from);
  }

  lemma TwoPeriodsOn(s: IntervalSequence, i: nat) returns (at: Timestamp)
    requires WellFormed(s) && s.period.Some? && Def(LookupOf(s), i)
    requires s.base[Position(s, i)].start >= s.start + 2 * s.period.value
    ensures at == s.start + (i / |s.base| + 2) * s.period.value <= Item(LookupOf(s), i).start
  {
    GetMeaning(s, i);
    OffsetNonNegative(s, i);
    var k, period := i / |s.base|, s.period.value;
    assert (k + 2) * period == Offset(s, i) + 2 * period;
    at := s.start + (k + 2) * period;
  }

  /** The jump skips nothing, declared order notwithstanding, when no interval ends before it starts. */
  lemma JumpIsSound(p: Plan, s: IntervalSequence, from: Timestamp, k: nat)
    requires WellFormed(s) && RunsForward(s) && Sound(p, s) && Fits(p, k)
    requires k < FirstKReaching(p, s, from)
    ensures var v := VisitsOf(p, s)(k);
      v.Report? ==> v.due.dueAt.Some? && v.due.dueAt.value < from
  {
    if s.period.Some? && Def(LookupOf(s), FirstOf(p, k)) {
      var j := Position(s, FirstOf(p, k));
      assert s.base[j].end.Some?;
    }
    JumpKeeps(p, s, from, k);
  }

  // ------------------------------------------------------------------------
  // The walk against the enumeration
  // ------------------------------------------------------------------------

  /** Reports by number, ascending from `lo`, each the report of its number and inside the window. */
  ghost predicate Listed(due: seq<ReportDue>, v: Visits, repeat: nat, lo: nat, hi: nat, from: Timestamp,
      to: Timestamp)
  {
    && (forall i :: 0 <= i < |due| ==> ListedOne(due[i], v, repeat, lo, hi, from, to))
    && (forall i, j :: 0 <= i < j < |due| ==> due[i].sequence < due[j].sequence)
  }

  ghost predicate ListedOne(d: ReportDue, v: Visits, repeat: nat, lo: nat, hi: nat, from: Timestamp, to: Timestamp) {
    lo <= d.sequence < hi && d.sequence < repeat && v(d.sequence) == Report(d) && Wanted(d.dueAt, from, to)
  }

  /** Every wanted report numbered in `[lo, hi)` is listed. */
  ghost predicate Complete(due: seq<ReportDue>, v: Visits, lo: nat, hi: nat, from: Timestamp, to: Timestamp) {
    forall k: nat :: lo <= k < hi && v(k).Report? && Wanted(v(k).due.dueAt, from, to) ==> v(k).due in due
  }

  /** Every visit's report carries the number it was visited under. */
  ghost predicate Numbered(v: Visits) {
    forall k: nat :: v(k).Report? ==> v(k).due.sequence == k
  }

  lemma WalkStep(v: Visits, repeat: nat, from: Timestamp, to: Timestamp, lo: nat, k: nat, due: seq<ReportDue>)
    requires Numbered(v) && lo <= k < repeat
    requires Listed(due, v, repeat, lo, k, from, to) && Complete(due, v, lo, k, from, to)
    ensures
      var due' := if v(k).Report? && Wanted(v(k).due.dueAt, from, to) then due + [v(k).due] else due;
      Listed(due', v, repeat, lo, k + 1, from, to) && Complete(due', v, lo, k + 1, from, to)
  {
    var due' := if v(k).Report? && Wanted(v(k).due.dueAt, from, to) then due + [v(k).due] else due;
    assert |due'| > |due| ==> due'[|due|] == v(k).due;
    forall i | 0 <= i < |due'| ensures ListedOne(due'[i], v, repeat, lo, k + 1, from, to) {
      assert i < |due| ==> ListedOne(due[i], v, repeat, lo, k, from, to);
    }
    forall i, j | 0 <= i < j < |due'| ensures due'[i].sequence < due'[j].sequence {
      assert ListedOne(due[i], v, repeat, lo, k, from, to);
    }
    forall i: nat | lo <= i < k + 1 && v(i).Report? && Wanted(v(i).due.dueAt, from, to) ensures v(i).due in due' {
      assert i < k ==> v(i).due in due;
    }
  }

  lemma {:induction false} WalkMeaning(v: Visits, repeat: nat, max: nat, from: Timestamp, to: Timestamp,
                                        lo: nat, k: nat, due: seq<ReportDue>) returns (next: nat)
    requires Numbered(v) && lo <= k && |due| <= max
    requires Listed(due, v, repeat, lo, k, from, to) && Complete(due, v, lo, k, from, to)
    ensures var r := WalkFrom(v, repeat, max, from, to, k, due);
      && Listed(r, v, repeat, lo, next, from, to) && Complete(r, v, lo, next, from, to)
      && |r| <= max && k <= next
      && (next >= repeat || |r| >= max || Stops(v(next), to))
    decreases repeat - k
  {
    if k >= repeat || |due| >= max || Stops(v(k), to) {
      next := k;
    } else {
      var due' := if v(k).Report? && Wanted(v(k).due.dueAt, from, to) then due + [v(k).due] else due;
      WalkStep(v, repeat, from, to, lo, k, due);
      next := WalkMeaning(v, repeat, max, from, to, lo, k + 1, due');
    }
  }

  lemma DueMeaning(p: Plan, s: IntervalSequence, max: nat, from: Timestamp, to: Timestamp) returns (next: nat)
    requires p.step >= 1
    ensures var due, lo, v := DueIn(p, s, max, from, to), FirstKReaching(p, s, from), VisitsOf(p, s);
      && Listed(due, v, p.repeat, lo, next, from, to) && Complete(due, v, lo, next, from, to)
      && |due| <= max && lo <= next
      && (next >= p.repeat || |due| >= max || Stops(v(next), to))
  {
    next := WalkMeaning(VisitsOf(p, s), p.repeat, max, from, to, FirstKReaching(p, s, from),
      FirstKReaching(p, s, from), []);
  }

  /**
   Full enumeration. For declared intervals in time order and a ceiling not reached, a report whose
   number fits and whose due time is known is listed exactly when it is within the repeat count and
   due in the window. When the ceiling is reached this still holds up to the last listed report.
   */
  lemma ScheduleIsEnumeration(p: Plan, s: IntervalSequence, max: nat, from: Timestamp, to: Timestamp, k: nat)
    requires WellFormed(s) && TimeOrdered(s) && Sound(p, s) && Fits(p, k)
    requires VisitsOf(p, s)(k).Report? && VisitsOf(p, s)(k).due.dueAt.Some?
    requires var due := DueIn(p, s, max, from, to);
      |due| < max || (due != [] && k <= due[|due| - 1].sequence)
    ensures VisitsOf(p, s)(k).due in DueIn(p, s, max, from, to)
      <==> k < p.repeat && from <= VisitsOf(p, s)(k).due.dueAt.value <= to
  {
    var due, v := DueIn(p, s, max, from, to), VisitsOf(p, s);
    var next := DueMeaning(p, s, max, from, to);
    if k < p.repeat && from <= v(k).due.dueAt.value <= to {
      if k < FirstKReaching(p, s, from) {
        JumpIsSound(p, s, from, k);
      }
      if |due| >= max {
        assert ListedOne(due[|due| - 1], v, p.repeat, FirstKReaching(p, s, from), next, from, to);
      }
      if next <= k {
        BreakIsFinal(p, s, to, next, k);
      }
    }
    if v(k).due in due {
      var i :| 0 <= i < |due| && due[i] == v(k).due;
      assert ListedOne(due[i], v, p.repeat, FirstKReaching(p, s, from), next, from, to);
    }
  }

  /** A listed report is the report of its number, whatever window listed it. */
  lemma WindowsAgree(p: Plan, s: IntervalSequence, max: nat, from: Timestamp, to: Timestamp, from': Timestamp,
      to': Timestamp,
                     a: ReportDue, b: ReportDue)
    requires p.step >= 1
    requires a in DueIn(p, s, max, from, to) && b in DueIn(p, s, max, from', to') && a.sequence == b.sequence
    ensures a == b && VisitsOf(p, s)(a.sequence) == Report(a) && a.sequence < p.repeat && Wanted(a.dueAt, from, to)
  {
    var n := DueMeaning(p, s, max, from, to);
    var n' := DueMeaning(p, s, max, from', to');
    var i :| 0 <= i < |DueIn(p, s, max, from, to)| && DueIn(p, s, max, from, to)[i] == a;
    var j :| 0 <= j < |DueIn(p, s, max, from', to')| && DueIn(p, s, max, from', to')[j] == b;
    assert ListedOne(a, VisitsOf(p, s), p.repeat, FirstKReaching(p, s, from), n, from, to);
    assert ListedOne(b, VisitsOf(p, s), p.repeat, FirstKReaching(p, s, from'), n', from', to');
  }

  // ------------------------------------------------------------------------
  // Back-to-back reports
  // ------------------------------------------------------------------------

  /** Batches of `num` intervals, the first batch anchored at its own end or start. */
  predicate BackToBack(p: Plan) {
    p.step == p.num && p.anchor0 == if p.backwards then p.num - 1 else 0
  }

  /**
   `frequency = -1` with the anchor at the end of the first batch (the default, when a batch is all
   the declared intervals), or a forecast from the start.
   */
  lemma DefaultFrequencyIsBackToBack(d: ReportDescriptor, s: IntervalSequence, o: ScheduleOptions)
    requires s.base != [] && d.frequency < 0 && !o.startIntervalIsFirstCovered
    requires var num := MakePlan(d, s, o).num;
      if d.historical then d.startInterval == num - 1 || (d.startInterval < 0 && num == |s.base|)
      else d.startInterval <= 0
    ensures BackToBack(MakePlan(d, s, o)) && Sound(MakePlan(d, s, o), s)
  {}

  /** Index `i` is among those report `k` covers. */
  ghost predicate CoveredBy(p: Plan, s: IntervalSequence, i: nat, k: nat) {
    VisitsOf(p, s)(k).Report? && FirstOf(p, k) <= i <= LastOf(p, k) && Def(LookupOf(s), i)
  }

  /** The first index of batch `k`. */
  function BatchStart(p: Plan, k: nat): nat
    requires p.num >= 1
  {
    MulMonotone(0, k, p.num);
    k * p.num
  }

  lemma BatchRange(p: Plan, s: IntervalSequence, k: nat)
    requires Sound(p, s) && BackToBack(p) && Fits(p, k)
    ensures FirstOf(p, k) == BatchStart(p, k)
    ensures LastOf(p, k) == if p.bounded then Min(BatchStart(p, k) + p.num - 1, p.declared - 1)
      else BatchStart(p, k) + p.num - 1
  {
    RangeOf(p, s, k);
  }

  /**
   Report `k` covers exactly indices `k * num` to `(k + 1) * num - 1`, clipped to the sequence: its
   bounds and its quoted ids are those of the indices from the first of the batch to the last that exists.
   */
  lemma BatchOf(p: Plan, s: IntervalSequence, k: nat) returns (m: nat)
    requires WellFormed(s) && TimeOrdered(s) && Sound(p, s) && BackToBack(p) && Fits(p, k)
    requires VisitsOf(p, s)(k).Report?
    ensures BatchStart(p, k) <= m < BatchStart(p, k) + p.num && AllDef(LookupOf(s), BatchStart(p, k), m)
    ensures forall i: nat :: CoveredBy(p, s, i, k) <==>
      BatchStart(p, k) <= i < BatchStart(p, k) + p.num && Def(LookupOf(s), i)
    ensures forall i: nat :: CoveredBy(p, s, i, k) <==> BatchStart(p, k) <= i <= m
    ensures var r := VisitsOf(p, s)(k).due;
      && r.coversFrom == Item(LookupOf(s), BatchStart(p, k)).start && r.coversTo == Item(LookupOf(s), m).end
      && (!p.venChooses ==> r.intervalIds == IdsOf(LookupOf(s), BatchStart(p, k), m))
  {
    var g := LookupOf(s);
    LookupOrdered(s);
    BatchRange(p, s, k);
    m := CoverMeaning(g, FirstOf(p, k), LastOf(p, k));
    forall i: nat | Def(g, i) && BatchStart(p, k) <= i < BatchStart(p, k) + p.num
      ensures i <= LastOf(p, k) && i <= m
    {
      InBatchIsCovered(p, s, k, m, i);
    }
  }

  lemma InBatchIsCovered(p: Plan, s: IntervalSequence, k: nat, m: nat, i: nat)
    requires WellFormed(s) && TimeOrdered(s) && Sound(p, s) && BackToBack(p) && Fits(p, k)
    requires m >= LastOf(p, k) || LookupOf(s)(m + 1) == Ok(None)
    requires Def(LookupOf(s), i) && BatchStart(p, k) <= i < BatchStart(p, k) + p.num
    ensures i <= LastOf(p, k) && i <= m
  {
    var g := LookupOf(s);
    LookupOrdered(s);
    BatchRange(p, s, k);
    DefinedExists(s, i);
    assert m + 1 < i ==> Follows(g, m + 1, i);
  }

  lemma DefinedExists(s: IntervalSequence, i: nat)
    requires WellFormed(s) && Def(LookupOf(s), i)
    ensures s.period.None? ==> i < |s.base|
  {}

  /** `i` is in batch `k`, whether or not the batch has a report. */
  predicate InBatch(p: Plan, i: nat, k: nat)
    requires p.num >= 1
  {
    BatchStart(p, k) <= i < BatchStart(p, k) + p.num
  }

  lemma BatchUnique(p: Plan, i: nat, k: nat)
    requires p.num >= 1
    ensures InBatch(p, i, k) <==> k == i / p.num
  {
    DivBracket(i, p.num);
    if InBatch(p, i, k) {
      DivUnique(i, p.num, k);
    }
  }

  /** No interval is reported twice. */
  lemma ReportedAtMostOnce(p: Plan, s: IntervalSequence, i: nat, k: nat, k': nat)
    requires WellFormed(s) && TimeOrdered(s) && Sound(p, s) && BackToBack(p) && Fits(p, k) && Fits(p, k')
    requires CoveredBy(p, s, i, k) && CoveredBy(p, s, i, k')
    ensures k == k' && InBatch(p, i, k)
  {
    var m := BatchOf(p, s, k);
    var m' := BatchOf(p, s, k');
    BatchUnique(p, i, k);
    BatchUnique(p, i, k');
  }

  /** Time runs out before the event does, inside a batch. */
  ghost predicate LosesBatch(g: Lookup, first: nat, last: int) {
    exists j: nat :: first < j <= last && g(j).Err? && AllDef(g, first, j - 1)
  }

  lemma {:induction false} ExtendFails(g: Lookup, index: nat, last: int, c: Coverage) returns (j: nat)
    requires Extend(g, index, last, c).None?
    ensures index <= j <= last && g(j).Err? && AllDef(g, index, j - 1)
    decreases last - index
  {
    if g(index).Err? {
      j := index;
    } else {
      var iv := Item(g, index);
      j := ExtendFails(g, index + 1, last, Coverage(c.from, iv.end, c.ids + [iv.id]));
    }
  }

  /** A range whose first index exists is covered unless time runs out in it. */
  lemma CoverOrLoses(g: Lookup, first: nat, last: int)
    requires Def(g, first)
    ensures Cover(g, first, last).Some? <==> !LosesBatch(g, first, last)
  {
    var iv := Item(g, first);
    if Cover(g, first, last).None? {
      var j := ExtendFails(g, first + 1, last, Coverage(iv.start, iv.end, [iv.id]));
      assert AllDef(g, first, j - 1);
    } else {
      var m := CoverMeaning(g, first, last);
      assert m >= last || g(m + 1).Ok?;
      forall j: nat | first < j <= last && g(j).Err? ensures !AllDef(g, first, j - 1) {
        assert !Def(g, j);
        assert m < j;
        assert j != m + 1;
        assert !Def(g, m + 1);
      }
    }
  }

  /** Every interval is covered by the report of its batch, unless time runs out inside the batch. */
  lemma EveryIntervalHasReport(p: Plan, s: IntervalSequence, i: nat, k: nat)
    requires WellFormed(s) && TimeOrdered(s) && Sound(p, s) && BackToBack(p) && Fits(p, k)
    requires Def(LookupOf(s), i) && InBatch(p, i, k)
    ensures CoveredBy(p, s, i, k) <==> !LosesBatch(LookupOf(s), BatchStart(p, k), LastOf(p, k))
  {
    var g := LookupOf(s);
    LookupOrdered(s);
    BatchRange(p, s, k);
    DefinedExists(s, i);
    var first := BatchStart(p, k);
    assert first < i ==> Follows(g, first, i);
    CoverOrLoses(g, first, LastOf(p, k));
  }

  /**
   With repeats to spare, the ceiling not reached and its batch's report due in the window, an interval
   is quoted by exactly one listed report.
   */
  lemma EveryIntervalReportedOnce(p: Plan, s: IntervalSequence, max: nat, from: Timestamp, to: Timestamp, i: nat,
      k: nat, e: ReportDue)
    requires WellFormed(s) && TimeOrdered(s) && Sound(p, s) && BackToBack(p)
    requires |DueIn(p, s, max, from, to)| < max && k < p.repeat && Fits(p, k)
    requires CoveredBy(p, s, i, k)
    requires var r := VisitsOf(p, s)(k).due; r.dueAt.Some? && from <= r.dueAt.value <= to
    requires e in DueIn(p, s, max, from, to) && Fits(p, e.sequence)
    ensures VisitsOf(p, s)(k).due in DueIn(p, s, max, from, to)
    ensures CoveredBy(p, s, i, e.sequence) <==> e == VisitsOf(p, s)(k).due
  {
    ScheduleIsEnumeration(p, s, max, from, to, k);
    WindowsAgree(p, s, max, from, to, from, to, e, e);
    if CoveredBy(p, s, i, e.sequence) {
      ReportedAtMostOnce(p, s, i, k, e.sequence);
    }
  }
}
