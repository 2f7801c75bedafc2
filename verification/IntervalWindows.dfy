/** The index arithmetic of a sequence against a naive walk over all its repetitions. */
module IntervalWindows {
  import opened Wrappers
  import opened Arithmetic
  import opened Model
  import opened Intervals

  // ------------------------------------------------------------------------
  // What one index means
  // ------------------------------------------------------------------------

  /** Whether the sequence has an index at all: any, if it repeats, else one of the declared. */
  predicate Exists(s: IntervalSequence, i: nat) {
    s.base != [] && (s.period.Some? || i < |s.base|)
  }

  function Position(s: IntervalSequence, i: nat): (p: nat)
    requires Exists(s, i)
    ensures p < |s.base|
  {
    if s.period.Some? then i % |s.base| else i
  }

  function Offset(s: IntervalSequence, i: nat): int
    requires Exists(s, i)
  {
    if s.period.Some? then s.period.value * (i / |s.base|) else 0
  }

  /** Where index `i` starts and ends with unlimited range and no truncation. */
  function IdealStart(s: IntervalSequence, i: nat): int
    requires Exists(s, i)
  {
    s.base[Position(s, i)].start + Offset(s, i)
  }

  function IdealEnd(s: IntervalSequence, i: nat): Option<int>
    requires Exists(s, i)
  {
    var end := s.base[Position(s, i)].end;
    if end.Some? then Some(end.value + Offset(s, i)) else None
  }

  predicate Representable(s: IntervalSequence, i: nat)
    requires Exists(s, i)
  {
    IdealStart(s, i) <= MAX_TIME && (IdealEnd(s, i).Some? ==> IdealEnd(s, i).value <= MAX_TIME)
  }

  /** The interval `get` returns, if it returns one. */
  predicate Defined(s: IntervalSequence, i: nat) {
    Get(s, i).Ok? && Get(s, i).value.Some?
  }

  function IntervalAt(s: IntervalSequence, i: nat): ExpandedInterval
    requires Defined(s, i)
  {
    Get(s, i).value.value
  }

  lemma OffsetNonNegative(s: IntervalSequence, i: nat)
    requires WellFormed(s) && Exists(s, i)
    ensures 0 <= Offset(s, i)
  {
    if s.period.Some? {
      MulMonotone(0, i / |s.base|, s.period.value);
      assert s.period.value * (i / |s.base|) == (i / |s.base|) * s.period.value;
    }
  }

  /** `get` fails exactly when the ideal interval leaves the range, is absent exactly when it starts
      at or past the event's own end, and otherwise is the ideal interval cut there. */
  lemma GetMeaning(s: IntervalSequence, i: nat)
    requires WellFormed(s)
    ensures !Exists(s, i) ==> Get(s, i) == Ok(None)
    ensures Exists(s, i) ==> (Get(s, i).Err? <==> !Representable(s, i))
    ensures Defined(s, i) <==>
      && Exists(s, i) && Representable(s, i)
      && (s.lifespanEnd.Some? ==> IdealStart(s, i) < s.lifespanEnd.value)
    ensures Defined(s, i) ==>
      var iv := IntervalAt(s, i);
      && iv.start == IdealStart(s, i)
      && (iv.end.None? <==> IdealEnd(s, i).None? && s.lifespanEnd.None?)
      && (iv.end.Some? ==>
          iv.end.value == if IdealEnd(s, i).None? then s.lifespanEnd.value
                          else if s.lifespanEnd.Some? then Min(IdealEnd(s, i).value, s.lifespanEnd.value)
                          else IdealEnd(s, i).value)
      && iv.payloads == s.base[Position(s, i)].payloads
      && iv.id == s.base[Position(s, i)].id && iv.index == s.base[Position(s, i)].index
      && iv.subinterval == s.base[Position(s, i)].subinterval
      && iv.randomizeStart == s.base[Position(s, i)].randomizeStart
      && iv.occurrence == if s.period.Some? then Min(i / |s.base|, 0xffff_ffff) else 0
  {
    if Exists(s, i) {
      OffsetNonNegative(s, i);
    }
  }

  /** No declared interval ends before it starts. */
  ghost predicate RunsForward(s: IntervalSequence) {
    forall i :: 0 <= i < |s.base| && s.base[i].end.Some? ==> s.base[i].start <= s.base[i].end.value
  }

  // ------------------------------------------------------------------------
  // Windows
  // ------------------------------------------------------------------------

  /** The naive walk's test: index `i` has an interval and it meets `[from, to)`. */
  predicate Hit(s: IntervalSequence, i: nat, from: Timestamp, to: Timestamp) {
    Defined(s, i) && IntervalAt(s, i).Overlaps(from, to)
  }

  function HitIndices(s: IntervalSequence, lo: nat, hi: nat, from: Timestamp, to: Timestamp): (ix: seq<nat>)
    ensures forall i :: i in ix <==> lo <= i < hi && Hit(s, i, from, to)
    ensures forall a, b :: 0 <= a < b < |ix| ==> ix[a] < ix[b]
    decreases hi - lo
  {
    if lo >= hi then []
    else if Hit(s, lo, from, to) then
      var rest := HitIndices(s, lo + 1, hi, from, to);
      assert forall b :: 0 <= b < |rest| ==> rest[b] in rest;
      [lo] + rest
    else HitIndices(s, lo + 1, hi, from, to)
  }

  /** The sequence's intervals at a list of indices. */
  function IntervalsAt(s: IntervalSequence, ix: seq<nat>): seq<ExpandedInterval>
    requires forall i :: i in ix ==> Defined(s, i)
  {
    seq(|ix|, j requires 0 <= j < |ix| => IntervalAt(s, ix[j]))
  }

  lemma {:induction false} SelectedAreHits(s: IntervalSequence, lo: nat, hi: nat, from: Timestamp, to: Timestamp)
    requires GetAll(s, lo, hi).Ok?
    ensures Select(GetAll(s, lo, hi).value, from, to) == IntervalsAt(s, HitIndices(s, lo, hi, from, to))
    decreases hi - lo
  {
    if lo < hi {
      SelectedAreHits(s, lo + 1, hi, from, to);
      var rest := GetAll(s, lo + 1, hi).value;
      if Defined(s, lo) {
        var iv := IntervalAt(s, lo);
        assert ([iv] + rest)[1..] == rest;
        if Hit(s, lo, from, to) {
          assert [iv] + IntervalsAt(s, HitIndices(s, lo + 1, hi, from, to))
              == IntervalsAt(s, HitIndices(s, lo, hi, from, to));
        }
      }
    }
  }

  /** No interval of a repetition outside the computed range can meet the window. */
  lemma HitRepetition(s: IntervalSequence, i: nat, from: Timestamp, to: Timestamp)
    requires WellFormed(s) && s.period.Some? && Hit(s, i, from, to)
    ensures FirstRepetition(s, from) <= i / |s.base| < LastRepetition(s, to)
  {
    GetMeaning(s, i);
    var p, k := s.period.value, i / |s.base|;
    assert Offset(s, i) == k * p;
    assert s.start + k * p <= IdealStart(s, i) < Stop(s, to);
    OffsetNonNegative(s, i);
    var span := Stop(s, to) - s.start;
    CeilDivIsLeast(span, p, k);
    if FirstRepetition(s, from) > 0 {
      var d := from - (s.start + p);
      assert from < s.start + p + k * p;
      DivBracket(d, p);
      if k <= d / p {
        MulMonotone(k, d / p, p);
      }
    }
  }

  lemma RepetitionBounds(i: nat, len: nat, first: nat, last: nat)
    requires len > 0
    ensures first <= i / len < last <==> first * len <= i < last * len
  {
    DivBracket(i, len);
    var k := i / len;
    if first <= k { MulMonotone(first, k, len); } else { MulStrict(k, first, len); }
    if k < last { MulStrict(k, last, len); } else { MulMonotone(last, k, len); }
  }

  /** And each repetition of the range reaches the window: it is over after `from` and starts before the stop. */
  lemma RangeIsTight(s: IntervalSequence, from: Timestamp, to: Timestamp, k: nat)
    requires s.period.Some? && s.period.value > 0 && FirstRepetition(s, from) <= k < LastRepetition(s, to)
    ensures s.start + k * s.period.value < Stop(s, to) && from < s.start + (k + 1) * s.period.value
  {
    var p := s.period.value;
    CeilDivIsLeast(Stop(s, to) - s.start, p, k);
    if FirstRepetition(s, from) > 0 {
      var d := from - (s.start + p);
      DivBracket(d, p);
      MulMonotone(d / p + 1, k, p);
      assert (d / p + 1) * p == d / p * p + p;
    } else {
      MulMonotone(1, k + 1, p);
    }
  }

  lemma {:induction false} GetAllFails(s: IntervalSequence, lo: nat, hi: nat)
    ensures GetAll(s, lo, hi).Err? <==> exists i: nat :: lo <= i < hi && Get(s, i).Err?
    decreases hi - lo
  {
    if lo < hi {
      GetAllFails(s, lo + 1, hi);
      if i: nat :| lo <= i < hi && Get(s, i).Err? {
        assert i == lo || lo + 1 <= i;
      }
    }
  }

  /** A window of a sequence fails exactly when its range is over the limit or holds an index time runs out at. */
  lemma WindowFailsIff(x: Expander, event: EventRequest, from: Timestamp, to: Timestamp)
    requires Sequence(x, event).Ok?
    ensures WellFormed(Sequence(x, event).value)
    ensures var s := Sequence(x, event).value;
      var range := IndicesOverlapping(s, from, to);
      Window(x, event, from, to).Err? <==>
        && range.Some?
        && (range.value.1 - range.value.0 > x.limit
            || exists i: nat :: range.value.0 <= i < range.value.1 && Exists(s, i) && !Representable(s, i))
  {
    SequenceWellFormed(x, event);
    var s := Sequence(x, event).value;
    var range := IndicesOverlapping(s, from, to);
    if range.Some? {
      GetAllFails(s, range.value.0, range.value.1);
      forall i: nat ensures Get(s, i).Err? <==> Exists(s, i) && !Representable(s, i) {
        GetMeaning(s, i);
      }
    }
  }

  /** Indices at or above this bound are lost to the u64 conversions of `indices_overlapping`. */
  function AddressBound(s: IntervalSequence, to: Timestamp): nat
    requires s.period.Some? ==> s.period.value > 0
  {
    if s.period.None? then |s.base|
    else if LastRepetition(s, to) > U64_MAX then 0
    else U64_MAX
  }

  /** The caller's check: every repetition that starts before `to` has 64-bit indices. */
  predicate Addressable(s: IntervalSequence, to: Timestamp)
    requires s.period.Some? ==> s.period.value > 0
  {
    s.period.Some? ==> LastRepetition(s, to) * |s.base| <= U64_MAX
  }

  /** The indices `expand_window` returns. */
  function WindowIndices(s: IntervalSequence, from: Timestamp, to: Timestamp): (ix: seq<nat>)
    requires s.period.Some? ==> s.period.value > 0
    ensures forall i :: i in ix ==> Hit(s, i, from, to)
    ensures forall a, b :: 0 <= a < b < |ix| ==> ix[a] < ix[b]
  {
    var range := IndicesOverlapping(s, from, to);
    if range.None? then [] else HitIndices(s, range.value.0, range.value.1, from, to)
  }

  lemma HitInRange(s: IntervalSequence, i: nat, from: Timestamp, to: Timestamp)
    requires WellFormed(s) && Hit(s, i, from, to)
    ensures i in WindowIndices(s, from, to) <==> i < AddressBound(s, to)
  {
    GetMeaning(s, i);
    if s.period.Some? {
      HitRepetition(s, i, from, to);
      var first, last, len := FirstRepetition(s, from), LastRepetition(s, to), |s.base|;
      RepetitionBounds(i, len, first, last);
      if last <= U64_MAX {
        assert IndicesOverlapping(s, from, to) == Some((Min(first * len, U64_MAX), Min(last * len, U64_MAX)));
      } else {
        assert IndicesOverlapping(s, from, to) == None;
      }
    }
  }

  /**
   Whenever `expand_window` succeeds it returns, in index order, exactly the intervals that a walk
   over every natural index finds in the window, below the 64-bit bound.
   */
  lemma WindowIsNaiveWalk(x: Expander, event: EventRequest, from: Timestamp, to: Timestamp)
    requires Window(x, event, from, to).Ok?
    ensures
      var s := Sequence(x, event).value;
      && Sequence(x, event).Ok? && WellFormed(s)
      && Window(x, event, from, to).value == IntervalsAt(s, WindowIndices(s, from, to))
      && (forall i: nat :: i in WindowIndices(s, from, to) <==> Hit(s, i, from, to) && i < AddressBound(s, to))
  {
    SequenceWellFormed(x, event);
    var s := Sequence(x, event).value;
    var range := IndicesOverlapping(s, from, to);
    if range.Some? {
      SelectedAreHits(s, range.value.0, range.value.1, from, to);
    }
    forall i: nat | Hit(s, i, from, to)
      ensures i in WindowIndices(s, from, to) <==> i < AddressBound(s, to)
    {
      HitInRange(s, i, from, to);
    }
    forall i: nat | i in WindowIndices(s, from, to) ensures i < AddressBound(s, to) {
      HitInRange(s, i, from, to);
    }
  }

  /** Nothing is lost exactly when no interval of the window sits at or above the bound. */
  lemma WindowCompleteIff(x: Expander, event: EventRequest, from: Timestamp, to: Timestamp)
    requires Window(x, event, from, to).Ok?
    ensures
      var s := Sequence(x, event).value;
      && Sequence(x, event).Ok? && WellFormed(s)
      && ((forall i: nat :: Hit(s, i, from, to) ==> i in WindowIndices(s, from, to))
          <==> (forall i: nat :: Hit(s, i, from, to) ==> i < AddressBound(s, to)))
      && (Addressable(s, to) ==> forall i: nat :: Hit(s, i, from, to) ==> i in WindowIndices(s, from, to))
  {
    WindowIsNaiveWalk(x, event, from, to);
    var s := Sequence(x, event).value;
    if Addressable(s, to) {
      forall i: nat | Hit(s, i, from, to) ensures i < AddressBound(s, to) {
        GetMeaning(s, i);
        if s.period.Some? {
          HitRepetition(s, i, from, to);
          var last, len := LastRepetition(s, to), |s.base|;
          RepetitionBounds(i, len, 0, last);
          MulMonotone(1, len, last);
          assert last * len == len * last;
        }
      }
    }
  }

  /** Where the last repetition that starts before the window's end starts. */
  function LastStart(s: IntervalSequence, to: Timestamp): int
    requires s.period.Some? && s.period.value > 0
  {
    s.start + (LastRepetition(s, to) - 1) * s.period.value
  }

  /** That repetition holds an interval of the window, when the window reaches back before it. */
  lemma LastRepetitionIsHit(s: IntervalSequence, from: Timestamp, to: Timestamp, j: nat) returns (i: nat)
    requires WellFormed(s) && RunsForward(s) && s.period.Some? && LastRepetition(s, to) > 0
    requires j < |s.base| && s.base[j].start == s.start
    requires from < LastStart(s, to) && LastStart(s, to) + s.period.value <= MAX_TIME
    ensures Hit(s, i, from, to) && i >= (LastRepetition(s, to) - 1) * |s.base|
  {
    var k, len, period := LastRepetition(s, to) - 1, |s.base|, s.period.value;
    MulMonotone(0, k, len);
    i := k * len + j;
    DivUnique(i, len, k);
    DivBracket(i, len);
    assert Offset(s, i) == k * period && Position(s, i) == j;
    CeilDivIsLeast(Stop(s, to) - s.start, period, k);
    GetMeaning(s, i);
  }

  /** The window reaches back before the last repetition, and that repetition is over before time is. */
  ghost predicate ReachesBack(s: IntervalSequence, from: Timestamp, to: Timestamp)
    requires s.period.Some? ==> s.period.value > 0
  {
    && s.period.Some? && s.base != [] && RunsForward(s)
    && from < LastStart(s, to) && LastStart(s, to) + s.period.value <= MAX_TIME
  }

  lemma BeyondTheBound(s: IntervalSequence, from: Timestamp, to: Timestamp) returns (i: nat)
    requires WellFormed(s) && ReachesBack(s, from, to) && (LastRepetition(s, to) - 1) * |s.base| >= U64_MAX
    ensures Hit(s, i, from, to) && i >= AddressBound(s, to)
  {
    var j: nat :| j < |s.base| && s.base[j].start == s.start;
    if LastRepetition(s, to) == 0 {
      MulMonotone(-1, 0, |s.base|);
      assert false;
    }
    i := LastRepetitionIsHit(s, from, to, j);
  }

  /**
   The other way round, by arithmetic on the sequence alone: a window that reaches back loses an
   interval where the repetitions before its last already use up the 64-bit indices. With one declared
   interval that is the exact converse: nothing is lost exactly when the window is addressable.
   */
  lemma UnaddressableIsLost(x: Expander, event: EventRequest, from: Timestamp, to: Timestamp)
    requires Window(x, event, from, to).Ok?
    ensures var s := Sequence(x, event).value;
      && Sequence(x, event).Ok? && WellFormed(s)
      && var complete := forall i: nat :: Hit(s, i, from, to) ==> i in WindowIndices(s, from, to);
      && (ReachesBack(s, from, to) && (LastRepetition(s, to) - 1) * |s.base| >= U64_MAX ==> !complete)
      && (ReachesBack(s, from, to) && |s.base| == 1 ==> (complete <==> Addressable(s, to)))
  {
    WindowIsNaiveWalk(x, event, from, to);
    WindowCompleteIff(x, event, from, to);
    var s := Sequence(x, event).value;
    if ReachesBack(s, from, to) && (LastRepetition(s, to) - 1) * |s.base| >= U64_MAX {
      var i := BeyondTheBound(s, from, to);
    }
  }

  /** A nanosecond tick looping from the first representable instant, read at the last one. */
  const CLOCK_CALENDAR: Calendar := (span: Span, t: Timestamp) => Shift(t, span.nanos)
  const NANO_EXPANDER: Expander := Expander(0, true, DEFAULT_LIMIT, CLOCK_CALENDAR, (p: PayloadType) => false)
  const PROGRAM: ObjectId := (assert Lower("p")[0] == 'p'; "p")
  const NANO_TICK: EventRequest := EventRequest(
    PROGRAM, Some(Forever), None, None,
    Some(IntervalPeriod(Some(At(MIN_TIME)), Some(Finite(Span(0, 0, 1))), None)),
    Some([Interval(7, None, [ValuesMap("PRICE", [Integer(1)])])]))

  /** The bound bites: this window is reported empty although an interval covers it. */
  lemma UnaddressableWindowIsLost()
    ensures
      var s := Sequence(NANO_EXPANDER, NANO_TICK).value;
      && Sequence(NANO_EXPANDER, NANO_TICK).Ok?
      && Window(NANO_EXPANDER, NANO_TICK, MAX_TIME - 1, MAX_TIME) == Ok([])
      && Hit(s, MAX_TIME - 1 - MIN_TIME, MAX_TIME - 1, MAX_TIME)
  {
    var x, e := NANO_EXPANDER, NANO_TICK;
    var iv := e.intervals.value[0];
    assert MaxSubintervals(x, iv.payloads) == 1 by {
      assert iv.payloads[..0] == [];
    }
    var one := Undivided(iv, 0, MIN_TIME, Some(MIN_TIME + 1), None);
    assert Pieces(x, iv, 0, MIN_TIME, Some(MIN_TIME + 1), None) == Ok([one]);
    assert ExpandFrom(x, e.intervalPeriod, e.intervals.value, 1, Some(MIN_TIME + 1), [one]) == Ok([one]);
    assert [] + [one] == [one];
    assert Expand(x, e) == Ok([one]);
    var s := IntervalSequence([one], Some(1), MIN_TIME, None, false);
    assert Sequence(x, e) == Ok(s);
    SequenceWellFormed(x, e);
    var i := MAX_TIME - 1 - MIN_TIME;
    assert i / 1 == i && i % 1 == 0;
    GetMeaning(s, i);
    assert FirstRepetition(s, MAX_TIME - 1) == i;
  }

  // ------------------------------------------------------------------------
  // The active window
  // ------------------------------------------------------------------------

  /** Whether `[from, to)` misses the live window `[w.0, w.1)`. */
  predicate Disjoint(w: (Timestamp, Option<Timestamp>), from: Timestamp, to: Timestamp) {
    to <= w.0 || (w.1.Some? && w.1.value <= from)
  }

  /** Every interval of the event lies inside the window stored when the event was written. */
  lemma InsideActiveWindow(x: Expander, event: EventRequest, i: nat)
    requires ActiveWindow(x, event).Ok?
    requires Defined(Sequence(x, event).value, i)
    ensures ActiveWindow(x, event).value.Some?
    ensures
      var w := ActiveWindow(x, event).value.value;
      var iv := IntervalAt(Sequence(x, event).value, i);
      w.0 <= iv.start && (w.1.Some? ==> iv.end.Some? && iv.end.value <= w.1.value)
  {
    SequenceWellFormed(x, event);
    var s := Sequence(x, event).value;
    GetMeaning(s, i);
    OffsetNonNegative(s, i);
  }

  /** So expanding over a window that the event is not live in yields nothing. */
  lemma InactiveMeansEmpty(x: Expander, event: EventRequest, from: Timestamp, to: Timestamp)
    requires Window(x, event, from, to).Ok? && ActiveWindow(x, event).Ok?
    requires ActiveWindow(x, event).value.Some? ==> Disjoint(ActiveWindow(x, event).value.value, from, to)
    ensures Window(x, event, from, to).value == []
  {
    WindowIsNaiveWalk(x, event, from, to);
    var s := Sequence(x, event).value;
    var ix := WindowIndices(s, from, to);
    if ix != [] {
      assert ix[0] in ix;
      InsideActiveWindow(x, event, ix[0]);
      assert false;
    }
  }
}
