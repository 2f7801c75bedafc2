/**
 Turning an event's declared intervals into absolute windows, and into a sequence that can be
 addressed past the end of its declared list.
 */
module Intervals {
  import opened Wrappers
  import opened Arithmetic
  import opened Model

  datatype ExpandedInterval = ExpandedInterval(
    id: int,
    index: nat,
    occurrence: nat,
    subinterval: nat,
    start: Timestamp,
    end: Option<Timestamp>,
    randomizeStart: Option<Duration>,
    payloads: seq<ValuesMap>)
  {
    predicate Contains(at: Timestamp) {
      start <= at && (end.Some? ==> at < end.value)
    }

    /** `select`'s test: does the window meet `[from, to)`? */
    predicate Overlaps(from: Timestamp, to: Timestamp) {
      (end.Some? ==> from < end.value) && start < to
    }
  }

  datatype ExpandError =
    | NoStart(index: nat)
    | NoDuration(index: nat)
    | OutOfRange(index: nat)
    | TooManyIntervals(limit: nat)

  /**
   The settings of one expansion. `calendar` adds a bounded duration to an instant and `scalar`
   says which payload types the schema calls scalar event payloads.
   */
  datatype Expander = Expander(
    now: Timestamp,
    subdivide: bool,
    limit: nat,
    calendar: Calendar,
    scalar: PayloadType -> bool)

  const DEFAULT_LIMIT: nat := 10_000

  // ------------------------------------------------------------------------
  // One pass over the declared list
  // ------------------------------------------------------------------------

  /** `Duration::checked_add_to`: `Ok(None)` is "no end". */
  function AddDuration(calendar: Calendar, d: Duration, t: Timestamp, index: nat)
      : Result<Option<Timestamp>, ExpandError>
  {
    match d
    case Forever => Ok(None)
    case Finite(span) =>
      match calendar(span, t)
      case None => Err(OutOfRange(index))
      case Some(end) => Ok(Some(end))
  }

  function OwnStart(iv: Interval): Option<StartTime> {
    if iv.intervalPeriod.None? then None else iv.intervalPeriod.value.start
  }

  function StartOf(x: Expander, iv: Interval, index: nat, cursor: Option<Timestamp>): Result<Timestamp, ExpandError> {
    match OwnStart(iv)
    case Some(s) => Ok(Resolve(s, x.now))
    case None => if cursor.Some? then Ok(cursor.value) else Err(NoStart(index))
  }

  function DurationOf(default: Option<IntervalPeriod>, iv: Interval): Option<Duration> {
    if iv.intervalPeriod.Some? && iv.intervalPeriod.value.duration.Some? then iv.intervalPeriod.value.duration
    else if default.Some? then default.value.duration
    else None
  }

  function RandomizeOf(default: Option<IntervalPeriod>, iv: Interval): Option<Duration> {
    if iv.intervalPeriod.Some? && iv.intervalPeriod.value.randomizeStart.Some?
      then iv.intervalPeriod.value.randomizeStart
    else if default.Some? then default.value.randomizeStart
    else None
  }

  /** With no duration anywhere an interval runs until its successor's declared start. */
  function EndOf(x: Expander, default: Option<IntervalPeriod>, intervals: seq<Interval>, index: nat, start: Timestamp)
    : Result<Option<Timestamp>, ExpandError>
    requires index < |intervals|
  {
    match DurationOf(default, intervals[index])
    case Some(d) => AddDuration(x.calendar, d, start, index)
    case None =>
      if index + 1 == |intervals| then Ok(None)
      else
        match OwnStart(intervals[index + 1])
        case None => Err(NoDuration(index))
        case Some(s) => Ok(Some(Resolve(s, x.now)))
  }

  /** How many sub-intervals one payload implies: several values of a scalar event payload. */
  function SubintervalCount(x: Expander, p: ValuesMap): nat {
    if x.scalar(p.valueType) && |p.values| > 1 then |p.values| else 1
  }

  function MaxSubintervals(x: Expander, payloads: seq<ValuesMap>): nat {
    if payloads == [] then 1
    else
      var init := MaxSubintervals(x, payloads[..|payloads| - 1]);
      var last := SubintervalCount(x, payloads[|payloads| - 1]);
      if last > init then last else init
  }

  /** The k-th of n boundaries of `[start, end)`, computed from the parent. */
  function Boundary(start: Timestamp, end: Timestamp, k: nat, n: nat): (b: Timestamp)
    requires k <= n && n > 0
    ensures b == start + TruncDiv((end - start) * k, n)
    ensures start <= end ==> start <= b <= end
    ensures end <= start ==> end <= b <= start
  {
    BoundaryWithin(start, end, k, n);
    start + TruncDiv((end - start) * k, n)
  }

  lemma BoundaryWithin(start: int, end: int, k: nat, n: nat)
    requires k <= n && n > 0
    ensures start <= end ==> start <= start + TruncDiv((end - start) * k, n) <= end
    ensures end <= start ==> end <= start + TruncDiv((end - start) * k, n) <= start
  {
    var d := if end >= start then end - start else start - end;
    assert 0 <= d * k <= d * n by {
      MulMonotone(k, n, d);
      assert d * k == k * d && d * n == n * d;
    }
    assert (d * n) / n == d by { DivUnique(d * n, n, d); }
    assert 0 / n == 0;
    DivMonotone(0, d * k, n);
    DivMonotone(d * k, d * n, n);
    assert (end - start) * k == if end >= start then d * k else -(d * k);
  }

  /** The payloads of piece k: a payload of exactly n sub-values gives its k-th, others go whole. */
  function PiecePayloads(x: Expander, payloads: seq<ValuesMap>, k: nat, n: nat): (r: seq<ValuesMap>)
    requires k < n && n > 1
    ensures |r| == |payloads|
  {
    seq(|payloads|, i requires 0 <= i < |payloads| =>
      var p := payloads[i];
      if SubintervalCount(x, p) == n then p.(values := [p.values[k]]) else p)
  }

  function Undivided(iv: Interval, index: nat, start: Timestamp, end: Option<Timestamp>, randomize: Option<Duration>)
      : ExpandedInterval
  {
    ExpandedInterval(iv.id, index, 0, 0, start, end, randomize, iv.payloads)
  }

  function Piece(x: Expander, iv: Interval, index: nat, start: Timestamp, end: Timestamp, randomize: Option<Duration>,
      k: nat, n: nat)
    : ExpandedInterval
    requires k < n && n > 1
  {
    ExpandedInterval(iv.id, index, 0, k, Boundary(start, end, k, n), Some(Boundary(start, end, k + 1, n)),
                     randomize, PiecePayloads(x, iv.payloads, k, n))
  }

  /** What `split` yields. */
  function Pieces(x: Expander, iv: Interval, index: nat, start: Timestamp, end: Option<Timestamp>,
      randomize: Option<Duration>)
    : Result<seq<ExpandedInterval>, ExpandError>
  {
    var n := if x.subdivide then MaxSubintervals(x, iv.payloads) else 1;
    if n <= 1 then Ok([Undivided(iv, index, start, end, randomize)])
    else if n > x.limit then Err(TooManyIntervals(x.limit))
    else if end.None? then Ok([Undivided(iv, index, start, end, randomize)])
    else Ok(seq(n, k requires 0 <= k < n => Piece(x, iv, index, start, end.value, randomize, k, n)))
  }

  method CountSubintervals(x: Expander, payloads: seq<ValuesMap>) returns (n: nat)
    ensures n == MaxSubintervals(x, payloads)
  {
    n := 1;
    for i := 0 to |payloads|
      invariant n == MaxSubintervals(x, payloads[..i])
    {
      var c := SubintervalCount(x, payloads[i]);
      assert payloads[..i + 1][..i] == payloads[..i];
      if c > n { n := c; }
    }
    assert payloads[..|payloads|] == payloads;
  }

  /** One boundary shift of `split`; it cannot overflow, because it lands inside the parent. */
  method ShiftToBoundary(start: Timestamp, end: Timestamp, k: nat, n: nat) returns (b: Option<Timestamp>)
    requires k <= n && n > 0
    ensures b == Some(Boundary(start, end, k, n))
  {
    var total := end - start;
    b := Shift(start, TruncDiv(total * k, n));
    assert Boundary(start, end, k, n) == start + TruncDiv(total * k, n);
  }

  /** `split`. The overflow error of a boundary shift is dead code: see `ShiftToBoundary`. */
  method Split(x: Expander, iv: Interval, index: nat, start: Timestamp, end: Option<Timestamp>,
      randomize: Option<Duration>)
    returns (r: Result<seq<ExpandedInterval>, ExpandError>)
    ensures r == Pieces(x, iv, index, start, end, randomize)
  {
    var count := 1;
    if x.subdivide { count := CountSubintervals(x, iv.payloads); }
    if count <= 1 { return Ok([Undivided(iv, index, start, end, randomize)]); }
    if count > x.limit { return Err(TooManyIntervals(x.limit)); }
    if end.None? { return Ok([Undivided(iv, index, start, end, randomize)]); }
    var out: seq<ExpandedInterval> := [];
    for k := 0 to count
      invariant |out| == k
      invariant forall j :: 0 <= j < k ==> out[j] == Piece(x, iv, index, start, end.value, randomize, j, count)
    {
      var s := ShiftToBoundary(start, end.value, k, count);
      var e := ShiftToBoundary(start, end.value, k + 1, count);
      out := out + [ExpandedInterval(iv.id, index, 0, k, s.value, e, randomize,
        PiecePayloads(x, iv.payloads, k, count))];
    }
    assert out == seq(count, k requires 0 <= k < count => Piece(x, iv, index, start, end.value, randomize, k, count));
    r := Ok(out);
  }

  /** The rest of the pass, from position `index` with the cursor and the output so far. */
  function ExpandFrom(x: Expander, default: Option<IntervalPeriod>, intervals: seq<Interval>, index: nat,
                      cursor: Option<Timestamp>, out: seq<ExpandedInterval>)
    : Result<seq<ExpandedInterval>, ExpandError>
    requires index <= |intervals|
    decreases |intervals| - index
  {
    if index == |intervals| then Ok(out)
    else
      var iv := intervals[index];
      var start :- StartOf(x, iv, index, cursor);
      var end :- EndOf(x, default, intervals, index, start);
      var pieces :- Pieces(x, iv, index, start, end, RandomizeOf(default, iv));
      if |out + pieces| > x.limit then Err(TooManyIntervals(x.limit))
      else ExpandFrom(x, default, intervals, index + 1, end, out + pieces)
  }

  function FirstCursor(x: Expander, default: Option<IntervalPeriod>): Option<Timestamp> {
    if default.Some? && default.value.start.Some? then Some(Resolve(default.value.start.value, x.now)) else None
  }

  function Declared(event: EventRequest): seq<Interval> {
    if event.intervals.Some? then event.intervals.value else []
  }

  function Expand(x: Expander, event: EventRequest): Result<seq<ExpandedInterval>, ExpandError> {
    ExpandFrom(x, event.intervalPeriod, Declared(event), 0, FirstCursor(x, event.intervalPeriod), [])
  }

  /** `expand_pass`, as the loop it is. */
  method ExpandPass(x: Expander, event: EventRequest) returns (r: Result<seq<ExpandedInterval>, ExpandError>)
    ensures r == Expand(x, event)
  {
    if event.intervals.None? { return Ok([]); }
    var default, intervals := event.intervalPeriod, event.intervals.value;
    var out: seq<ExpandedInterval> := [];
    var cursor := FirstCursor(x, default);
    for index := 0 to |intervals|
      invariant Expand(x, event) == ExpandFrom(x, default, intervals, index, cursor, out)
    {
      var iv := intervals[index];
      var start := StartOf(x, iv, index, cursor);
      if start.Err? { return Err(start.error); }
      var end := EndOf(x, default, intervals, index, start.value);
      if end.Err? { return Err(end.error); }
      cursor := end.value;
      var pieces := Split(x, iv, index, start.value, end.value, RandomizeOf(default, iv));
      if pieces.Err? { return Err(pieces.error); }
      out := out + pieces.value;
      if |out| > x.limit { return Err(TooManyIntervals(x.limit)); }
    }
    r := Ok(out);
  }

  // ------------------------------------------------------------------------
  // The sequence
  // ------------------------------------------------------------------------

  /** `period` is the distance between repetitions, when the sequence repeats. */
  datatype IntervalSequence = IntervalSequence(
    base: seq<ExpandedInterval>,
    period: Option<int>,
    start: Timestamp,
    lifespanEnd: Option<Timestamp>,
    implied: bool)

  const EMPTY_SEQUENCE: IntervalSequence := IntervalSequence([], None, 0, None, false)

  function LifespanEnd(x: Expander, event: EventRequest, sequenceStart: Timestamp)
      : Result<Option<Timestamp>, ExpandError>
  {
    match event.duration
    case None => Ok(None)
    case Some(d) => AddDuration(x.calendar, d, sequenceStart, 0)
  }

  predicate DurationExceeds(x: Expander, d: Duration, period: int, anchor: Timestamp) {
    var end := AddDuration(x.calendar, d, anchor, 0);
    end.Ok? && end.value.Some? && end.value.value - anchor > period
  }

  function MinStart(base: seq<ExpandedInterval>): (t: Timestamp)
    requires base != []
    ensures forall i :: 0 <= i < |base| ==> t <= base[i].start
    ensures exists i :: 0 <= i < |base| && t == base[i].start
  {
    if |base| == 1 then base[0].start
    else
      var rest := MinStart(base[1..]);
      assert forall i :: 1 <= i < |base| ==> base[i] == base[1..][i - 1];
      if rest < base[0].start then rest else base[0].start
  }

  predicate AnyOpenEnded(base: seq<ExpandedInterval>) {
    exists i :: 0 <= i < |base| && base[i].end.None?
  }

  function MaxEnd(base: seq<ExpandedInterval>): (t: Timestamp)
    requires base != [] && !AnyOpenEnded(base)
    ensures forall i :: 0 <= i < |base| ==> base[i].end.value <= t
    ensures exists i :: 0 <= i < |base| && base[i].end.value == t
  {
    if |base| == 1 then base[0].end.value
    else
      assert forall i :: 1 <= i < |base| ==> base[i] == base[1..][i - 1];
      var rest := MaxEnd(base[1..]);
      if rest > base[0].end.value then rest else base[0].end.value
  }

  /** The period of a declared list: its span, when the event's own duration outlasts it. */
  function DeclaredPeriod(x: Expander, event: EventRequest, base: seq<ExpandedInterval>): Option<int>
    requires base != []
  {
    if AnyOpenEnded(base) then None
    else
      var p := MaxEnd(base) - MinStart(base);
      if p > 0 && event.duration.Some?
        && (event.duration.value.Forever? || DurationExceeds(x, event.duration.value, p, MinStart(base)))
      then Some(p) else None
  }

  /** No declared intervals: one interval implied by the period, repeating without payloads. */
  function ImpliedSequence(x: Expander, event: EventRequest): Result<IntervalSequence, ExpandError> {
    if event.intervalPeriod.None? then Ok(EMPTY_SEQUENCE)
    else
      var period := event.intervalPeriod.value;
      if period.start.None? || period.duration.None? then Ok(EMPTY_SEQUENCE)
      else
        var start := Resolve(period.start.value, x.now);
        var end :- AddDuration(x.calendar, period.duration.value, start, 0);
        if end.None? || end.value <= start then Ok(EMPTY_SEQUENCE)
        else
          var lifespanEnd :- LifespanEnd(x, event, start);
          Ok(IntervalSequence([ExpandedInterval(0, 0, 0, 0, start, end, period.randomizeStart, [])],
                              Some(end.value - start), start, lifespanEnd, true))
  }

  function Sequence(x: Expander, event: EventRequest): Result<IntervalSequence, ExpandError> {
    var base :- Expand(x, event);
    if base == [] then ImpliedSequence(x, event)
    else
      var lifespanEnd :- LifespanEnd(x, event, MinStart(base));
      Ok(IntervalSequence(base, DeclaredPeriod(x, event, base), MinStart(base), lifespanEnd, false))
  }

  /** What holds of every sequence the expander builds. */
  ghost predicate WellFormed(s: IntervalSequence) {
    && (s.base != [] ==> exists i :: 0 <= i < |s.base| && s.base[i].start == s.start)
    && (forall i :: 0 <= i < |s.base| ==> s.start <= s.base[i].start)
    && (s.period.Some? ==>
          && s.period.value > 0
          && (forall i :: 0 <= i < |s.base| ==> s.base[i].end.Some? && s.base[i].end.value <= s.start + s.period.value)
          && (exists i :: 0 <= i < |s.base| && s.base[i].end == Some(s.start + s.period.value)))
  }

  lemma SequenceWellFormed(x: Expander, event: EventRequest)
    requires Sequence(x, event).Ok?
    ensures WellFormed(Sequence(x, event).value)
  {
    var s := Sequence(x, event).value;
    if Expand(x, event).value == [] && s.base != [] {
      assert s.base[0].start == s.start && s.base[0].end == Some(s.start + s.period.value);
    }
  }

  // ------------------------------------------------------------------------
  // Addressing it
  // ------------------------------------------------------------------------

  function Truncate(iv: ExpandedInterval, end: Timestamp): Option<ExpandedInterval> {
    if iv.start >= end then None
    else if iv.end.None? || iv.end.value > end then Some(iv.(end := Some(end)))
    else Some(iv)
  }

  /** The interval at an absolute index, or `None` past the event's end. */
  function Get(s: IntervalSequence, index: nat): Result<Option<ExpandedInterval>, ExpandError> {
    if |s.base| == 0 || (s.period.None? && index >= |s.base|) then Ok(None)
    else
      var occurrence := if s.period.Some? then index / |s.base| else 0;
      var iv := s.base[if s.period.Some? then index % |s.base| else index]
        .(occurrence := Min(occurrence, U32_MAX));
      var offset := if s.period.Some? then s.period.value * occurrence else 0;
      var start := Shift(iv.start, offset);
      var end := if iv.end.Some? then Shift(iv.end.value, offset) else None;
      if offset != 0 && (start.None? || (iv.end.Some? && end.None?)) then Err(OutOfRange(iv.index))
      else
        var shifted := if offset != 0 then iv.(start := start.value, end := end) else iv;
        Ok(if s.lifespanEnd.Some? then Truncate(shifted, s.lifespanEnd.value) else Some(shifted))
  }

  /** The repetitions that can reach `[from, to)`, as a half-open range of repetition numbers. */
  function FirstRepetition(s: IntervalSequence, from: Timestamp): nat
    requires s.period.Some? && s.period.value > 0
  {
    var sequenceEnd := s.start + s.period.value;
    if sequenceEnd > from then 0 else (from - sequenceEnd) / s.period.value + 1
  }

  function Stop(s: IntervalSequence, to: Timestamp): Timestamp {
    if s.lifespanEnd.Some? && s.lifespanEnd.value < to then s.lifespanEnd.value else to
  }

  function LastRepetition(s: IntervalSequence, to: Timestamp): nat
    requires s.period.Some? && s.period.value > 0
  {
    if Stop(s, to) <= s.start then 0 else CeilDiv(Stop(s, to) - s.start, s.period.value)
  }

  /** `indices_overlapping`, including its conversions to u64. */
  function IndicesOverlapping(s: IntervalSequence, from: Timestamp, to: Timestamp): Option<(nat, nat)>
    requires s.period.Some? ==> s.period.value > 0
  {
    if |s.base| == 0 then None
    else if s.period.None? then Some((0, |s.base|))
    else
      var first, last := FirstRepetition(s, from), LastRepetition(s, to);
      if first >= last || first > U64_MAX || last > U64_MAX then None
      else Some((Min(first * |s.base|, U64_MAX), Min(last * |s.base|, U64_MAX)))
  }

  function Prepend(ivs: seq<ExpandedInterval>, r: Result<seq<ExpandedInterval>, ExpandError>)
      : Result<seq<ExpandedInterval>, ExpandError>
  {
    if r.Ok? then Ok(ivs + r.value) else r
  }

  /** The intervals at indices `[lo, hi)`, or the first error among them. */
  function GetAll(s: IntervalSequence, lo: nat, hi: nat): Result<seq<ExpandedInterval>, ExpandError>
    decreases hi - lo
  {
    if lo >= hi then Ok([])
    else
      var iv :- Get(s, lo);
      var rest := GetAll(s, lo + 1, hi);
      if iv.Some? then Prepend([iv.value], rest) else rest
  }

  function Select(ivs: seq<ExpandedInterval>, from: Timestamp, to: Timestamp): seq<ExpandedInterval> {
    if ivs == [] then []
    else if ivs[0].Overlaps(from, to) then [ivs[0]] + Select(ivs[1..], from, to)
    else Select(ivs[1..], from, to)
  }

  function Window(x: Expander, event: EventRequest, from: Timestamp, to: Timestamp)
      : Result<seq<ExpandedInterval>, ExpandError>
  {
    var s :- Sequence(x, event);
    SequenceWellFormed(x, event);
    var range := IndicesOverlapping(s, from, to);
    if range.None? then Ok([])
    else if range.value.1 - range.value.0 > x.limit then Err(TooManyIntervals(x.limit))
    else
      var ivs :- GetAll(s, range.value.0, range.value.1);
      Ok(Select(ivs, from, to))
  }

  /** `sequence`: one pass over the declared list, then the span arithmetic. */
  method BuildSequence(x: Expander, event: EventRequest) returns (r: Result<IntervalSequence, ExpandError>)
    ensures r == Sequence(x, event)
  {
    var base := ExpandPass(x, event);
    if base.Err? { return Err(base.error); }
    if base.value == [] { return ImpliedSequence(x, event); }
    var start := MinStart(base.value);
    var lifespanEnd := LifespanEnd(x, event, start);
    if lifespanEnd.Err? { return Err(lifespanEnd.error); }
    r := Ok(IntervalSequence(base.value, DeclaredPeriod(x, event, base.value), start, lifespanEnd.value, false));
  }

  lemma PrependNothing(r: Result<seq<ExpandedInterval>, ExpandError>)
    ensures Prepend([], r) == r
  {
    assert r.Ok? ==> [] + r.value == r.value;
  }

  lemma PrependTwice(a: seq<ExpandedInterval>, b: seq<ExpandedInterval>, r: Result<seq<ExpandedInterval>, ExpandError>)
    ensures Prepend(a, Prepend(b, r)) == Prepend(a + b, r)
  {
    assert r.Ok? ==> a + (b + r.value) == (a + b) + r.value;
  }

  /** The loop of `expand_window` over an index range. */
  method Collect(s: IntervalSequence, lo: nat, hi: nat) returns (r: Result<seq<ExpandedInterval>, ExpandError>)
    ensures r == GetAll(s, lo, hi)
  {
    var out: seq<ExpandedInterval> := [];
    var index := lo;
    PrependNothing(GetAll(s, lo, hi));
    while index < hi
      invariant lo <= index
      invariant GetAll(s, lo, hi) == Prepend(out, GetAll(s, index, hi))
      decreases hi - index
    {
      var iv := Get(s, index);
      if iv.Err? { return Err(iv.error); }
      if iv.value.Some? {
        PrependTwice(out, [iv.value.value], GetAll(s, index + 1, hi));
        out := out + [iv.value.value];
      }
      index := index + 1;
    }
    assert out + [] == out;
    r := Ok(out);
  }

  method Filter(ivs: seq<ExpandedInterval>, from: Timestamp, to: Timestamp) returns (r: seq<ExpandedInterval>)
    ensures r == Select(ivs, from, to)
  {
    r := [];
    assert ivs[0..] == ivs;
    for j := 0 to |ivs|
      invariant Select(ivs, from, to) == r + Select(ivs[j..], from, to)
    {
      assert ivs[j..][1..] == ivs[j + 1..];
      if ivs[j].Overlaps(from, to) { r := r + [ivs[j]]; }
    }
  }

  method ExpandWindow(x: Expander, event: EventRequest, from: Timestamp, to: Timestamp)
    returns (r: Result<seq<ExpandedInterval>, ExpandError>)
    ensures r == Window(x, event, from, to)
  {
    var sequence := BuildSequence(x, event);
    if sequence.Err? { return Err(sequence.error); }
    SequenceWellFormed(x, event);
    var range := IndicesOverlapping(sequence.value, from, to);
    if range.None? { return Ok([]); }
    if range.value.1 - range.value.0 > x.limit { return Err(TooManyIntervals(x.limit)); }
    var out := Collect(sequence.value, range.value.0, range.value.1);
    if out.Err? { return out; }
    var selected := Filter(out.value, from, to);
    r := Ok(selected);
  }

  /** `active_window`: when the event is live. `Ok(None)` is an event that places nothing in time. */
  function ActiveWindow(x: Expander, event: EventRequest): Result<Option<(Timestamp, Option<Timestamp>)>, ExpandError> {
    var s :- Sequence(x, event);
    if s.base == [] then Ok(None)
    else
      var end :=
        if event.duration.Some? || s.period.Some? then s.lifespanEnd
        else if AnyOpenEnded(s.base) then None
        else Some(MaxEnd(s.base));
      Ok(Some((s.start, end)))
  }
}
