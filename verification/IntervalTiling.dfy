/** Subdivision divides exactly, and an inherited schedule tiles time without gap or overlap. */
module IntervalTiling {
  import opened Wrappers
  import opened Arithmetic
  import opened Model
  import opened Intervals
  import opened IntervalWindows

  ghost predicate Linked(ivs: seq<ExpandedInterval>, i: nat)
    requires i + 1 < |ivs|
  {
    ivs[i].end == Some(ivs[i + 1].start)
  }

  /** Each interval ends where the next one starts, from `a` to `b`, and none runs backwards. */
  ghost predicate Chain(ivs: seq<ExpandedInterval>, a: int, b: int) {
    && ivs != []
    && (forall i :: 0 <= i < |ivs| ==> ivs[i].end.Some? && ivs[i].start <= ivs[i].end.value)
    && ivs[0].start == a
    && ivs[|ivs| - 1].end == Some(b)
    && (forall i :: 0 <= i < |ivs| - 1 ==> Linked(ivs, i))
  }

  /** No two intervals differ in length by more than a nanosecond. */
  ghost predicate EvenLengths(ivs: seq<ExpandedInterval>) {
    && (forall i :: 0 <= i < |ivs| ==> ivs[i].end.Some?)
    && (forall j, k :: 0 <= j < |ivs| && 0 <= k < |ivs| ==>
          (ivs[j].end.value - ivs[j].start) - (ivs[k].end.value - ivs[k].start) <= 1)
  }

  // ------------------------------------------------------------------------
  // Subdivision
  // ------------------------------------------------------------------------

  /** The values of payload `p` over all pieces, in piece order. */
  function Joined(pieces: seq<ExpandedInterval>, p: nat): seq<Value>
    requires forall k :: 0 <= k < |pieces| ==> p < |pieces[k].payloads|
  {
    if pieces == [] then []
    else Joined(pieces[..|pieces| - 1], p) + pieces[|pieces| - 1].payloads[p].values
  }

  /** A payload of as many values as there are pieces is dealt out in order; any other goes whole. */
  ghost predicate PayloadDivided(x: Expander, iv: Interval, pieces: seq<ExpandedInterval>, p: nat)
    requires p < |iv.payloads|
  {
    && (forall k :: 0 <= k < |pieces| ==>
          p < |pieces[k].payloads| && pieces[k].payloads[p].valueType == iv.payloads[p].valueType)
    && if SubintervalCount(x, iv.payloads[p]) == |pieces| then Joined(pieces, p) == iv.payloads[p].values
       else forall k :: 0 <= k < |pieces| ==> pieces[k].payloads[p] == iv.payloads[p]
  }

  /** A boundary is the exact rational boundary rounded down, so rounding never accumulates. */
  lemma BoundaryFloor(start: Timestamp, end: Timestamp, k: nat, n: nat)
    requires k <= n && n > 0 && start <= end
    ensures var b := Boundary(start, end, k, n) - start;
            b * n <= (end - start) * k < b * n + n
  {
    assert 0 <= (end - start) * k;
    DivBracket((end - start) * k, n);
  }

  lemma QuotientGap(x: int, t: int, a: int, b: int, q: int, n: int)
    requires n > 0
    requires a * n <= x < a * n + n && b * n <= x + t < b * n + n && q * n <= t < q * n + n
    ensures q <= b - a <= q + 1
  {
    assert (b - a) * n == b * n - a * n;
    if b - a < q {
      MulStrict(b - a, q, n);
    } else if b - a > q + 1 {
      MulStrict(q + 1, b - a, n);
    }
  }

  /** Consecutive boundaries are apart by the floor or the ceiling of the exact share. */
  lemma PieceLength(start: Timestamp, end: Timestamp, k: nat, n: nat)
    requires k < n && start <= end
    ensures var len := Boundary(start, end, k + 1, n) - Boundary(start, end, k, n);
            0 <= (end - start) / n <= len <= (end - start) / n + 1
  {
    var total := end - start;
    BoundaryFloor(start, end, k, n);
    BoundaryFloor(start, end, k + 1, n);
    DivBracket(total, n);
    assert total * (k + 1) == total * k + total;
    QuotientGap(total * k, total, Boundary(start, end, k, n) - start, Boundary(start, end, k + 1, n) - start,
      total / n, n);
    DivMonotone(0, total, n);
    assert 0 / n == 0;
  }

  lemma BoundaryEnds(start: Timestamp, end: Timestamp, n: nat)
    requires n > 0
    ensures Boundary(start, end, 0, n) == start && Boundary(start, end, n, n) == end
  {
    var d := if start <= end then end - start else start - end;
    assert (end - start) * n == if start <= end then d * n else -(d * n);
    MulMonotone(0, d, n);
    DivUnique(d * n, n, d);
    assert 0 / n == 0;
  }

  lemma {:induction false} JoinedRecovers(x: Expander, iv: Interval, index: nat, start: Timestamp, end: Timestamp,
                                           randomize: Option<Duration>, n: nat, m: nat, p: nat)
    requires 1 < n && m <= n && p < |iv.payloads| && SubintervalCount(x, iv.payloads[p]) == n
    ensures Joined(seq(m, k requires 0 <= k < m => Piece(x, iv, index, start, end, randomize, k, n)), p)
         == iv.payloads[p].values[..m]
  {
    if m > 0 {
      var pieces := seq(m, k requires 0 <= k < m => Piece(x, iv, index, start, end, randomize, k, n));
      var init := seq(m - 1, k requires 0 <= k < m - 1 => Piece(x, iv, index, start, end, randomize, k, n));
      assert pieces[..m - 1] == init;
      JoinedRecovers(x, iv, index, start, end, randomize, n, m - 1, p);
      assert iv.payloads[p].values[..m - 1] + [iv.payloads[p].values[m - 1]] == iv.payloads[p].values[..m];
    }
  }

  /**
   Splitting into n > 1 pieces tiles the parent exactly: a chain from its start to its end, lengths
   within one nanosecond of each other, full-count payloads recovered in order, others carried whole.
   */
  lemma SubdivisionIsExact(x: Expander, iv: Interval, index: nat, start: Timestamp, end: Timestamp,
      randomize: Option<Duration>)
    requires start <= end
    requires x.subdivide && 1 < MaxSubintervals(x, iv.payloads) <= x.limit
    ensures
      var n := MaxSubintervals(x, iv.payloads);
      var r := Pieces(x, iv, index, start, Some(end), randomize);
      && r.Ok? && |r.value| == n
      && Chain(r.value, start, end) && EvenLengths(r.value)
      && (forall p :: 0 <= p < |iv.payloads| ==> PayloadDivided(x, iv, r.value, p))
  {
    var n := MaxSubintervals(x, iv.payloads);
    var r, b, q := PiecesCut(x, iv, index, start, end, randomize, n);
    CutAtBoundaries(r, b, q);
    forall p | 0 <= p < |iv.payloads| ensures PayloadDivided(x, iv, r, p) {
      PayloadIsDivided(x, iv, index, start, end, randomize, n, p);
    }
  }

  lemma PayloadIsDivided(x: Expander, iv: Interval, index: nat, start: Timestamp, end: Timestamp,
      randomize: Option<Duration>,
                         n: nat, p: nat)
    requires 1 < n && p < |iv.payloads|
    ensures PayloadDivided(x, iv, seq(n, k requires 0 <= k < n => Piece(x, iv, index, start, end, randomize, k, n)), p)
  {
    if SubintervalCount(x, iv.payloads[p]) == n {
      JoinedRecovers(x, iv, index, start, end, randomize, n, n, p);
      assert iv.payloads[p].values[..n] == iv.payloads[p].values;
    }
  }

  ghost predicate CutAt(r: seq<ExpandedInterval>, b: seq<Timestamp>, k: nat)
    requires k < |r| < |b|
  {
    r[k].start == b[k] && r[k].end == Some(b[k + 1])
  }

  ghost predicate Even(b: seq<Timestamp>, q: int, k: nat)
    requires k + 1 < |b|
  {
    q <= b[k + 1] - b[k] <= q + 1
  }

  /** The list of boundaries: evenly spaced, whatever the rounding. */
  lemma BoundaryList(start: Timestamp, end: Timestamp, n: nat) returns (b: seq<Timestamp>, q: int)
    requires n > 0 && start <= end
    ensures |b| == n + 1 && b[0] == start && b[n] == end
    ensures forall k :: 0 <= k <= n ==> b[k] == Boundary(start, end, k, n)
    ensures 0 <= q && forall k :: 0 <= k < n ==> Even(b, q, k)
  {
    q := (end - start) / n;
    b := seq(n + 1, k requires 0 <= k <= n => Boundary(start, end, k, n));
    BoundaryEnds(start, end, n);
    PieceLength(start, end, 0, n);
    forall k | 0 <= k < n ensures Even(b, q, k) {
      PieceLength(start, end, k, n);
    }
  }

  /** Intervals cut at consecutive elements of an even list of instants. */
  lemma CutAtBoundaries(r: seq<ExpandedInterval>, b: seq<Timestamp>, q: int)
    requires |r| > 0 && |b| == |r| + 1 && 0 <= q
    requires forall k :: 0 <= k < |r| ==> Even(b, q, k)
    requires forall k :: 0 <= k < |r| ==> CutAt(r, b, k)
    ensures Chain(r, b[0], b[|r|]) && EvenLengths(r)
  {
    forall k | 0 <= k < |r| ensures r[k].end.Some? && q <= r[k].end.value - r[k].start <= q + 1 {
      assert CutAt(r, b, k) && Even(b, q, k);
    }
    forall i | 0 <= i < |r| - 1 ensures Linked(r, i) {
      assert CutAt(r, b, i) && CutAt(r, b, i + 1);
    }
    assert CutAt(r, b, 0) && CutAt(r, b, |r| - 1);
  }

  lemma PiecesCut(x: Expander, iv: Interval, index: nat, start: Timestamp, end: Timestamp, randomize: Option<Duration>,
      n: nat)
    returns (r: seq<ExpandedInterval>, b: seq<Timestamp>, q: int)
    requires start <= end && 1 < n
    ensures r == seq(n, k requires 0 <= k < n => Piece(x, iv, index, start, end, randomize, k, n))
    ensures |b| == n + 1 && b[0] == start && b[n] == end
    ensures 0 <= q && forall k :: 0 <= k < n ==> Even(b, q, k)
    ensures forall k :: 0 <= k < n ==> CutAt(r, b, k)
  {
    r := seq(n, k requires 0 <= k < n => Piece(x, iv, index, start, end, randomize, k, n));
    b, q := BoundaryList(start, end, n);
    forall k | 0 <= k < n ensures CutAt(r, b, k) {
      assert r[k] == Piece(x, iv, index, start, end, randomize, k, n);
    }
  }

  // ------------------------------------------------------------------------
  // One pass of an inherited schedule is a chain
  // ------------------------------------------------------------------------

  ghost predicate MovesForward(x: Expander, d: Duration) {
    d.Finite? && forall t: Timestamp :: x.calendar(d.span, t).Some? ==> t < x.calendar(d.span, t).value
  }

  /** Every interval inherits its start and has a positive bounded duration. */
  ghost predicate Inherited(x: Expander, event: EventRequest) {
    && event.intervalPeriod.Some? && event.intervalPeriod.value.start.Some?
    && Declared(event) != []
    && forall i :: 0 <= i < |Declared(event)| ==>
         && OwnStart(Declared(event)[i]).None?
         && DurationOf(event.intervalPeriod, Declared(event)[i]).Some?
         && MovesForward(x, DurationOf(event.intervalPeriod, Declared(event)[i]).value)
  }

  lemma PiecesChain(x: Expander, iv: Interval, index: nat, start: Timestamp, end: Timestamp,
      randomize: Option<Duration>)
    requires start <= end && Pieces(x, iv, index, start, Some(end), randomize).Ok?
    ensures Chain(Pieces(x, iv, index, start, Some(end), randomize).value, start, end)
  {
    if x.subdivide && MaxSubintervals(x, iv.payloads) > 1 {
      SubdivisionIsExact(x, iv, index, start, end, randomize);
    }
  }

  lemma ChainJoin(a: seq<ExpandedInterval>, b: seq<ExpandedInterval>, s: int, m: int, e: int)
    requires Chain(a, s, m) && Chain(b, m, e)
    ensures Chain(a + b, s, e)
  {
    var c := a + b;
    forall i | 0 <= i < |c| - 1 ensures Linked(c, i) {
      if i < |a| - 1 {
        assert Linked(a, i);
      } else if i >= |a| {
        assert Linked(b, i - |a|);
      }
    }
  }

  lemma {:induction false} PassChain(x: Expander, event: EventRequest, index: nat, cursor: Timestamp,
      out: seq<ExpandedInterval>, start: int)
    requires Inherited(x, event) && index <= |Declared(event)|
    requires if index == 0 then out == [] && cursor == start else Chain(out, start, cursor) && start < cursor
    requires ExpandFrom(x, event.intervalPeriod, Declared(event), index, Some(cursor), out).Ok?
    ensures exists e: Timestamp ::
      start < e && Chain(ExpandFrom(x, event.intervalPeriod, Declared(event), index, Some(cursor), out).value, start, e)
    decreases |Declared(event)| - index
  {
    var default, intervals := event.intervalPeriod, Declared(event);
    if index < |intervals| {
      var iv := intervals[index];
      var end := EndOf(x, default, intervals, index, cursor).value.value;
      var pieces := Pieces(x, iv, index, cursor, Some(end), RandomizeOf(default, iv));
      PiecesChain(x, iv, index, cursor, end, RandomizeOf(default, iv));
      if index == 0 {
        assert out + pieces.value == pieces.value;
      } else {
        ChainJoin(out, pieces.value, start, cursor, end);
      }
      PassChain(x, event, index + 1, end, out + pieces.value, start);
    }
  }

  // ------------------------------------------------------------------------
  // Tiling
  // ------------------------------------------------------------------------

  /** A sequence whose one repetition is a chain covering its whole period. */
  ghost predicate Gapless(s: IntervalSequence, end: int) {
    Chain(s.base, s.start, end) && (s.period.Some? ==> end == s.start + s.period.value)
  }

  lemma {:induction false} ChainOrdered(ivs: seq<ExpandedInterval>, a: int, b: int, i: nat, j: nat)
    requires Chain(ivs, a, b) && i < j < |ivs|
    ensures ivs[i].end.value <= ivs[j].start
    decreases j
  {
    assert Linked(ivs, j - 1);
    if i + 1 < j {
      ChainOrdered(ivs, a, b, i, j - 1);
    }
  }

  /** The position in one repetition that holds an instant of it. */
  function Holder(ivs: seq<ExpandedInterval>, a: int, b: int, t: int): (j: nat)
    requires Chain(ivs, a, b) && a <= t < b
    ensures j < |ivs| && ivs[j].start <= t < ivs[j].end.value
  {
    var last := |ivs| - 1;
    if ivs[last].start <= t then last
    else
      assert last > 0;
      assert Linked(ivs, last - 1);
      assert forall i :: 0 <= i < last - 1 ==> Linked(ivs, i) ==> Linked(ivs[..last], i);
      Holder(ivs[..last], a, ivs[last].start, t)
  }

  /** Which repetition an instant falls in. */
  function RepetitionOf(s: IntervalSequence, t: int): (k: nat)
    requires WellFormed(s) && s.period.Some? && s.start <= t
    ensures s.start + k * s.period.value <= t < s.start + k * s.period.value + s.period.value
  {
    var k, period := (t - s.start) / s.period.value, s.period.value;
    DivBracket(t - s.start, period);
    QuotientNotNegative(t - s.start, period);
    assert k * period <= t - s.start < k * period + period;
    k
  }

  /** The index that holds an instant, by arithmetic alone. */
  function HolderIndex(s: IntervalSequence, end: int, t: int): nat
    requires WellFormed(s) && Gapless(s, end) && s.start <= t && (s.period.None? ==> t < end)
  {
    if s.period.None? then Holder(s.base, s.start, end, t)
    else
      var k := RepetitionOf(s, t);
      IndexOf(k, |s.base|, Holder(s.base, s.start, end, t - k * s.period.value))
  }

  /** The index of position `j` in repetition `k`. */
  function IndexOf(k: nat, len: nat, j: nat): (i: nat)
    requires j < len
    ensures i / len == k && i % len == j
  {
    DivUnique(k * len + j, len, k);
    DivBracket(k * len + j, len);
    k * len + j
  }

  lemma HolderIndexHolds(s: IntervalSequence, end: int, t: int)
    requires WellFormed(s) && Gapless(s, end) && s.start <= t && (s.period.None? ==> t < end)
    ensures
      var i := HolderIndex(s, end, t);
      && Exists(s, i) && IdealStart(s, i) <= t
      && IdealEnd(s, i).Some? && t < IdealEnd(s, i).value
  {
    if s.period.Some? {
      var k, len := RepetitionOf(s, t), |s.base|;
      var i := IndexOf(k, len, Holder(s.base, s.start, end, t - k * s.period.value));
      assert Offset(s, i) == s.period.value * k;
    }
  }

  /** An instant is in the ideal interval of one index only. */
  lemma HolderIndexUnique(s: IntervalSequence, end: int, i: nat, t: int)
    requires WellFormed(s) && Gapless(s, end) && s.start <= t && (s.period.None? ==> t < end)
    requires Exists(s, i) && IdealStart(s, i) <= t && IdealEnd(s, i).Some? && t < IdealEnd(s, i).value
    ensures i == HolderIndex(s, end, t)
  {
    var h := HolderIndex(s, end, t);
    HolderIndexHolds(s, end, t);
    if s.period.Some? {
      var p, len := s.period.value, |s.base|;
      SameRepetition(s, i, t);
      SameRepetition(s, h, t);
      DivBracket(i, len);
      DivBracket(h, len);
    }
    var a, b := Position(s, i), Position(s, h);
    if a < b {
      ChainOrdered(s.base, s.start, end, a, b);
    } else if b < a {
      ChainOrdered(s.base, s.start, end, b, a);
    }
  }

  lemma SameRepetition(s: IntervalSequence, i: nat, t: int)
    requires WellFormed(s) && s.period.Some? && Exists(s, i) && s.start <= t
    requires IdealStart(s, i) <= t && IdealEnd(s, i).Some? && t < IdealEnd(s, i).value
    ensures i / |s.base| == RepetitionOf(s, t)
  {
    var p, k := s.period.value, i / |s.base|;
    assert Offset(s, i) == p * k == k * p;
    DivUnique(t - s.start, p, k);
  }

  /** Whether index `i` has an interval holding `t`. */
  predicate Covers(s: IntervalSequence, i: nat, t: Timestamp) {
    Defined(s, i) && IntervalAt(s, i).Contains(t)
  }

  /** Whether the event places anything at `t`: from its start to its limit. */
  predicate Within(s: IntervalSequence, end: int, t: Timestamp) {
    && s.start <= t
    && (s.period.None? ==> t < end)
    && (s.lifespanEnd.Some? ==> t < s.lifespanEnd.value)
  }

  /**
   No instant is covered twice. An instant is covered exactly when it lies between the start and the
   limit and the one interval due there still ends within the representable range.
   */
  lemma GaplessTiles(s: IntervalSequence, end: int, t: Timestamp)
    requires WellFormed(s) && Gapless(s, end)
    ensures forall i: nat, j: nat :: Covers(s, i, t) && Covers(s, j, t) ==> i == j
    ensures (exists i: nat :: Covers(s, i, t)) <==> Within(s, end, t) && Representable(s, HolderIndex(s, end, t))
    ensures Within(s, end, t) && Representable(s, HolderIndex(s, end, t)) ==> Covers(s, HolderIndex(s, end, t), t)
  {
    forall i: nat | Covers(s, i, t)
      ensures Within(s, end, t) && i == HolderIndex(s, end, t) && Representable(s, i)
    {
      GetMeaning(s, i);
      OffsetNonNegative(s, i);
      assert s.base[Position(s, i)].end.Some?;
      assert IdealEnd(s, i).Some? && t < IdealEnd(s, i).value;
      if s.period.None? {
        if Position(s, i) < |s.base| - 1 { ChainOrdered(s.base, s.start, end, Position(s, i), |s.base| - 1); }
      }
      HolderIndexUnique(s, end, i, t);
    }
    if Within(s, end, t) && Representable(s, HolderIndex(s, end, t)) {
      HolderIndexHolds(s, end, t);
      GetMeaning(s, HolderIndex(s, end, t));
      assert Covers(s, HolderIndex(s, end, t), t);
    }
  }

  /** The limit that `event.duration` sets: one period, for ever, or the lifespan's end. */
  ghost predicate BeforeLimit(event: EventRequest, s: IntervalSequence, t: Timestamp)
    requires s.base != [] && !AnyOpenEnded(s.base)
  {
    match event.duration
    case None => t < MaxEnd(s.base)
    case Some(Forever) => true
    case Some(Finite(_)) => s.lifespanEnd.Some? && t < s.lifespanEnd.value
  }

  lemma ChainEnd(ivs: seq<ExpandedInterval>, a: int, b: int)
    requires Chain(ivs, a, b)
    ensures !AnyOpenEnded(ivs) && MaxEnd(ivs) == b && MinStart(ivs) == a && a <= b
  {
    forall i | 0 <= i < |ivs| ensures a <= ivs[i].start && ivs[i].end.value <= b {
      if 0 < i { ChainOrdered(ivs, a, b, 0, i); }
      if i < |ivs| - 1 { ChainOrdered(ivs, a, b, i, |ivs| - 1); }
    }
  }

  /** The sequence of an inherited schedule starts at the event's start and is gapless. */
  lemma InheritedIsGapless(x: Expander, event: EventRequest)
    requires Inherited(x, event) && Sequence(x, event).Ok?
    ensures
      var s := Sequence(x, event).value;
      && WellFormed(s) && s.start == Resolve(event.intervalPeriod.value.start.value, x.now)
      && s.base != [] && !AnyOpenEnded(s.base) && Gapless(s, MaxEnd(s.base))
      && (event.duration.None? ==> s.period.None? && s.lifespanEnd.None?)
      && (event.duration == Some(Forever) ==> s.period.Some? && s.lifespanEnd.None?)
      && (event.duration.Some? && event.duration.value.Finite? ==>
            s.lifespanEnd.Some? && (s.period.None? ==> s.lifespanEnd.value <= MaxEnd(s.base)))
  {
    SequenceWellFormed(x, event);
    var start := Resolve(event.intervalPeriod.value.start.value, x.now);
    PassChain(x, event, 0, start, [], start);
    var base := Expand(x, event).value;
    var e: Timestamp :| start < e && Chain(base, start, e);
    ChainEnd(base, start, e);
  }

  /**
   Infinite tiling. Whatever subdivision, looping and truncation do, an instant lies in at most one
   interval of the sequence; and it lies in one exactly when it is at or after the event's start,
   before the limit `event.duration` sets, and the interval due there ends within the range of time.
   */
  lemma InheritedTilesTime(x: Expander, event: EventRequest, s: IntervalSequence, t: Timestamp)
    requires Inherited(x, event) && Sequence(x, event) == Ok(s)
    ensures WellFormed(s) && s.base != [] && !AnyOpenEnded(s.base) && Gapless(s, MaxEnd(s.base))
    ensures forall i: nat, j: nat :: Covers(s, i, t) && Covers(s, j, t) ==> i == j
    ensures InsideEvent(x, event, s, t) ==> Within(s, MaxEnd(s.base), t)
    ensures (exists i: nat :: Covers(s, i, t)) <==>
      InsideEvent(x, event, s, t) && (s.period.Some? ==> Representable(s, HolderIndex(s, MaxEnd(s.base), t)))
  {
    InheritedIsGapless(x, event);
    var end := MaxEnd(s.base);
    GaplessTiles(s, end, t);
    assert InsideEvent(x, event, s, t) <==> Within(s, end, t);
    if Within(s, end, t) && s.period.None? {
      assert Offset(s, HolderIndex(s, end, t)) == 0;
    }
  }

  /** From the event's own start up to its limit. */
  ghost predicate InsideEvent(x: Expander, event: EventRequest, s: IntervalSequence, t: Timestamp)
    requires Inherited(x, event) && s.base != [] && !AnyOpenEnded(s.base)
  {
    Resolve(event.intervalPeriod.value.start.value, x.now) <= t && BeforeLimit(event, s, t)
  }
}
