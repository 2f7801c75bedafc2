/** Where an expansion places each declared interval, said in the event's own fields. */
module IntervalInheritance {
  import opened Wrappers
  import opened Arithmetic
  import opened Model
  import opened Intervals
  import opened IntervalTiling

  // ------------------------------------------------------------------------
  // One interval's pieces
  // ------------------------------------------------------------------------

  lemma {:induction false} CountMeaning(x: Expander, payloads: seq<ValuesMap>)
    ensures var n := MaxSubintervals(x, payloads);
      && n >= 1
      && (forall p :: p in payloads && x.scalar(p.valueType) ==> |p.values| <= n)
      && (n > 1 ==> exists p :: p in payloads && x.scalar(p.valueType) && |p.values| == n)
  {
    if payloads != [] {
      var init, last := payloads[..|payloads| - 1], payloads[|payloads| - 1];
      CountMeaning(x, init);
      assert payloads == init + [last];
    }
  }

  /** Piece `k` of `n` carries its own value of each scalar payload with just `n` values, and the others whole. */
  predicate CarriesShare(x: Expander, iv: Interval, piece: ExpandedInterval, k: nat, n: nat)
    requires k < n
  {
    && |piece.payloads| == |iv.payloads|
    && forall q :: 0 <= q < |iv.payloads| ==>
         var p := iv.payloads[q];
         if n > 1 && x.scalar(p.valueType) && |p.values| == n
           then piece.payloads[q] == ValuesMap(p.valueType, [p.values[k]])
           else piece.payloads[q] == p
  }

  /** The number of pieces is that of the longest scalar payload, where there is an end to divide up to. */
  ghost predicate CountIsRight(x: Expander, iv: Interval, n: nat, end: Option<Timestamp>) {
    && n >= 1
    && (!x.subdivide || end.None? ==> n == 1)
    && (x.subdivide && end.Some? ==> forall p :: p in iv.payloads && x.scalar(p.valueType) ==> |p.values| <= n)
    && (n > 1 ==> exists p :: p in iv.payloads && x.scalar(p.valueType) && |p.values| == n)
  }

  predicate IsPiece(iv: Interval, piece: ExpandedInterval, i: nat, k: nat, randomize: Option<Duration>) {
    && piece.id == iv.id && piece.index == i && piece.occurrence == 0 && piece.subinterval == k
    && piece.randomizeStart == randomize
  }

  ghost predicate ArePieces(x: Expander, iv: Interval, i: nat, ps: seq<ExpandedInterval>, start: Timestamp,
      end: Option<Timestamp>, randomize: Option<Duration>)
  {
    && CountIsRight(x, iv, |ps|, end)
    && ps[0].start == start && ps[|ps| - 1].end == end
    && (forall k :: 0 <= k < |ps| ==> IsPiece(iv, ps[k], i, k, randomize))
    && (forall k :: 0 <= k < |ps| ==> CarriesShare(x, iv, ps[k], k, |ps|))
  }

  lemma PieceMeaning(x: Expander, iv: Interval, i: nat, start: Timestamp, end: Timestamp, randomize: Option<Duration>,
      k: nat, n: nat)
    requires k < n && n > 1
    ensures IsPiece(iv, Piece(x, iv, i, start, end, randomize, k, n), i, k, randomize)
    ensures CarriesShare(x, iv, Piece(x, iv, i, start, end, randomize, k, n), k, n)
  {}

  lemma UndividedMeaning(x: Expander, iv: Interval, i: nat, start: Timestamp, end: Option<Timestamp>,
      randomize: Option<Duration>)
    requires !x.subdivide || end.None? || MaxSubintervals(x, iv.payloads) == 1
    ensures ArePieces(x, iv, i, [Undivided(iv, i, start, end, randomize)], start, end, randomize)
  {
    CountMeaning(x, iv.payloads);
    var one := Undivided(iv, i, start, end, randomize);
    assert CarriesShare(x, iv, one, 0, 1) && IsPiece(iv, one, i, 0, randomize);
  }

  lemma DividedMeaning(x: Expander, iv: Interval, i: nat, start: Timestamp, end: Timestamp,
      randomize: Option<Duration>, ps: seq<ExpandedInterval>)
    requires x.subdivide && MaxSubintervals(x, iv.payloads) > 1 && |ps| == MaxSubintervals(x, iv.payloads)
    requires forall k :: 0 <= k < |ps| ==> ps[k] == Piece(x, iv, i, start, end, randomize, k, |ps|)
    ensures ArePieces(x, iv, i, ps, start, Some(end), randomize)
  {
    CountMeaning(x, iv.payloads);
    BoundaryEnds(start, end, |ps|);
    forall k | 0 <= k < |ps| ensures IsPiece(iv, ps[k], i, k, randomize) && CarriesShare(x, iv, ps[k], k, |ps|) {
      PieceMeaning(x, iv, i, start, end, randomize, k, |ps|);
    }
  }

  lemma PiecesMeaning(x: Expander, iv: Interval, i: nat, start: Timestamp, end: Option<Timestamp>,
      randomize: Option<Duration>)
    requires Pieces(x, iv, i, start, end, randomize).Ok?
    ensures ArePieces(x, iv, i, Pieces(x, iv, i, start, end, randomize).value, start, end, randomize)
  {
    var ps := Pieces(x, iv, i, start, end, randomize).value;
    if x.subdivide && MaxSubintervals(x, iv.payloads) > 1 && end.Some? {
      DividedMeaning(x, iv, i, start, end.value, randomize, ps);
    } else {
      CountMeaning(x, iv.payloads);
      UndividedMeaning(x, iv, i, start, end, randomize);
    }
  }

  // ------------------------------------------------------------------------
  // What an interval states, and what it is left to inherit
  // ------------------------------------------------------------------------

  predicate StatesStart(iv: Interval) {
    iv.intervalPeriod.Some? && iv.intervalPeriod.value.start.Some?
  }

  predicate StatesDuration(p: Option<IntervalPeriod>) {
    p.Some? && p.value.duration.Some?
  }

  predicate StatesRandomize(p: Option<IntervalPeriod>) {
    p.Some? && p.value.randomizeStart.Some?
  }

  /** The instant a stated start means: itself, or the anchor for "now". */
  predicate Means(x: Expander, s: StartTime, t: Timestamp) {
    (s == Now ==> t == x.now) && (s.At? ==> t == s.instant)
  }

  /** From `start` for a duration: up to where the calendar puts its end, or for ever. */
  predicate LastsFor(x: Expander, d: Duration, start: Timestamp, end: Option<Timestamp>) {
    (d == Forever ==> end.None?) && (d.Finite? ==> end.Some? && x.calendar(d.span, start) == end)
  }

  /**
   An interval's own start counts. Without one the first starts with the event, and any other where the one
   before it ends.
   */
  ghost predicate StartsRight(x: Expander, event: EventRequest, i: nat, start: Timestamp, before: Option<Timestamp>)
    requires i < |Declared(event)|
  {
    var iv := Declared(event)[i];
    && (StatesStart(iv) ==> Means(x, iv.intervalPeriod.value.start.value, start))
    && (!StatesStart(iv) && i == 0 ==>
          && event.intervalPeriod.Some? && event.intervalPeriod.value.start.Some?
          && Means(x, event.intervalPeriod.value.start.value, start))
    && (!StatesStart(iv) && i > 0 ==> before == Some(start))
  }

  /**
   An interval's own duration counts, else the event's default. With neither it runs up to the start its
   successor states, and the last one for ever.
   */
  ghost predicate EndsRight(x: Expander, event: EventRequest, i: nat, start: Timestamp, end: Option<Timestamp>)
    requires i < |Declared(event)|
  {
    var own, default := Declared(event)[i].intervalPeriod, event.intervalPeriod;
    && (StatesDuration(own) ==> LastsFor(x, own.value.duration.value, start, end))
    && (!StatesDuration(own) && StatesDuration(default) ==> LastsFor(x, default.value.duration.value, start, end))
    && (!StatesDuration(own) && !StatesDuration(default) ==>
          if i == |Declared(event)| - 1 then end.None?
          else
            && StatesStart(Declared(event)[i + 1]) && end.Some?
            && Means(x, Declared(event)[i + 1].intervalPeriod.value.start.value, end.value))
  }

  /** An interval's own randomizeStart counts, else the event's default, else there is none. */
  ghost predicate RandomizesRight(event: EventRequest, i: nat, randomize: Option<Duration>)
    requires i < |Declared(event)|
  {
    var own, default := Declared(event)[i].intervalPeriod, event.intervalPeriod;
    && (StatesRandomize(own) ==> randomize == own.value.randomizeStart)
    && (!StatesRandomize(own) && StatesRandomize(default) ==> randomize == default.value.randomizeStart)
    && (!StatesRandomize(own) && !StatesRandomize(default) ==> randomize.None?)
  }

  /** Positions `[lo, hi)` of the output are interval `i`, placed as the event says. */
  ghost predicate PlacedAt(x: Expander, event: EventRequest, out: seq<ExpandedInterval>, i: nat, lo: nat, hi: nat) {
    && i < |Declared(event)| && lo < hi <= |out| && (lo == 0 <==> i == 0)
    && ArePieces(x, Declared(event)[i], i, out[lo..hi], out[lo].start, out[hi - 1].end, out[lo].randomizeStart)
    && StartsRight(x, event, i, out[lo].start, if lo > 0 then out[lo - 1].end else None)
    && EndsRight(x, event, i, out[lo].start, out[hi - 1].end)
    && RandomizesRight(event, i, out[lo].randomizeStart)
  }

  // ------------------------------------------------------------------------
  // The pass
  // ------------------------------------------------------------------------

  /** The output so far, cut up at `cuts` into the intervals before `index`. */
  ghost predicate CutUp(x: Expander, event: EventRequest, index: nat, out: seq<ExpandedInterval>, cuts: seq<nat>) {
    && |cuts| == index + 1 && cuts[0] == 0 && cuts[index] == |out|
    && forall i: nat :: i < index ==> PlacedAt(x, event, out, i, cuts[i], cuts[i + 1])
  }

  lemma StaysPlaced(x: Expander, event: EventRequest, out: seq<ExpandedInterval>, more: seq<ExpandedInterval>, i: nat,
      lo: nat, hi: nat)
    requires PlacedAt(x, event, out, i, lo, hi)
    ensures PlacedAt(x, event, out + more, i, lo, hi)
  {
    assert (out + more)[lo..hi] == out[lo..hi];
  }

  /** Where an interval without its own start would begin. */
  function CursorAfter(x: Expander, event: EventRequest, index: nat, out: seq<ExpandedInterval>): Option<Timestamp> {
    if index == 0 then FirstCursor(x, event.intervalPeriod)
    else if out == [] then None else out[|out| - 1].end
  }

  lemma StartOfIsRight(x: Expander, event: EventRequest, index: nat, out: seq<ExpandedInterval>)
    requires index < |Declared(event)| && (out == [] <==> index == 0)
    requires StartOf(x, Declared(event)[index], index, CursorAfter(x, event, index, out)).Ok?
    ensures StartsRight(x, event, index,
      StartOf(x, Declared(event)[index], index, CursorAfter(x, event, index, out)).value,
      if |out| > 0 then out[|out| - 1].end else None)
  {}

  lemma EndOfIsRight(x: Expander, event: EventRequest, index: nat, start: Timestamp)
    requires index < |Declared(event)|
    requires EndOf(x, event.intervalPeriod, Declared(event), index, start).Ok?
    ensures EndsRight(x, event, index, start, EndOf(x, event.intervalPeriod, Declared(event), index, start).value)
  {}

  /** The pieces of one interval take their place after the output so far. */
  lemma PiecesArePlaced(x: Expander, event: EventRequest, index: nat, out: seq<ExpandedInterval>,
      ps: seq<ExpandedInterval>, start: Timestamp, end: Option<Timestamp>, randomize: Option<Duration>)
    requires index < |Declared(event)| && (out == [] <==> index == 0)
    requires ArePieces(x, Declared(event)[index], index, ps, start, end, randomize)
    requires StartsRight(x, event, index, start, if |out| > 0 then out[|out| - 1].end else None)
    requires EndsRight(x, event, index, start, end) && RandomizesRight(event, index, randomize)
    ensures PlacedAt(x, event, out + ps, index, |out|, |out + ps|)
  {
    assert IsPiece(Declared(event)[index], ps[0], index, 0, randomize);
    assert (out + ps)[|out|..|out + ps|] == ps;
  }

  lemma NextIsPlaced(x: Expander, event: EventRequest, index: nat, out: seq<ExpandedInterval>)
      returns (ps: seq<ExpandedInterval>)
    requires index < |Declared(event)| && (out == [] <==> index == 0)
    requires ExpandFrom(x, event.intervalPeriod, Declared(event), index, CursorAfter(x, event, index, out), out).Ok?
    ensures ps != [] && PlacedAt(x, event, out + ps, index, |out|, |out + ps|) && |out + ps| <= x.limit
    ensures ExpandFrom(x, event.intervalPeriod, Declared(event), index, CursorAfter(x, event, index, out), out)
      == ExpandFrom(x, event.intervalPeriod, Declared(event), index + 1, ps[|ps| - 1].end, out + ps)
  {
    var default, iv := event.intervalPeriod, Declared(event)[index];
    var start := StartOf(x, iv, index, CursorAfter(x, event, index, out)).value;
    var end := EndOf(x, default, Declared(event), index, start).value;
    var randomize := RandomizeOf(default, iv);
    ps := Pieces(x, iv, index, start, end, randomize).value;
    StartOfIsRight(x, event, index, out);
    EndOfIsRight(x, event, index, start);
    PiecesMeaning(x, iv, index, start, end, randomize);
    PiecesArePlaced(x, event, index, out, ps, start, end, randomize);
  }

  lemma CutUpNext(x: Expander, event: EventRequest, index: nat, out: seq<ExpandedInterval>, cuts: seq<nat>,
      ps: seq<ExpandedInterval>)
    requires CutUp(x, event, index, out, cuts) && PlacedAt(x, event, out + ps, index, |out|, |out + ps|)
    ensures CutUp(x, event, index + 1, out + ps, cuts + [|out + ps|])
  {
    var cuts' := cuts + [|out + ps|];
    forall i: nat | i < index + 1 ensures PlacedAt(x, event, out + ps, i, cuts'[i], cuts'[i + 1]) {
      if i < index { StaysPlaced(x, event, out, ps, i, cuts[i], cuts[i + 1]); }
    }
  }

  lemma CutUpIsNotEmpty(x: Expander, event: EventRequest, index: nat, out: seq<ExpandedInterval>, cuts: seq<nat>)
    requires CutUp(x, event, index, out, cuts)
    ensures out == [] <==> index == 0
  {
    assert index > 0 ==> PlacedAt(x, event, out, index - 1, cuts[index - 1], cuts[index]);
  }

  lemma {:induction false} PassIsCutUp(x: Expander, event: EventRequest, index: nat, out: seq<ExpandedInterval>,
      cuts: seq<nat>) returns (all: seq<nat>)
    requires index <= |Declared(event)| && CutUp(x, event, index, out, cuts) && |out| <= x.limit
    requires ExpandFrom(x, event.intervalPeriod, Declared(event), index, CursorAfter(x, event, index, out), out).Ok?
    ensures var r :=
        ExpandFrom(x, event.intervalPeriod, Declared(event), index, CursorAfter(x, event, index, out), out).value;
      CutUp(x, event, |Declared(event)|, r, all) && |r| <= x.limit
    decreases |Declared(event)| - index
  {
    if index == |Declared(event)| {
      all := cuts;
    } else {
      CutUpIsNotEmpty(x, event, index, out, cuts);
      var ps := NextIsPlaced(x, event, index, out);
      CutUpNext(x, event, index, out, cuts, ps);
      all := PassIsCutUp(x, event, index + 1, out + ps, cuts + [|out + ps|]);
    }
  }

  /** Cuts ascend, so what lies before one belongs to an earlier interval and what lies after to a later one. */
  lemma {:induction false} CutsSeparate(x: Expander, event: EventRequest, out: seq<ExpandedInterval>, n: nat,
      cuts: seq<nat>, i: nat, k: nat)
    requires CutUp(x, event, n, out, cuts) && i < n && k < |out|
    ensures PlacedAt(x, event, out, i, cuts[i], cuts[i + 1])
    ensures out[k].index == i <==> cuts[i] <= k < cuts[i + 1]
  {
    var j := PieceOf(x, event, out, n, cuts, n, k);
    assert PlacedAt(x, event, out, j, cuts[j], cuts[j + 1]);
    assert out[cuts[j]..cuts[j + 1]][k - cuts[j]] == out[k];
    assert PlacedAt(x, event, out, i, cuts[i], cuts[i + 1]);
    if cuts[i] <= k < cuts[i + 1] {
      assert out[cuts[i]..cuts[i + 1]][k - cuts[i]] == out[k];
    }
  }

  lemma {:induction false} PieceOf(x: Expander, event: EventRequest, out: seq<ExpandedInterval>, n: nat, cuts: seq<nat>,
      m: nat, k: nat) returns (j: nat)
    requires CutUp(x, event, n, out, cuts) && m <= n && k < cuts[m]
    ensures j < m && cuts[j] <= k < cuts[j + 1]
    decreases m
  {
    if m > 0 && cuts[m - 1] <= k {
      j := m - 1;
    } else {
      j := PieceOf(x, event, out, n, cuts, m - 1, k);
    }
  }

  /**
   Each declared interval takes up one stretch of the expansion, and nothing else there carries its
   position. It is placed by the event's fields alone: its own start, duration and randomizeStart where it
   states them, the event's where it does not.
   */
  lemma ExpandPlaces(x: Expander, event: EventRequest, i: nat) returns (lo: nat, hi: nat)
    requires Expand(x, event).Ok? && i < |Declared(event)|
    ensures var out := Expand(x, event).value;
      && PlacedAt(x, event, out, i, lo, hi) && |out| <= x.limit
      && forall k :: 0 <= k < |out| ==> (out[k].index == i <==> lo <= k < hi)
  {
    var out := Expand(x, event).value;
    var cuts := PassIsCutUp(x, event, 0, [], [0]);
    lo, hi := cuts[i], cuts[i + 1];
    forall k | 0 <= k < |out| ensures out[k].index == i <==> lo <= k < hi {
      CutsSeparate(x, event, out, |Declared(event)|, cuts, i, k);
    }
    assert PlacedAt(x, event, out, i, cuts[i], cuts[i + 1]);
  }

  /** Its own length beats the event's: an interval of a quarter of an hour in an hourly event is over in one. */
  lemma OwnDurationCounts(x: Expander, event: EventRequest, i: nat, own: Span) returns (lo: nat, hi: nat)
    requires Expand(x, event).Ok? && i < |Declared(event)|
    requires Declared(event)[i].intervalPeriod.Some?
    requires Declared(event)[i].intervalPeriod.value.duration == Some(Finite(own))
    ensures lo < hi <= |Expand(x, event).value|
    ensures forall k :: 0 <= k < |Expand(x, event).value| ==> (Expand(x, event).value[k].index == i <==> lo <= k < hi)
    ensures Expand(x, event).value[hi - 1].end == x.calendar(own, Expand(x, event).value[lo].start)
  {
    lo, hi := ExpandPlaces(x, event, i);
  }

  /** Stating none, it has the event's. */
  lemma DefaultDurationCounts(x: Expander, event: EventRequest, i: nat, default: Span) returns (lo: nat, hi: nat)
    requires Expand(x, event).Ok? && i < |Declared(event)|
    requires Declared(event)[i].intervalPeriod.Some? ==> Declared(event)[i].intervalPeriod.value.duration.None?
    requires event.intervalPeriod.Some? && event.intervalPeriod.value.duration == Some(Finite(default))
    ensures lo < hi <= |Expand(x, event).value|
    ensures forall k :: 0 <= k < |Expand(x, event).value| ==> (Expand(x, event).value[k].index == i <==> lo <= k < hi)
    ensures Expand(x, event).value[hi - 1].end == x.calendar(default, Expand(x, event).value[lo].start)
  {
    lo, hi := ExpandPlaces(x, event, i);
  }

  // ------------------------------------------------------------------------
  // When an expansion fails
  // ------------------------------------------------------------------------

  /** The interval's own duration, or the event's when it states none, is this one. */
  predicate HasDuration(own: Option<IntervalPeriod>, default: Option<IntervalPeriod>, d: Duration) {
    || (own.Some? && own.value.duration == Some(d))
    || (!StatesDuration(own) && default.Some? && default.value.duration == Some(d))
  }

  /** What an error says of the event. */
  ghost predicate IsToBlame(x: Expander, event: EventRequest, e: ExpandError) {
    var intervals, default := Declared(event), event.intervalPeriod;
    match e
    case NoStart(i) =>
      && i < |intervals| && !StatesStart(intervals[i])
      && (i == 0 ==> default.None? || default.value.start.None?)
      && (i > 0 ==> HasDuration(intervals[i - 1].intervalPeriod, default, Forever))
    case NoDuration(i) =>
      && i + 1 < |intervals| && !StatesStart(intervals[i + 1])
      && !StatesDuration(intervals[i].intervalPeriod) && !StatesDuration(default)
    case OutOfRange(i) =>
      i < |intervals| && exists span, t: Timestamp ::
        HasDuration(intervals[i].intervalPeriod, default, Finite(span)) && x.calendar(span, t).None?
    case TooManyIntervals(limit) => limit == x.limit
  }

  lemma EndOfFails(x: Expander, event: EventRequest, i: nat, start: Timestamp)
    requires i < |Declared(event)|
    ensures var end := EndOf(x, event.intervalPeriod, Declared(event), i, start);
      && (end.Err? ==> IsToBlame(x, event, end.error))
      && (end == Ok(None) && i + 1 < |Declared(event)| ==>
            HasDuration(Declared(event)[i].intervalPeriod, event.intervalPeriod, Forever))
  {
    var own, default := Declared(event)[i].intervalPeriod, event.intervalPeriod;
    if StatesDuration(own) && own.value.duration.value.Finite? {
      assert HasDuration(own, default, Finite(own.value.duration.value.span));
    } else if !StatesDuration(own) && StatesDuration(default) && default.value.duration.value.Finite? {
      assert HasDuration(own, default, Finite(default.value.duration.value.span));
    }
  }

  lemma {:induction false} PassFails(x: Expander, event: EventRequest, index: nat, cursor: Option<Timestamp>,
      out: seq<ExpandedInterval>)
    requires index <= |Declared(event)|
    requires index == 0 ==> cursor == FirstCursor(x, event.intervalPeriod)
    requires 0 < index < |Declared(event)| && cursor.None? ==>
      HasDuration(Declared(event)[index - 1].intervalPeriod, event.intervalPeriod, Forever)
    requires ExpandFrom(x, event.intervalPeriod, Declared(event), index, cursor, out).Err?
    ensures IsToBlame(x, event, ExpandFrom(x, event.intervalPeriod, Declared(event), index, cursor, out).error)
    decreases |Declared(event)| - index
  {
    var default, iv := event.intervalPeriod, Declared(event)[index];
    var start := StartOf(x, iv, index, cursor);
    if start.Ok? {
      EndOfFails(x, event, index, start.value);
      var end := EndOf(x, default, Declared(event), index, start.value);
      if end.Ok? {
        var ps := Pieces(x, iv, index, start.value, end.value, RandomizeOf(default, iv));
        if ps.Ok? && |out + ps.value| <= x.limit {
          PassFails(x, event, index + 1, end.value, out + ps.value);
        }
      }
    }
  }

  /** An expansion fails only for what its error says. */
  lemma ExpandFails(x: Expander, event: EventRequest)
    requires Expand(x, event).Err?
    ensures IsToBlame(x, event, Expand(x, event).error)
  {
    PassFails(x, event, 0, FirstCursor(x, event.intervalPeriod), []);
  }

  // ------------------------------------------------------------------------
  // What the limit decides
  // ------------------------------------------------------------------------

  /** No scalar payload alone has more values than the limit; a single one is let through. */
  predicate CountFits(x: Expander, iv: Interval) {
    x.subdivide ==> forall p :: p in iv.payloads && x.scalar(p.valueType) ==> |p.values| <= Max(x.limit, 1)
  }

  lemma {:induction false} SameCount(x: Expander, more: nat, payloads: seq<ValuesMap>)
    ensures MaxSubintervals(x.(limit := more), payloads) == MaxSubintervals(x, payloads)
  {
    if payloads != [] {
      SameCount(x, more, payloads[..|payloads| - 1]);
    }
  }

  lemma SamePieces(x: Expander, more: nat, iv: Interval, i: nat, start: Timestamp, end: Option<Timestamp>,
      randomize: Option<Duration>)
    requires x.limit <= more && Pieces(x.(limit := more), iv, i, start, end, randomize).Ok?
    ensures var ps := Pieces(x, iv, i, start, end, randomize);
      && (ps.Ok? <==> CountFits(x, iv))
      && (ps.Ok? ==> ps == Pieces(x.(limit := more), iv, i, start, end, randomize))
      && (ps.Err? ==> ps.error == TooManyIntervals(x.limit))
  {
    var x' := x.(limit := more);
    SameCount(x, more, iv.payloads);
    CountMeaning(x, iv.payloads);
    var n := MaxSubintervals(x, iv.payloads);
    if x.subdivide && n > 1 && end.Some? {
      forall k | 0 <= k < n
        ensures Piece(x', iv, i, start, end.value, randomize, k, n)
          == Piece(x, iv, i, start, end.value, randomize, k, n)
      {
        assert PiecePayloads(x', iv.payloads, k, n) == PiecePayloads(x, iv.payloads, k, n);
      }
      if n <= x.limit {
        assert Pieces(x', iv, i, start, end, randomize).value == Pieces(x, iv, i, start, end, randomize).value;
      }
    }
  }

  lemma {:induction false} PassGrows(x: Expander, event: EventRequest, index: nat, cursor: Option<Timestamp>,
      out: seq<ExpandedInterval>)
    requires index <= |Declared(event)|
    requires ExpandFrom(x, event.intervalPeriod, Declared(event), index, cursor, out).Ok?
    ensures |out| <= |ExpandFrom(x, event.intervalPeriod, Declared(event), index, cursor, out).value|
    decreases |Declared(event)| - index
  {
    if index < |Declared(event)| {
      var iv := Declared(event)[index];
      var start := StartOf(x, iv, index, cursor).value;
      var end := EndOf(x, event.intervalPeriod, Declared(event), index, start).value;
      var ps := Pieces(x, iv, index, start, end, RandomizeOf(event.intervalPeriod, iv)).value;
      PassGrows(x, event, index + 1, end, out + ps);
    }
  }

  lemma {:induction false} PassLimit(x: Expander, more: nat, event: EventRequest, index: nat, cursor: Option<Timestamp>,
      out: seq<ExpandedInterval>)
    requires index <= |Declared(event)| && |out| <= x.limit <= more
    requires ExpandFrom(x.(limit := more), event.intervalPeriod, Declared(event), index, cursor, out).Ok?
    ensures
      var whole := ExpandFrom(x.(limit := more), event.intervalPeriod, Declared(event), index, cursor, out).value;
      var r := ExpandFrom(x, event.intervalPeriod, Declared(event), index, cursor, out);
      && (r.Ok? <==>
            |whole| <= x.limit && forall i :: index <= i < |Declared(event)| ==> CountFits(x, Declared(event)[i]))
      && (r.Ok? ==> r.value == whole) && (r.Err? ==> r.error == TooManyIntervals(x.limit))
    decreases |Declared(event)| - index
  {
    if index < |Declared(event)| {
      var x', default, iv := x.(limit := more), event.intervalPeriod, Declared(event)[index];
      var start := StartOf(x, iv, index, cursor).value;
      var end := EndOf(x, default, Declared(event), index, start).value;
      var ps := Pieces(x', iv, index, start, end, RandomizeOf(default, iv)).value;
      SamePieces(x, more, iv, index, start, end, RandomizeOf(default, iv));
      PassGrows(x', event, index + 1, end, out + ps);
      if CountFits(x, iv) && |out + ps| <= x.limit {
        PassLimit(x, more, event, index + 1, end, out + ps);
      }
    }
  }

  /**
   The limit changes no interval: an event that a higher limit lets through is let through unchanged
   exactly when the result and every payload that could be divided are within this one.
   */
  lemma LimitDecides(x: Expander, more: nat, event: EventRequest)
    requires x.limit <= more && Expand(x.(limit := more), event).Ok?
    ensures var whole, r := Expand(x.(limit := more), event).value, Expand(x, event);
      && (r.Ok? <==> |whole| <= x.limit && forall i :: 0 <= i < |Declared(event)| ==> CountFits(x, Declared(event)[i]))
      && (r.Ok? ==> r.value == whole) && (r.Err? ==> r.error == TooManyIntervals(x.limit))
  {
    PassLimit(x, more, event, 0, FirstCursor(x, event.intervalPeriod), []);
  }

  // ------------------------------------------------------------------------
  // The sequence and the event's own duration
  // ------------------------------------------------------------------------

  /** The event's own duration, from its first instant: an end the calendar gives, or none. */
  predicate LimitIsRight(x: Expander, event: EventRequest, s: IntervalSequence) {
    && (event.duration.None? || event.duration == Some(Forever) ==> s.lifespanEnd.None?)
    && (event.duration.Some? && event.duration.value.Finite? ==>
          s.lifespanEnd.Some? && s.lifespanEnd == x.calendar(event.duration.value.span, s.start))
  }

  /** The period states no start, or no duration that ends after it. */
  ghost predicate PlacesNothing(x: Expander, p: Option<IntervalPeriod>) {
    p.Some? && p.value.start.Some? && p.value.duration.Some? ==>
      p.value.duration.value.Finite? ==>
        forall t: Timestamp :: Means(x, p.value.start.value, t) ==>
          x.calendar(p.value.duration.value.span, t).Some? && x.calendar(p.value.duration.value.span, t).value <= t
  }

  /**
   Declared intervals repeat exactly when all of them end, after the first one starts, and the event lasts
   for ever or beyond the last end. Without any declared, an event that states a start and an end after it
   is one interval without payloads, repeating.
   */
  lemma SequenceFromFields(x: Expander, event: EventRequest)
    requires Sequence(x, event).Ok?
    ensures Expand(x, event).Ok?
    ensures var s, base := Sequence(x, event).value, Expand(x, event).value;
      && (base != [] ==>
            && s.base == base && !s.implied && LimitIsRight(x, event, s)
            && s.start == MinStart(base)
            && (s.period.Some? <==>
                  && !AnyOpenEnded(base) && MaxEnd(base) > MinStart(base) && event.duration.Some?
                  && (event.duration.value.Finite? ==>
                        s.lifespanEnd.Some? && s.lifespanEnd.value > MaxEnd(base)))
            && (s.period.Some? ==> s.period.value == MaxEnd(base) - MinStart(base)))
      && (base == [] ==>
            && s.base != [] ==>
              && s.implied && s.base == [ExpandedInterval(0, 0, 0, 0, s.start, s.base[0].end,
                                         event.intervalPeriod.value.randomizeStart, [])]
              && Means(x, event.intervalPeriod.value.start.value, s.start)
              && LastsFor(x, event.intervalPeriod.value.duration.value, s.start, s.base[0].end)
              && s.base[0].end.Some? && s.start < s.base[0].end.value
              && s.period == Some(s.base[0].end.value - s.start) && LimitIsRight(x, event, s))
      && (base == [] && s.base == [] ==> PlacesNothing(x, event.intervalPeriod))
  {
    SequenceWellFormed(x, event);
  }

  /**
   When an event is live: from its first instant up to where the calendar puts its own duration. Without one
   it is live to its last end, and for ever if an interval has none or the implied one repeats.
   */
  lemma ActiveWindowFromFields(x: Expander, event: EventRequest)
    requires ActiveWindow(x, event).Ok?
    ensures Sequence(x, event).Ok?
    ensures var s, w := Sequence(x, event).value, ActiveWindow(x, event).value;
      && (w.None? <==> s.base == [])
      && (w.Some? ==> w.value.0 == s.start)
      && (w.Some? && event.duration.Some? ==> LastsFor(x, event.duration.value, s.start, w.value.1))
      && (w.Some? && event.duration.None? && s.implied ==> w.value.1.None?)
      && (w.Some? && event.duration.None? && !s.implied ==>
            && (w.value.1.None? <==> AnyOpenEnded(s.base))
            && (w.value.1.Some? ==> w.value.1.value == MaxEnd(s.base)))
  {
    SequenceFromFields(x, event);
  }
}
