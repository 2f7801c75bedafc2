/** Resolving overlapping events into one schedule by priority. */
module Timelines {
  import opened Wrappers
  import opened Ordering
  import opened Model
  import opened Intervals

  datatype Segment = Segment(
    start: Timestamp,
    end: Option<Timestamp>,
    eventId: ObjectId,
    priority: Priority,
    intervalId: int,
    randomizeStart: Option<Duration>,
    payloads: seq<ValuesMap>)
  {
    predicate Contains(at: Timestamp) {
      start <= at && (end.Some? ==> at < end.value)
    }

    /** The end with "no end" read as the last instant. */
    function Close(): Timestamp {
      if end.Some? then end.value else MAX_TIME
    }
  }

  datatype Timeline = Timeline(
    segments: seq<Segment>,
    skipped: seq<(ObjectId, ExpandError)>,
    overlaps: seq<(ObjectId, ObjectId)>)
  {
    function At(when: Timestamp): Option<Segment> {
      FirstContaining(segments, when)
    }

    /** The least boundary after an instant. */
    function NextChange(after: Timestamp): Option<Timestamp> {
      LeastBoundary(segments, after)
    }
  }

  function FirstContaining(segments: seq<Segment>, when: Timestamp): Option<Segment> {
    if segments == [] then None
    else if segments[0].Contains(when) then Some(segments[0])
    else FirstContaining(segments[1..], when)
  }

  function Earlier(a: Option<Timestamp>, b: Option<Timestamp>): Option<Timestamp> {
    if a.None? then b else if b.None? then a else if a.value <= b.value then a else b
  }

  function After(t: Option<Timestamp>, after: Timestamp): Option<Timestamp> {
    if t.Some? && t.value > after then t else None
  }

  function LeastBoundary(segments: seq<Segment>, after: Timestamp): Option<Timestamp> {
    if segments == [] then None
    else
      var s := segments[0];
      Earlier(Earlier(After(Some(s.start), after), After(s.end, after)), LeastBoundary(segments[1..], after))
  }

  // ------------------------------------------------------------------------
  // Subtraction
  // ------------------------------------------------------------------------

  /** A half-open stretch that is still free. */
  datatype Stretch = Stretch(start: Timestamp, end: Timestamp)

  /** One stretch after one taken segment: nothing, a piece before it, a piece after it, or both. */
  function CutOne(p: Stretch, seg: Segment): seq<Stretch> {
    if seg.Close() <= p.start || seg.start >= p.end then [p]
    else
      (if seg.start > p.start then [Stretch(p.start, seg.start)] else [])
      + (if seg.Close() < p.end then [Stretch(seg.Close(), p.end)] else [])
  }

  function CutAll(ps: seq<Stretch>, seg: Segment): seq<Stretch> {
    if ps == [] then [] else CutAll(ps[..|ps| - 1], seg) + CutOne(ps[|ps| - 1], seg)
  }

  function Cut(ps: seq<Stretch>, taken: seq<Segment>): seq<Stretch> {
    if taken == [] then ps else CutAll(Cut(ps, taken[..|taken| - 1]), taken[|taken| - 1])
  }

  function NonEmpty(ps: seq<Stretch>): seq<Stretch> {
    if ps == [] then []
    else NonEmpty(ps[..|ps| - 1]) + if ps[|ps| - 1].start < ps[|ps| - 1].end then [ps[|ps| - 1]] else []
  }

  function Whole(iv: ExpandedInterval): Stretch {
    Stretch(iv.start, if iv.end.Some? then iv.end.value else MAX_TIME)
  }

  /** The free, non-empty parts of an interval. */
  function Free(iv: ExpandedInterval, taken: seq<Segment>): seq<Stretch> {
    NonEmpty(Cut([Whole(iv)], taken))
  }

  function Reopen(end: Timestamp): Option<Timestamp> {
    if end == MAX_TIME then None else Some(end)
  }

  lemma {:induction false} CutNothing(taken: seq<Segment>)
    ensures Cut([], taken) == []
  {
    if taken != [] {
      CutNothing(taken[..|taken| - 1]);
    }
  }

  /** The inner loop: every piece against one taken segment. */
  method CutPieces(pieces: seq<Stretch>, seg: Segment) returns (next: seq<Stretch>)
    ensures next == CutAll(pieces, seg)
  {
    next := [];
    for j := 0 to |pieces|
      invariant next == CutAll(pieces[..j], seg)
    {
      assert pieces[..j + 1][..j] == pieces[..j];
      var p := pieces[j];
      if seg.Close() <= p.start || seg.start >= p.end {
        next := next + [p];
        continue;
      }
      if seg.start > p.start {
        next := next + [Stretch(p.start, seg.start)];
      }
      if seg.Close() < p.end {
        next := next + [Stretch(seg.Close(), p.end)];
      }
    }
    assert pieces[..|pieces|] == pieces;
  }

  method DropEmpty(pieces: seq<Stretch>) returns (r: seq<Stretch>)
    ensures r == NonEmpty(pieces)
  {
    r := [];
    for j := 0 to |pieces|
      invariant r == NonEmpty(pieces[..j])
    {
      assert pieces[..j + 1][..j] == pieces[..j];
      if pieces[j].start < pieces[j].end { r := r + [pieces[j]]; }
    }
    assert pieces[..|pieces|] == pieces;
  }

  /** `subtract_covered`: the pieces are rebuilt once per taken segment, until none is left. */
  method SubtractCovered(iv: ExpandedInterval, taken: seq<Segment>) returns (free: seq<Stretch>)
    ensures free == Free(iv, taken)
  {
    var pieces := [Whole(iv)];
    var i := 0;
    while i < |taken|
      invariant i <= |taken|
      invariant pieces == Cut([Whole(iv)], taken[..i])
    {
      assert taken[..i + 1][..i] == taken[..i];
      pieces := CutPieces(pieces, taken[i]);
      i := i + 1;
      if pieces == [] { break; }
    }
    CutSuffix([Whole(iv)], taken, i);
    if i < |taken| {
      CutNothing(taken[i..]);
    } else {
      assert taken[i..] == [];
    }
    free := DropEmpty(pieces);
  }

  lemma {:induction false} CutSuffix(ps: seq<Stretch>, taken: seq<Segment>, i: nat)
    requires i <= |taken|
    ensures Cut(ps, taken) == Cut(Cut(ps, taken[..i]), taken[i..])
  {
    if i == |taken| {
      assert taken[..i] == taken;
    } else {
      var init := taken[..|taken| - 1];
      CutSuffix(ps, init, i);
      assert init[..i] == taken[..i] && init[i..] == taken[i..][..|taken[i..]| - 1];
    }
  }

  // ------------------------------------------------------------------------
  // Laying events down
  // ------------------------------------------------------------------------

  /** One event with the expander it is read against. */
  datatype Entry = Entry(id: ObjectId, event: EventRequest, expander: Expander)

  /** An event that contributes: its intervals in the window that carry payloads. */
  datatype Expanded = Expanded(id: ObjectId, priority: Priority, intervals: seq<ExpandedInterval>)

  /** Most important first, ties by id. */
  predicate KeyLeq(p: Priority, a: ObjectId, q: Priority, b: ObjectId) {
    PriorityLeq(p, q) && (p == q ==> LexLeq(a, b))
  }

  const BY_KEY: (Expanded, Expanded) -> bool := (a: Expanded, b: Expanded) => KeyLeq(a.priority, a.id, b.priority, b.id)

  const BY_START: (Segment, Segment) -> bool := (a: Segment, b: Segment) => a.start <= b.start

  /** Intervals without payloads anchor reports and dispatch nothing. */
  function Dispatching(ivs: seq<ExpandedInterval>): seq<ExpandedInterval> {
    if ivs == [] then []
    else if ivs[0].payloads != [] then [ivs[0]] + Dispatching(ivs[1..])
    else Dispatching(ivs[1..])
  }

  function ExpandOne(e: Entry, from: Timestamp, to: Timestamp): seq<Expanded> {
    match Window(e.expander, e.event, from, to)
    case Err(_) => []
    case Ok(ivs) => if Dispatching(ivs) == [] then [] else [Expanded(e.id, e.event.priority, Dispatching(ivs))]
  }

  function ExpandAll(es: seq<Entry>, from: Timestamp, to: Timestamp): seq<Expanded> {
    if es == [] then [] else ExpandAll(es[..|es| - 1], from, to) + ExpandOne(es[|es| - 1], from, to)
  }

  function Skipped(es: seq<Entry>, from: Timestamp, to: Timestamp): seq<(ObjectId, ExpandError)> {
    if es == [] then []
    else
      var e := es[|es| - 1];
      Skipped(es[..|es| - 1], from, to)
      + match Window(e.expander, e.event, from, to) case Err(why) => [(e.id, why)] case Ok(_) => []
  }

  function MakeSegment(id: ObjectId, priority: Priority, iv: ExpandedInterval, p: Stretch): Segment {
    Segment(p.start, Reopen(p.end), id, priority, iv.id, iv.randomizeStart, iv.payloads)
  }

  function MakeSegments(id: ObjectId, priority: Priority, iv: ExpandedInterval, ps: seq<Stretch>): seq<Segment> {
    seq(|ps|, i requires 0 <= i < |ps| => MakeSegment(id, priority, iv, ps[i]))
  }

  /** One interval claims whatever the segments before it left free. */
  function LayOne(segments: seq<Segment>, id: ObjectId, priority: Priority, iv: ExpandedInterval): seq<Segment> {
    segments + MakeSegments(id, priority, iv, Free(iv, segments))
  }

  function LayIntervals(segments: seq<Segment>, id: ObjectId, priority: Priority, ivs: seq<ExpandedInterval>)
      : seq<Segment>
  {
    if ivs == [] then segments
    else LayOne(LayIntervals(segments, id, priority, ivs[..|ivs| - 1]), id, priority, ivs[|ivs| - 1])
  }

  function LayEvents(events: seq<Expanded>): seq<Segment> {
    if events == [] then []
    else
      var e := events[|events| - 1];
      LayIntervals(LayEvents(events[..|events| - 1]), e.id, e.priority, e.intervals)
  }

  function Segments(es: seq<Entry>, from: Timestamp, to: Timestamp): seq<Segment> {
    Sort(LayEvents(Sort(ExpandAll(es, from, to), BY_KEY)), BY_START)
  }

  predicate OverlapsWindow(seg: Segment, iv: ExpandedInterval) {
    seg.start < Whole(iv).end && iv.start < seg.Close()
  }

  /** An earlier event of equal priority holds part of the interval. */
  predicate Clashes(seg: Segment, id: ObjectId, priority: Priority, iv: ExpandedInterval) {
    OverlapsWindow(seg, iv) && seg.priority == priority && seg.eventId != id
  }

  function FirstClash(segments: seq<Segment>, id: ObjectId, priority: Priority, iv: ExpandedInterval)
      : (r: Option<ObjectId>)
    ensures r.Some? ==> r.value != id
  {
    if segments == [] then None
    else if Clashes(segments[0], id, priority, iv) then Some(segments[0].eventId)
    else FirstClash(segments[1..], id, priority, iv)
  }

  type Clashing = seq<(ObjectId, ObjectId)>

  function NoteClash(overlaps: Clashing, segments: seq<Segment>, id: ObjectId, priority: Priority, iv: ExpandedInterval)
      : Clashing
  {
    var other := FirstClash(segments, id, priority, iv);
    if other.None? || (other.value, id) in overlaps then overlaps else overlaps + [(other.value, id)]
  }

  /** Something already occupies part of the interval. */
  predicate Contested(iv: ExpandedInterval, free: seq<Stretch>) {
    |free| != 1 || free[0].start != iv.start || Reopen(free[0].end) != iv.end
  }

  /** The clash list once an event has been laid, given what was there before it. */
  function ClashesOfEvent(before: seq<Segment>, id: ObjectId, priority: Priority, ivs: seq<ExpandedInterval>,
      known: Clashing): Clashing
  {
    if ivs == [] then known
    else
      var init, iv := ivs[..|ivs| - 1], ivs[|ivs| - 1];
      var segments := LayIntervals(before, id, priority, init);
      var noted := ClashesOfEvent(before, id, priority, init, known);
      if Contested(iv, Free(iv, segments)) then NoteClash(noted, segments, id, priority, iv) else noted
  }

  function ClashesOf(events: seq<Expanded>): Clashing {
    if events == [] then []
    else
      var init, e := events[..|events| - 1], events[|events| - 1];
      ClashesOfEvent(LayEvents(init), e.id, e.priority, e.intervals, ClashesOf(init))
  }

  /** The first loop of `build_with`: each event against its own expander. */
  method ExpandEvents(es: seq<Entry>, from: Timestamp, to: Timestamp)
    returns (expanded: seq<Expanded>, skipped: seq<(ObjectId, ExpandError)>)
    ensures expanded == ExpandAll(es, from, to)
    ensures skipped == Skipped(es, from, to)
  {
    expanded, skipped := [], [];
    for i := 0 to |es|
      invariant expanded == ExpandAll(es[..i], from, to)
      invariant skipped == Skipped(es[..i], from, to)
    {
      assert es[..i + 1][..i] == es[..i];
      var e := es[i];
      var window := ExpandWindow(e.expander, e.event, from, to);
      if window.Ok? {
        var intervals := Dispatching(window.value);
        if intervals != [] {
          expanded := expanded + [Expanded(e.id, e.event.priority, intervals)];
        }
      } else {
        skipped := skipped + [(e.id, window.error)];
      }
    }
    assert es[..|es|] == es;
  }

  /** The inner loop: one event's intervals claim what is free and note equal-priority clashes. */
  method LayDown(before: seq<Segment>, e: Expanded, known: Clashing)
      returns (segments: seq<Segment>, overlaps: Clashing)
    ensures segments == LayIntervals(before, e.id, e.priority, e.intervals)
    ensures overlaps == ClashesOfEvent(before, e.id, e.priority, e.intervals, known)
  {
    segments, overlaps := before, known;
    for j := 0 to |e.intervals|
      invariant segments == LayIntervals(before, e.id, e.priority, e.intervals[..j])
      invariant overlaps == ClashesOfEvent(before, e.id, e.priority, e.intervals[..j], known)
    {
      assert e.intervals[..j + 1][..j] == e.intervals[..j];
      var iv := e.intervals[j];
      var pieces := SubtractCovered(iv, segments);
      if Contested(iv, pieces) {
        overlaps := NoteClash(overlaps, segments, e.id, e.priority, iv);
      }
      segments := segments + MakeSegments(e.id, e.priority, iv, pieces);
    }
    assert e.intervals[..|e.intervals|] == e.intervals;
  }

  /** The outer loop: the events in laying order, one on top of the other. */
  method LayAll(events: seq<Expanded>) returns (segments: seq<Segment>, overlaps: Clashing)
    ensures segments == LayEvents(events) && overlaps == ClashesOf(events)
  {
    segments, overlaps := [], [];
    for i := 0 to |events|
      invariant segments == LayEvents(events[..i]) && overlaps == ClashesOf(events[..i])
    {
      assert events[..i + 1][..i] == events[..i];
      segments, overlaps := LayDown(segments, events[i], overlaps);
    }
    assert events[..|events|] == events;
  }

  /** `build_with`. */
  method BuildWith(es: seq<Entry>, from: Timestamp, to: Timestamp) returns (t: Timeline)
    ensures t.segments == Segments(es, from, to)
    ensures t.skipped == Skipped(es, from, to)
    ensures t.overlaps == ClashesOf(Sort(ExpandAll(es, from, to), BY_KEY))
  {
    var expanded, skipped := ExpandEvents(es, from, to);
    var segments, overlaps := LayAll(Sort(expanded, BY_KEY));
    t := Timeline(Sort(segments, BY_START), skipped, overlaps);
  }
}
