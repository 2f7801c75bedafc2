/** Laying intervals down keeps the segments disjoint and claims exactly the free time. */
module TimelineLayers {
  import opened Wrappers
  import opened Ordering
  import opened Model
  import opened Intervals
  import opened Timelines

  // ------------------------------------------------------------------------
  // Subtraction removes exactly the claimed points
  // ------------------------------------------------------------------------

  predicate In(p: Stretch, t: int) {
    p.start <= t < p.end
  }

  predicate InSome(ps: seq<Stretch>, t: int) {
    exists i :: 0 <= i < |ps| && In(ps[i], t)
  }

  predicate Covers(s: Segment, t: int) {
    s.start <= t < s.Close()
  }

  predicate Covered(segments: seq<Segment>, t: int) {
    exists i :: 0 <= i < |segments| && Covers(segments[i], t)
  }

  ghost predicate AllNonEmpty(segments: seq<Segment>) {
    forall i :: 0 <= i < |segments| ==> segments[i].start < segments[i].Close()
  }

  /** In ascending order without overlap, inside `[lo, hi)`. */
  ghost predicate Ascending(ps: seq<Stretch>, lo: int, hi: int) {
    && (forall i :: 0 <= i < |ps| ==> lo <= ps[i].start && ps[i].end <= hi)
    && (forall i, j :: 0 <= i < j < |ps| ==> ps[i].end <= ps[j].start)
  }

  lemma InSomeConcat(a: seq<Stretch>, b: seq<Stretch>, t: int)
    ensures InSome(a + b, t) <==> InSome(a, t) || InSome(b, t)
  {
    if InSome(a, t) {
      var i :| 0 <= i < |a| && In(a[i], t);
      assert In((a + b)[i], t);
    }
    if InSome(b, t) {
      var i :| 0 <= i < |b| && In(b[i], t);
      assert In((a + b)[|a| + i], t);
    }
  }

  lemma InSomeLast(ps: seq<Stretch>, t: int)
    requires ps != []
    ensures InSome(ps, t) <==> InSome(ps[..|ps| - 1], t) || In(ps[|ps| - 1], t)
  {
    var last := ps[|ps| - 1];
    assert ps == ps[..|ps| - 1] + [last];
    InSomeConcat(ps[..|ps| - 1], [last], t);
    assert In([last][0], t) <==> In(last, t);
  }

  lemma AscendingConcat(a: seq<Stretch>, b: seq<Stretch>, lo: int, m: int, n: int, hi: int)
    requires Ascending(a, lo, m) && Ascending(b, n, hi) && lo <= n && m <= n && m <= hi
    ensures Ascending(a + b, lo, hi)
  {}

  lemma CutOneExact(p: Stretch, seg: Segment, t: int)
    requires seg.start < seg.Close()
    ensures InSome(CutOne(p, seg), t) <==> In(p, t) && !Covers(seg, t)
    ensures Ascending(CutOne(p, seg), p.start, p.end)
  {
    if seg.Close() <= p.start || seg.start >= p.end {
      assert In(CutOne(p, seg)[0], t) <==> In(p, t);
    } else {
      var a := if seg.start > p.start then [Stretch(p.start, seg.start)] else [];
      var b := if seg.Close() < p.end then [Stretch(seg.Close(), p.end)] else [];
      InSomeConcat(a, b, t);
      assert InSome(a, t) <==> p.start <= t < seg.start by {
        if p.start <= t < seg.start { assert In(a[0], t); }
      }
      assert InSome(b, t) <==> seg.Close() <= t < p.end by {
        if seg.Close() <= t < p.end { assert In(b[0], t); }
      }
    }
  }

  lemma {:induction false} CutAllExact(ps: seq<Stretch>, seg: Segment, t: int)
    requires seg.start < seg.Close()
    ensures InSome(CutAll(ps, seg), t) <==> InSome(ps, t) && !Covers(seg, t)
  {
    if ps != [] {
      CutAllExact(ps[..|ps| - 1], seg, t);
      CutOneExact(ps[|ps| - 1], seg, t);
      InSomeConcat(CutAll(ps[..|ps| - 1], seg), CutOne(ps[|ps| - 1], seg), t);
      InSomeLast(ps, t);
    }
  }

  lemma {:induction false} CutAllAscending(ps: seq<Stretch>, seg: Segment, lo: int, hi: int)
    requires seg.start < seg.Close() && Ascending(ps, lo, hi)
    ensures Ascending(CutAll(ps, seg), lo, hi)
  {
    if ps != [] {
      var init, last := ps[..|ps| - 1], ps[|ps| - 1];
      var m := if last.start < hi then last.start else hi;
      CutAllAscending(init, seg, lo, m);
      CutOneExact(last, seg, 0);
      AscendingConcat(CutAll(init, seg), CutOne(last, seg), lo, m, last.start, hi);
    }
  }

  lemma CoveredLast(taken: seq<Segment>, t: int)
    requires taken != []
    ensures Covered(taken, t) <==> Covered(taken[..|taken| - 1], t) || Covers(taken[|taken| - 1], t)
  {
    var init := taken[..|taken| - 1];
    if Covered(init, t) {
      var i :| 0 <= i < |init| && Covers(init[i], t);
      assert Covers(taken[i], t);
    }
    if Covered(taken, t) {
      var i :| 0 <= i < |taken| && Covers(taken[i], t);
      assert i < |init| ==> Covers(init[i], t);
    }
  }

  lemma {:induction false} CutExact(ps: seq<Stretch>, taken: seq<Segment>, t: int)
    requires AllNonEmpty(taken)
    ensures InSome(Cut(ps, taken), t) <==> InSome(ps, t) && !Covered(taken, t)
  {
    if taken != [] {
      var init, last := taken[..|taken| - 1], taken[|taken| - 1];
      CutExact(ps, init, t);
      CutAllExact(Cut(ps, init), last, t);
      CoveredLast(taken, t);
    }
  }

  lemma {:induction false} CutAscending(ps: seq<Stretch>, taken: seq<Segment>, lo: int, hi: int)
    requires AllNonEmpty(taken) && Ascending(ps, lo, hi)
    ensures Ascending(Cut(ps, taken), lo, hi)
  {
    if taken != [] {
      CutAscending(ps, taken[..|taken| - 1], lo, hi);
      CutAllAscending(Cut(ps, taken[..|taken| - 1]), taken[|taken| - 1], lo, hi);
    }
  }

  lemma {:induction false} NonEmptyExact(ps: seq<Stretch>, t: int)
    ensures InSome(NonEmpty(ps), t) <==> InSome(ps, t)
  {
    if ps != [] {
      var init, last := ps[..|ps| - 1], ps[|ps| - 1];
      NonEmptyExact(init, t);
      InSomeLast(ps, t);
      if last.start < last.end {
        InSomeLast(NonEmpty(ps), t);
        assert NonEmpty(ps)[..|NonEmpty(ps)| - 1] == NonEmpty(init);
      } else {
        assert NonEmpty(ps) == NonEmpty(init);
      }
    }
  }

  lemma {:induction false} NonEmptyAscending(ps: seq<Stretch>, lo: int, hi: int)
    requires Ascending(ps, lo, hi)
    ensures Ascending(NonEmpty(ps), lo, hi)
  {
    if ps != [] {
      var init, last := ps[..|ps| - 1], ps[|ps| - 1];
      var m := if last.start < hi then last.start else hi;
      NonEmptyAscending(init, lo, m);
      var tail := if last.start < last.end then [last] else [];
      AscendingConcat(NonEmpty(init), tail, lo, m, last.start, hi);
    }
  }

  lemma {:induction false} NonEmptyMembers(ps: seq<Stretch>)
    ensures forall p :: p in NonEmpty(ps) ==> p in ps && p.start < p.end
  {
    if ps != [] {
      NonEmptyMembers(ps[..|ps| - 1]);
    }
  }

  /** The free stretches are the interval minus the taken segments: no point more, none less. */
  lemma SubtractionIsExact(iv: ExpandedInterval, taken: seq<Segment>, t: int)
    requires AllNonEmpty(taken)
    ensures InSome(Free(iv, taken), t) <==> In(Whole(iv), t) && !Covered(taken, t)
    ensures forall i :: 0 <= i < |Free(iv, taken)| ==>
      iv.start <= Free(iv, taken)[i].start < Free(iv, taken)[i].end <= Whole(iv).end
    ensures forall i, j :: 0 <= i < j < |Free(iv, taken)| ==> Free(iv, taken)[i].end <= Free(iv, taken)[j].start
  {
    var p := Whole(iv);
    assert InSome([p], t) <==> In(p, t) by {
      if In(p, t) { assert In([p][0], t); }
    }
    CutExact([p], taken, t);
    CutAscending([p], taken, p.start, p.end);
    NonEmptyExact(Cut([p], taken), t);
    NonEmptyMembers(Cut([p], taken));
    NonEmptyAscending(Cut([p], taken), p.start, p.end);
  }

  // ------------------------------------------------------------------------
  // What every step of the build keeps
  // ------------------------------------------------------------------------

  ghost predicate Apart(a: Segment, b: Segment) {
    a.Close() <= b.start || b.Close() <= a.start
  }

  ghost predicate Disjoint(segments: seq<Segment>) {
    AllNonEmpty(segments) && forall i, j :: 0 <= i < j < |segments| ==> Apart(segments[i], segments[j])
  }

  /** The segment shows this interval of this event and does not leave it. */
  ghost predicate Shows(s: Segment, e: Expanded, b: nat)
    requires b < |e.intervals|
  {
    var iv := e.intervals[b];
    && s.eventId == e.id && s.priority == e.priority
    && s.intervalId == iv.id && s.payloads == iv.payloads && s.randomizeStart == iv.randomizeStart
    && iv.start <= s.start && s.Close() <= Whole(iv).end
  }

  /** Interval `b` of the `a`-th event holds `t`. */
  ghost predicate Holds(events: seq<Expanded>, a: nat, b: nat, t: int) {
    a < |events| && b < |events[a].intervals| && In(Whole(events[a].intervals[b]), t)
  }

  /** Nothing laid down earlier holds `t`. */
  ghost predicate First(events: seq<Expanded>, a: nat, b: nat, t: int) {
    && Holds(events, a, b, t)
    && forall c: nat, d: nat :: Holds(events, c, d, t) ==> a < c || (a == c && b <= d)
  }

  ghost predicate ShownBy(events: seq<Expanded>, s: Segment, t: int) {
    exists a: nat, b: nat :: First(events, a, b, t) && Shows(s, events[a], b)
  }

  ghost predicate Inside(events: seq<Expanded>, s: Segment) {
    exists a: nat, b: nat :: a < |events| && b < |events[a].intervals| && Shows(s, events[a], b)
  }

  /**
   What the build keeps: disjoint non-empty segments, each inside one interval of its event; together
   they cover what has been laid, and each instant belongs to the first interval that held it.
   */
  ghost predicate Faithful(segments: seq<Segment>, events: seq<Expanded>) {
    && Disjoint(segments)
    && (forall t: int :: Covered(segments, t) <==> LaidAt(events, t))
    && (forall s :: s in segments ==> Attributed(events, s))
  }

  /** Some interval laid so far holds `t`. */
  ghost predicate LaidAt(events: seq<Expanded>, t: int) {
    exists a: nat, b: nat :: Holds(events, a, b, t)
  }

  /** Inside one interval, and at each of its instants the first interval that held it. */
  ghost predicate Attributed(events: seq<Expanded>, s: Segment) {
    Inside(events, s) && forall t: int :: Covers(s, t) ==> ShownBy(events, s, t)
  }

  lemma NewPieces(segments: seq<Segment>, id: ObjectId, priority: Priority, iv: ExpandedInterval)
    requires Disjoint(segments)
    ensures Disjoint(LayOne(segments, id, priority, iv))
    ensures forall i :: 0 <= i < |Free(iv, segments)| ==>
      var s := MakeSegment(id, priority, iv, Free(iv, segments)[i]);
      s.start == Free(iv, segments)[i].start && s.Close() == Free(iv, segments)[i].end
  {
    var ps := Free(iv, segments);
    SubtractionIsExact(iv, segments, 0);
    var r := LayOne(segments, id, priority, iv);
    var n := |segments|;
    forall i, j | 0 <= i < j < |r| ensures Apart(r[i], r[j]) {
      if j >= n {
        var p := ps[j - n];
        assert r[j] == MakeSegment(id, priority, iv, p);
        if i < n {
          var t := if r[i].start >= p.start then r[i].start else p.start;
          SubtractionIsExact(iv, segments, t);
          assert In(p, t) ==> InSome(ps, t);
          assert Covers(segments[i], t) ==> Covered(segments, t);
        }
      }
    }
  }

  /** Earlier ranks are unchanged when one more interval joins the last event. */
  lemma HoldsExtend(init: seq<Expanded>, e: Expanded, iv: ExpandedInterval, a: nat, b: nat, t: int)
    ensures
      var before, after := init + [e], init + [e.(intervals := e.intervals + [iv])];
      Holds(after, a, b, t) <==>
        Holds(before, a, b, t) || (a == |init| && b == |e.intervals| && In(Whole(iv), t))
  {}

  lemma CoveredConcat(a: seq<Segment>, b: seq<Segment>, t: int)
    ensures Covered(a + b, t) <==> Covered(a, t) || Covered(b, t)
  {
    var r := a + b;
    if Covered(a, t) {
      var i :| 0 <= i < |a| && Covers(a[i], t);
      assert Covers(r[i], t);
    }
    if Covered(b, t) {
      var i :| 0 <= i < |b| && Covers(b[i], t);
      assert Covers(r[|a| + i], t);
    }
    if Covered(r, t) {
      var i :| 0 <= i < |r| && Covers(r[i], t);
      assert if i < |a| then Covers(a[i], t) else Covers(b[i - |a|], t);
    }
  }

  lemma CoveredAfter(segments: seq<Segment>, id: ObjectId, priority: Priority, iv: ExpandedInterval, t: int)
    requires Disjoint(segments)
    ensures Covered(LayOne(segments, id, priority, iv), t) <==> Covered(segments, t) || In(Whole(iv), t)
  {
    var ps := Free(iv, segments);
    var new' := MakeSegments(id, priority, iv, ps);
    NewPieces(segments, id, priority, iv);
    CoveredConcat(segments, new', t);
    assert Covered(new', t) <==> InSome(ps, t) by {
      assert forall i :: 0 <= i < |ps| ==> (Covers(new'[i], t) <==> In(ps[i], t));
    }
    SubtractionIsExact(iv, segments, t);
  }

  lemma ExtendFirst(init: seq<Expanded>, e: Expanded, iv: ExpandedInterval, a: nat, b: nat, t: int)
    requires First(init + [e], a, b, t)
    ensures First(init + [e.(intervals := e.intervals + [iv])], a, b, t)
  {
    var after := init + [e.(intervals := e.intervals + [iv])];
    HoldsExtend(init, e, iv, a, b, t);
    forall c: nat, d: nat | Holds(after, c, d, t) ensures a < c || (a == c && b <= d) {
      HoldsExtend(init, e, iv, c, d, t);
    }
  }

  lemma OldSegmentsKept(segments: seq<Segment>, init: seq<Expanded>, e: Expanded, iv: ExpandedInterval, s: Segment)
    requires Faithful(segments, init + [e]) && s in segments
    ensures Attributed(init + [e.(intervals := e.intervals + [iv])], s)
  {
    var before, after := init + [e], init + [e.(intervals := e.intervals + [iv])];
    assert Attributed(before, s);
    var a: nat, b: nat :| a < |before| && b < |before[a].intervals| && Shows(s, before[a], b);
    assert Shows(s, after[a], b);
    forall t: int | Covers(s, t) ensures ShownBy(after, s, t) {
      var c: nat, d: nat :| First(before, c, d, t) && Shows(s, before[c], d);
      ExtendFirst(init, e, iv, c, d, t);
      assert Shows(s, after[c], d);
    }
  }

  lemma NewSegmentsRight(segments: seq<Segment>, init: seq<Expanded>, e: Expanded, iv: ExpandedInterval, i: nat)
    requires Faithful(segments, init + [e]) && i < |Free(iv, segments)|
    ensures Attributed(init + [e.(intervals := e.intervals + [iv])],
      MakeSegment(e.id, e.priority, iv, Free(iv, segments)[i]))
  {
    var ps := Free(iv, segments);
    var s := MakeSegment(e.id, e.priority, iv, ps[i]);
    var before, after := init + [e], init + [e.(intervals := e.intervals + [iv])];
    var a: nat, b: nat := |init|, |e.intervals|;
    NewPieces(segments, e.id, e.priority, iv);
    SubtractionIsExact(iv, segments, s.start);
    assert Shows(s, after[a], b);
    forall t: int | Covers(s, t) ensures ShownBy(after, s, t) {
      SubtractionIsExact(iv, segments, t);
      assert In(ps[i], t);
      HoldsExtend(init, e, iv, a, b, t);
      forall c: nat, d: nat | Holds(after, c, d, t) ensures a < c || (a == c && b <= d) {
        HoldsExtend(init, e, iv, c, d, t);
        assert Holds(before, c, d, t) ==> LaidAt(before, t);
      }
      assert First(after, a, b, t);
    }
  }

  lemma LaidAtExtend(init: seq<Expanded>, e: Expanded, iv: ExpandedInterval, t: int)
    ensures LaidAt(init + [e.(intervals := e.intervals + [iv])], t) <==> LaidAt(init + [e], t) || In(Whole(iv), t)
  {
    var before, after := init + [e], init + [e.(intervals := e.intervals + [iv])];
    if LaidAt(before, t) {
      var a: nat, b: nat :| Holds(before, a, b, t);
      HoldsExtend(init, e, iv, a, b, t);
    }
    HoldsExtend(init, e, iv, |init|, |e.intervals|, t);
    if LaidAt(after, t) {
      var a: nat, b: nat :| Holds(after, a, b, t);
      HoldsExtend(init, e, iv, a, b, t);
    }
  }

  lemma AllAttributed(segments: seq<Segment>, init: seq<Expanded>, e: Expanded, iv: ExpandedInterval, i: nat)
    requires Faithful(segments, init + [e]) && i < |LayOne(segments, e.id, e.priority, iv)|
    ensures Attributed(init + [e.(intervals := e.intervals + [iv])], LayOne(segments, e.id, e.priority, iv)[i])
  {
    if i < |segments| {
      OldSegmentsKept(segments, init, e, iv, segments[i]);
    } else {
      NewSegmentsRight(segments, init, e, iv, i - |segments|);
    }
  }

  /** One iteration of the build: an interval joins the event being laid. */
  lemma LayOneFaithful(segments: seq<Segment>, init: seq<Expanded>, e: Expanded, iv: ExpandedInterval)
    requires Faithful(segments, init + [e])
    ensures Faithful(LayOne(segments, e.id, e.priority, iv), init + [e.(intervals := e.intervals + [iv])])
  {
    var after := init + [e.(intervals := e.intervals + [iv])];
    var r := LayOne(segments, e.id, e.priority, iv);
    NewPieces(segments, e.id, e.priority, iv);
    forall s | s in r ensures Attributed(after, s) {
      var i :| 0 <= i < |r| && r[i] == s;
      AllAttributed(segments, init, e, iv, i);
    }
    forall t: int ensures Covered(r, t) <==> LaidAt(after, t) {
      CoveredAfter(segments, e.id, e.priority, iv, t);
      LaidAtExtend(init, e, iv, t);
    }
  }

  lemma LayLastFaithful(segments: seq<Segment>, init: seq<Expanded>, e: Expanded)
    requires e.intervals != [] && Faithful(segments, init + [e.(intervals := e.intervals[..|e.intervals| - 1])])
    ensures Faithful(LayOne(segments, e.id, e.priority, e.intervals[|e.intervals| - 1]), init + [e])
  {
    var part := e.(intervals := e.intervals[..|e.intervals| - 1]);
    assert part.(intervals := part.intervals + [e.intervals[|e.intervals| - 1]]) == e;
    LayOneFaithful(segments, init, part, e.intervals[|e.intervals| - 1]);
  }

  /** An event about to be laid contributes nothing yet. */
  lemma OpenEvent(segments: seq<Segment>, init: seq<Expanded>, e: Expanded)
    requires Faithful(segments, init)
    ensures Faithful(segments, init + [e.(intervals := [])])
  {
    var after := init + [e.(intervals := [])];
    assert forall a: nat, b: nat, t: int :: Holds(after, a, b, t) <==> Holds(init, a, b, t);
    forall s | s in segments ensures Attributed(after, s) {
      assert Attributed(init, s);
      var a: nat, b: nat :| a < |init| && b < |init[a].intervals| && Shows(s, init[a], b);
      assert Shows(s, after[a], b);
      forall t: int | Covers(s, t) ensures ShownBy(after, s, t) {
        var c: nat, d: nat :| First(init, c, d, t) && Shows(s, init[c], d);
        assert First(after, c, d, t) && Shows(s, after[c], d);
      }
    }
    forall t: int ensures LaidAt(init, t) <==> LaidAt(after, t) {
      if LaidAt(init, t) {
        var a: nat, b: nat :| Holds(init, a, b, t);
        assert Holds(after, a, b, t);
      }
      if LaidAt(after, t) {
        var a: nat, b: nat :| Holds(after, a, b, t);
        assert Holds(init, a, b, t);
      }
    }
  }

  lemma {:induction false} LayIntervalsFaithful(segments: seq<Segment>, init: seq<Expanded>, e: Expanded)
    requires Faithful(segments, init)
    ensures Faithful(LayIntervals(segments, e.id, e.priority, e.intervals), init + [e])
    decreases |e.intervals|
  {
    var ivs := e.intervals;
    if ivs == [] {
      OpenEvent(segments, init, e);
      assert e.(intervals := []) == e;
    } else {
      var part := e.(intervals := ivs[..|ivs| - 1]);
      LayIntervalsFaithful(segments, init, part);
      LayLastFaithful(LayIntervals(segments, e.id, e.priority, part.intervals), init, e);
    }
  }

  /** After every iteration over events, and after every iteration over the next event's intervals. */
  lemma {:induction false} EveryIterationFaithful(events: seq<Expanded>)
    ensures Faithful(LayEvents(events), events)
    ensures forall e: Expanded :: Faithful(LayIntervals(LayEvents(events), e.id, e.priority, e.intervals), events + [e])
  {
    if events != [] {
      var init, last := events[..|events| - 1], events[|events| - 1];
      EveryIterationFaithful(init);
      assert events == init + [last];
    }
    forall e: Expanded
      ensures Faithful(LayIntervals(LayEvents(events), e.id, e.priority, e.intervals), events + [e])
    {
      LayIntervalsFaithful(LayEvents(events), events, e);
    }
  }

  /** In the final list no two segments start together. */
  ghost predicate StrictlySorted(segments: seq<Segment>) {
    forall i, j :: 0 <= i < j < |segments| ==>
      segments[i].start < segments[j].start && segments[i].Close() <= segments[j].start
  }

  lemma SortedByStart(segments: seq<Segment>)
    requires Disjoint(segments)
    ensures StrictlySorted(Sort(segments, BY_START))
    ensures forall s :: s in Sort(segments, BY_START) <==> s in segments
    ensures AllNonEmpty(Sort(segments, BY_START))
  {
    var r := Sort(segments, BY_START);
    SortSorts(segments, BY_START);
    SameMembers(r, segments);
    forall i, j | 0 <= i < j < |r| ensures r[i].start < r[j].start && r[i].Close() <= r[j].start {
      assert BY_START(r[i], r[j]);
      DistinctPlaces(segments, r, i, j);
    }
    forall i | 0 <= i < |r| ensures r[i].start < r[i].Close() {
      assert r[i] in segments;
    }
  }

  lemma SameMembers<T>(a: seq<T>, b: seq<T>)
    requires multiset(a) == multiset(b)
    ensures forall x :: x in a <==> x in b
  {
    assert forall x :: x in a <==> x in multiset(a);
    assert forall x :: x in b <==> x in multiset(b);
  }

  /** Two places of a permutation of disjoint segments hold two disjoint segments. */
  lemma DistinctPlaces(segments: seq<Segment>, r: seq<Segment>, i: nat, j: nat)
    requires Disjoint(segments) && multiset(r) == multiset(segments)
    requires i < j < |r|
    ensures r[i].start < r[i].Close() && r[j].start < r[j].Close()
    ensures Apart(r[i], r[j])
  {
    SameMembers(r, segments);
    assert r[i] in segments && r[j] in segments;
    var a :| 0 <= a < |segments| && segments[a] == r[i];
    var b :| 0 <= b < |segments| && segments[b] == r[j];
    if a == b {
      TwoPlaces(r, i, j);
      NoDuplicates(segments, a);
      assert false;
    } else if a < b {
      assert Apart(segments[a], segments[b]);
    } else {
      assert Apart(segments[b], segments[a]);
    }
  }

  lemma TwoPlaces<T>(r: seq<T>, i: nat, j: nat)
    requires i < j < |r| && r[i] == r[j]
    ensures multiset(r)[r[i]] >= 2
  {
    assert r == r[..i] + [r[i]] + r[i + 1..];
    assert r[i + 1..][j - i - 1] == r[j];
    assert r[j] in multiset(r[i + 1..]);
  }

  lemma NoDuplicates(segments: seq<Segment>, a: nat)
    requires Disjoint(segments) && a < |segments|
    ensures multiset(segments)[segments[a]] == 1
  {
    var s := segments[a];
    assert segments == segments[..a] + [s] + segments[a + 1..];
    forall i | 0 <= i < |segments| && i != a ensures segments[i] != s {
      if i < a { assert Apart(segments[i], segments[a]); } else { assert Apart(segments[a], segments[i]); }
    }
    assert s !in segments[..a] && s !in segments[a + 1..];
  }
}
