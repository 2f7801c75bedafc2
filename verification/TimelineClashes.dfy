/** Equal-priority clashes are reported, not hidden, and what is reported is a clash. */
module TimelineClashes {
  import opened Wrappers
  import opened Model
  import opened Intervals
  import opened Timelines
  import opened TimelineLayers
  import opened TimelineLookup

  lemma {:induction false} FirstClashIsClash(segments: seq<Segment>, id: ObjectId, priority: Priority,
      iv: ExpandedInterval)
    ensures var r := FirstClash(segments, id, priority, iv);
      && (r.Some? ==> exists s :: s in segments && Clashes(s, id, priority, iv) && s.eventId == r.value)
      && (r.None? ==> forall s :: s in segments ==> !Clashes(s, id, priority, iv))
  {
    if segments != [] && !Clashes(segments[0], id, priority, iv) {
      FirstClashIsClash(segments[1..], id, priority, iv);
    }
  }

  /** Some other event is reported as clashing with this one. */
  ghost predicate Flagged(clashes: Clashing, id: ObjectId) {
    exists other: ObjectId :: other != id && (other, id) in clashes
  }

  /** The event being laid, up to interval `d`. */
  function Part(e: Expanded, d: nat): Expanded
    requires d <= |e.intervals|
  {
    e.(intervals := e.intervals[..d])
  }

  /** What has been laid just before interval `d` of the event after `init`. */
  function LaidBefore(init: seq<Expanded>, e: Expanded, d: nat): seq<Segment>
    requires d <= |e.intervals|
  {
    LayIntervals(LayEvents(init), e.id, e.priority, e.intervals[..d])
  }

  function NotedBefore(init: seq<Expanded>, e: Expanded, d: nat): Clashing
    requires d <= |e.intervals|
  {
    ClashesOfEvent(LayEvents(init), e.id, e.priority, e.intervals[..d], ClashesOf(init))
  }

  lemma LaidBeforeFaithful(init: seq<Expanded>, e: Expanded, d: nat)
    requires d <= |e.intervals|
    ensures Faithful(LaidBefore(init, e, d), init + [Part(e, d)])
  {
    EveryIterationFaithful(init);
    assert Part(e, d).intervals == e.intervals[..d];
  }

  lemma NotedNext(init: seq<Expanded>, e: Expanded, d: nat)
    requires d < |e.intervals|
    ensures var segments := LaidBefore(init, e, d);
      NotedBefore(init, e, d + 1) ==
        if Contested(e.intervals[d], Free(e.intervals[d], segments))
        then NoteClash(NotedBefore(init, e, d), segments, e.id, e.priority, e.intervals[d])
        else NotedBefore(init, e, d)
  {
    assert e.intervals[..d + 1][..d] == e.intervals[..d];
  }

  lemma {:induction false} NotedGrows(init: seq<Expanded>, e: Expanded, d: nat, n: nat, p: (ObjectId, ObjectId))
    requires d <= n <= |e.intervals| && p in NotedBefore(init, e, d)
    ensures p in NotedBefore(init, e, n)
    decreases n - d
  {
    if d < n {
      NotedNext(init, e, d);
      NotedGrows(init, e, d + 1, n, p);
    }
  }

  lemma NotedAll(init: seq<Expanded>, e: Expanded)
    ensures NotedBefore(init, e, 0) == ClashesOf(init)
    ensures NotedBefore(init, e, |e.intervals|) == ClashesOf(init + [e])
  {
    assert e.intervals[..|e.intervals|] == e.intervals;
    assert (init + [e])[..|init|] == init;
  }

  // ------------------------------------------------------------------------
  // Nothing is hidden
  // ------------------------------------------------------------------------

  lemma UncontestedIsWhole(iv: ExpandedInterval, free: seq<Stretch>, t: Timestamp)
    requires !Contested(iv, free) && In(Whole(iv), t)
    ensures InSome(free, t)
  {
    assert In(free[0], t);
  }

  /** An interval laid over an instant that an equal-priority event already holds is noted. */
  lemma HeldIsNoted(segments: seq<Segment>, s: Segment, id: ObjectId, priority: Priority, iv: ExpandedInterval,
      t: Timestamp, known: Clashing)
    requires AllNonEmpty(segments) && s in segments && TimelineLayers.Covers(s, t) && In(Whole(iv), t)
    requires s.priority == priority && s.eventId != id
    ensures Contested(iv, Free(iv, segments)) && Flagged(NoteClash(known, segments, id, priority, iv), id)
  {
    if !Contested(iv, Free(iv, segments)) {
      UncontestedIsWhole(iv, Free(iv, segments), t);
    }
    assert Covered(segments, t);
    SubtractionIsExact(iv, segments, t);
    FirstClashIsClash(segments, id, priority, iv);
    assert Clashes(s, id, priority, iv);
    var other := FirstClash(segments, id, priority, iv);
    assert (other.value, id) in NoteClash(known, segments, id, priority, iv);
  }

  /** Whatever is being laid, an instant still belongs to the interval that held it first. */
  lemma StillFirst(init: seq<Expanded>, part: Expanded, a: nat, b: nat, t: int, s: Segment)
    requires First(init, a, b, t) && ShownBy(init + [part], s, t)
    ensures Shows(s, init[a], b)
  {
    var events := init + [part];
    var a': nat, b': nat :| First(events, a', b', t) && Shows(s, events[a'], b');
    assert Holds(events, a, b, t);
    assert Holds(init, a', b', t);
  }

  lemma LaterEventIsFlagged(init: seq<Expanded>, e: Expanded, a: nat, b: nat, d: nat, t: Timestamp)
    requires First(init, a, b, t) && d < |e.intervals| && In(Whole(e.intervals[d]), t)
    requires init[a].priority == e.priority && init[a].id != e.id
    ensures Flagged(ClashesOf(init + [e]), e.id)
  {
    var segments, part := LaidBefore(init, e, d), Part(e, d);
    LaidBeforeFaithful(init, e, d);
    assert Holds(init + [part], a, b, t);
    assert Covered(segments, t);
    var i :| 0 <= i < |segments| && TimelineLayers.Covers(segments[i], t);
    var s := segments[i];
    assert Attributed(init + [part], s);
    StillFirst(init, part, a, b, t, s);
    HeldIsNoted(segments, s, e.id, e.priority, e.intervals[d], t, NotedBefore(init, e, d));
    NotedNext(init, e, d);
    var other: ObjectId :| other != e.id && (other, e.id) in NotedBefore(init, e, d + 1);
    NotedGrows(init, e, d + 1, |e.intervals|, (other, e.id));
    NotedAll(init, e);
  }

  lemma FirstInPrefix(events: seq<Expanded>, n: nat, a: nat, b: nat, t: int)
    requires First(events, a, b, t) && a < n <= |events|
    ensures First(events[..n], a, b, t)
  {
    assert forall c: nat, d: nat :: Holds(events[..n], c, d, t) ==> Holds(events, c, d, t);
  }

  lemma {:induction false} TieIsFlagged(events: seq<Expanded>, a: nat, b: nat, c: nat, d: nat, t: Timestamp)
    requires First(events, a, b, t) && Holds(events, c, d, t) && a < c
    requires events[a].priority == events[c].priority && events[a].id != events[c].id
    ensures Flagged(ClashesOf(events), events[c].id)
  {
    var n := |events| - 1;
    var init, e := events[..n], events[n];
    assert events == init + [e];
    FirstInPrefix(events, n, a, b, t);
    if c == n {
      LaterEventIsFlagged(init, e, a, b, d, t);
    } else {
      assert Holds(init, c, d, t);
      TieIsFlagged(init, a, b, c, d, t);
      var other: ObjectId :| other != events[c].id && (other, events[c].id) in ClashesOf(init);
      NotedAll(init, e);
      NotedGrows(init, e, 0, |e.intervals|, (other, events[c].id));
    }
  }

  lemma PlacedTieIsReported(es: seq<Entry>, from: Timestamp, to: Timestamp, t: Timestamp, n: nat, i: nat, m: nat,
      j: nat)
    requires AllPlaced(es, from, to) && DistinctIds(es) && from <= t < to
    requires Winner(es, n, i, t) && m < |es| && m != n && Candidate(es[m], j, t)
    requires es[m].event.priority == es[n].event.priority
    ensures Flagged(ClashesOf(Ranked(es, from, to)), es[m].id)
  {
    var ranked := Ranked(es, from, to);
    CandidateIsLaid(es, from, to, t, n, i);
    var a, b := FirstExists(es, from, to, t);
    var n', i' := FirstIsWinner(es, from, to, t, a, b);
    WinnerUnique(es, es, n, i, n', i', t);
    var y, d := CandidateHolds(es, from, to, m, j, t);
    var c: nat :| c < |ranked| && ranked[c] == y;
    assert y.id == es[m].id && y.priority == es[m].event.priority;
    assert Holds(ranked, c, d, t);
    TieIsFlagged(ranked, a, b, c, d, t);
  }

  /** An event that ties with the winner at an instant of the window is reported, whatever else is skipped. */
  lemma EqualPriorityIsReported(es: seq<Entry>, from: Timestamp, to: Timestamp, t: Timestamp, n: nat, i: nat, m: nat,
      j: nat)
    requires AllReached(es, from, to) && DistinctIds(es) && from <= t < to
    requires var fs := Expandable(es, from, to);
      && Winner(fs, n, i, t) && m < |fs| && m != n && Candidate(fs[m], j, t)
      && fs[m].event.priority == fs[n].event.priority
    ensures Flagged(ClashesOf(Ranked(es, from, to)), Expandable(es, from, to)[m].id)
  {
    SkippedAreNotMissed(es, from, to);
    PlacedTieIsReported(Expandable(es, from, to), from, to, t, n, i, m, j);
  }

  lemma FirstExists(es: seq<Entry>, from: Timestamp, to: Timestamp, t: Timestamp) returns (a: nat, b: nat)
    requires LaidAt(Ranked(es, from, to), t)
    ensures First(Ranked(es, from, to), a, b, t)
  {
    BuiltTimelineIsConflictFree(es, from, to);
    var segments := Segments(es, from, to);
    assert Covered(segments, t);
    var i :| 0 <= i < |segments| && TimelineLayers.Covers(segments[i], t);
    assert Attributed(Ranked(es, from, to), segments[i]);
    a, b :| First(Ranked(es, from, to), a, b, t) && Shows(segments[i], Ranked(es, from, to)[a], b);
  }

  // ------------------------------------------------------------------------
  // Nothing is made up
  // ------------------------------------------------------------------------

  /** Two intervals whose windows overlap. */
  predicate Meets(x: ExpandedInterval, y: ExpandedInterval) {
    x.start < Whole(y).end && y.start < Whole(x).end
  }

  /** Two laid events of equal priority, by these ids, with intervals that meet. */
  ghost predicate RealClash(events: seq<Expanded>, p: (ObjectId, ObjectId)) {
    exists a: nat, c: nat, b: nat, d: nat :: ClashAt(events, p, a, b, c, d)
  }

  ghost predicate ClashAt(events: seq<Expanded>, p: (ObjectId, ObjectId), a: nat, b: nat, c: nat, d: nat) {
    && a < c < |events| && events[a].id == p.0 && events[c].id == p.1 && p.0 != p.1
    && events[a].priority == events[c].priority
    && b < |events[a].intervals| && d < |events[c].intervals|
    && Meets(events[a].intervals[b], events[c].intervals[d])
  }

  lemma NewlyNoted(init: seq<Expanded>, e: Expanded, d: nat, p: (ObjectId, ObjectId))
    requires d < |e.intervals| && p in NotedBefore(init, e, d + 1) && p !in NotedBefore(init, e, d)
    ensures RealClash(init + [e], p)
  {
    var segments, iv := LaidBefore(init, e, d), e.intervals[d];
    NotedNext(init, e, d);
    FirstClashIsClash(segments, e.id, e.priority, iv);
    var s :| s in segments && Clashes(s, e.id, e.priority, iv) && s.eventId == p.0;
    LaidBeforeFaithful(init, e, d);
    assert Attributed(init + [Part(e, d)], s);
    var a: nat, b: nat :| a < |init + [Part(e, d)]| && b < |(init + [Part(e, d)])[a].intervals|
      && Shows(s, (init + [Part(e, d)])[a], b);
    assert a < |init|;
    assert ClashAt(init + [e], p, a, b, |init|, d);
  }

  /** Where a pair first appears in a list that changes step by step. */
  lemma {:induction false} FirstAppears(noted: nat -> Clashing, n: nat, p: (ObjectId, ObjectId)) returns (d: nat)
    requires p in noted(n)
    ensures d <= n && p in noted(d) && (d > 0 ==> p !in noted(d - 1))
  {
    d := n;
    if n > 0 && p in noted(n - 1) {
      d := FirstAppears(noted, n - 1, p);
    }
  }

  function Noted(init: seq<Expanded>, e: Expanded): nat -> Clashing {
    (d: nat) => if d <= |e.intervals| then NotedBefore(init, e, d) else []
  }

  lemma NotedSomewhere(init: seq<Expanded>, e: Expanded, p: (ObjectId, ObjectId)) returns (k: nat)
    requires p in ClashesOf(init + [e])
    ensures k <= |e.intervals| && p in Noted(init, e)(k) && (k > 0 ==> p !in Noted(init, e)(k - 1))
  {
    NotedAll(init, e);
    k := FirstAppears(Noted(init, e), |e.intervals|, p);
  }

  lemma NotedAtStart(init: seq<Expanded>, e: Expanded, p: (ObjectId, ObjectId))
    requires p in Noted(init, e)(0)
    ensures p in ClashesOf(init)
  {
    NotedAll(init, e);
  }

  lemma NotedAtStep(init: seq<Expanded>, e: Expanded, k: nat, p: (ObjectId, ObjectId))
    requires 0 < k <= |e.intervals| && p in Noted(init, e)(k) && p !in Noted(init, e)(k - 1)
    ensures RealClash(init + [e], p)
  {
    NewlyNoted(init, e, k - 1, p);
  }

  lemma NotedIsReal(init: seq<Expanded>, e: Expanded, p: (ObjectId, ObjectId))
    requires p in ClashesOf(init + [e])
    ensures p in ClashesOf(init) || RealClash(init + [e], p)
  {
    var k := NotedSomewhere(init, e, p);
    if k > 0 {
      NotedAtStep(init, e, k, p);
    } else {
      NotedAtStart(init, e, p);
    }
  }

  lemma RealStays(init: seq<Expanded>, e: Expanded, p: (ObjectId, ObjectId))
    requires RealClash(init, p)
    ensures RealClash(init + [e], p)
  {
    var a: nat, c: nat, b: nat, d: nat :| ClashAt(init, p, a, b, c, d);
    assert ClashAt(init + [e], p, a, b, c, d);
  }

  /** Every reported pair is two events of equal priority whose intervals overlap. */
  lemma {:induction false} ReportedIsReal(events: seq<Expanded>, p: (ObjectId, ObjectId))
    requires p in ClashesOf(events)
    ensures RealClash(events, p)
  {
    var n := |events| - 1;
    var init, e := events[..n], events[n];
    assert events == init + [e];
    NotedIsReal(init, e, p);
    if p in ClashesOf(init) {
      ReportedIsReal(init, p);
      RealStays(init, e, p);
    }
  }
}
