/** What is in force, against every event a VEN holds. */
module VenInForce {
  import opened Wrappers
  import opened Arithmetic
  import opened Ordering
  import opened Sequences
  import opened Model
  import opened Intervals
  import opened Timelines
  import opened TimelineLookup
  import opened TimelinePriority
  import opened VenSchedule
  import opened VenForesight

  // ------------------------------------------------------------------------
  // Across programmes
  // ------------------------------------------------------------------------

  lemma {:induction false} SegmentsAtMeaning(timelines: map<ObjectId, Timeline>, ids: seq<ObjectId>, at: Timestamp)
    requires forall id :: id in ids ==> id in timelines
    ensures forall s :: s in SegmentsAt(timelines, ids, at) <==>
      exists id :: id in ids && timelines[id].At(at) == Some(s)
  {
    if ids != [] {
      var init, last := ids[..|ids| - 1], ids[|ids| - 1];
      SegmentsAtMeaning(timelines, init, at);
      assert ids == init + [last];
    }
  }

  /**
   What is in force is what some programme shows, and nothing exactly when none shows anything. No
   programme shows a lower number, any number goes before none, and on a tie no id before it.
   */
  lemma ActiveIsLeastShown(timelines: map<ObjectId, Timeline>, at: Timestamp)
    ensures ActiveAt(timelines, at).None? <==> forall p :: p in timelines ==> timelines[p].At(at).None?
    ensures ActiveAt(timelines, at).Some? ==>
      exists p :: p in timelines && timelines[p].At(at) == ActiveAt(timelines, at)
    ensures forall p :: p in timelines && timelines[p].At(at).Some? ==>
      var shown, active := timelines[p].At(at).value, ActiveAt(timelines, at).value;
      && (shown.priority.Some? ==> active.priority.Some? && active.priority.value <= shown.priority.value)
      && (shown.priority == active.priority ==>
            active.eventId == shown.eventId || Precedes(active.eventId, shown.eventId))
  {
    var ids := SortedIds(timelines.Keys);
    var segments := SegmentsAt(timelines, ids, at);
    SegmentsAtMeaning(timelines, ids, at);
    LeastSegmentIsLeast(segments);
    assert segments != [] ==> segments[0] in segments;
    forall p | p in timelines && timelines[p].At(at).Some?
      ensures var shown, active := timelines[p].At(at).value, ActiveAt(timelines, at);
        && active.Some?
        && (shown.priority.Some? ==> active.value.priority.Some? && active.value.priority.value <= shown.priority.value)
        && (shown.priority == active.value.priority ==>
              active.value.eventId == shown.eventId || Precedes(active.value.eventId, shown.eventId))
    {
      assert p in ids;
      assert timelines[p].At(at).value in segments;
      LexIsDictionary(ActiveAt(timelines, at).value.eventId, timelines[p].At(at).value.eventId);
    }
  }

  lemma {:induction false} NextChangeOfMeaning(timelines: map<ObjectId, Timeline>, ids: seq<ObjectId>,
      after: Timestamp)
    requires forall id :: id in ids ==> id in timelines
    ensures var next := NextChangeOf(timelines, ids, after);
      && (next.Some? ==> exists id :: id in ids && timelines[id].NextChange(after) == next)
      && (forall id :: id in ids && timelines[id].NextChange(after).Some? ==>
            next.Some? && next.value <= timelines[id].NextChange(after).value)
  {
    if ids != [] {
      var init, last := ids[..|ids| - 1], ids[|ids| - 1];
      NextChangeOfMeaning(timelines, init, after);
      assert ids == init + [last];
      assert NextChangeOf(timelines, ids, after)
        == Earlier(NextChangeOf(timelines, init, after), timelines[last].NextChange(after));
    }
  }

  /** The VEN's next change is the least of its programmes', every one consulted. */
  lemma NextChangeIsLeastOfAll(timelines: map<ObjectId, Timeline>, after: Timestamp)
    ensures var next := NextChange(timelines, after);
      && (next.Some? ==> exists p :: p in timelines && timelines[p].NextChange(after) == next)
      && (forall p :: p in timelines && timelines[p].NextChange(after).Some? ==>
            next.Some? && next.value <= timelines[p].NextChange(after).value)
  {
    NextChangeOfMeaning(timelines, SortedIds(timelines.Keys), after);
  }

  // ------------------------------------------------------------------------
  // Across events
  // ------------------------------------------------------------------------

  /** How a VEN reads an event: anchored where it was first read, sub-intervals cut, at most ten thousand. */
  ghost function AsHeld(c: VenConfig, anchors: Anchors, e: Event): Entry
    requires e.id in anchors
  {
    Entry(e.id, e.content, Expander(anchors[e.id], true, 10_000, c.calendar, c.scalar))
  }

  ghost predicate Matched(events: Events, anchors: Anchors) {
    anchors.Keys == events.Keys && forall id :: id in events ==> events[id].id == id
  }

  /** The held event is not skipped by the build, and its index `i` instructs something at `at`. */
  ghost predicate Instructs(c: VenConfig, events: Events, anchors: Anchors, built: Timestamp, id: ObjectId, i: nat,
      at: Timestamp)
    requires Matched(events, anchors)
  {
    && id in events
    && Expands(AsHeld(c, anchors, events[id]), BuildFrom(c, built), BuildTo(built))
    && Candidate(AsHeld(c, anchors, events[id]), i, at)
  }

  /** Everything a build can expand is within 64-bit reach. */
  ghost predicate BuildReaches(c: VenConfig, events: Events, anchors: Anchors, built: Timestamp) {
    forall p :: p in Programs(events) ==>
      AllReached(EntriesFor(c, events, anchors, built, p), BuildFrom(c, built), BuildTo(built))
  }

  lemma HeldIsEntry(c: VenConfig, events: Events, anchors: Anchors, built: Timestamp, id: ObjectId) returns (n: nat)
    requires Matched(events, anchors) && id in events
    ensures events[id].content.programId in Programs(events)
    ensures var es := EntriesFor(c, events, anchors, built, events[id].content.programId);
      n < |es| && es[n] == AsHeld(c, anchors, events[id])
  {
    var p := events[id].content.programId;
    var f, ids := Selecting(c, events, anchors, built, p), SortedIds(events.Keys);
    FlatContains(ids, f, id, AsHeld(c, anchors, events[id]));
    n := InPool(EntriesFor(c, events, anchors, built, p), AsHeld(c, anchors, events[id]));
  }

  lemma EntryIsHeld(c: VenConfig, events: Events, anchors: Anchors, built: Timestamp, p: ObjectId, e: Entry)
    requires Matched(events, anchors) && e in EntriesFor(c, events, anchors, built, p)
    ensures e.id in events && e == AsHeld(c, anchors, events[e.id])
  {
    var id := FlatMember(SortedIds(events.Keys), Selecting(c, events, anchors, built, p), e);
  }

  /** What a programme's timeline shows comes from a held event that instructs it. */
  lemma ShownIsHeld(c: VenConfig, events: Events, anchors: Anchors, built: Timestamp, p: ObjectId, at: Timestamp)
      returns (id: ObjectId, i: nat)
    requires Matched(events, anchors) && BuildReaches(c, events, anchors, built) && p in Programs(events)
    requires BuildFrom(c, built) <= at < BuildTo(built)
    requires FirstContaining(
      Segments(EntriesFor(c, events, anchors, built, p), BuildFrom(c, built), BuildTo(built)), at).Some?
    ensures Instructs(c, events, anchors, built, id, i, at)
    ensures ShowsIndex(FirstContaining(Segments(EntriesFor(c, events, anchors, built, p), BuildFrom(c, built),
      BuildTo(built)), at).value, AsHeld(c, anchors, events[id]), i)
  {
    var es, from, to := EntriesFor(c, events, anchors, built, p), BuildFrom(c, built), BuildTo(built);
    SelectedDistinct(SortedIds(events.Keys), c, events, anchors, built, p);
    var w;
    w, i := ShownIsExpandable(es, from, to, at);
    EntryIsHeld(c, events, anchors, built, p, w);
    id := w.id;
  }

  lemma ShownIsExpandable(es: seq<Entry>, from: Timestamp, to: Timestamp, at: Timestamp) returns (e: Entry, i: nat)
    requires AllReached(es, from, to) && DistinctIds(es) && from <= at < to
    requires FirstContaining(Segments(es, from, to), at).Some?
    ensures e in es && Expands(e, from, to) && Candidate(e, i, at)
    ensures ShowsIndex(FirstContaining(Segments(es, from, to), at).value, e, i)
  {
    LookupIsArgmin(es, from, to, at);
    var n: nat, k: nat :| n < |Expandable(es, from, to)| && Candidate(Expandable(es, from, to)[n], k, at);
    var w;
    w, i := ShownWins(es, from, to, at, n, k);
    e := Expandable(es, from, to)[w];
  }

  /** A held event that instructs something is up against no more than its own programme shows. */
  lemma ProgrammeShowsNoLess(c: VenConfig, events: Events, anchors: Anchors, built: Timestamp, id: ObjectId, i: nat,
      at: Timestamp)
    requires Matched(events, anchors) && BuildReaches(c, events, anchors, built)
    requires BuildFrom(c, built) <= at < BuildTo(built) && Instructs(c, events, anchors, built, id, i, at)
    ensures events[id].content.programId in Programs(events)
    ensures var shown := FirstContaining(Segments(EntriesFor(c, events, anchors, built, events[id].content.programId),
        BuildFrom(c, built), BuildTo(built)), at);
      shown.Some? && KeyLeq(shown.value.priority, shown.value.eventId, events[id].content.priority, id)
  {
    var p := events[id].content.programId;
    var es, from, to := EntriesFor(c, events, anchors, built, p), BuildFrom(c, built), BuildTo(built);
    var n := HeldIsEntry(c, events, anchors, built, id);
    SelectedDistinct(SortedIds(events.Keys), c, events, anchors, built, p);
    var w, k := ShownIsLeast(es, from, to, at, n, i);
  }

  lemma NoLessThanBoth(a: Segment, b: Segment, p: Priority, id: ObjectId)
    requires b.priority.Some? ==> a.priority.Some? && a.priority.value <= b.priority.value
    requires b.priority == a.priority ==> a.eventId == b.eventId || Precedes(a.eventId, b.eventId)
    requires KeyLeq(b.priority, b.eventId, p, id)
    ensures p.Some? ==> a.priority.Some? && a.priority.value <= p.value
    ensures a.priority == p ==> a.eventId == id || Precedes(a.eventId, id)
  {
    if a.priority == p {
      LexIsDictionary(a.eventId, b.eventId);
      LexTransitive(a.eventId, b.eventId, id);
      LexIsDictionary(a.eventId, id);
    }
  }

  lemma ActiveBeatsHeld(c: VenConfig, timelines: map<ObjectId, Timeline>, events: Events, anchors: Anchors,
      built: Timestamp, at: Timestamp, id: ObjectId, i: nat)
    requires BuiltAt(timelines, c, events, anchors, built) && Matched(events, anchors)
    requires BuildReaches(c, events, anchors, built) && BuildFrom(c, built) <= at < BuildTo(built)
    requires Instructs(c, events, anchors, built, id, i, at)
    ensures ActiveAt(timelines, at).Some?
    ensures var active, p := ActiveAt(timelines, at).value, events[id].content.priority;
      && (p.Some? ==> active.priority.Some? && active.priority.value <= p.value)
      && (active.priority == p ==> active.eventId == id || Precedes(active.eventId, id))
  {
    ProgrammeShowsNoLess(c, events, anchors, built, id, i, at);
    var p := events[id].content.programId;
    assert IsTimeline(timelines[p], EntriesFor(c, events, anchors, built, p), BuildFrom(c, built), BuildTo(built));
    ActiveIsLeastShown(timelines, at);
    NoLessThanBoth(ActiveAt(timelines, at).value, timelines[p].At(at).value, events[id].content.priority, id);
  }

  /** What is in force is instructed by a held event, of some programme. */
  lemma ActiveIsHeld(c: VenConfig, timelines: map<ObjectId, Timeline>, events: Events, anchors: Anchors,
      built: Timestamp, at: Timestamp) returns (id: ObjectId, i: nat)
    requires BuiltAt(timelines, c, events, anchors, built) && Matched(events, anchors)
    requires BuildReaches(c, events, anchors, built) && BuildFrom(c, built) <= at < BuildTo(built)
    requires ActiveAt(timelines, at).Some?
    ensures Instructs(c, events, anchors, built, id, i, at)
    ensures ShowsIndex(ActiveAt(timelines, at).value, AsHeld(c, anchors, events[id]), i)
  {
    ActiveIsLeastShown(timelines, at);
    var q :| q in timelines && timelines[q].At(at) == ActiveAt(timelines, at);
    assert IsTimeline(timelines[q], EntriesFor(c, events, anchors, built, q), BuildFrom(c, built), BuildTo(built));
    id, i := ShownIsHeld(c, events, anchors, built, q, at);
  }

  /**
   While any held event instructs something, something is in force. It is instructed there by a held
   event, of whatever programme; and no held event of any programme that instructs something there has a
   lower number, or a number where that one has none, or the same and an id that comes before.
   */
  lemma ActiveIsLeastHeld(c: VenConfig, timelines: map<ObjectId, Timeline>, events: Events, anchors: Anchors,
      built: Timestamp, at: Timestamp, id: ObjectId, i: nat) returns (winner: ObjectId, k: nat)
    requires BuiltAt(timelines, c, events, anchors, built) && Matched(events, anchors)
    requires BuildReaches(c, events, anchors, built) && BuildFrom(c, built) <= at < BuildTo(built)
    requires Instructs(c, events, anchors, built, id, i, at)
    ensures ActiveAt(timelines, at).Some? && Instructs(c, events, anchors, built, winner, k, at)
    ensures ShowsIndex(ActiveAt(timelines, at).value, AsHeld(c, anchors, events[winner]), k)
    ensures var won, p := events[winner].content.priority, events[id].content.priority;
      && (p.Some? ==> won.Some? && won.value <= p.value)
      && (won == p ==> winner == id || Precedes(winner, id))
  {
    ActiveBeatsHeld(c, timelines, events, anchors, built, at, id, i);
    winner, k := ActiveIsHeld(c, timelines, events, anchors, built, at);
  }

  // ------------------------------------------------------------------------
  // The build's window
  // ------------------------------------------------------------------------

  /** A build looks two days ahead, and back by the poll interval in whole seconds, one at the least. */
  lemma BuildWindowIs(c: VenConfig, now: Timestamp, seconds: nat)
    requires seconds * 1_000_000_000 <= c.pollInterval < seconds * 1_000_000_000 + 1_000_000_000
    ensures BuildTo(now) == Min(now + 172_800_000_000_000, MAX_TIME)
    ensures BuildFrom(c, now) ==
      if now - Max(seconds, 1) * 1_000_000_000 >= MIN_TIME then now - Max(seconds, 1) * 1_000_000_000 else now
  {
    DivUnique(c.pollInterval, NANOS_PER_SECOND, seconds);
  }
}
