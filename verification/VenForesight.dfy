/** Cached timelines are as good as fresh ones, and the VEN never sleeps through a change. */
module VenForesight {
  import opened Wrappers
  import opened Arithmetic
  import opened Ordering
  import opened Sequences
  import opened Model
  import opened Intervals
  import opened IntervalWindows
  import opened Timelines
  import opened TimelineLookup
  import opened VenSchedule
  import opened VenLoop

  const DAY: int := 24 * 3600 * NANOS_PER_SECOND

  // ------------------------------------------------------------------------
  // How far fresh timelines reach
  // ------------------------------------------------------------------------

  /** How far truncation toward the epoch moves an instant before it. */
  function SecondsShort(t: Timestamp): int {
    AsSecond(t) * NANOS_PER_SECOND - t
  }

  /** The build instant is not a fractional second within the day before the epoch. */
  predicate KeepsADay(built: Timestamp) {
    built >= 0 || built <= -DAY || SecondsShort(built) <= 1
  }

  lemma SecondBrackets(t: Timestamp)
    ensures t >= 0 ==> 0 <= t - AsSecond(t) * NANOS_PER_SECOND < NANOS_PER_SECOND && AsSecond(t) >= 0
    ensures t < 0 ==> 0 <= SecondsShort(t) < NANOS_PER_SECOND && AsSecond(t) <= 0
  {
    var nanos: int := t;
    DivBracket(if nanos >= 0 then nanos else -nanos, NANOS_PER_SECOND);
  }

  /**
   Timelines are rebuilt in time to reach a day ahead of every instant they are read at, except when
   they were built within the day before the epoch: whole seconds are truncated toward the epoch there.
   */
  lemma FreshReachesADayIff(built: Timestamp)
    ensures KeepsADay(built) <==> forall now: Timestamp :: !Stale(built, now) ==> now - built <= DAY
  {
    SecondBrackets(built);
    if KeepsADay(built) {
      forall now: Timestamp | !Stale(built, now) ensures now - built <= DAY {
        SecondBrackets(now);
      }
    } else {
      var second := AsSecond(built) + TIMELINE_REFRESH_SECONDS - 1;
      var now: Timestamp := second * NANOS_PER_SECOND + NANOS_PER_SECOND - 1;
      DivUnique(now, NANOS_PER_SECOND, second);
      assert !Stale(built, now) && now - built > DAY;
    }
  }

  // ------------------------------------------------------------------------
  // Cached against rebuilt
  // ------------------------------------------------------------------------

  lemma {:induction false} FlatCongruent<T, U>(xs: seq<T>, f: T -> seq<U>, g: T -> seq<U>)
    requires forall x :: x in xs ==> f(x) == g(x)
    ensures Flat(xs, f) == Flat(xs, g)
  {
    if xs != [] {
      FlatCongruent(xs[..|xs| - 1], f, g);
    }
  }

  /** With every event anchored, what is built does not depend on when. */
  lemma EntriesKeepAnchors(c: VenConfig, events: Events, anchors: Anchors, now: Timestamp, now': Timestamp, p: ObjectId)
    requires anchors.Keys == events.Keys && forall id :: id in events ==> events[id].id == id
    ensures EntriesFor(c, events, anchors, now, p) == EntriesFor(c, events, anchors, now', p)
  {
    FlatCongruent(SortedIds(events.Keys), Selecting(c, events, anchors, now, p),
      Selecting(c, events, anchors, now', p));
  }

  lemma {:induction false} SelectedDistinct(ids: seq<ObjectId>, c: VenConfig, events: Events, anchors: Anchors,
      now: Timestamp, p: ObjectId)
    requires forall i, j :: 0 <= i < j < |ids| ==> ids[i] != ids[j]
    requires forall id :: id in events ==> events[id].id == id
    ensures DistinctIds(Flat(ids, Selecting(c, events, anchors, now, p)))
  {
    if ids != [] {
      var init, last := ids[..|ids| - 1], ids[|ids| - 1];
      var f := Selecting(c, events, anchors, now, p);
      SelectedDistinct(init, c, events, anchors, now, p);
      var a := Flat(init, f);
      forall i | 0 <= i < |a| ensures a[i].id != last {
        var id := FlatMember(init, f, a[i]);
      }
    }
  }

  /** No repetition of an event that can be expanded is out of 64-bit reach. */
  ghost predicate NoneOutOfReach(es: seq<Entry>, from: Timestamp, to: Timestamp) {
    forall e :: e in es && Expands(e, from, to) ==>
      var s := Sequence(e.expander, e.event).value;
      s.period.Some? && s.period.value > 0 ==> Addressable(s, to)
  }

  /** The two builds skip the same events, if any. */
  ghost predicate SkipAlike(es: seq<Entry>, from: Timestamp, to: Timestamp, from': Timestamp, to': Timestamp) {
    forall e :: e in es ==> (Expands(e, from, to) <==> Expands(e, from', to'))
  }

  lemma NoneOutOfReachIsReached(es: seq<Entry>, from: Timestamp, to: Timestamp)
    requires NoneOutOfReach(es, from, to)
    ensures AllReached(es, from, to)
  {
    forall n | 0 <= n < |es| && Expands(es[n], from, to) ensures Placed(es[n], from, to) {
      SequenceWellFormed(es[n].expander, es[n].event);
      assert es[n] in es;
    }
  }

  /** The part of a build's window that both builds cover. */
  lemma WindowsShare(c: VenConfig, built: Timestamp, now: Timestamp, t: Timestamp)
    requires built <= now <= t < MAX_TIME && t - now < DAY && now - built <= DAY
    ensures BuildFrom(c, built) <= t < BuildTo(built)
    ensures BuildFrom(c, now) <= t < BuildTo(now)
  {}

  lemma BuildsAgree(c: VenConfig, events: Events, anchors: Anchors, built: Timestamp, now: Timestamp, p: ObjectId,
      t: Timestamp)
    requires anchors.Keys == events.Keys && forall id :: id in events ==> events[id].id == id
    requires built <= now <= t < MAX_TIME && t - now < DAY && now - built <= DAY
    requires var es := EntriesFor(c, events, anchors, now, p);
      && NoneOutOfReach(es, BuildFrom(c, built), BuildTo(built)) && NoneOutOfReach(es, BuildFrom(c, now), BuildTo(now))
      && SkipAlike(es, BuildFrom(c, built), BuildTo(built), BuildFrom(c, now), BuildTo(now))
    ensures SameOutcome(
      FirstContaining(Segments(EntriesFor(c, events, anchors, built, p), BuildFrom(c, built), BuildTo(built)), t),
      FirstContaining(Segments(EntriesFor(c, events, anchors, now, p), BuildFrom(c, now), BuildTo(now)), t))
  {
    EntriesKeepAnchors(c, events, anchors, built, now, p);
    SelectedDistinct(SortedIds(events.Keys), c, events, anchors, now, p);
    var es := EntriesFor(c, events, anchors, now, p);
    NoneOutOfReachIsReached(es, BuildFrom(c, built), BuildTo(built));
    NoneOutOfReachIsReached(es, BuildFrom(c, now), BuildTo(now));
    WindowsShare(c, built, now, t);
    LookupIndependent(es, es, BuildFrom(c, built), BuildTo(built), BuildFrom(c, now), BuildTo(now), t);
  }

  /**
   After any sync at `now`, which leaves the runtime valid and not stale, the held timelines answer
   for a day ahead what timelines rebuilt at `now` would: same programmes, and at each instant the
   same winning event, interval and payloads.
   */
  lemma CachedAgreesWithRebuilt(ven: VenRuntime, now: Timestamp, rebuilt: map<ObjectId, Timeline>, p: ObjectId,
      t: Timestamp)
    requires ven.Valid() && !ven.TimelinesAreStale(now)
    requires BuiltAt(rebuilt, ven.config, ven.events, ven.anchors, now)
    requires ven.builtAt.Some? ==> KeepsADay(ven.builtAt.value)
    requires now <= t < MAX_TIME && t - now < DAY
    requires ven.builtAt.Some? && p in ven.timelines ==>
      var es, b := EntriesFor(ven.config, ven.events, ven.anchors, now, p), ven.builtAt.value;
      var from, to := BuildFrom(ven.config, now), BuildTo(now);
      && NoneOutOfReach(es, from, to) && NoneOutOfReach(es, BuildFrom(ven.config, b), BuildTo(b))
      && SkipAlike(es, BuildFrom(ven.config, b), BuildTo(b), from, to)
    ensures rebuilt.Keys == ven.timelines.Keys
    ensures p in rebuilt ==> SameOutcome(ven.timelines[p].At(t), rebuilt[p].At(t))
  {
    if ven.builtAt.Some? && p in ven.timelines {
      var b := ven.builtAt.value;
      FreshReachesADayIff(b);
      assert IsTimeline(ven.timelines[p], EntriesFor(ven.config, ven.events, ven.anchors, b, p),
        BuildFrom(ven.config, b), BuildTo(b));
      assert IsTimeline(rebuilt[p], EntriesFor(ven.config, ven.events, ven.anchors, now, p),
        BuildFrom(ven.config, now), BuildTo(now));
      BuildsAgree(ven.config, ven.events, ven.anchors, b, now, p, t);
    }
  }

  // ------------------------------------------------------------------------
  // Sleeping
  // ------------------------------------------------------------------------

  lemma {:induction false} SegmentsConstant(timelines: map<ObjectId, Timeline>, ids: seq<ObjectId>, now: Timestamp,
      t: Timestamp)
    requires forall id :: id in ids ==> id in timelines
    requires now <= t && (NextChangeOf(timelines, ids, now).Some? ==> t < NextChangeOf(timelines, ids, now).value)
    ensures SegmentsAt(timelines, ids, t) == SegmentsAt(timelines, ids, now)
  {
    if ids != [] {
      SegmentsConstant(timelines, ids[..|ids| - 1], now, t);
      ConstantUntilNextChange(timelines[ids[|ids| - 1]].segments, now, t);
    }
  }

  /** With the timelines fixed, what is in force does not change while the VEN waits. */
  lemma NeverSleepsThroughChange(c: VenConfig, timelines: map<ObjectId, Timeline>, now: Timestamp, t: Timestamp)
    requires now <= t < now + TimeToNextWakeup(c, timelines, now)
    ensures ActiveAt(timelines, t) == ActiveAt(timelines, now)
  {
    SegmentsConstant(timelines, SortedIds(timelines.Keys), now, t);
  }

  /** The wait never exceeds the poll interval, and ends at the next change when that is sooner. */
  lemma WaitIsBounded(c: VenConfig, timelines: map<ObjectId, Timeline>, now: Timestamp)
    ensures TimeToNextWakeup(c, timelines, now) <= c.pollInterval
    ensures
      && NextChange(timelines, now).Some?
      && NextChange(timelines, now).value - now <= Min(c.pollInterval, U64_MAX) ==>
      now + TimeToNextWakeup(c, timelines, now) == NextChange(timelines, now).value > now
    ensures c.pollInterval > 0 ==> TimeToNextWakeup(c, timelines, now) > 0
  {
    NextChangeIsLater(timelines, SortedIds(timelines.Keys), now);
  }

  lemma {:induction false} NextChangeIsLater(timelines: map<ObjectId, Timeline>, ids: seq<ObjectId>, after: Timestamp)
    requires forall id :: id in ids ==> id in timelines
    ensures NextChangeOf(timelines, ids, after).Some? ==> after < NextChangeOf(timelines, ids, after).value
  {
    if ids != [] {
      NextChangeIsLater(timelines, ids[..|ids| - 1], after);
      NextChangeIsLeastEdge(timelines[ids[|ids| - 1]], after);
    }
  }

  /** What is in force is the least of the programmes' segments by priority and event id. */
  lemma {:induction false} LeastSegmentIsLeast(segments: seq<Segment>)
    ensures LeastSegment(segments).Some? <==> segments != []
    ensures segments != [] ==> LeastSegment(segments).value in segments
    ensures forall s :: s in segments ==> SegmentLeq(LeastSegment(segments).value, s)
  {
    if segments != [] {
      var init, last := segments[..|segments| - 1], segments[|segments| - 1];
      LeastSegmentIsLeast(init);
      assert segments == init + [last];
      LexTotal(last.eventId, last.eventId);
      if init != [] {
        var l := LeastSegment(init).value;
        LexTotal(l.eventId, last.eventId);
        forall s | s in segments ensures SegmentLeq(LeastSegment(segments).value, s) {
          if s in init && !SegmentLeq(l, last) {
            assert SegmentLeq(last, l) && SegmentLeq(l, s);
            if last.priority == s.priority { LexTransitive(last.eventId, l.eventId, s.eventId); }
          }
        }
      }
    }
  }
}
