/** What a timeline answers: the most important event with an interval at that instant. */
module TimelineLookup {
  import opened Wrappers
  import opened Ordering
  import opened Model
  import opened Intervals
  import opened IntervalWindows
  import opened Timelines
  import opened TimelineLayers

  // ------------------------------------------------------------------------
  // The specification: candidates over all infinitely many repetitions
  // ------------------------------------------------------------------------

  /** Index `i` of the event's sequence instructs something at `t`. */
  ghost predicate Candidate(e: Entry, i: nat, t: Timestamp) {
    var s := Sequence(e.expander, e.event);
    && s.Ok? && Defined(s.value, i)
    && IntervalAt(s.value, i).payloads != [] && IntervalAt(s.value, i).Contains(t)
  }

  predicate EntryLeq(a: Entry, b: Entry) {
    KeyLeq(a.event.priority, a.id, b.event.priority, b.id)
  }

  /** Entry `n` at index `i` is least by priority, then id, then index. */
  ghost predicate Winner(es: seq<Entry>, n: nat, i: nat, t: Timestamp) {
    && n < |es| && Candidate(es[n], i, t)
    && forall m: nat, j: nat :: m < |es| && Candidate(es[m], j, t) ==> EntryLeq(es[n], es[m]) && (m == n ==> i <= j)
  }

  /** The segment shows index `i` of the entry's sequence. */
  ghost predicate ShowsIndex(s: Segment, e: Entry, i: nat)
    requires Sequence(e.expander, e.event).Ok? && Defined(Sequence(e.expander, e.event).value, i)
  {
    var iv := IntervalAt(Sequence(e.expander, e.event).value, i);
    && s.eventId == e.id && s.priority == e.event.priority
    && s.intervalId == iv.id && s.payloads == iv.payloads && s.randomizeStart == iv.randomizeStart
  }

  ghost predicate DistinctIds(es: seq<Entry>) {
    forall m, n :: 0 <= m < n < |es| ==> es[m].id != es[n].id
  }

  /** Every event can be expanded over the window, and every repetition before `to` is addressable. */
  ghost predicate AllPlaced(es: seq<Entry>, from: Timestamp, to: Timestamp) {
    forall n :: 0 <= n < |es| ==> Placed(es[n], from, to)
  }

  /** What can be expanded is addressable; what cannot is skipped, and asks for nothing. */
  ghost predicate AllReached(es: seq<Entry>, from: Timestamp, to: Timestamp) {
    forall n :: 0 <= n < |es| && Expands(es[n], from, to) ==> Placed(es[n], from, to)
  }

  /** The entry is not skipped. */
  predicate Expands(e: Entry, from: Timestamp, to: Timestamp) {
    Window(e.expander, e.event, from, to).Ok?
  }

  /** The entries that are not skipped, in order. */
  function Expandable(es: seq<Entry>, from: Timestamp, to: Timestamp): (fs: seq<Entry>)
    ensures forall e :: e in fs <==> e in es && Expands(e, from, to)
  {
    if es == [] then []
    else
      var init, e := es[..|es| - 1], es[|es| - 1];
      assert es == init + [e];
      if Expands(e, from, to) then Expandable(init, from, to) + [e] else Expandable(init, from, to)
  }

  ghost predicate Placed(e: Entry, from: Timestamp, to: Timestamp) {
    && Window(e.expander, e.event, from, to).Ok?
    && var s := Sequence(e.expander, e.event).value;
       (s.period.Some? ==> s.period.value > 0) && Addressable(s, to)
  }

  // ------------------------------------------------------------------------
  // One event's contribution
  // ------------------------------------------------------------------------

  function Live(s: IntervalSequence, ix: seq<nat>): (r: seq<nat>)
    requires forall i :: i in ix ==> Defined(s, i)
    ensures forall i :: i in r <==> i in ix && IntervalAt(s, i).payloads != []
  {
    if ix == [] then []
    else if IntervalAt(s, ix[0]).payloads != [] then [ix[0]] + Live(s, ix[1..])
    else Live(s, ix[1..])
  }

  ghost predicate StrictlyAscending(ix: seq<nat>) {
    forall a, b :: 0 <= a < b < |ix| ==> ix[a] < ix[b]
  }

  lemma {:induction false} LiveAscending(s: IntervalSequence, ix: seq<nat>)
    requires forall i :: i in ix ==> Defined(s, i)
    requires StrictlyAscending(ix)
    ensures StrictlyAscending(Live(s, ix))
  {
    if ix != [] {
      LiveAscending(s, ix[1..]);
      var rest := Live(s, ix[1..]);
      forall b | 0 <= b < |rest| ensures ix[0] < rest[b] {
        assert rest[b] in ix[1..];
      }
    }
  }

  lemma IntervalsAtCons(s: IntervalSequence, i: nat, ix: seq<nat>)
    requires Defined(s, i) && forall j :: j in ix ==> Defined(s, j)
    ensures IntervalsAt(s, [i] + ix) == [IntervalAt(s, i)] + IntervalsAt(s, ix)
  {}

  lemma {:induction false} DispatchingIsLive(s: IntervalSequence, ix: seq<nat>)
    requires forall i :: i in ix ==> Defined(s, i)
    ensures Dispatching(IntervalsAt(s, ix)) == IntervalsAt(s, Live(s, ix))
  {
    if ix != [] {
      DispatchingIsLive(s, ix[1..]);
      assert ix == [ix[0]] + ix[1..];
      IntervalsAtCons(s, ix[0], ix[1..]);
      assert IntervalsAt(s, ix)[1..] == IntervalsAt(s, ix[1..]);
      if IntervalAt(s, ix[0]).payloads != [] {
        IntervalsAtCons(s, ix[0], Live(s, ix[1..]));
      }
    }
  }

  /** The indices an entry contributes, ascending; every candidate in the window is among them. */
  lemma Contribution(e: Entry, from: Timestamp, to: Timestamp) returns (ix: seq<nat>)
    requires Placed(e, from, to)
    ensures Sequence(e.expander, e.event).Ok?
    ensures forall i :: i in ix ==> Defined(Sequence(e.expander, e.event).value, i)
    ensures StrictlyAscending(ix)
    ensures Dispatching(Window(e.expander, e.event, from, to).value)
      == IntervalsAt(Sequence(e.expander, e.event).value, ix)
    ensures forall i: nat, t: Timestamp :: from <= t < to && Candidate(e, i, t) ==> i in ix
    ensures forall i :: i in ix ==> IntervalAt(Sequence(e.expander, e.event).value, i).payloads != []
  {
    WindowCompleteIff(e.expander, e.event, from, to);
    WindowIsNaiveWalk(e.expander, e.event, from, to);
    var s := Sequence(e.expander, e.event).value;
    var all := WindowIndices(s, from, to);
    ix := Live(s, all);
    LiveAscending(s, all);
    DispatchingIsLive(s, all);
    forall i: nat, t: Timestamp | from <= t < to && Candidate(e, i, t) ensures i in ix {
      assert Hit(s, i, from, to);
    }
  }

  /** The expanded form of one of the entries. */
  ghost predicate FromPool(x: Expanded, es: seq<Entry>, from: Timestamp, to: Timestamp) {
    exists n: nat :: n < |es| && x in ExpandOne(es[n], from, to)
  }

  lemma {:induction false} ExpandedHasSource(x: Expanded, es: seq<Entry>, from: Timestamp, to: Timestamp)
      returns (n: nat)
    requires x in ExpandAll(es, from, to)
    ensures n < |es| && x in ExpandOne(es[n], from, to)
  {
    var init := es[..|es| - 1];
    if x in ExpandAll(init, from, to) {
      n := ExpandedHasSource(x, init, from, to);
      assert init[n] == es[n];
    } else {
      n := |es| - 1;
    }
  }

  lemma {:induction false} SourceIsExpanded(x: Expanded, es: seq<Entry>, from: Timestamp, to: Timestamp, n: nat)
    requires n < |es| && x in ExpandOne(es[n], from, to)
    ensures x in ExpandAll(es, from, to)
  {
    if n < |es| - 1 {
      assert es[..|es| - 1][n] == es[n];
      SourceIsExpanded(x, es[..|es| - 1], from, to, n);
    }
  }

  lemma ByKeyIsTotalPreorder()
    ensures TotalPreorder(BY_KEY)
  {
    forall x: Expanded, y: Expanded ensures BY_KEY(x, y) || BY_KEY(y, x) {
      LexTotal(x.id, y.id);
    }
    forall x: Expanded, y: Expanded, z: Expanded | BY_KEY(x, y) && BY_KEY(y, z) ensures BY_KEY(x, z) {
      if x.priority == z.priority {
        LexTransitive(x.id, y.id, z.id);
      }
    }
  }

  /** The expanded events in laying order. */
  function Ranked(es: seq<Entry>, from: Timestamp, to: Timestamp): seq<Expanded> {
    Sort(ExpandAll(es, from, to), BY_KEY)
  }

  lemma RankedMembers(es: seq<Entry>, from: Timestamp, to: Timestamp)
    ensures SortedBy(Ranked(es, from, to), BY_KEY)
    ensures forall x :: x in Ranked(es, from, to) <==> FromPool(x, es, from, to)
  {
    ByKeyIsTotalPreorder();
    SortSorts(ExpandAll(es, from, to), BY_KEY);
    SameMembers(Ranked(es, from, to), ExpandAll(es, from, to));
    forall x ensures x in ExpandAll(es, from, to) <==> FromPool(x, es, from, to) {
      if x in ExpandAll(es, from, to) {
        var n := ExpandedHasSource(x, es, from, to);
      }
      if FromPool(x, es, from, to) {
        var n: nat :| n < |es| && x in ExpandOne(es[n], from, to);
        SourceIsExpanded(x, es, from, to, n);
      }
    }
  }

  // ------------------------------------------------------------------------
  // Looking up
  // ------------------------------------------------------------------------

  lemma {:induction false} FirstContainingFinds(segments: seq<Segment>, t: Timestamp)
    ensures FirstContaining(segments, t).Some? <==> exists s :: s in segments && s.Contains(t)
    ensures FirstContaining(segments, t).Some? ==>
      FirstContaining(segments, t).value in segments && FirstContaining(segments, t).value.Contains(t)
  {
    if segments != [] {
      FirstContainingFinds(segments[1..], t);
      assert segments == [segments[0]] + segments[1..];
    }
  }

  /** A candidate has a place among the ranked intervals. */
  lemma CandidateHolds(es: seq<Entry>, from: Timestamp, to: Timestamp, n: nat, i: nat, t: Timestamp)
      returns (x: Expanded, b: nat)
    requires AllPlaced(es, from, to) && from <= t < to && n < |es| && Candidate(es[n], i, t)
    ensures ExpandOne(es[n], from, to) == [x] && x in Ranked(es, from, to)
    ensures b < |x.intervals| && x.intervals[b] == IntervalAt(Sequence(es[n].expander, es[n].event).value, i)
    ensures In(Timelines.Whole(x.intervals[b]), t)
  {
    assert Placed(es[n], from, to);
    var ix := Contribution(es[n], from, to);
    assert i in ix;
    b :| b < |ix| && ix[b] == i;
    x := ExpandOne(es[n], from, to)[0];
    assert FromPool(x, es, from, to);
    RankedMembers(es, from, to);
  }

  /** A ranked event comes from an entry, interval by index. */
  lemma RankedComesFrom(es: seq<Entry>, from: Timestamp, to: Timestamp, x: Expanded) returns (n: nat, ix: seq<nat>)
    requires AllPlaced(es, from, to) && x in Ranked(es, from, to)
    ensures n < |es| && ExpandOne(es[n], from, to) == [x] && x.id == es[n].id && x.priority == es[n].event.priority
    ensures Sequence(es[n].expander, es[n].event).Ok? && StrictlyAscending(ix)
    ensures forall i :: i in ix ==> Defined(Sequence(es[n].expander, es[n].event).value, i)
    ensures x.intervals == IntervalsAt(Sequence(es[n].expander, es[n].event).value, ix)
    ensures forall i: nat, t: Timestamp :: from <= t < to && Candidate(es[n], i, t) ==> i in ix
    ensures forall i :: i in ix ==> IntervalAt(Sequence(es[n].expander, es[n].event).value, i).payloads != []
  {
    RankedMembers(es, from, to);
    n :| n < |es| && x in ExpandOne(es[n], from, to);
    assert Placed(es[n], from, to);
    ix := Contribution(es[n], from, to);
  }

  /** A candidate of another entry is laid later, so its key is no less. */
  lemma OtherIsLater(es: seq<Entry>, from: Timestamp, to: Timestamp, t: Timestamp, a: nat, b: nat, n: nat, m: nat,
      j: nat)
    requires AllPlaced(es, from, to) && DistinctIds(es) && from <= t < to
    requires First(Ranked(es, from, to), a, b, t)
    requires n < |es| && m < |es| && m != n && Candidate(es[m], j, t)
    requires Ranked(es, from, to)[a].id == es[n].id && Ranked(es, from, to)[a].priority == es[n].event.priority
    ensures EntryLeq(es[n], es[m])
  {
    var ranked := Ranked(es, from, to);
    RankedMembers(es, from, to);
    var y, d := CandidateHolds(es, from, to, m, j, t);
    var c: nat :| c < |ranked| && ranked[c] == y;
    assert Holds(ranked, c, d, t);
    assert y.id == es[m].id && y.priority == es[m].event.priority;
    assert a != c;
    assert BY_KEY(ranked[a], ranked[c]);
  }

  /** A candidate of the same event sits later in the same list, so its index is no less. */
  lemma SameEventIsLater(ranked: seq<Expanded>, a: nat, b: nat, s: IntervalSequence, ix: seq<nat>, j: nat, t: Timestamp)
    requires First(ranked, a, b, t) && StrictlyAscending(ix)
    requires forall i :: i in ix ==> Defined(s, i)
    requires ranked[a].intervals == IntervalsAt(s, ix)
    requires j in ix && IntervalAt(s, j).Contains(t) && t < MAX_TIME
    ensures ix[b] <= j
  {
    var d: nat :| d < |ix| && ix[d] == j;
    assert ranked[a].intervals[d] == IntervalAt(s, j);
    assert Holds(ranked, a, d, t);
  }

  /** The first interval that holds `t` in laying order is the winner. */
  lemma FirstIsWinner(es: seq<Entry>, from: Timestamp, to: Timestamp, t: Timestamp, a: nat, b: nat)
      returns (n: nat, i: nat)
    requires AllPlaced(es, from, to) && DistinctIds(es) && from <= t < to
    requires First(Ranked(es, from, to), a, b, t)
    ensures Winner(es, n, i, t)
    ensures var x := Ranked(es, from, to)[a];
      x.id == es[n].id && x.priority == es[n].event.priority
      && x.intervals[b] == IntervalAt(Sequence(es[n].expander, es[n].event).value, i)
  {
    var ranked := Ranked(es, from, to);
    assert ranked[a] in ranked;
    var ix;
    n, ix := RankedComesFrom(es, from, to, ranked[a]);
    i := ix[b];
    assert i in ix;
    var s := Sequence(es[n].expander, es[n].event).value;
    assert ranked[a].intervals[b] == IntervalAt(s, i) && IntervalAt(s, i).Contains(t);
    assert Candidate(es[n], i, t);
    LexTotal(es[n].id, es[n].id);
    forall m: nat, j: nat | m < |es| && Candidate(es[m], j, t)
      ensures EntryLeq(es[n], es[m]) && (m == n ==> i <= j)
    {
      if m == n {
        SameEventIsLater(ranked, a, b, s, ix, j, t);
      } else {
        OtherIsLater(es, from, to, t, a, b, n, m, j);
      }
    }
  }

  lemma FoundIsWinner(es: seq<Entry>, from: Timestamp, to: Timestamp, t: Timestamp, s: Segment)
    requires AllPlaced(es, from, to) && DistinctIds(es) && from <= t < to
    requires ShownBy(Ranked(es, from, to), s, t)
    ensures exists n: nat, i: nat :: Winner(es, n, i, t) && ShowsIndex(s, es[n], i)
  {
    var ranked := Ranked(es, from, to);
    var a: nat, b: nat :| First(ranked, a, b, t) && Shows(s, ranked[a], b);
    var n, i := FirstIsWinner(es, from, to, t, a, b);
    assert ShowsIndex(s, es[n], i);
  }

  lemma CandidateIsLaid(es: seq<Entry>, from: Timestamp, to: Timestamp, t: Timestamp, n: nat, i: nat)
    requires AllPlaced(es, from, to) && from <= t < to && n < |es| && Candidate(es[n], i, t)
    ensures LaidAt(Ranked(es, from, to), t)
  {
    var ranked := Ranked(es, from, to);
    var x, b := CandidateHolds(es, from, to, n, i, t);
    var a: nat :| a < |ranked| && ranked[a] == x;
    assert Holds(ranked, a, b, t);
  }

  lemma {:induction false} CoversIsContains(segments: seq<Segment>, t: Timestamp)
    requires t < MAX_TIME
    ensures FirstContaining(segments, t).Some? <==> Covered(segments, t)
    ensures FirstContaining(segments, t).Some? ==>
      FirstContaining(segments, t).value in segments && TimelineLayers.Covers(FirstContaining(segments, t).value, t)
  {
    FirstContainingFinds(segments, t);
    if Covered(segments, t) {
      var i :| 0 <= i < |segments| && TimelineLayers.Covers(segments[i], t);
      assert segments[i] in segments && segments[i].Contains(t);
    }
  }

  lemma PlacedLookupIsArgmin(es: seq<Entry>, from: Timestamp, to: Timestamp, t: Timestamp)
    requires AllPlaced(es, from, to) && DistinctIds(es) && from <= t < to
    ensures FirstContaining(Segments(es, from, to), t).Some? <==>
      exists n: nat, i: nat :: n < |es| && Candidate(es[n], i, t)
    ensures FirstContaining(Segments(es, from, to), t).Some? ==>
      exists n: nat, i: nat :: Winner(es, n, i, t)
        && ShowsIndex(FirstContaining(Segments(es, from, to), t).value, es[n], i)
  {
    BuiltTimelineIsConflictFree(es, from, to);
    CoversIsContains(Segments(es, from, to), t);
    var found := FirstContaining(Segments(es, from, to), t);
    if found.Some? {
      assert Attributed(Ranked(es, from, to), found.value);
      FoundIsWinner(es, from, to, t, found.value);
    }
    if n: nat, i: nat :| n < |es| && Candidate(es[n], i, t) {
      CandidateIsLaid(es, from, to, t, n, i);
    }
  }

  lemma ExpandAllSnoc(es: seq<Entry>, e: Entry, from: Timestamp, to: Timestamp)
    ensures ExpandAll(es + [e], from, to) == ExpandAll(es, from, to) + ExpandOne(e, from, to)
  {
    assert (es + [e])[..|es|] == es;
  }

  lemma {:induction false} SkippedAddNothing(es: seq<Entry>, from: Timestamp, to: Timestamp)
    ensures ExpandAll(Expandable(es, from, to), from, to) == ExpandAll(es, from, to)
  {
    if es != [] {
      var init, e := es[..|es| - 1], es[|es| - 1];
      SkippedAddNothing(init, from, to);
      if Expands(e, from, to) {
        ExpandAllSnoc(Expandable(init, from, to), e, from, to);
      } else {
        assert ExpandOne(e, from, to) == [];
      }
    }
  }

  lemma {:induction false} ExpandableDistinct(es: seq<Entry>, from: Timestamp, to: Timestamp)
    requires DistinctIds(es)
    ensures DistinctIds(Expandable(es, from, to))
  {
    if es != [] {
      var init, e := es[..|es| - 1], es[|es| - 1];
      ExpandableDistinct(init, from, to);
      var fs := Expandable(init, from, to);
      forall n | 0 <= n < |fs| ensures fs[n].id != e.id {
        assert fs[n] in init;
      }
    }
  }

  /** A build is the build of what it does not skip. */
  lemma SkippedAreNotMissed(es: seq<Entry>, from: Timestamp, to: Timestamp)
    requires DistinctIds(es) && AllReached(es, from, to)
    ensures var fs := Expandable(es, from, to);
      && DistinctIds(fs) && AllPlaced(fs, from, to)
      && Ranked(fs, from, to) == Ranked(es, from, to) && Segments(fs, from, to) == Segments(es, from, to)
  {
    SkippedAddNothing(es, from, to);
    ExpandableDistinct(es, from, to);
    ExpandableIsPlaced(es, from, to);
  }

  lemma ExpandableIsPlaced(es: seq<Entry>, from: Timestamp, to: Timestamp)
    requires AllReached(es, from, to)
    ensures AllPlaced(Expandable(es, from, to), from, to)
  {
    var fs := Expandable(es, from, to);
    forall n | 0 <= n < |fs| ensures Placed(fs[n], from, to) {
      assert fs[n] in es;
    }
  }

  /**
   Looking up an instant of the window gives the (priority, id)-least event with a dispatching
   interval there among all its infinitely many repetitions, at its lowest index; and gives nothing
   exactly when there is none. Events that could not be expanded are passed over, and blind no other.
   */
  lemma LookupIsArgmin(es: seq<Entry>, from: Timestamp, to: Timestamp, t: Timestamp)
    requires AllReached(es, from, to) && DistinctIds(es) && from <= t < to
    ensures var found, fs := FirstContaining(Segments(es, from, to), t), Expandable(es, from, to);
      && (found.Some? <==> exists n: nat, i: nat :: n < |fs| && Candidate(fs[n], i, t))
      && (found.Some? ==> exists n: nat, i: nat :: Winner(fs, n, i, t) && ShowsIndex(found.value, fs[n], i))
  {
    SkippedAreNotMissed(es, from, to);
    PlacedLookupIsArgmin(Expandable(es, from, to), from, to, t);
  }

  lemma CoveredMembers(a: seq<Segment>, b: seq<Segment>, t: int)
    requires forall s :: s in a ==> s in b
    ensures Covered(a, t) ==> Covered(b, t)
  {
    if Covered(a, t) {
      var i :| 0 <= i < |a| && TimelineLayers.Covers(a[i], t);
      assert a[i] in b;
    }
  }

  /**
   The timeline a build returns is strictly sorted and disjoint; each segment stays inside one
   interval of its event and belongs to the first interval laid over each of its instants; together
   they cover exactly what was laid.
   */
  lemma BuiltTimelineIsConflictFree(es: seq<Entry>, from: Timestamp, to: Timestamp)
    ensures StrictlySorted(Segments(es, from, to)) && AllNonEmpty(Segments(es, from, to))
    ensures forall s :: s in Segments(es, from, to) ==> Attributed(Ranked(es, from, to), s)
    ensures forall t: int :: Covered(Segments(es, from, to), t) <==> LaidAt(Ranked(es, from, to), t)
  {
    var laid := LayEvents(Ranked(es, from, to));
    EveryIterationFaithful(Ranked(es, from, to));
    SortedByStart(laid);
    forall t: int ensures Covered(Segments(es, from, to), t) <==> Covered(laid, t) {
      CoveredMembers(laid, Segments(es, from, to), t);
      CoveredMembers(Segments(es, from, to), laid, t);
    }
  }

  // ------------------------------------------------------------------------
  // Consequences
  // ------------------------------------------------------------------------

  /** What a VEN acts on: the event, its interval and its payloads, not the extent of the piece. */
  predicate SameOutcome(a: Option<Segment>, b: Option<Segment>) {
    if a.None? || b.None? then a.None? && b.None?
    else
      && a.value.eventId == b.value.eventId && a.value.priority == b.value.priority
      && a.value.intervalId == b.value.intervalId && a.value.payloads == b.value.payloads
      && a.value.randomizeStart == b.value.randomizeStart
  }

  ghost predicate SameEntries(es: seq<Entry>, fs: seq<Entry>) {
    forall e :: e in es <==> e in fs
  }

  /** Two pools of the same entries have the same winner, whatever the order. */
  lemma WinnerUnique(es: seq<Entry>, fs: seq<Entry>, n: nat, i: nat, m: nat, j: nat, t: Timestamp)
    requires SameEntries(es, fs) && DistinctIds(fs)
    requires Winner(es, n, i, t) && Winner(fs, m, j, t)
    ensures es[n] == fs[m] && i == j
  {
    assert es[n] in es && fs[m] in fs;
    var p: nat :| p < |fs| && fs[p] == es[n];
    var q: nat :| q < |es| && es[q] == fs[m];
    assert EntryLeq(fs[m], fs[p]) && EntryLeq(es[n], es[q]);
    assert Candidate(es[q], j, t) && Candidate(fs[p], i, t);
    LexAntisymmetric(es[n].id, fs[m].id);
    assert p == m;
    assert j <= i;
    assert EntryLeq(es[n], es[q]);
    if q != n {
      assert es[q] == es[n];
      SameEntryLowest(es, n, q, i, j, t);
    }
  }

  lemma SameEntryLowest(es: seq<Entry>, n: nat, q: nat, i: nat, j: nat, t: Timestamp)
    requires Winner(es, n, i, t) && q < |es| && es[q] == es[n] && Candidate(es[q], j, t)
    ensures i <= j
  {
    assert Candidate(es[n], j, t);
  }

  lemma PlacedLookupIndependent(es: seq<Entry>, fs: seq<Entry>, from: Timestamp, to: Timestamp, from': Timestamp,
      to': Timestamp, t: Timestamp)
    requires SameEntries(es, fs) && DistinctIds(es) && DistinctIds(fs)
    requires AllPlaced(es, from, to) && from <= t < to
    requires AllPlaced(fs, from', to') && from' <= t < to'
    ensures SameOutcome(FirstContaining(Segments(es, from, to), t), FirstContaining(Segments(fs, from', to'), t))
  {
    PlacedLookupIsArgmin(es, from, to, t);
    PlacedLookupIsArgmin(fs, from', to', t);
    var a, b := FirstContaining(Segments(es, from, to), t), FirstContaining(Segments(fs, from', to'), t);
    if a.Some? && b.Some? {
      var n: nat, i: nat :| Winner(es, n, i, t) && ShowsIndex(a.value, es[n], i);
      var m: nat, j: nat :| Winner(fs, m, j, t) && ShowsIndex(b.value, fs[m], j);
      WinnerUnique(es, fs, n, i, m, j, t);
    }
    if a.Some? { CandidateTransfer(es, fs, t); }
    if b.Some? { CandidateTransfer(fs, es, t); }
  }

  /**
   So the answer does not depend on the order events are given in, nor on which of two windows holding
   the instant the timeline was built over, so long as both builds skip the same events.
   */
  lemma LookupIndependent(es: seq<Entry>, fs: seq<Entry>, from: Timestamp, to: Timestamp, from': Timestamp,
      to': Timestamp, t: Timestamp)
    requires DistinctIds(es) && DistinctIds(fs)
    requires SameEntries(Expandable(es, from, to), Expandable(fs, from', to'))
    requires AllReached(es, from, to) && from <= t < to
    requires AllReached(fs, from', to') && from' <= t < to'
    ensures SameOutcome(FirstContaining(Segments(es, from, to), t), FirstContaining(Segments(fs, from', to'), t))
  {
    SkippedAreNotMissed(es, from, to);
    SkippedAreNotMissed(fs, from', to');
    PlacedLookupIndependent(Expandable(es, from, to), Expandable(fs, from', to'), from, to, from', to', t);
  }

  lemma CandidateTransfer(es: seq<Entry>, fs: seq<Entry>, t: Timestamp)
    requires SameEntries(es, fs)
    requires exists n: nat, i: nat :: n < |es| && Candidate(es[n], i, t)
    ensures exists n: nat, i: nat :: n < |fs| && Candidate(fs[n], i, t)
  {
    var n: nat, i: nat :| n < |es| && Candidate(es[n], i, t);
    assert es[n] in fs;
    var m: nat :| m < |fs| && fs[m] == es[n];
    assert Candidate(fs[m], i, t);
  }

  // ------------------------------------------------------------------------
  // The next change
  // ------------------------------------------------------------------------

  ghost predicate BoundaryOf(segments: seq<Segment>, b: Timestamp) {
    exists s :: s in segments && (b == s.start || s.end == Some(b))
  }

  lemma {:induction false} LeastBoundaryMeaning(segments: seq<Segment>, after: Timestamp)
    ensures LeastBoundary(segments, after).Some? ==>
      LeastBoundary(segments, after).value > after && BoundaryOf(segments, LeastBoundary(segments, after).value)
    ensures forall b: Timestamp :: BoundaryOf(segments, b) && b > after ==>
      LeastBoundary(segments, after).Some? && LeastBoundary(segments, after).value <= b
  {
    if segments != [] {
      var s, rest := segments[0], segments[1..];
      LeastBoundaryMeaning(rest, after);
      assert segments == [s] + rest;
      forall b: Timestamp ensures BoundaryOf(segments, b) <==> b == s.start || s.end == Some(b) || BoundaryOf(rest, b) {
        if b == s.start || s.end == Some(b) { assert s in segments; }
        if BoundaryOf(rest, b) {
          var r :| r in rest && (b == r.start || r.end == Some(b));
          assert r in segments;
        }
      }
    }
  }

  /** Before the next change every segment holds or misses both instants alike. */
  lemma {:induction false} ConstantUntilNextChange(segments: seq<Segment>, after: Timestamp, t: Timestamp)
    requires after <= t && (LeastBoundary(segments, after).Some? ==> t < LeastBoundary(segments, after).value)
    ensures FirstContaining(segments, t) == FirstContaining(segments, after)
  {
    LeastBoundaryMeaning(segments, after);
    if segments != [] {
      var s := segments[0];
      assert s in segments;
      assert BoundaryOf(segments, s.start) && (s.end.Some? ==> BoundaryOf(segments, s.end.value));
      assert s.Contains(t) <==> s.Contains(after);
      ConstantUntilNextChange(segments[1..], after, t);
    }
  }

  /** And the next change is a boundary: the schedule has an edge there. */
  lemma NextChangeIsLeastEdge(t: Timeline, after: Timestamp)
    ensures t.NextChange(after).Some? ==>
      after < t.NextChange(after).value && BoundaryOf(t.segments, t.NextChange(after).value)
    ensures forall b: Timestamp :: BoundaryOf(t.segments, b) && b > after ==>
      t.NextChange(after).Some? && t.NextChange(after).value <= b
  {
    LeastBoundaryMeaning(t.segments, after);
  }
}
