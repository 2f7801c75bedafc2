/** Which reports a VEN owes, in what order, and that filing some removes exactly those. */
module VenReports {
  import opened Wrappers
  import opened Arithmetic
  import opened Ordering
  import opened Sequences
  import opened Model
  import opened Intervals
  import opened Reports
  import opened ReportEnumeration
  import opened VenSchedule
  import opened StateKeys

  ghost predicate KeysDistinct(due: seq<DueReport>) {
    forall i, j :: 0 <= i < j < |due| ==> due[i].key != due[j].key
  }

  ghost predicate SequencesAscend(due: seq<ReportDue>) {
    forall i, j :: 0 <= i < j < |due| ==> due[i].sequence < due[j].sequence
  }

  /** Overdue is what was due by then; a report without a due time never is. */
  lemma {:induction false} OverdueMembers(due: seq<ReportDue>, at: Timestamp)
    ensures forall r :: r in OverdueOf(due, at) <==> r in due && r.dueAt.Some? && r.dueAt.value <= at
  {
    if due != [] {
      OverdueMembers(due[1..], at);
      assert due == [due[0]] + due[1..];
    }
  }

  lemma {:induction false} OverdueAscends(due: seq<ReportDue>, at: Timestamp)
    requires SequencesAscend(due)
    ensures SequencesAscend(OverdueOf(due, at))
  {
    if due != [] {
      OverdueAscends(due[1..], at);
      OverdueMembers(due[1..], at);
      var rest := OverdueOf(due[1..], at);
      forall j | 0 <= j < |rest| ensures due[0].sequence < rest[j].sequence {
        assert rest[j] in due[1..];
      }
    }
  }

  /** A schedule lists ascending numbers that fit 64 bits. */
  lemma ScheduleAscends(d: ReportDescriptor, s: IntervalSequence, from: Timestamp, to: Timestamp, o: ScheduleOptions)
    ensures SequencesAscend(Schedule(d, s, from, to, o).due)
    ensures forall r :: r in Schedule(d, s, from, to, o).due ==> r.sequence <= U64_MAX
  {
    if d.frequency != 0 && s.base != [] {
      var p := MakePlan(d, s, o);
      assert p.repeat <= U64_MAX;
      var next := DueMeaning(p, s, o.maxReports, from, to);
      var due := DueIn(p, s, o.maxReports, from, to);
      forall r | r in due ensures r.sequence <= U64_MAX {
        var i :| 0 <= i < |due| && due[i] == r;
        assert ListedOne(due[i], VisitsOf(p, s), p.repeat, FirstKReaching(p, s, from), next, from, to);
      }
    }
  }

  /** By event id, then by position of the descriptor, then by number. */
  predicate KeyBefore(k: Key, l: Key) {
    if k.event != l.event then LexLeq(k.event, l.event)
    else k.descriptor < l.descriptor || (k.descriptor == l.descriptor && k.sequence < l.sequence)
  }

  ghost predicate KeysAscend(due: seq<DueReport>) {
    forall i, j :: 0 <= i < j < |due| ==> KeyBefore(due[i].key, due[j].key)
  }

  lemma AscendingIsDistinct(due: seq<DueReport>)
    requires KeysAscend(due)
    ensures KeysDistinct(due)
  {
    forall i, j | 0 <= i < j < |due| ensures due[i].key != due[j].key {
      assert KeyBefore(due[i].key, due[j].key);
    }
  }

  /** Whatever is owed for an earlier element comes before whatever is owed for a later one. */
  ghost predicate Separate<T>(xs: seq<T>, owes: T -> seq<DueReport>) {
    forall i, j :: 0 <= i < j < |xs| ==> AllBefore(owes(xs[i]), owes(xs[j]))
  }

  ghost predicate AllBefore(a: seq<DueReport>, b: seq<DueReport>) {
    forall i, j :: 0 <= i < |a| && 0 <= j < |b| ==> KeyBefore(a[i].key, b[j].key)
  }

  /** Lists that ascend, and come one before the other, ascend when joined. */
  lemma {:induction false} FlatAscends<T>(xs: seq<T>, owes: T -> seq<DueReport>)
    requires forall i :: 0 <= i < |xs| ==> KeysAscend(owes(xs[i]))
    requires Separate(xs, owes)
    ensures KeysAscend(Flat(xs, owes))
  {
    if xs != [] {
      var init, last := xs[..|xs| - 1], xs[|xs| - 1];
      FlatAscends(init, owes);
      var a, b := Flat(init, owes), owes(last);
      forall i, j | 0 <= i < |a| && 0 <= j < |b| ensures KeyBefore(a[i].key, b[j].key) {
        var x := FlatMember(init, owes, a[i]);
        var k :| 0 <= k < |init| && init[k] == x;
        assert xs[k] == x && AllBefore(owes(xs[k]), owes(xs[|xs| - 1]));
      }
    }
  }

  lemma DescriptorOwesInOrder(c: VenConfig, e: Event, s: IntervalSequence, index: nat, d: ReportDescriptor,
      at: Timestamp)
    ensures KeysAscend(OwedByDescriptor(c, e, s, index, d, at))
    ensures forall r :: r in OwedByDescriptor(c, e, s, index, d, at) ==>
      r.key.event == e.id && r.key.descriptor == index && r.key.sequence <= U64_MAX
  {
    var schedule := Schedule(d, s, CatchupFrom(c, at), at, c.schedule);
    ScheduleAscends(d, s, CatchupFrom(c, at), at, c.schedule);
    OverdueAscends(schedule.due, at);
    OverdueMembers(schedule.due, at);
    var overdue := schedule.Overdue(at);
    forall i | 0 <= i < |overdue| ensures overdue[i].sequence <= U64_MAX {
      assert overdue[i] in overdue;
    }
  }

  lemma DescriptorsOweInOrder(c: VenConfig, e: Event, s: IntervalSequence, ds: seq<ReportDescriptor>, at: Timestamp)
    ensures KeysAscend(Flat(Indices(|ds|), ByDescriptor(c, e, s, ds, at)))
    ensures forall r :: r in Flat(Indices(|ds|), ByDescriptor(c, e, s, ds, at)) ==>
      r.key.event == e.id && r.key.sequence <= U64_MAX && r.key.descriptor < |ds|
  {
    var f := ByDescriptor(c, e, s, ds, at);
    forall index: nat
      ensures KeysAscend(f(index))
      ensures forall r :: r in f(index) ==>
        r.key.event == e.id && r.key.descriptor == index < |ds| && r.key.sequence <= U64_MAX
    {
      if index < |ds| { DescriptorOwesInOrder(c, e, s, index, ds[index], at); }
    }
    FlatAscends(Indices(|ds|), f);
    forall r: DueReport | r in Flat(Indices(|ds|), f)
      ensures r.key.event == e.id && r.key.sequence <= U64_MAX && r.key.descriptor < |ds|
    {
      var index := FlatMember(Indices(|ds|), f, r);
    }
  }

  lemma EventOwesInOrder(c: VenConfig, e: Event, anchors: Anchors, at: Timestamp)
    ensures KeysAscend(OwedByEvent(c, e, anchors, at))
    ensures forall r :: r in OwedByEvent(c, e, anchors, at) ==>
      && r.key.event == e.id && r.key.sequence <= U64_MAX
      && e.content.reportDescriptors.Some? && r.key.descriptor < |e.content.reportDescriptors.value|
  {
    var s := Sequence(ExpanderFor(c, anchors, e.id, at), e.content);
    if e.content.reportDescriptors.Some? && s.Ok? {
      DescriptorsOweInOrder(c, e, s.value, e.content.reportDescriptors.value, at);
    }
  }

  ghost predicate DescriptorsNumbered(events: Events) {
    forall id :: id in events && events[id].content.reportDescriptors.Some? ==>
      |events[id].content.reportDescriptors.value| <= U64_MAX
  }

  /** What the event under an id owes: in order, under its own id, in the exported form's range. */
  lemma HeldOwesInOrder(c: VenConfig, events: Events, anchors: Anchors, at: Timestamp, id: ObjectId)
    requires id in events && events[id].id == id && DescriptorsNumbered(events)
    ensures KeysAscend(ByEvent(c, events, anchors, at)(id))
    ensures forall r :: r in ByEvent(c, events, anchors, at)(id) ==> r.key.event == id && Bounded(r.key)
  {
    EventOwesInOrder(c, events[id], anchors, at);
  }

  lemma IdsSeparate(a: seq<DueReport>, b: seq<DueReport>, id: ObjectId, other: ObjectId)
    requires LexLeq(id, other) && id != other
    requires (forall r :: r in a ==> r.key.event == id) && forall r :: r in b ==> r.key.event == other
    ensures AllBefore(a, b)
  {
    forall i, j | 0 <= i < |a| && 0 <= j < |b| ensures KeyBefore(a[i].key, b[j].key) {
      assert a[i] in a && b[j] in b;
    }
  }

  lemma EventsSeparate(c: VenConfig, events: Events, anchors: Anchors, at: Timestamp)
    requires DescriptorsNumbered(events) && forall id :: id in events ==> events[id].id == id
    ensures Separate(SortedIds(events.Keys), ByEvent(c, events, anchors, at))
  {
    var f, ids := ByEvent(c, events, anchors, at), SortedIds(events.Keys);
    SortedIdsAscend(events.Keys);
    forall i, j | 0 <= i < j < |ids| ensures AllBefore(f(ids[i]), f(ids[j])) {
      HeldOwesInOrder(c, events, anchors, at, ids[i]);
      HeldOwesInOrder(c, events, anchors, at, ids[j]);
      IdsSeparate(f(ids[i]), f(ids[j]), ids[i], ids[j]);
    }
  }

  /** Reports are owed in ascending order of key, so no two share one; and every key fits the exported form. */
  lemma OwedInOrder(c: VenConfig, events: Events, anchors: Anchors, at: Timestamp)
    requires DescriptorsNumbered(events) && forall id :: id in events ==> events[id].id == id
    ensures KeysAscend(Owed(c, events, anchors, at)) && KeysDistinct(Owed(c, events, anchors, at))
    ensures forall r :: r in Owed(c, events, anchors, at) ==> Bounded(r.key) && r.key.event in events
  {
    var f, ids := ByEvent(c, events, anchors, at), SortedIds(events.Keys);
    EventsSeparate(c, events, anchors, at);
    forall i | 0 <= i < |ids| ensures KeysAscend(f(ids[i])) {
      HeldOwesInOrder(c, events, anchors, at, ids[i]);
    }
    FlatAscends(ids, f);
    AscendingIsDistinct(Owed(c, events, anchors, at));
    forall r | r in Owed(c, events, anchors, at) ensures Bounded(r.key) && r.key.event in events {
      var id := FlatMember(ids, f, r);
      HeldOwesInOrder(c, events, anchors, at, id);
    }
  }

  // ------------------------------------------------------------------------
  // Which reports
  // ------------------------------------------------------------------------

  /** The catch-up window opens so many seconds back, or with time itself. */
  lemma CatchupOpens(c: VenConfig, at: Timestamp)
    ensures CatchupFrom(c, at) == Max(at - c.reportCatchupSeconds * 1_000_000_000, MIN_TIME)
  {}

  /**
   The report one descriptor of one event owes under a scheduled report of its own: the event is read from
   where it is anchored, and the report fell due within the catch-up window.
   */
  ghost predicate OwedAs(c: VenConfig, e: Event, anchors: Anchors, at: Timestamp, index: nat, q: ReportDue,
      r: DueReport)
    requires e.id in anchors
  {
    var s := Sequence(Expander(anchors[e.id], true, 10_000, c.calendar, c.scalar), e.content);
    var from := Max(at - c.reportCatchupSeconds * 1_000_000_000, MIN_TIME);
    && s.Ok? && e.content.reportDescriptors.Some? && index < |e.content.reportDescriptors.value|
    && var d := e.content.reportDescriptors.value[index];
       && q in Schedule(d, s.value, from, at, c.schedule).due && q.dueAt.Some? && q.dueAt.value <= at
       && r.key == Key(e.id, index, q.sequence) && r.programId == e.content.programId
       && r.payloadType == d.payloadType && r.aggregate == d.aggregate
       && r.intervalIds == q.intervalIds && r.coversFrom == q.coversFrom && r.coversTo == q.coversTo
  }

  lemma DescriptorOwes(c: VenConfig, e: Event, s: IntervalSequence, index: nat, d: ReportDescriptor, at: Timestamp,
      r: DueReport)
    ensures r in OwedByDescriptor(c, e, s, index, d, at) <==>
      exists q :: q in Schedule(d, s, CatchupFrom(c, at), at, c.schedule).due && q.dueAt.Some? && q.dueAt.value <= at
        && r == MakeDue(e, index, d, q)
  {
    var schedule := Schedule(d, s, CatchupFrom(c, at), at, c.schedule);
    OverdueMembers(schedule.due, at);
    var overdue := schedule.Overdue(at);
    if r in OwedByDescriptor(c, e, s, index, d, at) {
      var i :| 0 <= i < |overdue| && OwedByDescriptor(c, e, s, index, d, at)[i] == r;
      assert overdue[i] in overdue;
    }
    if q :| q in schedule.due && q.dueAt.Some? && q.dueAt.value <= at && r == MakeDue(e, index, d, q) {
      assert q in overdue;
      var i :| 0 <= i < |overdue| && overdue[i] == q;
      assert OwedByDescriptor(c, e, s, index, d, at)[i] == r;
    }
  }

  lemma EventOwesOnly(c: VenConfig, e: Event, anchors: Anchors, at: Timestamp, r: DueReport)
      returns (index: nat, q: ReportDue)
    requires e.id in anchors && r in OwedByEvent(c, e, anchors, at)
    ensures OwedAs(c, e, anchors, at, index, q, r)
  {
    CatchupOpens(c, at);
    var s := Sequence(ExpanderFor(c, anchors, e.id, at), e.content).value;
    var ds := e.content.reportDescriptors.value;
    index := FlatMember(Indices(|ds|), ByDescriptor(c, e, s, ds, at), r);
    DescriptorOwes(c, e, s, index, ds[index], at, r);
    q :| q in Schedule(ds[index], s, CatchupFrom(c, at), at, c.schedule).due
      && q.dueAt.Some? && q.dueAt.value <= at && r == MakeDue(e, index, ds[index], q);
  }

  lemma EventOwesAll(c: VenConfig, e: Event, anchors: Anchors, at: Timestamp, r: DueReport, index: nat, q: ReportDue)
    requires e.id in anchors && OwedAs(c, e, anchors, at, index, q, r)
    ensures r in OwedByEvent(c, e, anchors, at)
  {
    CatchupOpens(c, at);
    var s := Sequence(ExpanderFor(c, anchors, e.id, at), e.content).value;
    var ds := e.content.reportDescriptors.value;
    DescriptorOwes(c, e, s, index, ds[index], at, r);
    assert Indices(|ds|)[index] == index;
    FlatContains(Indices(|ds|), ByDescriptor(c, e, s, ds, at), index, r);
  }

  /** Exactly these reports are owed: of every held event, of every descriptor, every one that has fallen due. */
  lemma OwedIff(c: VenConfig, events: Events, anchors: Anchors, at: Timestamp, r: DueReport)
    requires anchors.Keys == events.Keys && forall id :: id in events ==> events[id].id == id
    ensures r in Owed(c, events, anchors, at) <==>
      exists id, index: nat, q :: id in events && OwedAs(c, events[id], anchors, at, index, q, r)
  {
    var f, ids := ByEvent(c, events, anchors, at), SortedIds(events.Keys);
    if r in Owed(c, events, anchors, at) {
      var id := FlatMember(ids, f, r);
      var index, q := EventOwesOnly(c, events[id], anchors, at, r);
    }
    if id, index: nat, q :| id in events && OwedAs(c, events[id], anchors, at, index, q, r) {
      EventOwesAll(c, events[id], anchors, at, r, index, q);
      FlatContains(ids, f, id, r);
    }
  }

  // ------------------------------------------------------------------------
  // Filing
  // ------------------------------------------------------------------------

  lemma {:induction false} UnfiledMembers(owed: seq<DueReport>, reported: set<Key>)
    ensures forall r :: r in Unfiled(owed, reported) <==> r in owed && r.key !in reported
  {
    if owed != [] {
      var init, last := owed[..|owed| - 1], owed[|owed| - 1];
      UnfiledMembers(init, reported);
      assert owed == init + [last];
    }
  }

  lemma {:induction false} UnfiledDistinct(owed: seq<DueReport>, reported: set<Key>)
    requires KeysDistinct(owed)
    ensures KeysDistinct(Unfiled(owed, reported))
  {
    if owed != [] {
      var init, last := owed[..|owed| - 1], owed[|owed| - 1];
      UnfiledDistinct(init, reported);
      UnfiledMembers(init, reported);
      var a := Unfiled(init, reported);
      forall i | 0 <= i < |a| ensures a[i].key != last.key {
        assert a[i] in init;
      }
    }
  }

  /** Remembering more removes exactly what is newly remembered, keeping the order of the rest. */
  lemma {:induction false} UnfiledMore(owed: seq<DueReport>, reported: set<Key>, more: set<Key>)
    ensures Unfiled(owed, reported + more) == Unfiled(Unfiled(owed, reported), more)
  {
    if owed != [] {
      var init, last := owed[..|owed| - 1], owed[|owed| - 1];
      UnfiledMore(init, reported, more);
      UnfiledConcat(Unfiled(init, reported), if last.key in reported then [] else [last], more);
      assert Unfiled([last], more) == if last.key in more then [] else [last] by {
        assert [last][..0] == [];
      }
    }
  }
}
