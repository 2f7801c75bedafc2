/** What a VEN derives from the events it holds: one timeline a programme, and the reports it owes. */
module VenSchedule {
  import opened Wrappers
  import opened Arithmetic
  import opened Ordering
  import opened Sequences
  import opened Model
  import opened Intervals
  import opened Timelines
  import opened Reports

  /** Durations are in nanoseconds, except the catch-up window, which the program reads in seconds. */
  datatype VenConfig = VenConfig(
    pollInterval: nat,
    reportCatchupSeconds: nat,
    schedule: ScheduleOptions,
    calendar: Calendar,
    scalar: PayloadType -> bool)

  const TIMELINE_HORIZON: int := 48 * 3600 * NANOS_PER_SECOND
  const TIMELINE_REFRESH_SECONDS: int := 48 * 3600 / 2

  // ------------------------------------------------------------------------
  // Timelines
  // ------------------------------------------------------------------------

  /** `jiff`'s whole seconds, truncated toward the epoch. */
  function AsSecond(t: Timestamp): int {
    TruncDiv(t, NANOS_PER_SECOND)
  }

  function BuildFrom(c: VenConfig, now: Timestamp): Timestamp {
    var back := Shift(now, -(Max(c.pollInterval / NANOS_PER_SECOND, 1) * NANOS_PER_SECOND));
    if back.Some? then back.value else now
  }

  function BuildTo(now: Timestamp): Timestamp {
    var ahead := Shift(now, TIMELINE_HORIZON);
    if ahead.Some? then ahead.value else MAX_TIME
  }

  /** Whether timelines built at `built` no longer reach far enough ahead to act on. */
  predicate Stale(built: Timestamp, now: Timestamp) {
    now < built || AsSecond(now) - AsSecond(built) >= TIMELINE_REFRESH_SECONDS
  }

  type Events = map<ObjectId, Event>
  type Anchors = map<ObjectId, Timestamp>

  /** The expander of one event: anchored where the event was first read. */
  function ExpanderFor(c: VenConfig, anchors: Anchors, id: ObjectId, fallback: Timestamp): Expander {
    Expander(if id in anchors then anchors[id] else fallback, true, DEFAULT_LIMIT, c.calendar, c.scalar)
  }

  function EntryFor(c: VenConfig, e: Event, anchors: Anchors, now: Timestamp): Entry {
    Entry(e.id, e.content, ExpanderFor(c, anchors, e.id, now))
  }

  /** The entry of one event, if it belongs to the programme. */
  function Selecting(c: VenConfig, events: Events, anchors: Anchors, now: Timestamp, program: ObjectId)
      : ObjectId -> seq<Entry>
  {
    (id: ObjectId) =>
      if id in events && events[id].content.programId == program then [EntryFor(c, events[id], anchors, now)] else []
  }

  /** One programme's events, in ascending order of id. */
  function EntriesFor(c: VenConfig, events: Events, anchors: Anchors, now: Timestamp, program: ObjectId): seq<Entry> {
    Flat(SortedIds(events.Keys), Selecting(c, events, anchors, now, program))
  }

  ghost function Programs(events: Events): set<ObjectId> {
    set id | id in events :: events[id].content.programId
  }

  /** The timelines are those of these events and anchors, built at `at`. */
  ghost predicate BuiltAt(timelines: map<ObjectId, Timeline>, c: VenConfig, events: Events, anchors: Anchors,
      at: Timestamp)
  {
    && timelines.Keys == Programs(events)
    && forall p :: p in timelines ==>
      IsTimeline(timelines[p], EntriesFor(c, events, anchors, at, p), BuildFrom(c, at), BuildTo(at))
  }

  ghost predicate IsTimeline(t: Timeline, es: seq<Entry>, from: Timestamp, to: Timestamp) {
    t.segments == Segments(es, from, to) && t.skipped == Skipped(es, from, to)
  }

  method BuildOne(es: seq<Entry>, from: Timestamp, to: Timestamp) returns (t: Timeline)
    ensures IsTimeline(t, es, from, to)
  {
    t := BuildWith(es, from, to);
  }

  method BuildEach(g: map<ObjectId, seq<Entry>>, from: Timestamp, to: Timestamp)
      returns (timelines: map<ObjectId, Timeline>)
    ensures timelines.Keys == g.Keys
    ensures forall p :: p in timelines ==> IsTimeline(timelines[p], g[p], from, to)
  {
    timelines := map[];
    var todo := g.Keys;
    while todo != {}
      invariant todo <= g.Keys && timelines.Keys == g.Keys - todo
      invariant forall p :: p in timelines ==> IsTimeline(timelines[p], g[p], from, to)
      decreases todo
    {
      var p :| p in todo;
      var t := BuildOne(g[p], from, to);
      timelines := timelines[p := t];
      todo := todo - {p};
    }
  }

  /** `build_timelines`: group by programme, then one build each. */
  method BuildTimelines(c: VenConfig, events: Events, anchors: Anchors, now: Timestamp)
      returns (timelines: map<ObjectId, Timeline>)
    ensures BuiltAt(timelines, c, events, anchors, now)
  {
    var byProgram := GroupByProgram(c, events, anchors, now);
    timelines := BuildEach(byProgram, BuildFrom(c, now), BuildTo(now));
  }

  ghost predicate Grouped(g: map<ObjectId, seq<Entry>>, c: VenConfig, events: Events, anchors: Anchors, now: Timestamp,
      ids: seq<ObjectId>)
  {
    && (forall p: ObjectId :: p in g <==> GroupOf(g, p) != [])
    && (forall p: ObjectId :: GroupOf(g, p) == Flat(ids, Selecting(c, events, anchors, now, p)))
  }

  /** `by_program.entry(..).or_default().push(event)`. */
  method AddToGroup(g: map<ObjectId, seq<Entry>>, c: VenConfig, events: Events, anchors: Anchors, now: Timestamp,
      ghost ids: seq<ObjectId>, id: ObjectId)
    returns (r: map<ObjectId, seq<Entry>>)
    requires id in events && Grouped(g, c, events, anchors, now, ids)
    ensures Grouped(r, c, events, anchors, now, ids + [id])
  {
    var p := events[id].content.programId;
    r := g[p := GroupOf(g, p) + [EntryFor(c, events[id], anchors, now)]];
    forall q: ObjectId
      ensures GroupOf(r, q) == Flat(ids + [id], Selecting(c, events, anchors, now, q))
        && (q in r <==> GroupOf(r, q) != [])
    {
      GroupAfter(g, c, events, anchors, now, ids, id, q);
    }
  }

  lemma GroupAfter(g: map<ObjectId, seq<Entry>>, c: VenConfig, events: Events, anchors: Anchors, now: Timestamp,
      ids: seq<ObjectId>, id: ObjectId, q: ObjectId)
    requires id in events && Grouped(g, c, events, anchors, now, ids)
    ensures var p := events[id].content.programId;
      var r := g[p := GroupOf(g, p) + [EntryFor(c, events[id], anchors, now)]];
      GroupOf(r, q) == Flat(ids + [id], Selecting(c, events, anchors, now, q)) && (q in r <==> GroupOf(r, q) != [])
  {
    FlatSnoc(ids, id, Selecting(c, events, anchors, now, q));
    assert GroupOf(g, q) == Flat(ids, Selecting(c, events, anchors, now, q));
    assert q in g <==> GroupOf(g, q) != [];
  }

  method GroupIds(c: VenConfig, events: Events, anchors: Anchors, now: Timestamp, ids: seq<ObjectId>)
      returns (g: map<ObjectId, seq<Entry>>)
    requires forall id :: id in ids ==> id in events
    ensures Grouped(g, c, events, anchors, now, ids)
  {
    g := map[];
    ghost var done: seq<ObjectId> := [];
    for i := 0 to |ids|
      invariant done == ids[..i]
      invariant Grouped(g, c, events, anchors, now, done)
    {
      g := AddToGroup(g, c, events, anchors, now, done, ids[i]);
      done := done + [ids[i]];
    }
    assert done == ids;
  }

  method GroupByProgram(c: VenConfig, events: Events, anchors: Anchors, now: Timestamp)
      returns (g: map<ObjectId, seq<Entry>>)
    ensures g.Keys == Programs(events)
    ensures forall p :: p in g ==> g[p] == EntriesFor(c, events, anchors, now, p)
  {
    g := GroupIds(c, events, anchors, now, SortedIds(events.Keys));
    GroupedAll(g, c, events, anchors, now);
  }

  lemma GroupedAll(g: map<ObjectId, seq<Entry>>, c: VenConfig, events: Events, anchors: Anchors, now: Timestamp)
    requires Grouped(g, c, events, anchors, now, SortedIds(events.Keys))
    ensures g.Keys == Programs(events)
    ensures forall p :: p in g ==> g[p] == EntriesFor(c, events, anchors, now, p)
  {
    forall p: ObjectId ensures p in g <==> p in Programs(events) {
      ProgramHasEntries(c, events, anchors, now, p);
    }
  }

  function GroupOf(g: map<ObjectId, seq<Entry>>, p: ObjectId): seq<Entry> {
    if p in g then g[p] else []
  }

  lemma ProgramHasEntries(c: VenConfig, events: Events, anchors: Anchors, now: Timestamp, p: ObjectId)
    ensures EntriesFor(c, events, anchors, now, p) != [] <==> p in Programs(events)
  {
    var f, ids := Selecting(c, events, anchors, now, p), SortedIds(events.Keys);
    if p in Programs(events) {
      var id :| id in events && events[id].content.programId == p;
      FlatContains(ids, f, id, EntryFor(c, events[id], anchors, now));
    }
    if Flat(ids, f) != [] {
      var id := FlatMember(ids, f, Flat(ids, f)[0]);
    }
  }

  // ------------------------------------------------------------------------
  // What is in force
  // ------------------------------------------------------------------------

  function SegmentsAt(timelines: map<ObjectId, Timeline>, ids: seq<ObjectId>, at: Timestamp): seq<Segment>
    requires forall id :: id in ids ==> id in timelines
  {
    if ids == [] then []
    else
      SegmentsAt(timelines, ids[..|ids| - 1], at)
      + match timelines[ids[|ids| - 1]].At(at) case None => [] case Some(s) => [s]
  }

  predicate SegmentLeq(a: Segment, b: Segment) {
    KeyLeq(a.priority, a.eventId, b.priority, b.eventId)
  }

  /** `min_by`: the first of the least. */
  function LeastSegment(segments: seq<Segment>): Option<Segment> {
    if segments == [] then None
    else
      var init, last := LeastSegment(segments[..|segments| - 1]), segments[|segments| - 1];
      if init.None? || !SegmentLeq(init.value, last) then Some(last) else init
  }

  /** The highest-priority segment in force across every programme. */
  function ActiveAt(timelines: map<ObjectId, Timeline>, at: Timestamp): Option<Segment> {
    LeastSegment(SegmentsAt(timelines, SortedIds(timelines.Keys), at))
  }

  function NextChangeOf(timelines: map<ObjectId, Timeline>, ids: seq<ObjectId>, after: Timestamp): Option<Timestamp>
    requires forall id :: id in ids ==> id in timelines
  {
    if ids == [] then None
    else Earlier(NextChangeOf(timelines, ids[..|ids| - 1], after), timelines[ids[|ids| - 1]].NextChange(after))
  }

  function NextChange(timelines: map<ObjectId, Timeline>, after: Timestamp): Option<Timestamp> {
    NextChangeOf(timelines, SortedIds(timelines.Keys), after)
  }

  /** `time_to_next_wakeup`, in nanoseconds, with its u64 conversion. */
  function TimeToNextWakeup(c: VenConfig, timelines: map<ObjectId, Timeline>, now: Timestamp): nat {
    match NextChange(timelines, now)
    case None => c.pollInterval
    case Some(t) => Min(Min(Max(t - now, 0), U64_MAX), c.pollInterval)
  }

  // ------------------------------------------------------------------------
  // Reports owed
  // ------------------------------------------------------------------------

  /** A report is remembered by event, descriptor position and number. */
  datatype Key = Key(event: ObjectId, descriptor: nat, sequence: nat)

  datatype DueReport = DueReport(
    key: Key,
    programId: ObjectId,
    payloadType: PayloadType,
    aggregate: bool,
    intervalIds: seq<int>,
    coversFrom: Timestamp,
    coversTo: Option<Timestamp>)

  function CatchupFrom(c: VenConfig, at: Timestamp): Timestamp {
    var back := Shift(at, -(Min(c.reportCatchupSeconds, I64_MAX) * NANOS_PER_SECOND));
    if back.Some? then back.value else MIN_TIME
  }

  function MakeDue(e: Event, index: nat, d: ReportDescriptor, r: ReportDue): DueReport {
    DueReport(Key(e.id, index, r.sequence), e.content.programId, d.payloadType, d.aggregate, r.intervalIds,
      r.coversFrom, r.coversTo)
  }

  /** The reports of one descriptor that are due, filed or not. */
  function OwedByDescriptor(c: VenConfig, e: Event, s: IntervalSequence, index: nat, d: ReportDescriptor, at: Timestamp)
      : seq<DueReport>
  {
    var overdue := Schedule(d, s, CatchupFrom(c, at), at, c.schedule).Overdue(at);
    seq(|overdue|, i requires 0 <= i < |overdue| => MakeDue(e, index, d, overdue[i]))
  }

  function Indices(n: nat): seq<nat> {
    seq(n, i requires 0 <= i < n => i)
  }

  /** What each descriptor of an event owes, by position. */
  function ByDescriptor(c: VenConfig, e: Event, s: IntervalSequence, ds: seq<ReportDescriptor>, at: Timestamp)
      : nat -> seq<DueReport>
  {
    (index: nat) => if index < |ds| then OwedByDescriptor(c, e, s, index, ds[index], at) else []
  }

  /** An event that cannot be placed in time owes nothing, and stops no other. */
  function OwedByEvent(c: VenConfig, e: Event, anchors: Anchors, at: Timestamp): seq<DueReport> {
    if e.content.reportDescriptors.None? then []
    else
      match Sequence(ExpanderFor(c, anchors, e.id, at), e.content)
      case Err(_) => []
      case Ok(s) =>
        var ds := e.content.reportDescriptors.value;
        Flat(Indices(|ds|), ByDescriptor(c, e, s, ds, at))
  }

  /** What each held event owes, by id. */
  function ByEvent(c: VenConfig, events: Events, anchors: Anchors, at: Timestamp): ObjectId -> seq<DueReport> {
    (id: ObjectId) => if id in events then OwedByEvent(c, events[id], anchors, at) else []
  }

  function Owed(c: VenConfig, events: Events, anchors: Anchors, at: Timestamp): seq<DueReport> {
    Flat(SortedIds(events.Keys), ByEvent(c, events, anchors, at))
  }

  function Unfiled(owed: seq<DueReport>, reported: set<Key>): seq<DueReport> {
    if owed == [] then []
    else Unfiled(owed[..|owed| - 1], reported) + if owed[|owed| - 1].key in reported then [] else [owed[|owed| - 1]]
  }

  /** `due_reports`: owed at `at` and not remembered as filed. */
  function DueReports(c: VenConfig, events: Events, anchors: Anchors, reported: set<Key>, at: Timestamp)
      : seq<DueReport>
  {
    Unfiled(Owed(c, events, anchors, at), reported)
  }

  lemma UnfiledConcat(a: seq<DueReport>, b: seq<DueReport>, reported: set<Key>)
    ensures Unfiled(a + b, reported) == Unfiled(a, reported) + Unfiled(b, reported)
  {
    if b == [] {
      assert a + b == a;
    } else {
      assert (a + b)[..|a + b| - 1] == a + b[..|b| - 1];
      UnfiledConcat(a, b[..|b| - 1], reported);
    }
  }

  /** The innermost loop of `due_reports`. */
  method DueOfDescriptor(c: VenConfig, e: Event, s: IntervalSequence, index: nat, d: ReportDescriptor,
      reported: set<Key>, at: Timestamp)
    returns (due: seq<DueReport>)
    ensures due == Unfiled(OwedByDescriptor(c, e, s, index, d, at), reported)
  {
    var schedule := Compute(d, s, CatchupFrom(c, at), at, c.schedule);
    var overdue := schedule.Overdue(at);
    ghost var owed := OwedByDescriptor(c, e, s, index, d, at);
    due := [];
    for i := 0 to |overdue|
      invariant due == Unfiled(owed[..i], reported)
    {
      assert owed[..i + 1][..i] == owed[..i];
      var entry := MakeDue(e, index, d, overdue[i]);
      if entry.key !in reported { due := due + [entry]; }
    }
    assert owed[..|owed|] == owed;
  }

  /** One turn of a loop that appends what each element owes and has not filed. */
  lemma UnfiledNext<T>(xs: seq<T>, owes: T -> seq<DueReport>, i: nat, reported: set<Key>)
    requires i < |xs|
    ensures Unfiled(Flat(xs[..i + 1], owes), reported)
      == Unfiled(Flat(xs[..i], owes), reported) + Unfiled(owes(xs[i]), reported)
  {
    FlatLast(xs, owes, i);
    UnfiledConcat(Flat(xs[..i], owes), owes(xs[i]), reported);
  }

  method DueOfDescriptors(c: VenConfig, e: Event, s: IntervalSequence, ds: seq<ReportDescriptor>, reported: set<Key>,
      at: Timestamp)
    returns (due: seq<DueReport>)
    ensures due == Unfiled(Flat(Indices(|ds|), ByDescriptor(c, e, s, ds, at)), reported)
  {
    due := [];
    ghost var all := Indices(|ds|);
    for index := 0 to |ds|
      invariant due == Unfiled(Flat(all[..index], ByDescriptor(c, e, s, ds, at)), reported)
    {
      UnfiledNext(all, ByDescriptor(c, e, s, ds, at), index, reported);
      var more := DueOfDescriptor(c, e, s, index, ds[index], reported, at);
      due := due + more;
    }
    assert all[..|ds|] == all;
  }

  method DueOfEvent(c: VenConfig, e: Event, anchors: Anchors, reported: set<Key>, at: Timestamp)
      returns (due: seq<DueReport>)
    ensures due == Unfiled(OwedByEvent(c, e, anchors, at), reported)
  {
    if e.content.reportDescriptors.None? { return []; }
    var s := BuildSequence(ExpanderFor(c, anchors, e.id, at), e.content);
    if s.Err? { return []; }
    due := DueOfDescriptors(c, e, s.value, e.content.reportDescriptors.value, reported, at);
  }

  method ComputeDueReports(c: VenConfig, events: Events, anchors: Anchors, reported: set<Key>, at: Timestamp)
    returns (due: seq<DueReport>)
    ensures due == DueReports(c, events, anchors, reported, at)
  {
    var ids := SortedIds(events.Keys);
    due := [];
    for i := 0 to |ids|
      invariant due == Unfiled(Flat(ids[..i], ByEvent(c, events, anchors, at)), reported)
    {
      assert ids[i] in ids;
      UnfiledNext(ids, ByEvent(c, events, anchors, at), i, reported);
      var more := DueOfEvent(c, events[ids[i]], anchors, reported, at);
      due := due + more;
    }
    assert ids[..|ids|] == ids;
  }
}
