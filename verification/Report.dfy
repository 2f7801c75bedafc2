/** When a VEN owes a report, and which intervals the report covers. */
module Reports {
  import opened Wrappers
  import opened Arithmetic
  import opened Model
  import opened Intervals

  datatype ReportDue = ReportDue(
    sequence: nat,
    dueAt: Option<Timestamp>,
    coversFrom: Timestamp,
    coversTo: Option<Timestamp>,
    intervalIds: seq<int>)

  datatype ScheduleOptions = ScheduleOptions(
    startIntervalIsFirstCovered: bool,
    maxReports: nat,
    maxIntervals: nat)

  datatype ReportSchedule = ReportSchedule(due: seq<ReportDue>, adHoc: bool, venChoosesIntervals: bool)
  {
    /** Reports that became due at or before an instant. */
    function Overdue(at: Timestamp): seq<ReportDue> {
      OverdueOf(due, at)
    }
  }

  function OverdueOf(due: seq<ReportDue>, at: Timestamp): seq<ReportDue> {
    if due == [] then []
    else if due[0].dueAt.Some? && due[0].dueAt.value <= at then [due[0]] + OverdueOf(due[1..], at)
    else OverdueOf(due[1..], at)
  }

  /** The four integers of a descriptor with every sentinel resolved against one sequence. */
  datatype Plan = Plan(
    bounded: bool,
    declared: int,
    num: int,
    anchor0: int,
    step: int,
    repeat: nat,
    backwards: bool,
    venChooses: bool)

  function MakePlan(d: ReportDescriptor, s: IntervalSequence, o: ScheduleOptions): (p: Plan)
    requires s.base != []
    ensures p.num >= 1 && p.anchor0 >= 0 && p.step >= 1 && p.declared == |s.base|
    ensures p.bounded ==> p.num <= p.declared && p.anchor0 <= p.declared - 1
    ensures p.bounded <==> s.period.None?
  {
    var declared := |s.base|;
    var bounded := s.period.None?;
    var asked := if d.numIntervals < 0 then declared else d.numIntervals;
    var num := Max(if bounded then Min(asked, declared) else Min(asked, o.maxIntervals), 1);
    var anchor0 := Max(
      if d.startInterval < 0 then
        if o.startIntervalIsFirstCovered then Max(declared - num, 0)
        else if d.historical then declared - 1
        else 0
      else if bounded then Min(d.startInterval, declared - 1)
      else d.startInterval, 0);
    var step := Max(if d.frequency < 0 then num else d.frequency, 1);
    var repeat := if d.repeat < 0 then U64_MAX else d.repeat;
    Plan(bounded, declared, num, anchor0, step, repeat,
         d.historical && !o.startIntervalIsFirstCovered, d.openIntervals || s.implied)
  }

  /** The interval report `k` anchors on, in saturating 64-bit arithmetic. */
  function Anchor(p: Plan, k: nat): int {
    SaturateI64(p.anchor0 + SaturateI64(AsI64(k) * p.step))
  }

  /** The first interval report `k` covers. */
  function FirstOf(p: Plan, k: nat): nat {
    Max(if p.backwards then SaturateI64(SaturateI64(Anchor(p, k) - p.num) + 1) else Anchor(p, k), 0)
  }

  /** The last interval report `k` may cover, clamped to a bounded sequence. */
  function LastOf(p: Plan, k: nat): int {
    var last := if p.backwards then Anchor(p, k) else SaturateI64(SaturateI64(Anchor(p, k) + p.num) - 1);
    if p.bounded then Min(last, p.declared - 1) else last
  }

  /** What an index of the sequence holds. */
  type Lookup = nat -> Result<Option<ExpandedInterval>, ExpandError>

  function LookupOf(s: IntervalSequence): Lookup {
    (i: nat) => Get(s, i)
  }

  datatype Coverage = Coverage(from: Timestamp, to: Option<Timestamp>, ids: seq<int>)

  /** Extend a coverage over `[index, last]`, stopping where the event ends; an error loses it all. */
  function Extend(g: Lookup, index: nat, last: int, c: Coverage): Option<Coverage>
    decreases last - index
  {
    if index > last then Some(c)
    else
      match g(index)
      case Err(_) => None
      case Ok(None) => Some(c)
      case Ok(Some(iv)) => Extend(g, index + 1, last, Coverage(c.from, iv.end, c.ids + [iv.id]))
  }

  /** `collect`: `None` once the first index is past the event's own end. */
  function Cover(g: Lookup, first: nat, last: int): Option<Coverage> {
    match g(first)
    case Err(_) => None
    case Ok(None) => None
    case Ok(Some(iv)) => Extend(g, first + 1, last, Coverage(iv.start, iv.end, [iv.id]))
  }

  method CollectCoverage(g: Lookup, first: nat, last: int) returns (r: Option<Coverage>)
    ensures r == Cover(g, first, last)
  {
    var start := g(first);
    if start.Err? || start.value.None? { return None; }
    var c := Coverage(start.value.value.start, start.value.value.end, [start.value.value.id]);
    var index := first + 1;
    while index <= last
      invariant Cover(g, first, last) == Extend(g, index, last, c)
      decreases last - index
    {
      var iv := g(index);
      if iv.Err? { return None; }
      if iv.value.None? { break; }
      c := Coverage(c.from, iv.value.value.end, c.ids + [iv.value.value.id]);
      index := index + 1;
    }
    r := Some(c);
  }

  /** What the walk finds at a report number, from the number alone: no window is consulted. */
  datatype Visit = Nothing | Skip | Report(due: ReportDue)

  /** A report is due at its anchor's boundary: its end reporting backwards, its start forwards. */
  function MakeReport(p: Plan, k: nat, c: Coverage): ReportDue {
    ReportDue(k, if p.backwards then c.to else Some(c.from), c.from, c.to, if p.venChooses then [] else c.ids)
  }

  function VisitAt(p: Plan, g: Lookup, k: nat): Visit {
    if p.bounded && FirstOf(p, k) >= p.declared then Nothing
    else if LastOf(p, k) < FirstOf(p, k) then Skip
    else
      var c := Cover(g, FirstOf(p, k), LastOf(p, k));
      if c.None? then Nothing else Report(MakeReport(p, k, c.value))
  }

  type Visits = nat -> Visit

  function VisitsOf(p: Plan, s: IntervalSequence): Visits {
    (k: nat) => VisitAt(p, LookupOf(s), k)
  }

  /** `first_k_reaching`: the first `k` whose anchor can fall at or after `from`. */
  function FirstKReaching(p: Plan, s: IntervalSequence, from: Timestamp): nat
    requires p.step >= 1
  {
    if s.period.None? || s.period.value <= 0 || |s.base| == 0 then 0
    else
      var delta := from - s.start;
      if delta <= 0 then 0
      else
        var occurrence := Max(delta / s.period.value - 1, 0);
        if occurrence > I64_MAX then 0
        else
          var ahead := SaturateI64(SaturateI64(occurrence * |s.base|) - p.anchor0);
          if ahead <= 0 then 0 else CeilDiv(ahead, p.step)
  }

  /** Whether a report with this due time belongs to the window; an unknown one always does. */
  predicate Wanted(dueAt: Option<Timestamp>, from: Timestamp, to: Timestamp) {
    dueAt.Some? ==> from <= dueAt.value <= to
  }

  /** Whether the walk breaks: nothing there, or a report due after the window. */
  predicate Stops(v: Visit, to: Timestamp) {
    v.Nothing? || (v.Report? && v.due.dueAt.Some? && v.due.dueAt.value > to)
  }

  /** The rest of the walk, from report `k` with the list so far. */
  function WalkFrom(v: Visits, repeat: nat, max: nat, from: Timestamp, to: Timestamp, k: nat, due: seq<ReportDue>)
      : seq<ReportDue>
    decreases repeat - k
  {
    if k >= repeat || |due| >= max || Stops(v(k), to) then due
    else
      WalkFrom(v, repeat, max, from, to, k + 1,
               if v(k).Report? && Wanted(v(k).due.dueAt, from, to) then due + [v(k).due] else due)
  }

  /** The reports due in `[from, to]`. */
  function DueIn(p: Plan, s: IntervalSequence, max: nat, from: Timestamp, to: Timestamp): seq<ReportDue>
    requires p.step >= 1
  {
    WalkFrom(VisitsOf(p, s), p.repeat, max, from, to, FirstKReaching(p, s, from), [])
  }

  function Schedule(d: ReportDescriptor, s: IntervalSequence, from: Timestamp, to: Timestamp, o: ScheduleOptions)
      : ReportSchedule
  {
    if d.frequency == 0 || s.base == [] then ReportSchedule([], true, d.openIntervals || s.implied || s.base == [])
    else ReportSchedule(DueIn(MakePlan(d, s, o), s, o.maxReports, from, to), false, d.openIntervals || s.implied)
  }

  /** One turn of the walk: the range, its clamps and its coverage. */
  method VisitReport(p: Plan, g: Lookup, k: nat) returns (v: Visit)
    ensures v == VisitAt(p, g, k)
  {
    var first, last := FirstOf(p, k), LastOf(p, k);
    if p.bounded && first >= p.declared { return Nothing; }
    if last < first { return Skip; }
    var covered := CollectCoverage(g, first, last);
    if covered.None? { return Nothing; }
    v := Report(MakeReport(p, k, covered.value));
  }

  /** The loop of `compute_with`: a walk over report numbers, breaking at the first that must be the last. */
  method Walk(p: Plan, s: IntervalSequence, max: nat, from: Timestamp, to: Timestamp) returns (due: seq<ReportDue>)
    requires p.step >= 1
    ensures due == DueIn(p, s, max, from, to)
  {
    ghost var v := VisitsOf(p, s);
    due := [];
    var k := FirstKReaching(p, s, from);
    while k < p.repeat && |due| < max
      invariant DueIn(p, s, max, from, to) == WalkFrom(v, p.repeat, max, from, to, k, due)
      decreases p.repeat - k
    {
      var visit := VisitReport(p, LookupOf(s), k);
      assert visit == v(k);
      if Stops(visit, to) { break; }
      if visit.Report? && Wanted(visit.due.dueAt, from, to) {
        due := due + [visit.due];
      }
      k := k + 1;
    }
  }

  /** `compute_with`. */
  method Compute(d: ReportDescriptor, s: IntervalSequence, from: Timestamp, to: Timestamp, o: ScheduleOptions)
    returns (r: ReportSchedule)
    ensures r == Schedule(d, s, from, to, o)
    ensures r.adHoc <==> d.frequency == 0 || s.base == []
    ensures r.adHoc ==> r.due == []
    ensures r.venChoosesIntervals <==> d.openIntervals || s.implied || s.base == []
  {
    if d.frequency == 0 || s.base == [] {
      return ReportSchedule([], true, d.openIntervals || s.implied || s.base == []);
    }
    var due := Walk(MakePlan(d, s, o), s, o.maxReports, from, to);
    r := ReportSchedule(due, false, d.openIntervals || s.implied);
  }
}
