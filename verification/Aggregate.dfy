/** Summing per-resource series into the one series an aggregate report carries. */
module Aggregation {
  import opened Wrappers
  import opened Model
  import opened Sequences

  datatype ReportResource = ReportResource(name: string, intervalPeriod: Option<IntervalPeriod>,
    intervals: seq<Interval>)

  const AGGREGATED: string := "AGGREGATED_REPORT"

  datatype AggregateError =
    | NotSummable(payloadType: PayloadType)
    | Ragged(payloadType: PayloadType, interval: int, expected: nat, found: nat)

  // ------------------------------------------------------------------------
  // Values
  // ------------------------------------------------------------------------

  function AsDecimal(v: Value): Option<real> {
    match v
    case Integer(i) => Some(i as real)
    case Number(d) => Some(d)
    case _ => None
  }

  /** Semantic equality: an integer equals the same number. */
  predicate ValueEq(a: Value, b: Value) {
    if AsDecimal(a).Some? && AsDecimal(b).Some? then AsDecimal(a) == AsDecimal(b) else a == b
  }

  predicate ValuesEq(a: seq<Value>, b: seq<Value>) {
    |a| == |b| && forall i :: 0 <= i < |a| ==> ValueEq(a[i], b[i])
  }

  predicate Numeric(values: seq<Value>) {
    forall i :: 0 <= i < |values| ==> AsDecimal(values[i]).Some?
  }

  predicate Summable(reported: seq<seq<Value>>) {
    forall i :: 0 <= i < |reported| ==> Numeric(reported[i])
  }

  function Decimal(values: seq<Value>, pos: nat): real
    requires pos < |values| && Numeric(values)
  {
    AsDecimal(values[pos]).value
  }

  predicate SameLengths(reported: seq<seq<Value>>, n: nat) {
    forall i :: 0 <= i < |reported| ==> |reported[i]| == n
  }

  /** The sum of one position over every reported entry. */
  function ColumnSum(reported: seq<seq<Value>>, pos: nat, n: nat): real
    requires Summable(reported) && SameLengths(reported, n) && pos < n
  {
    if reported == [] then 0.0
    else ColumnSum(reported[..|reported| - 1], pos, n) + Decimal(reported[|reported| - 1], pos)
  }

  /** Every entry reports the values of the first. */
  predicate Unanimous(reported: seq<seq<Value>>)
    requires reported != []
  {
    forall i :: 0 <= i < |reported| ==> ValuesEq(reported[i], reported[0])
  }

  /** What there is to report of a series: the position-wise sum, or the value all agree on. */
  predicate Combinable(reported: seq<seq<Value>>) {
    reported == [] || if Summable(reported) then SameLengths(reported, |reported[0]|) else Unanimous(reported)
  }

  predicate IsCombination(reported: seq<seq<Value>>, values: seq<Value>) {
    if reported == [] then values == []
    else
      && Combinable(reported)
      && if Summable(reported) then
           |values| == |reported[0]| && forall pos: nat :: pos < |values| ==>
             values[pos] == Number(ColumnSum(reported, pos, |values|))
         else values == reported[0]
  }

  /** `combine`: sum position by position, or carry through what everybody reported, or refuse. */
  method Combine(payloadType: PayloadType, interval: int, reported: seq<seq<Value>>)
    returns (r: Result<seq<Value>, AggregateError>)
    ensures r.Ok? <==> Combinable(reported)
    ensures r.Ok? ==> IsCombination(reported, r.value)
    ensures r.Err? && !Summable(reported) ==> r.error == NotSummable(payloadType)
    ensures r.Err? && Summable(reported) ==>
      r.error == Ragged(payloadType, interval, |reported[0]|, FirstOther(reported, |reported[0]|))
  {
    if reported == [] { return Ok([]); }
    var first := reported[0];
    if !Summable(reported) {
      if Unanimous(reported) { return Ok(first); }
      return Err(NotSummable(payloadType));
    }
    var total: seq<Value> := seq(|first|, i requires 0 <= i < |first| => Number(Decimal(first, i)));
    var k := 1;
    assert reported[..1] == [first];
    assert forall pos: nat :: pos < |first| ==> ColumnSum([first], pos, |first|) == 0.0 + Decimal(first, pos);
    while k < |reported|
      invariant 1 <= k <= |reported| && |total| == |first|
      invariant SameLengths(reported[..k], |first|) && Summable(reported[..k])
      invariant forall pos: nat :: pos < |first| ==> total[pos] == Number(ColumnSum(reported[..k], pos, |first|))
    {
      var values := reported[k];
      if |values| != |total| {
        FirstOtherFound(reported, |first|, k);
        return Err(Ragged(payloadType, interval, |total|, |values|));
      }
      assert reported[..k + 1][..k] == reported[..k] && reported[..k + 1][k] == values;
      total := seq(|total|, i requires 0 <= i < |total| => Number(AsDecimal(total[i]).value + Decimal(values, i)));
      k := k + 1;
    }
    assert reported[..k] == reported;
    r := Ok(total);
  }

  /** The length of the first entry that differs from `n`. */
  function FirstOther(reported: seq<seq<Value>>, n: nat): nat {
    if reported == [] then n else if |reported[0]| != n then |reported[0]| else FirstOther(reported[1..], n)
  }

  lemma {:induction false} FirstOtherFound(reported: seq<seq<Value>>, n: nat, k: nat)
    requires k < |reported| && |reported[k]| != n && SameLengths(reported[..k], n)
    ensures FirstOther(reported, n) == |reported[k]|
  {
    if k > 0 {
      assert reported[..k][0] == reported[0];
      assert reported[1..][..k - 1] == reported[..k][1..];
      FirstOtherFound(reported[1..], n, k - 1);
    }
  }

  // ------------------------------------------------------------------------
  // Everything that was reported
  // ------------------------------------------------------------------------

  datatype Reading = Reading(id: int, valueType: PayloadType, values: seq<Value>)

  function PayloadReadings(id: int, payloads: seq<ValuesMap>): seq<Reading> {
    seq(|payloads|, i requires 0 <= i < |payloads| => Reading(id, payloads[i].valueType, payloads[i].values))
  }

  const INTERVAL_READINGS: Interval -> seq<Reading> := (iv: Interval) => PayloadReadings(iv.id, iv.payloads)

  const RESOURCE_READINGS: ReportResource -> seq<Reading> := (r: ReportResource) => Flat(r.intervals, INTERVAL_READINGS)

  /** Every payload of every interval of every resource, in order. */
  function Readings(rs: seq<ReportResource>): seq<Reading> {
    Flat(rs, RESOURCE_READINGS)
  }

  /** What was reported for one payload type in one interval. */
  function Reported(readings: seq<Reading>, id: int, valueType: PayloadType): seq<seq<Value>> {
    if readings == [] then []
    else
      var init, last := Reported(readings[..|readings| - 1], id, valueType), readings[|readings| - 1];
      if last.id == id && last.valueType == valueType then init + [last.values] else init
  }

  ghost function IntervalIds(intervals: seq<Interval>): set<int> {
    set iv | iv in intervals :: iv.id
  }

  lemma ReportedSnoc(readings: seq<Reading>, x: Reading, id: int, valueType: PayloadType)
    ensures Reported(readings + [x], id, valueType)
      == if x.id == id && x.valueType == valueType then Reported(readings, id, valueType) + [x.values]
        else Reported(readings, id, valueType)
  {
    assert (readings + [x])[..|readings|] == readings;
  }

  // ------------------------------------------------------------------------
  // Gathering
  // ------------------------------------------------------------------------

  /** Payload type to the entries reported for it, in first-seen order. */
  type Series = seq<(PayloadType, seq<seq<Value>>)>

  function Types(series: Series): (r: seq<PayloadType>)
    ensures |r| == |series|
  {
    seq(|series|, i requires 0 <= i < |series| => series[i].0)
  }

  /** The types reported for an interval, in the order they are first seen. */
  function TypesOf(readings: seq<Reading>, id: int): seq<PayloadType> {
    if readings == [] then []
    else
      var init, last := TypesOf(readings[..|readings| - 1], id), readings[|readings| - 1];
      if last.id == id && last.valueType !in init then init + [last.valueType] else init
  }

  lemma TypesSnoc(readings: seq<Reading>, x: Reading, id: int)
    ensures TypesOf(readings + [x], id)
      == if x.id == id && x.valueType !in TypesOf(readings, id) then TypesOf(readings, id) + [x.valueType]
        else TypesOf(readings, id)
  {
    assert (readings + [x])[..|readings|] == readings;
  }

  /** Each type is listed once, and just those that were reported are. */
  lemma {:induction false} TypesOfMeaning(readings: seq<Reading>, id: int)
    ensures forall i, j :: 0 <= i < j < |TypesOf(readings, id)| ==> TypesOf(readings, id)[i] != TypesOf(readings, id)[j]
    ensures forall t: PayloadType :: t in TypesOf(readings, id) <==> Reported(readings, id, t) != []
  {
    if readings != [] {
      TypesOfMeaning(readings[..|readings| - 1], id);
    }
  }

  /** The series lists each reported type of the interval, in first-seen order, with exactly its entries. */
  ghost predicate SeriesOf(series: Series, readings: seq<Reading>, id: int) {
    && Types(series) == TypesOf(readings, id)
    && forall i :: 0 <= i < |series| ==> series[i].1 == Reported(readings, id, series[i].0)
  }

  function FindType(series: Series, valueType: PayloadType): (i: nat)
    ensures i <= |series|
    ensures i < |series| ==> series[i].0 == valueType
    ensures forall j :: 0 <= j < i ==> series[j].0 != valueType
  {
    if series == [] then 0
    else if series[0].0 == valueType then 0
    else
      assert forall j :: 1 <= j < |series| ==> series[j] == series[1..][j - 1];
      1 + FindType(series[1..], valueType)
  }

  /** `Some((_, reported)) => push`, `None => push` of the gathering loop. */
  method Push(series: Series, x: Reading, ghost readings: seq<Reading>) returns (r: Series)
    requires SeriesOf(series, readings, x.id)
    ensures SeriesOf(r, readings + [x], x.id)
  {
    var i := FindType(series, x.valueType);
    ghost var types := Types(series);
    TypesOfMeaning(readings, x.id);
    TypesSnoc(readings, x, x.id);
    if i < |series| {
      r := series[i := (x.valueType, series[i].1 + [x.values])];
      assert types[i] == x.valueType && Types(r) == types;
    } else {
      r := series + [(x.valueType, [x.values])];
      assert x.valueType !in types && Types(r) == types + [x.valueType];
    }
    forall j | 0 <= j < |r| ensures r[j].1 == Reported(readings + [x], x.id, r[j].0) {
      ReportedSnoc(readings, x, x.id, r[j].0);
      assert j < |types| ==> types[j] == series[j].0;
    }
  }

  ghost predicate Gathered(collected: map<int, Series>, readings: seq<Reading>, ids: set<int>) {
    && collected.Keys == ids
    && (forall id :: id in collected ==> SeriesOf(collected[id], readings, id))
    && (forall id: int, t: PayloadType :: id !in ids ==> Reported(readings, id, t) == [])
    && (forall id: int :: id !in ids ==> TypesOf(readings, id) == [])
  }

  lemma OtherIdsUnchanged(readings: seq<Reading>, more: seq<Reading>, own: int, id: int, t: PayloadType)
    requires own != id && forall x :: x in more ==> x.id == own
    ensures Reported(readings + more, id, t) == Reported(readings, id, t)
  {
    if more == [] {
      assert readings + more == readings;
    } else {
      var init := more[..|more| - 1];
      OtherIdsUnchanged(readings, init, own, id, t);
      assert readings + more == (readings + init) + [more[|more| - 1]];
      ReportedSnoc(readings + init, more[|more| - 1], id, t);
    }
  }

  lemma SeriesCongruent(series: Series, readings: seq<Reading>, readings': seq<Reading>, id: int)
    requires SeriesOf(series, readings, id)
    requires forall t: PayloadType :: Reported(readings', id, t) == Reported(readings, id, t)
    requires TypesOf(readings', id) == TypesOf(readings, id)
    ensures SeriesOf(series, readings', id)
  {}

  lemma OtherTypesUnchanged(readings: seq<Reading>, more: seq<Reading>, own: int, id: int)
    requires own != id && forall x :: x in more ==> x.id == own
    ensures TypesOf(readings + more, id) == TypesOf(readings, id)
  {
    if more == [] {
      assert readings + more == readings;
    } else {
      var init := more[..|more| - 1];
      OtherTypesUnchanged(readings, init, own, id);
      assert readings + more == (readings + init) + [more[|more| - 1]];
      TypesSnoc(readings + init, more[|more| - 1], id);
    }
  }

  /** The innermost collecting loop: one interval's payloads. */
  method GatherPayloads(before: Series, iv: Interval, ghost readings: seq<Reading>) returns (series: Series)
    requires SeriesOf(before, readings, iv.id)
    ensures SeriesOf(series, readings + INTERVAL_READINGS(iv), iv.id)
  {
    series := before;
    assert readings + PayloadReadings(iv.id, iv.payloads[..0]) == readings;
    for i := 0 to |iv.payloads|
      invariant SeriesOf(series, readings + PayloadReadings(iv.id, iv.payloads[..i]), iv.id)
    {
      var p := iv.payloads[i];
      var x := Reading(iv.id, p.valueType, p.values);
      assert readings + PayloadReadings(iv.id, iv.payloads[..i + 1])
        == (readings + PayloadReadings(iv.id, iv.payloads[..i])) + [x];
      series := Push(series, x, readings + PayloadReadings(iv.id, iv.payloads[..i]));
    }
    assert iv.payloads[..|iv.payloads|] == iv.payloads;
  }

  lemma GatheredNext(collected: map<int, Series>, series: Series, iv: Interval, readings: seq<Reading>, ids: set<int>)
    requires Gathered(collected, readings, ids) && SeriesOf(series, readings + INTERVAL_READINGS(iv), iv.id)
    ensures Gathered(collected[iv.id := series], readings + INTERVAL_READINGS(iv), ids + {iv.id})
  {
    var after, r := readings + INTERVAL_READINGS(iv), collected[iv.id := series];
    forall id: int, t: PayloadType | id != iv.id ensures Reported(after, id, t) == Reported(readings, id, t) {
      OtherIdsUnchanged(readings, INTERVAL_READINGS(iv), iv.id, id, t);
    }
    forall id | id != iv.id ensures TypesOf(after, id) == TypesOf(readings, id) {
      OtherTypesUnchanged(readings, INTERVAL_READINGS(iv), iv.id, id);
    }
    forall id | id in r && id != iv.id ensures SeriesOf(r[id], after, id) {
      SeriesCongruent(collected[id], readings, after, id);
    }
  }

  /** The payloads of one interval join the series of its id. */
  method GatherInterval(collected: map<int, Series>, iv: Interval, ghost readings: seq<Reading>, ghost ids: set<int>)
    returns (r: map<int, Series>)
    requires Gathered(collected, readings, ids)
    ensures Gathered(r, readings + INTERVAL_READINGS(iv), ids + {iv.id})
  {
    var before := if iv.id in collected then collected[iv.id] else [];
    assert SeriesOf(before, readings, iv.id);
    var series := GatherPayloads(before, iv, readings);
    GatheredNext(collected, series, iv, readings, ids);
    r := collected[iv.id := series];
  }

  /** `periods` keeps the timing of the first interval seen under each id. */
  function FirstPeriod(intervals: seq<Interval>, id: int): Option<Option<IntervalPeriod>> {
    if intervals == [] then None
    else if intervals[0].id == id then Some(intervals[0].intervalPeriod)
    else FirstPeriod(intervals[1..], id)
  }

  const RESOURCE_INTERVALS: ReportResource -> seq<Interval> := (r: ReportResource) => r.intervals

  function AllIntervals(rs: seq<ReportResource>): seq<Interval> {
    Flat(rs, RESOURCE_INTERVALS)
  }

  lemma {:induction false} FirstPeriodSnoc(intervals: seq<Interval>, iv: Interval, id: int)
    ensures FirstPeriod(intervals + [iv], id)
      == if FirstPeriod(intervals, id).Some? then FirstPeriod(intervals, id)
         else if iv.id == id then Some(iv.intervalPeriod)
         else None
  {
    if intervals != [] {
      FirstPeriodSnoc(intervals[1..], iv, id);
      assert (intervals + [iv])[1..] == intervals[1..] + [iv];
    }
  }

  /** The first outer period any resource states. */
  function OuterPeriod(rs: seq<ReportResource>): Option<IntervalPeriod> {
    if rs == [] then None
    else
      var init := OuterPeriod(rs[..|rs| - 1]);
      if init.Some? then init else rs[|rs| - 1].intervalPeriod
  }

  ghost predicate PeriodsOf(periods: map<int, Option<IntervalPeriod>>, seen: seq<Interval>) {
    && periods.Keys == IntervalIds(seen)
    && forall id :: id in periods ==> FirstPeriod(seen, id) == Some(periods[id])
  }

  method NotePeriod(periods: map<int, Option<IntervalPeriod>>, iv: Interval, ghost seen: seq<Interval>)
    returns (p: map<int, Option<IntervalPeriod>>)
    requires PeriodsOf(periods, seen)
    ensures PeriodsOf(p, seen + [iv])
  {
    p := if iv.id in periods then periods else periods[iv.id := iv.intervalPeriod];
    IdsSnoc(seen, iv);
    if iv.id !in periods {
      NoPeriodYet(seen, iv.id);
    }
    forall id | id in p ensures FirstPeriod(seen + [iv], id) == Some(p[id]) {
      FirstPeriodSnoc(seen, iv, id);
    }
  }

  lemma IdsSnoc(seen: seq<Interval>, iv: Interval)
    ensures IntervalIds(seen + [iv]) == IntervalIds(seen) + {iv.id}
  {}

  /** The inner collecting loop: one resource's intervals. */
  method GatherResource(collected: map<int, Series>, periods: map<int, Option<IntervalPeriod>>,
      resource: ReportResource,
                        ghost readings: seq<Reading>, ghost seen: seq<Interval>)
    returns (c: map<int, Series>, p: map<int, Option<IntervalPeriod>>)
    requires Gathered(collected, readings, IntervalIds(seen)) && PeriodsOf(periods, seen)
    ensures Gathered(c, readings + RESOURCE_READINGS(resource), IntervalIds(seen + resource.intervals))
    ensures PeriodsOf(p, seen + resource.intervals)
  {
    c, p := collected, periods;
    var ivs := resource.intervals;
    ghost var soFar, ids := readings, seen;
    assert readings + Flat(ivs[..0], INTERVAL_READINGS) == readings && seen + ivs[..0] == seen;
    for i := 0 to |ivs|
      invariant soFar == readings + Flat(ivs[..i], INTERVAL_READINGS)
      invariant ids == seen + ivs[..i]
      invariant Gathered(c, soFar, IntervalIds(ids))
      invariant PeriodsOf(p, ids)
    {
      FlatNext(readings, ivs, INTERVAL_READINGS, i);
      assert seen + ivs[..i + 1] == ids + [ivs[i]];
      IdsSnoc(ids, ivs[i]);
      p := NotePeriod(p, ivs[i], ids);
      c := GatherInterval(c, ivs[i], soFar, IntervalIds(ids));
      soFar, ids := soFar + INTERVAL_READINGS(ivs[i]), ids + [ivs[i]];
    }
    assert ivs[..|ivs|] == ivs;
  }

  /** The collecting loops of `aggregate`. */
  method Gather(rs: seq<ReportResource>)
    returns (collected: map<int, Series>, periods: map<int, Option<IntervalPeriod>>, outer: Option<IntervalPeriod>)
    ensures Gathered(collected, Readings(rs), IntervalIds(AllIntervals(rs)))
    ensures PeriodsOf(periods, AllIntervals(rs))
    ensures outer == OuterPeriod(rs)
  {
    collected, periods, outer := map[], map[], None;
    for i := 0 to |rs|
      invariant Gathered(collected, Readings(rs[..i]), IntervalIds(AllIntervals(rs[..i])))
      invariant PeriodsOf(periods, AllIntervals(rs[..i]))
      invariant outer == OuterPeriod(rs[..i])
    {
      assert rs[..i + 1][..i] == rs[..i];
      if outer.None? { outer := rs[i].intervalPeriod; }
      collected, periods := GatherResource(collected, periods, rs[i], Readings(rs[..i]), AllIntervals(rs[..i]));
    }
    assert rs[..|rs|] == rs;
  }

  lemma {:induction false} NoPeriodYet(intervals: seq<Interval>, id: int)
    requires id !in IntervalIds(intervals)
    ensures FirstPeriod(intervals, id).None?
  {
    if intervals != [] {
      assert intervals[0] in intervals;
      NoPeriodYet(intervals[1..], id);
    }
  }

  // ------------------------------------------------------------------------
  // Aggregating
  // ------------------------------------------------------------------------

  function PayloadTypes(payloads: seq<ValuesMap>): seq<PayloadType> {
    seq(|payloads|, i requires 0 <= i < |payloads| => payloads[i].valueType)
  }

  /** One output interval: the reported types, first seen first, each with the combination of all its entries. */
  ghost predicate Combines(iv: Interval, readings: seq<Reading>) {
    && PayloadTypes(iv.payloads) == TypesOf(readings, iv.id)
    && forall p :: p in iv.payloads ==> IsCombination(Reported(readings, iv.id, p.valueType), p.values)
  }

  method CombineSeries(id: int, series: Series, period: Option<IntervalPeriod>, ghost readings: seq<Reading>)
    returns (r: Result<Interval, AggregateError>)
    requires SeriesOf(series, readings, id)
    ensures r.Ok? <==> forall t: PayloadType :: Combinable(Reported(readings, id, t))
    ensures r.Ok? ==> r.value.id == id && r.value.intervalPeriod == period && Combines(r.value, readings)
  {
    var payloads: seq<ValuesMap> := [];
    for i := 0 to |series|
      invariant |payloads| == i
      invariant forall j :: 0 <= j < i ==>
        payloads[j].valueType == series[j].0 && IsCombination(series[j].1, payloads[j].values)
    {
      var values := Combine(series[i].0, id, series[i].1);
      if values.Err? {
        assert !Combinable(Reported(readings, id, series[i].0));
        return Err(values.error);
      }
      payloads := payloads + [ValuesMap(series[i].0, values.value)];
    }
    r := Ok(Interval(id, period, payloads));
    assert PayloadTypes(payloads) == Types(series);
    TypesOfMeaning(readings, id);
    forall t: PayloadType ensures Combinable(Reported(readings, id, t)) {
      if Reported(readings, id, t) != [] {
        var j :| 0 <= j < |series| && Types(series)[j] == t;
        assert IsCombination(series[j].1, payloads[j].values);
      }
    }
  }

  /** Already aggregated, or nothing at all. */
  predicate PassesThrough(rs: seq<ReportResource>) {
    |rs| <= 1 && (rs == [] || rs[0].name == AGGREGATED)
  }

  /** What an aggregation of `rs` is, entry by entry. */
  ghost predicate IsAggregate(rs: seq<ReportResource>, out: seq<ReportResource>) {
    if PassesThrough(rs) then out == rs
    else
      && |out| == 1 && out[0].name == AGGREGATED && out[0].intervalPeriod == OuterPeriod(rs)
      && (forall i, j :: 0 <= i < j < |out[0].intervals| ==> out[0].intervals[i].id < out[0].intervals[j].id)
      && IntervalIds(out[0].intervals) == IntervalIds(AllIntervals(rs))
      && (forall iv :: iv in out[0].intervals ==>
            Combines(iv, Readings(rs)) && FirstPeriod(AllIntervals(rs), iv.id) == Some(iv.intervalPeriod))
  }

  /** Nothing reported is without a combination. */
  ghost predicate EveryTypeCombinable(readings: seq<Reading>) {
    forall id: int, t: PayloadType :: Combinable(Reported(readings, id, t))
  }

  ghost predicate AllCombinable(rs: seq<ReportResource>) {
    EveryTypeCombinable(Readings(rs))
  }

  lemma EveryCombinable(ids: seq<int>, collected: map<int, Series>, readings: seq<Reading>, seen: seq<Interval>)
    requires Gathered(collected, readings, IntervalIds(seen)) && forall x :: x in ids <==> x in collected.Keys
    requires forall j, t: PayloadType :: 0 <= j < |ids| ==> Combinable(Reported(readings, ids[j], t))
    ensures EveryTypeCombinable(readings)
  {
    forall id: int, t: PayloadType ensures Combinable(Reported(readings, id, t)) {
      if id in collected {
        assert id in ids;
      }
    }
  }

  lemma IdsMatch(ids: seq<int>, keys: set<int>, intervals: seq<Interval>)
    requires |ids| == |intervals| && forall j :: 0 <= j < |ids| ==> intervals[j].id == ids[j]
    requires forall x :: x in ids <==> x in keys
    ensures IntervalIds(intervals) == keys
  {
    forall id | id in keys ensures id in IntervalIds(intervals) {
      assert id in ids;
      var j :| 0 <= j < |ids| && ids[j] == id;
      assert intervals[j] in intervals;
    }
    forall iv | iv in intervals ensures iv.id in keys {
      var j :| 0 <= j < |intervals| && intervals[j] == iv;
      assert ids[j] in ids;
    }
  }

  /** The combining loop of `aggregate`, in ascending order of id. */
  method CombineAll(collected: map<int, Series>, periods: map<int, Option<IntervalPeriod>>,
      ghost readings: seq<Reading>, ghost seen: seq<Interval>)
    returns (r: Result<seq<Interval>, AggregateError>)
    requires Gathered(collected, readings, IntervalIds(seen)) && PeriodsOf(periods, seen)
    ensures r.Ok? <==> EveryTypeCombinable(readings)
    ensures r.Ok? ==> forall i, j :: 0 <= i < j < |r.value| ==> r.value[i].id < r.value[j].id
    ensures r.Ok? ==> IntervalIds(r.value) == IntervalIds(seen)
    ensures r.Ok? ==> forall iv :: iv in r.value ==>
      Combines(iv, readings) && FirstPeriod(seen, iv.id) == Some(iv.intervalPeriod)
  {
    var ids := AscendingKeys(collected.Keys);
    var intervals: seq<Interval> := [];
    for i := 0 to |ids|
      invariant |intervals| == i
      invariant forall j :: 0 <= j < i ==> intervals[j].id == ids[j]
      invariant forall iv :: iv in intervals ==>
        Combines(iv, readings) && FirstPeriod(seen, iv.id) == Some(iv.intervalPeriod)
      invariant forall j, t: PayloadType :: 0 <= j < i ==> Combinable(Reported(readings, ids[j], t))
    {
      var iv := CombineSeries(ids[i], collected[ids[i]], periods[ids[i]], readings);
      if iv.Err? { return Err(iv.error); }
      intervals := intervals + [iv.value];
    }
    EveryCombinable(ids, collected, readings, seen);
    IdsMatch(ids, collected.Keys, intervals);
    r := Ok(intervals);
  }

  /** `aggregate`. */
  method Aggregate(rs: seq<ReportResource>) returns (r: Result<seq<ReportResource>, AggregateError>)
    ensures r.Ok? <==> PassesThrough(rs) || AllCombinable(rs)
    ensures r.Ok? ==> IsAggregate(rs, r.value)
  {
    if PassesThrough(rs) { return Ok(rs); }
    var collected, periods, outer := Gather(rs);
    var intervals := CombineAll(collected, periods, Readings(rs), AllIntervals(rs));
    if intervals.Err? { return Err(intervals.error); }
    r := Ok([ReportResource(AGGREGATED, outer, intervals.value)]);
  }

  // ------------------------------------------------------------------------
  // What aggregation promises
  // ------------------------------------------------------------------------

  /** The value an aggregate gives for one position, if any. */
  ghost predicate Totals(out: seq<ReportResource>, id: int, t: PayloadType, values: seq<Value>) {
    && |out| == 1
    && exists iv, p ::
      iv in out[0].intervals && p in iv.payloads && iv.id == id && p.valueType == t && p.values == values
  }

  /** Totals are conserved: a summable payload carries, position by position, the sum of every entry
      reported for it, and every reported payload is carried exactly once. */
  lemma TotalsConserved(rs: seq<ReportResource>, out: seq<ReportResource>, id: int, t: PayloadType)
    requires !PassesThrough(rs) && IsAggregate(rs, out)
    requires Reported(Readings(rs), id, t) != []
    ensures exists values :: Totals(out, id, t, values)
    ensures forall values :: Totals(out, id, t, values) ==> IsCombination(Reported(Readings(rs), id, t), values)
    ensures forall v, w :: Totals(out, id, t, v) && Totals(out, id, t, w) ==> v == w
  {
    ReportedHasInterval(rs, id, t);
    assert id in IntervalIds(out[0].intervals);
    var iv :| iv in out[0].intervals && iv.id == id;
    var p := PayloadOfType(iv, Readings(rs), t);
    assert Totals(out, id, t, p.values);
    forall values | Totals(out, id, t, values) ensures values == p.values {
      var jv, q :| jv in out[0].intervals && q in jv.payloads && jv.id == id && q.valueType == t && q.values == values;
      SameIdSameInterval(out[0].intervals, iv, jv);
      SameTypeSamePayload(iv, Readings(rs), p, q);
    }
  }

  /** An output interval has a payload of every type reported for it, and of no other. */
  lemma PayloadOfType(iv: Interval, readings: seq<Reading>, t: PayloadType) returns (p: ValuesMap)
    requires Combines(iv, readings) && Reported(readings, iv.id, t) != []
    ensures p in iv.payloads && p.valueType == t && IsCombination(Reported(readings, iv.id, t), p.values)
  {
    TypesOfMeaning(readings, iv.id);
    var j :| 0 <= j < |iv.payloads| && PayloadTypes(iv.payloads)[j] == t;
    p := iv.payloads[j];
  }

  lemma PayloadIsReported(iv: Interval, readings: seq<Reading>, p: ValuesMap)
    requires Combines(iv, readings) && p in iv.payloads
    ensures Reported(readings, iv.id, p.valueType) != []
  {
    TypesOfMeaning(readings, iv.id);
    var j :| 0 <= j < |iv.payloads| && iv.payloads[j] == p;
    assert PayloadTypes(iv.payloads)[j] == p.valueType;
  }

  /** Whatever an aggregate totals was reported. */
  lemma TotalsAreReported(rs: seq<ReportResource>, out: seq<ReportResource>, id: int, t: PayloadType, v: seq<Value>)
    requires !PassesThrough(rs) && IsAggregate(rs, out) && Totals(out, id, t, v)
    ensures Reported(Readings(rs), id, t) != []
  {
    var iv, p :| iv in out[0].intervals && p in iv.payloads && iv.id == id && p.valueType == t && p.values == v;
    PayloadIsReported(iv, Readings(rs), p);
  }

  lemma SameIdSameInterval(intervals: seq<Interval>, iv: Interval, jv: Interval)
    requires forall i, j :: 0 <= i < j < |intervals| ==> intervals[i].id < intervals[j].id
    requires iv in intervals && jv in intervals && iv.id == jv.id
    ensures iv == jv
  {}

  lemma SameTypeSamePayload(iv: Interval, readings: seq<Reading>, p: ValuesMap, q: ValuesMap)
    requires Combines(iv, readings) && p in iv.payloads && q in iv.payloads && p.valueType == q.valueType
    ensures p == q
  {
    TypesOfMeaning(readings, iv.id);
    var i :| 0 <= i < |iv.payloads| && iv.payloads[i] == p;
    var j :| 0 <= j < |iv.payloads| && iv.payloads[j] == q;
    assert PayloadTypes(iv.payloads)[i] == PayloadTypes(iv.payloads)[j];
  }

  lemma ReportedHasReading(readings: seq<Reading>, id: int, t: PayloadType) returns (x: Reading)
    requires Reported(readings, id, t) != []
    ensures x in readings && x.id == id && x.valueType == t
  {
    var last := readings[|readings| - 1];
    if last.id == id && last.valueType == t {
      x := last;
    } else {
      x := ReportedHasReading(readings[..|readings| - 1], id, t);
    }
  }

  lemma ReportedHasInterval(rs: seq<ReportResource>, id: int, t: PayloadType)
    requires Reported(Readings(rs), id, t) != []
    ensures id in IntervalIds(AllIntervals(rs))
  {
    var x := ReportedHasReading(Readings(rs), id, t);
    var r := FlatMember(rs, RESOURCE_READINGS, x);
    var iv := FlatMember(r.intervals, INTERVAL_READINGS, x);
    FlatContains(rs, RESOURCE_INTERVALS, r, iv);
  }

  /** Aggregating an aggregate changes nothing. */
  lemma AggregateTwice(rs: seq<ReportResource>, once: seq<ReportResource>, twice: seq<ReportResource>)
    requires IsAggregate(rs, once) && IsAggregate(once, twice)
    ensures twice == once
  {}

  // ------------------------------------------------------------------------
  // The order of resources does not matter
  // ------------------------------------------------------------------------

  function Matching(id: int, t: PayloadType): Reading -> seq<seq<Value>> {
    (x: Reading) => if x.id == id && x.valueType == t then [x.values] else []
  }

  lemma {:induction false} ReportedIsFlat(readings: seq<Reading>, id: int, t: PayloadType)
    ensures Reported(readings, id, t) == Flat(readings, Matching(id, t))
  {
    if readings != [] {
      ReportedIsFlat(readings[..|readings| - 1], id, t);
    }
  }

  lemma {:induction false} SumPermutes(a: seq<seq<Value>>, b: seq<seq<Value>>, pos: nat, n: nat)
    requires multiset(a) == multiset(b)
    requires Summable(a) && SameLengths(a, n) && Summable(b) && SameLengths(b, n) && pos < n
    ensures ColumnSum(a, pos, n) == ColumnSum(b, pos, n)
    decreases |a|
  {
    if a == [] {
      assert |multiset(b)| == |b|;
    } else {
      var i := Take(a, b);
      var rest := b[..i] + b[i + 1..];
      SumPermutes(a[..|a| - 1], rest, pos, n);
      SumConcat(b[..i], b[i + 1..], pos, n);
      SumConcat(b[..i] + [b[i]], b[i + 1..], pos, n);
      SumConcat(b[..i], [b[i]], pos, n);
      assert ColumnSum([b[i]], pos, n) == Decimal(b[i], pos) by {
        assert [b[i]][..0] == [];
      }
    }
  }

  lemma {:induction false} SumConcat(a: seq<seq<Value>>, b: seq<seq<Value>>, pos: nat, n: nat)
    requires Summable(a) && SameLengths(a, n) && Summable(b) && SameLengths(b, n) && pos < n
    ensures ColumnSum(a + b, pos, n) == ColumnSum(a, pos, n) + ColumnSum(b, pos, n)
    decreases |b|
  {
    if b == [] {
      assert a + b == a;
    } else {
      assert (a + b)[..|a + b| - 1] == a + b[..|b| - 1];
      SumConcat(a, b[..|b| - 1], pos, n);
    }
  }

  lemma MemberEither(a: seq<seq<Value>>, b: seq<seq<Value>>, i: nat)
    requires multiset(a) == multiset(b) && i < |b|
    ensures exists j :: 0 <= j < |a| && a[j] == b[i]
  {
    assert b[i] in multiset(b);
    assert b[i] in a;
  }

  lemma CombinableOneWay(a: seq<seq<Value>>, b: seq<seq<Value>>)
    requires multiset(a) == multiset(b)
    ensures Summable(a) ==> Summable(b)
    ensures Combinable(a) && Summable(a) && a != [] ==> SameLengths(b, |a[0]|)
    ensures Combinable(a) && !Summable(a) && a != [] ==> forall i :: 0 <= i < |b| ==> ValuesEq(b[i], a[0])
  {
    forall i: nat | i < |b| ensures exists j :: 0 <= j < |a| && a[j] == b[i] {
      MemberEither(a, b, i);
    }
  }

  /** Whether a series combines, and to what value, is a property of the entries and not of their order. */
  lemma CombinationPermutes(a: seq<seq<Value>>, b: seq<seq<Value>>, v: seq<Value>, w: seq<Value>)
    requires multiset(a) == multiset(b)
    ensures Combinable(a) <==> Combinable(b)
    ensures IsCombination(a, v) && IsCombination(b, w) ==> ValuesEq(v, w)
  {
    CombinableOneWay(a, b);
    CombinableOneWay(b, a);
    assert |multiset(a)| == |a| && |multiset(b)| == |b|;
    if a != [] && IsCombination(a, v) && IsCombination(b, w) && Summable(a) {
      forall pos: nat | pos < |v| ensures v[pos] == w[pos] {
        SumPermutes(a, b, pos, |v|);
      }
    }
  }

  lemma SameIds(a: seq<Interval>, b: seq<Interval>)
    requires multiset(a) == multiset(b)
    ensures IntervalIds(a) == IntervalIds(b)
  {
    assert forall iv :: iv in a <==> iv in multiset(a);
    assert forall iv :: iv in b <==> iv in multiset(b);
  }

  /** Two aggregations of the same resources in any order succeed alike and total alike. */
  lemma OrderOfResourcesIrrelevant(rs: seq<ReportResource>, qs: seq<ReportResource>, out: seq<ReportResource>,
      out': seq<ReportResource>,
                                   id: int, t: PayloadType, v: seq<Value>, w: seq<Value>)
    requires multiset(rs) == multiset(qs)
    ensures AllCombinable(rs) <==> AllCombinable(qs)
    ensures IntervalIds(AllIntervals(rs)) == IntervalIds(AllIntervals(qs))
    ensures
      && !PassesThrough(rs) && !PassesThrough(qs) && IsAggregate(rs, out) && IsAggregate(qs, out')
      && Totals(out, id, t, v) && Totals(out', id, t, w)
      ==> ValuesEq(v, w)
  {
    FlatPermutes(rs, qs, RESOURCE_READINGS);
    FlatPermutes(rs, qs, RESOURCE_INTERVALS);
    SameIds(AllIntervals(rs), AllIntervals(qs));
    forall i: int, u: PayloadType
      ensures multiset(Reported(Readings(rs), i, u)) == multiset(Reported(Readings(qs), i, u))
    {
      ReportedIsFlat(Readings(rs), i, u);
      ReportedIsFlat(Readings(qs), i, u);
      FlatPermutes(Readings(rs), Readings(qs), Matching(i, u));
    }
    forall i: int, u: PayloadType
      ensures Combinable(Reported(Readings(rs), i, u)) <==> Combinable(Reported(Readings(qs), i, u))
    {
      CombinationPermutes(Reported(Readings(rs), i, u), Reported(Readings(qs), i, u), [], []);
    }
    if !PassesThrough(rs) && !PassesThrough(qs) && IsAggregate(rs, out) && IsAggregate(qs, out')
       && Totals(out, id, t, v) && Totals(out', id, t, w) {
      TotalsAreReported(rs, out, id, t, v);
      var a, b := Reported(Readings(rs), id, t), Reported(Readings(qs), id, t);
      assert |multiset(a)| == |a| && |multiset(b)| == |b|;
      TotalsConserved(rs, out, id, t);
      TotalsConserved(qs, out', id, t);
      CombinationPermutes(a, b, v, w);
    }
  }
}
