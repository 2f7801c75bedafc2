/** What aggregation gives in the reported numbers themselves, and that it gives one thing only. */
module AggregateNumbers {
  import opened Wrappers
  import opened Model
  import opened Sequences
  import opened Aggregation

  // ------------------------------------------------------------------------
  // Sums
  // ------------------------------------------------------------------------

  predicate AreNumbers(values: seq<Value>) {
    forall pos :: 0 <= pos < |values| ==> values[pos].Integer? || values[pos].Number?
  }

  predicate AllNumbers(reported: seq<seq<Value>>) {
    forall k :: 0 <= k < |reported| ==> AreNumbers(reported[k])
  }

  /** The total is the number reported, whether it came as an integer or not. */
  predicate Is(total: Value, v: Value)
    requires v.Integer? || v.Number?
  {
    match v
    case Integer(i) => total == Number(i as real)
    case Number(d) => total == Number(d)
  }

  /** The total has risen by the number reported. */
  predicate RisesBy(before: Value, after: Value, v: Value)
    requires v.Integer? || v.Number?
  {
    before.Number? &&
    match v
    case Integer(i) => after == Number(before.d + i as real)
    case Number(d) => after == Number(before.d + d)
  }

  lemma NumbersAreSummable(reported: seq<seq<Value>>)
    ensures AllNumbers(reported) <==> Summable(reported)
  {
    if Summable(reported) {
      forall k | 0 <= k < |reported| ensures AreNumbers(reported[k]) {
        assert Numeric(reported[k]);
      }
    }
    if AllNumbers(reported) {
      forall k | 0 <= k < |reported| ensures Numeric(reported[k]) {
        assert AreNumbers(reported[k]);
      }
    }
  }

  /** A single entry of numbers totals to those numbers. */
  lemma OneEntryIsItsTotal(entry: seq<Value>, total: seq<Value>)
    requires AreNumbers(entry) && IsCombination([entry], total)
    ensures |total| == |entry| && forall pos :: 0 <= pos < |entry| ==> Is(total[pos], entry[pos])
  {
    assert AllNumbers([entry]);
    NumbersAreSummable([entry]);
    forall pos: nat | pos < |entry| ensures Is(total[pos], entry[pos]) {
      assert [entry][..0] == [] && [entry][0] == entry;
      assert ColumnSum([entry], pos, |entry|) == 0.0 + Decimal(entry, pos);
    }
  }

  /** One more entry raises every position of the total by the number it reports there. */
  lemma OneMoreEntryRaises(reported: seq<seq<Value>>, entry: seq<Value>, before: seq<Value>, after: seq<Value>)
    requires reported != [] && AllNumbers(reported) && AreNumbers(entry)
    requires IsCombination(reported, before) && IsCombination(reported + [entry], after)
    ensures |after| == |before| == |entry|
    ensures forall pos :: 0 <= pos < |entry| ==> RisesBy(before[pos], after[pos], entry[pos])
  {
    var all := reported + [entry];
    forall k | 0 <= k < |all| ensures AreNumbers(all[k]) {
      assert k < |reported| ==> AreNumbers(reported[k]);
    }
    NumbersAreSummable(reported);
    NumbersAreSummable(all);
    assert all[|reported|] == entry && all[0] == reported[0] && all[..|all| - 1] == reported;
    forall pos: nat | pos < |entry| ensures RisesBy(before[pos], after[pos], entry[pos]) {
      assert ColumnSum(all, pos, |entry|) == ColumnSum(reported, pos, |entry|) + Decimal(entry, pos);
    }
  }

  /** An integer and a decimal add up to a decimal. */
  lemma IntegerAndDecimalAdd(i: int, d: real, total: seq<Value>)
    ensures IsCombination([[Integer(i)], [Number(d)]], total) <==> total == [Number(i as real + d)]
  {
    var a, b: seq<Value> := [Integer(i)], [Number(d)];
    var both := [a, b];
    assert both[..1] == [a] && [a][..0] == [];
    assert ColumnSum(both, 0, 1) == ColumnSum([a], 0, 1) + d;
    assert ColumnSum([a], 0, 1) == i as real;
  }

  // ------------------------------------------------------------------------
  // What combines at all
  // ------------------------------------------------------------------------

  /** The same value, or an integer and the decimal it is. */
  predicate Alike(a: Value, b: Value) {
    || a == b
    || (a.Integer? && b.Number? && a.i as real == b.d)
    || (a.Number? && b.Integer? && a.d == b.i as real)
  }

  predicate AllAlike(a: seq<Value>, b: seq<Value>) {
    |a| == |b| && forall pos :: 0 <= pos < |a| ==> Alike(a[pos], b[pos])
  }

  lemma AlikeIsEqual(a: seq<Value>, b: seq<Value>)
    ensures AllAlike(a, b) <==> ValuesEq(a, b)
  {
    forall pos | 0 <= pos < |a| && |a| == |b| ensures Alike(a[pos], b[pos]) <==> ValueEq(a[pos], b[pos]) {}
  }

  /**
   Entries that are numbers throughout combine when they are equally long. With anything else among them
   they combine when they are all alike, and then to what the first one says.
   */
  lemma CombinableIff(reported: seq<seq<Value>>)
    requires reported != []
    ensures AllNumbers(reported) ==>
      (Combinable(reported) <==> forall k :: 0 <= k < |reported| ==> |reported[k]| == |reported[0]|)
    ensures !AllNumbers(reported) ==>
      && (Combinable(reported) <==> forall k :: 0 <= k < |reported| ==> AllAlike(reported[k], reported[0]))
      && forall total :: IsCombination(reported, total) ==> total == reported[0]
  {
    NumbersAreSummable(reported);
    forall k | 0 <= k < |reported| ensures AllAlike(reported[k], reported[0]) <==> ValuesEq(reported[k], reported[0]) {
      AlikeIsEqual(reported[k], reported[0]);
    }
  }

  // ------------------------------------------------------------------------
  // Which resources are summed
  // ------------------------------------------------------------------------

  /**
   Nothing, and one resource that already is an aggregate, are left as they are. Several resources, and
   a lone one under any other name, become one resource under the reserved name, with a total for each
   interval and type reported.
   */
  lemma WhatIsSummed(rs: seq<ReportResource>, out: seq<ReportResource>)
    requires IsAggregate(rs, out)
    ensures rs == [] || (|rs| == 1 && rs[0].name == "AGGREGATED_REPORT") ==> out == rs
    ensures |rs| > 1 || (|rs| == 1 && rs[0].name != "AGGREGATED_REPORT") ==>
      && |out| == 1 && out[0].name == "AGGREGATED_REPORT"
      && forall id: int, t: PayloadType :: Reported(Readings(rs), id, t) != [] ==>
           exists total :: Totals(out, id, t, total) && IsCombination(Reported(Readings(rs), id, t), total)
  {
    if |rs| > 1 || (|rs| == 1 && rs[0].name != "AGGREGATED_REPORT") {
      forall id: int, t: PayloadType | Reported(Readings(rs), id, t) != []
        ensures exists total :: Totals(out, id, t, total) && IsCombination(Reported(Readings(rs), id, t), total)
      {
        TotalsConserved(rs, out, id, t);
        var total :| Totals(out, id, t, total);
      }
    }
  }

  /** One resource with one value. */
  function Metered(name: string, id: int, t: PayloadType, v: Value): ReportResource {
    ReportResource(name, None, [Interval(id, None, [ValuesMap(t, [v])])])
  }

  lemma MeteredReadings(name: string, id: int, t: PayloadType, v: Value)
    ensures RESOURCE_READINGS(Metered(name, id, t, v)) == [Reading(id, t, [v])]
  {
    var iv := Interval(id, None, [ValuesMap(t, [v])]);
    assert [iv][..0] == [] && INTERVAL_READINGS(iv) == [Reading(id, t, [v])];
    assert Flat([iv], INTERVAL_READINGS) == Flat([], INTERVAL_READINGS) + INTERVAL_READINGS(iv);
  }

  /** Two resources reporting an integer and a decimal for one interval: the aggregate holds their sum. */
  lemma TwoMetersAdd(one: string, two: string, id: int, t: PayloadType, i: int, d: real, out: seq<ReportResource>)
    requires IsAggregate([Metered(one, id, t, Integer(i)), Metered(two, id, t, Number(d))], out)
    ensures Totals(out, id, t, [Number(i as real + d)])
  {
    var a, b := Metered(one, id, t, Integer(i)), Metered(two, id, t, Number(d));
    var x, y := Reading(id, t, [Integer(i)]), Reading(id, t, [Number(d)]);
    MeteredReadings(one, id, t, Integer(i));
    MeteredReadings(two, id, t, Number(d));
    FlatSnoc([a], b, RESOURCE_READINGS);
    FlatSnoc([], a, RESOURCE_READINGS);
    assert [] + [a] == [a] && [a] + [b] == [a, b] && [] + [x] == [x] && [x] + [y] == [x, y];
    assert Readings([a, b]) == [x, y];
    ReportedSnoc([x], y, id, t);
    ReportedSnoc([], x, id, t);
    assert Reported([x, y], id, t) == [[Integer(i)], [Number(d)]];
    WhatIsSummed([a, b], out);
    var total :| Totals(out, id, t, total) && IsCombination(Reported([x, y], id, t), total);
    IntegerAndDecimalAdd(i, d, total);
  }

  // ------------------------------------------------------------------------
  // One outcome
  // ------------------------------------------------------------------------

  lemma CombinationIsOne(reported: seq<seq<Value>>, v: seq<Value>, w: seq<Value>)
    requires IsCombination(reported, v) && IsCombination(reported, w)
    ensures v == w
  {}

  lemma CombinedIsOne(iv: Interval, jv: Interval, readings: seq<Reading>)
    requires iv.id == jv.id && Combines(iv, readings) && Combines(jv, readings)
    ensures iv.payloads == jv.payloads
  {
    var types := TypesOf(readings, iv.id);
    forall k | 0 <= k < |types| ensures iv.payloads[k] == jv.payloads[k] {
      assert PayloadTypes(iv.payloads)[k] == types[k] == PayloadTypes(jv.payloads)[k];
      assert iv.payloads[k] in iv.payloads && jv.payloads[k] in jv.payloads;
      CombinationIsOne(Reported(readings, iv.id, types[k]), iv.payloads[k].values, jv.payloads[k].values);
    }
    assert |PayloadTypes(iv.payloads)| == |types| == |PayloadTypes(jv.payloads)|;
  }

  ghost predicate IdsAscend(intervals: seq<Interval>) {
    forall i, j :: 0 <= i < j < |intervals| ==> intervals[i].id < intervals[j].id
  }

  lemma LastIdIsGreatest(intervals: seq<Interval>)
    requires IdsAscend(intervals) && intervals != []
    ensures IntervalIds(intervals[..|intervals| - 1]) == IntervalIds(intervals) - {intervals[|intervals| - 1].id}
    ensures forall id :: id in IntervalIds(intervals) ==> id <= intervals[|intervals| - 1].id
    ensures intervals[|intervals| - 1].id in IntervalIds(intervals)
  {
    var init, last := intervals[..|intervals| - 1], intervals[|intervals| - 1];
    assert intervals == init + [last];
    forall iv | iv in init ensures iv.id < last.id {
      var k :| 0 <= k < |init| && init[k] == iv;
      assert intervals[k] == iv;
    }
  }

  lemma {:induction false} SameIdsInOrder(a: seq<Interval>, b: seq<Interval>)
    requires IdsAscend(a) && IdsAscend(b) && IntervalIds(a) == IntervalIds(b)
    ensures |a| == |b| && forall k :: 0 <= k < |a| ==> a[k].id == b[k].id
  {
    if a == [] || b == [] {
      assert a != [] ==> a[0].id in IntervalIds(a);
      assert b != [] ==> b[0].id in IntervalIds(b);
    } else {
      LastIdIsGreatest(a);
      LastIdIsGreatest(b);
      SameIdsInOrder(a[..|a| - 1], b[..|b| - 1]);
    }
  }

  /** Aggregation has one outcome, down to the order of intervals and payloads. */
  lemma AggregateIsOne(rs: seq<ReportResource>, out: seq<ReportResource>, out': seq<ReportResource>)
    requires IsAggregate(rs, out) && IsAggregate(rs, out')
    ensures out == out'
  {
    if !PassesThrough(rs) {
      var a, b := out[0].intervals, out'[0].intervals;
      SameIdsInOrder(a, b);
      forall k | 0 <= k < |a| ensures a[k] == b[k] {
        assert a[k] in a && b[k] in b;
        CombinedIsOne(a[k], b[k], Readings(rs));
      }
      assert a == b;
    }
  }

  /** And it has none unless everything reported combines. */
  lemma AggregateNeedsAll(rs: seq<ReportResource>, out: seq<ReportResource>)
    requires IsAggregate(rs, out)
    ensures PassesThrough(rs) || AllCombinable(rs)
  {
    if !PassesThrough(rs) {
      forall id: int, t: PayloadType ensures Combinable(Reported(Readings(rs), id, t)) {
        if Reported(Readings(rs), id, t) != [] {
          TotalsConserved(rs, out, id, t);
          var total :| Totals(out, id, t, total);
          assert IsCombination(Reported(Readings(rs), id, t), total);
        }
      }
    }
  }
}
