/** The recogniser of the specification's duration pattern: a state machine against a regular expression. */
module DurationSyntax {
  import opened Wrappers
  import opened Regexes

  // ------------------------------------------------------------------------
  // The pattern
  // ------------------------------------------------------------------------

  /** A number and its unit; the number may have a fraction. */
  datatype Component = Component(units: set<char>, fractional: bool) {
    predicate Valid() {
      units !! DIGITS && '.' !in units
    }

    function Number(): Regex {
      if fractional then Then(Plus(DIGIT), Maybe(Then(OneOf({'.'}), Plus(DIGIT)))) else Plus(DIGIT)
    }

    function Pattern(): Regex {
      Then(Number(), OneOf(units))
    }
  }

  const DATE: seq<Component> := [Component({'Y'}, false), Component({'M'}, false), Component({'D', 'W'}, false)]
  const TIME: seq<Component> := [Component({'H'}, false), Component({'M'}, false), Component({'S'}, true)]

  /** Each component in turn, all of them optional, and then `tail`. */
  function InOrder(cs: seq<Component>, tail: Regex): Regex {
    if cs == [] then tail else Then(Maybe(cs[0].Pattern()), InOrder(cs[1..], tail))
  }

  const TIME_PART: Regex := Maybe(Then(OneOf({'T'}), InOrder(TIME, Empty)))
  const NOT_BARE: Regex := Ahead(Either(DIGIT, Then(OneOf({'T'}), DIGIT)))

  const PATTERN: Regex :=
    Then(Maybe(OneOf({'-'})), Then(OneOf({'P'}), Then(NOT_BARE, InOrder(DATE, TIME_PART))))

  // ------------------------------------------------------------------------
  // One component
  // ------------------------------------------------------------------------

  /** Where a component that starts at `i` ends. */
  function ComponentEnd(c: Component, s: string, i: nat): (r: Option<nat>)
    requires i <= |s|
    ensures r.Some? ==> i < r.value <= |s|
  {
    var d := DigitsEnd(s, i);
    var e := if c.fractional then FractionEnd(s, d) else d;
    if d == i || e == |s| || s[e] !in c.units then None else Some(e + 1)
  }

  /** Past a point and the digits after it, when there are any. */
  function FractionEnd(s: string, d: nat): (e: nat)
    requires d <= |s|
    ensures d <= e <= |s|
  {
    if d < |s| && s[d] == '.' && DigitsEnd(s, d + 1) > d + 1 then DigitsEnd(s, d + 1) else d
  }

  lemma FractionStops(s: string, d: nat, j: nat)
    requires d <= j < |s| && s[j] !in DIGITS && s[j] != '.'
    ensures Matches(Maybe(Then(OneOf({'.'}), Plus(DIGIT))), s, d, j) <==>
      j == FractionEnd(s, d) && (j == d || s[d] == '.')
  {
    var fraction := Then(OneOf({'.'}), Plus(DIGIT));
    if d < j {
      NumberStops(s, d + 1, j);
      if Matches(fraction, s, d, j) {
        var k := Regexes.Split(OneOf({'.'}), Plus(DIGIT), s, d, j);
        assert k == d + 1;
      } else if s[d] == '.' && d + 1 < j == DigitsEnd(s, d + 1) {
        Join(OneOf({'.'}), Plus(DIGIT), s, d, d + 1, j);
      }
    }
  }

  lemma NumberOfComponentStops(c: Component, s: string, i: nat, j: nat)
    requires i <= j < |s| && s[j] !in DIGITS && s[j] != '.'
    ensures Matches(c.Number(), s, i, j) <==>
      i < DigitsEnd(s, i) && j == if c.fractional then FractionEnd(s, DigitsEnd(s, i)) else DigitsEnd(s, i)
  {
    var d := DigitsEnd(s, i);
    if c.fractional {
      var fraction := Maybe(Then(OneOf({'.'}), Plus(DIGIT)));
      if Matches(c.Number(), s, i, j) {
        var k := Regexes.Split(Plus(DIGIT), fraction, s, i, j);
        FractionStops(s, k, j);
        NumberStops(s, i, k);
      }
      if i < d && j == FractionEnd(s, d) {
        FractionStops(s, d, j);
        NumberStops(s, i, d);
        Join(Plus(DIGIT), fraction, s, i, d, j);
      }
    } else {
      NumberStops(s, i, j);
    }
  }

  lemma ComponentMatches(c: Component, s: string, i: nat, j: nat)
    requires c.Valid() && i <= j <= |s|
    ensures Matches(c.Pattern(), s, i, j) <==> ComponentEnd(c, s, i) == Some(j)
  {
    if Matches(c.Pattern(), s, i, j) {
      var k := Regexes.Split(c.Number(), OneOf(c.units), s, i, j);
      assert s[k] in c.units;
      NumberOfComponentStops(c, s, i, k);
    }
    if ComponentEnd(c, s, i) == Some(j) {
      assert s[j - 1] in c.units;
      NumberOfComponentStops(c, s, i, j - 1);
      Join(c.Number(), OneOf(c.units), s, i, j - 1, j);
    }
  }

  /** An optional component either takes nothing, or the one component that starts here. */
  lemma TakeOrLeave(cs: seq<Component>, tail: Regex, s: string, i: nat, j: nat)
    requires cs != [] && cs[0].Valid() && i <= j <= |s|
    ensures Matches(InOrder(cs, tail), s, i, j) <==>
      || Matches(InOrder(cs[1..], tail), s, i, j)
      || (ComponentEnd(cs[0], s, i).Some? && ComponentEnd(cs[0], s, i).value <= j
          && Matches(InOrder(cs[1..], tail), s, ComponentEnd(cs[0], s, i).value, j))
  {
    var one, rest := cs[0].Pattern(), InOrder(cs[1..], tail);
    if Matches(InOrder(cs, tail), s, i, j) {
      var k := Regexes.Split(Maybe(one), rest, s, i, j);
      ComponentMatches(cs[0], s, i, k);
    }
    if Matches(rest, s, i, j) {
      Join(Maybe(one), rest, s, i, i, j);
    }
    var end := ComponentEnd(cs[0], s, i);
    if end.Some? && end.value <= j && Matches(rest, s, end.value, j) {
      ComponentMatches(cs[0], s, i, end.value);
      Join(Maybe(one), rest, s, i, end.value, j);
    }
  }

  predicate NoneStarts(cs: seq<Component>, s: string, i: nat)
    requires i <= |s|
  {
    forall k :: 0 <= k < |cs| ==> ComponentEnd(cs[k], s, i).None?
  }

  predicate OnlyStart(cs: seq<Component>, s: string, i: nat, u: nat)
    requires i <= |s| && u < |cs|
  {
    ComponentEnd(cs[u], s, i).Some? && forall k :: 0 <= k < |cs| && k != u ==> ComponentEnd(cs[k], s, i).None?
  }

  ghost predicate AllValid(cs: seq<Component>) {
    forall c :: c in cs ==> c.Valid()
  }

  /** Where no component starts, only the tail can match. */
  lemma {:induction false} OnlyTail(cs: seq<Component>, tail: Regex, s: string, i: nat, j: nat)
    requires AllValid(cs) && i <= j <= |s| && NoneStarts(cs, s, i)
    ensures Matches(InOrder(cs, tail), s, i, j) <==> Matches(tail, s, i, j)
  {
    if cs != [] {
      OnlyTail(cs[1..], tail, s, i, j);
      TakeOrLeave(cs, tail, s, i, j);
    }
  }

  /** Where exactly one component starts and the tail does not, that component must be taken. */
  lemma {:induction false} MustTake(cs: seq<Component>, tail: Regex, s: string, i: nat, j: nat, u: nat)
    requires AllValid(cs) && u < |cs| && i <= j <= |s|
    requires OnlyStart(cs, s, i, u) && ComponentEnd(cs[u], s, i).value <= j && !Matches(tail, s, i, j)
    ensures Matches(InOrder(cs, tail), s, i, j) <==>
      Matches(InOrder(cs[u + 1..], tail), s, ComponentEnd(cs[u], s, i).value, j)
  {
    TakeOrLeave(cs, tail, s, i, j);
    if u == 0 {
      OnlyTail(cs[1..], tail, s, i, j);
    } else {
      assert cs[1..][u..] == cs[u + 1..];
      MustTake(cs[1..], tail, s, i, j, u - 1);
    }
  }

  /** The time part starts at a `T`, or is not there. */
  lemma TimePartStarts(s: string, i: nat)
    requires i <= |s|
    ensures i == |s| ==> Matches(TIME_PART, s, i, |s|)
    ensures i < |s| && s[i] != 'T' ==> !Matches(TIME_PART, s, i, |s|)
    ensures i < |s| && s[i] == 'T' ==> (Matches(TIME_PART, s, i, |s|) <==> Matches(InOrder(TIME, Empty), s, i + 1, |s|))
  {
    var rest := InOrder(TIME, Empty);
    var some := Then(OneOf({'T'}), rest);
    assert TIME_PART == Maybe(some);
    assert i < |s| ==> !Matches(Empty, s, i, |s|);
    if Matches(some, s, i, |s|) {
      var k := Regexes.Split(OneOf({'T'}), rest, s, i, |s|);
      assert k == i + 1;
    }
    if i < |s| && s[i] == 'T' && Matches(rest, s, i + 1, |s|) {
      Join(OneOf({'T'}), rest, s, i, i + 1, |s|);
    }
  }

  // ------------------------------------------------------------------------
  // The state machine
  // ------------------------------------------------------------------------

  method SkipDigits(s: string, i: nat) returns (j: nat)
    requires i <= |s|
    ensures j == DigitsEnd(s, i)
  {
    j := i;
    while j < |s| && s[j] in DIGITS
      invariant i <= j <= |s| && DigitsEnd(s, j) == DigitsEnd(s, i)
    {
      j := j + 1;
    }
  }

  /** Advances a cursor over the units in their order to just past `want`. */
  method Advance(units: seq<char>, cursor: nat, want: char) returns (found: bool, next: nat)
    requires cursor <= |units|
    ensures found ==> cursor < next <= |units| && units[next - 1] == want && want !in units[cursor..next - 1]
    ensures !found ==> want !in units[cursor..]
  {
    next := cursor;
    while next < |units|
      invariant cursor <= next <= |units| && want !in units[cursor..next]
    {
      next := next + 1;
      if units[next - 1] == want {
        return true, next;
      }
    }
    return false, next;
  }

  /** What is left of the date part, from the component `q` on, matches the rest of the text. */
  ghost predicate DateFrom(s: string, q: nat, i: nat)
    requires q <= 3 && i <= |s|
  {
    Matches(InOrder(DATE[q..], TIME_PART), s, i, |s|)
  }

  ghost predicate TimeFrom(s: string, q: nat, i: nat)
    requires q <= 3 && i <= |s|
  {
    Matches(InOrder(TIME[q..], Empty), s, i, |s|)
  }

  lemma DateStuck(s: string, q: nat, i: nat)
    requires q <= 3 && i <= |s| && NoneStarts(DATE[q..], s, i)
    ensures i < |s| && s[i] != 'T' ==> !DateFrom(s, q, i)
    ensures i == |s| || s[i] == 'T' ==> (DateFrom(s, q, i) <==> Matches(TIME_PART, s, i, |s|))
  {
    OnlyTail(DATE[q..], TIME_PART, s, i, |s|);
    TimePartStarts(s, i);
  }

  /** The character after the digits decides which component starts. */
  lemma UnitDecides(c: Component, s: string, i: nat)
    requires i <= |s|
    ensures !c.fractional ==>
      (ComponentEnd(c, s, i).Some? <==> i < DigitsEnd(s, i) < |s| && s[DigitsEnd(s, i)] in c.units)
  {}

  lemma OneDateUnit(s: string, i: nat, q: nat, u: nat)
    requires i <= |s| && q <= u < 3 && ComponentEnd(DATE[u], s, i).Some?
    ensures OnlyStart(DATE[q..], s, i, u - q)
  {
    UnitDecides(DATE[u], s, i);
    forall k: nat | k < 3 && k != u ensures ComponentEnd(DATE[k], s, i).None? {
      UnitDecides(DATE[k], s, i);
    }
  }

  lemma OneTimeUnit(s: string, i: nat, q: nat, u: nat)
    requires i <= |s| && q <= u < 3 && ComponentEnd(TIME[u], s, i).Some?
    ensures OnlyStart(TIME[q..], s, i, u - q)
  {
    UnitDecides(TIME[u], s, i);
    forall k: nat | k < 3 && k != u ensures ComponentEnd(TIME[k], s, i).None? {
      UnitDecides(TIME[k], s, i);
    }
  }

  /** Taking component `u` of those from `q` on leaves those after `u`. */
  lemma TakesIn(cs: seq<Component>, tail: Regex, s: string, i: nat, q: nat, u: nat)
    requires AllValid(cs) && q <= u < |cs| && i <= |s|
    requires OnlyStart(cs[q..], s, i, u - q) && !Matches(tail, s, i, |s|)
    ensures Matches(InOrder(cs[q..], tail), s, i, |s|) <==>
      Matches(InOrder(cs[u + 1..], tail), s, ComponentEnd(cs[u], s, i).value, |s|)
  {
    assert cs[q..][u - q + 1..] == cs[u + 1..];
    MustTake(cs[q..], tail, s, i, |s|, u - q);
  }

  lemma DateTakes(s: string, q: nat, i: nat, u: nat)
    requires q <= u < 3 && i < |s| && s[i] != 'T' && ComponentEnd(DATE[u], s, i).Some?
    ensures DateFrom(s, q, i) <==> DateFrom(s, u + 1, ComponentEnd(DATE[u], s, i).value)
  {
    TimePartStarts(s, i);
    OneDateUnit(s, i, q, u);
    TakesIn(DATE, TIME_PART, s, i, q, u);
  }

  lemma TimeStuck(s: string, q: nat, i: nat)
    requires q <= 3 && i <= |s| && NoneStarts(TIME[q..], s, i)
    ensures TimeFrom(s, q, i) <==> i == |s|
  {
    OnlyTail(TIME[q..], Empty, s, i, |s|);
  }

  lemma TimeTakes(s: string, q: nat, i: nat, u: nat)
    requires q <= u < 3 && i < |s| && ComponentEnd(TIME[u], s, i).Some?
    ensures TimeFrom(s, q, i) <==> TimeFrom(s, u + 1, ComponentEnd(TIME[u], s, i).value)
  {
    OneTimeUnit(s, i, q, u);
    TakesIn(TIME, Empty, s, i, q, u);
  }

  /** The date part: stops at the time part, or at the end. */
  method ScanDate(s: string, start: nat) returns (ok: bool, i: nat)
    requires start <= |s|
    ensures ok ==> i <= |s| && (i < |s| ==> s[i] == 'T')
    ensures DateFrom(s, 0, start) <==> ok && Matches(TIME_PART, s, i, |s|)
  {
    i := start;
    var cursor, seenDayOrWeek := 0, false;
    while i < |s| && s[i] != 'T'
      invariant start <= i <= |s| && cursor <= 2
      invariant DateFrom(s, if seenDayOrWeek then 3 else cursor, i) <==> DateFrom(s, 0, start)
      decreases |s| - i
    {
      ghost var q := if seenDayOrWeek then 3 else cursor;
      var number := i;
      i := SkipDigits(s, i);
      if i == number || i == |s| {
        DateStuck(s, q, number);
        return false, i;
      }
      if s[i] == 'Y' || s[i] == 'M' {
        if seenDayOrWeek {
          DateStuck(s, q, number);
          return false, i;
        }
        var found, next := Advance(['Y', 'M', 'D'], cursor, s[i]);
        if !found {
          DateStuck(s, q, number);
          return false, i;
        }
        DateTakes(s, q, number, next - 1);
        cursor := next;
      } else if s[i] == 'D' || s[i] == 'W' {
        if seenDayOrWeek {
          DateStuck(s, q, number);
          return false, i;
        }
        DateTakes(s, q, number, 2);
        seenDayOrWeek := true;
      } else {
        DateStuck(s, q, number);
        return false, i;
      }
      i := i + 1;
    }
    DateStuck(s, if seenDayOrWeek then 3 else cursor, i);
    ok := true;
  }

  /** The time part after its `T`, which may be empty. */
  method ScanTime(s: string, start: nat) returns (ok: bool)
    requires start <= |s|
    ensures ok <==> TimeFrom(s, 0, start)
  {
    var i, cursor := start, 0;
    while i < |s|
      invariant start <= i <= |s| && cursor <= 3
      invariant TimeFrom(s, cursor, i) <==> TimeFrom(s, 0, start)
    {
      var number := i;
      i := SkipDigits(s, i);
      if i == number {
        TimeStuck(s, cursor, number);
        return false;
      }
      var fractional := false;
      if i < |s| && s[i] == '.' {
        i := i + 1;
        var fraction := i;
        i := SkipDigits(s, i);
        if i == fraction {
          TimeStuck(s, cursor, number);
          return false;
        }
        fractional := true;
      }
      if i >= |s| || (fractional && s[i] != 'S') {
        TimeStuck(s, cursor, number);
        return false;
      }
      var found, next := Advance(['H', 'M', 'S'], cursor, s[i]);
      if !found {
        TimeStuck(s, cursor, number);
        return false;
      }
      TimeTakes(s, cursor, number, next - 1);
      cursor := next;
      i := i + 1;
    }
    TimeStuck(s, cursor, i);
    ok := true;
  }

  // ------------------------------------------------------------------------
  // The whole pattern
  // ------------------------------------------------------------------------

  /** A digit, or a `T` and a digit: a bare `P` or `PT` is no duration. */
  predicate DigitAhead(s: string, i: nat)
    requires i <= |s|
  {
    i < |s| && (s[i] in DIGITS || (s[i] == 'T' && i + 1 < |s| && s[i + 1] in DIGITS))
  }

  lemma LookaheadMatches(s: string, i: nat, j: nat)
    requires i <= j <= |s|
    ensures Matches(NOT_BARE, s, i, j) <==> i == j && DigitAhead(s, i)
  {
    var digitAfterT := Then(OneOf({'T'}), DIGIT);
    var body := Either(DIGIT, digitAfterT);
    assert NOT_BARE == Ahead(body);
    if Matches(NOT_BARE, s, i, j) {
      var k := Glimpse(body, s, i, j);
      if !Matches(DIGIT, s, i, k) {
        var m := Regexes.Split(OneOf({'T'}), DIGIT, s, i, k);
      }
    }
    if i == j && DigitAhead(s, i) {
      if s[i] in DIGITS {
        assert Matches(DIGIT, s, i, i + 1);
        assert Matches(body, s, i, i + 1);
      } else {
        Join(OneOf({'T'}), DIGIT, s, i, i + 1, i + 2);
        assert Matches(body, s, i, i + 2);
      }
    }
  }

  lemma HeadMatches(s: string, i: nat)
    requires i <= |s|
    ensures Matches(Then(NOT_BARE, InOrder(DATE, TIME_PART)), s, i, |s|) <==> DigitAhead(s, i) && DateFrom(s, 0, i)
  {
    var date := InOrder(DATE, TIME_PART);
    assert DATE[0..] == DATE;
    if Matches(Then(NOT_BARE, date), s, i, |s|) {
      var k := Regexes.Split(NOT_BARE, date, s, i, |s|);
      LookaheadMatches(s, i, k);
    }
    if DigitAhead(s, i) && DateFrom(s, 0, i) {
      LookaheadMatches(s, i, i);
      Join(NOT_BARE, date, s, i, i, |s|);
    }
  }

  lemma LetterMatches(c: char, r: Regex, s: string, i: nat)
    requires i <= |s|
    ensures Matches(Then(OneOf({c}), r), s, i, |s|) <==> i < |s| && s[i] == c && Matches(r, s, i + 1, |s|)
  {
    if Matches(Then(OneOf({c}), r), s, i, |s|) {
      var k := Regexes.Split(OneOf({c}), r, s, i, |s|);
    }
    if i < |s| && s[i] == c && Matches(r, s, i + 1, |s|) {
      Join(OneOf({c}), r, s, i, i + 1, |s|);
    }
  }

  lemma SignMatches(s: string, k: nat)
    requires k <= |s|
    ensures Matches(Maybe(OneOf({'-'})), s, 0, k) <==> k == 0 || (k == 1 && s[0] == '-')
  {
    assert Matches(Empty, s, 0, k) <==> k == 0;
    assert Matches(OneOf({'-'}), s, 0, k) <==> k == 1 && s[0] == '-';
  }

  /** The sign is taken when it is there, and nothing else is when it is not. */
  lemma PatternMatches(s: string)
    ensures var p := if s != [] && s[0] == '-' then 1 else 0;
      Matches(PATTERN, s, 0, |s|) <==> p < |s| && s[p] == 'P' && DigitAhead(s, p + 1) && DateFrom(s, 0, p + 1)
  {
    var p := if s != [] && s[0] == '-' then 1 else 0;
    var sign := Maybe(OneOf({'-'}));
    var rest := Then(NOT_BARE, InOrder(DATE, TIME_PART));
    var body := Then(OneOf({'P'}), rest);
    assert PATTERN == Then(sign, body);
    LetterMatches('P', rest, s, 0);
    LetterMatches('P', rest, s, p);
    if p < |s| {
      HeadMatches(s, p + 1);
    }
    if Matches(PATTERN, s, 0, |s|) {
      var k := Regexes.Split(sign, body, s, 0, |s|);
      SignMatches(s, k);
      assert k == p;
    }
    if Matches(body, s, p, |s|) {
      SignMatches(s, p);
      Join(sign, body, s, 0, p, |s|);
    }
  }

  /** The state machine recognises exactly the language of the pattern. */
  method IsSchemaDuration(s: string) returns (ok: bool)
    ensures ok <==> Matches(PATTERN, s, 0, |s|)
  {
    PatternMatches(s);
    var i := 0;
    if i < |s| && s[i] == '-' {
      i := i + 1;
    }
    if i >= |s| || s[i] != 'P' {
      return false;
    }
    i := i + 1;
    if !DigitAhead(s, i) {
      return false;
    }
    ok, i := ScanDate(s, i);
    if !ok {
      return false;
    }
    TimePartStarts(s, i);
    if i == |s| {
      return true;
    }
    assert TIME[0..] == TIME;
    ok := ScanTime(s, i + 1);
  }
}
