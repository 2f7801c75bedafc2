/** Regular expressions with lookahead, and what it means for one to match a stretch of text. */
module Regexes {

  datatype Regex =
    | Empty
    | OneOf(chars: set<char>)
    | Then(first: Regex, second: Regex)
    | Either(left: Regex, right: Regex)
    | Plus(body: Regex)
    | Ahead(body: Regex)

  const DIGITS: set<char> := {'0', '1', '2', '3', '4', '5', '6', '7', '8', '9'}
  const DIGIT: Regex := OneOf(DIGITS)

  function Maybe(r: Regex): Regex {
    Either(r, Empty)
  }

  /** `r` matches the text `s` from position `i` up to position `j`. */
  ghost predicate Matches(r: Regex, s: string, i: nat, j: nat)
    requires i <= j <= |s|
    decreases r, j - i
  {
    match r
    case Empty => i == j
    case OneOf(chars) => j == i + 1 && s[i] in chars
    case Then(a, b) => exists k: nat :: i <= k <= j && Matches(a, s, i, k) && Matches(b, s, k, j)
    case Either(a, b) => Matches(a, s, i, j) || Matches(b, s, i, j)
    case Plus(a) =>
      Matches(a, s, i, j) || exists k: nat :: i < k < j && Matches(a, s, i, k) && Matches(r, s, k, j)
    case Ahead(a) => i == j && exists k: nat :: i <= k <= |s| && Matches(a, s, i, k)
  }

  /** Where the run of digits from `i` ends. */
  function DigitsEnd(s: string, i: nat): (j: nat)
    requires i <= |s|
    ensures i <= j <= |s|
    ensures forall k :: i <= k < j ==> s[k] in DIGITS
    ensures j < |s| ==> s[j] !in DIGITS
    decreases |s| - i
  {
    if i < |s| && s[i] in DIGITS then DigitsEnd(s, i + 1) else i
  }

  /** Where the first half of a concatenation ends. */
  lemma Split(a: Regex, b: Regex, s: string, i: nat, j: nat) returns (k: nat)
    requires i <= j <= |s| && Matches(Then(a, b), s, i, j)
    ensures i <= k <= j && Matches(a, s, i, k) && Matches(b, s, k, j)
  {
    k :| i <= k <= j && Matches(a, s, i, k) && Matches(b, s, k, j);
  }

  lemma Join(a: Regex, b: Regex, s: string, i: nat, k: nat, j: nat)
    requires i <= k <= j <= |s| && Matches(a, s, i, k) && Matches(b, s, k, j)
    ensures Matches(Then(a, b), s, i, j)
  {}

  /** What a lookahead sees. */
  lemma Glimpse(r: Regex, s: string, i: nat, j: nat) returns (k: nat)
    requires i <= j <= |s| && Matches(Ahead(r), s, i, j)
    ensures i <= k <= |s| && Matches(r, s, i, k)
  {
    k :| i <= k <= |s| && Matches(r, s, i, k);
  }

  lemma FirstRound(r: Regex, s: string, i: nat, j: nat) returns (k: nat)
    requires i <= j <= |s| && Matches(Plus(r), s, i, j)
    ensures i <= k <= j && Matches(r, s, i, k)
    ensures k < j ==> i < k && Matches(Plus(r), s, k, j)
  {
    if Matches(r, s, i, j) {
      k := j;
    } else {
      k :| i < k < j && Matches(r, s, i, k) && Matches(Plus(r), s, k, j);
    }
  }

  lemma {:induction false} NumberMatches(s: string, i: nat, j: nat)
    requires i <= j <= |s|
    ensures Matches(Plus(DIGIT), s, i, j) <==> i < j && forall k :: i <= k < j ==> s[k] in DIGITS
    decreases j - i
  {
    if i + 1 < j {
      NumberMatches(s, i + 1, j);
      if Matches(Plus(DIGIT), s, i, j) {
        var k := FirstRound(DIGIT, s, i, j);
        assert k == i + 1;
      }
    }
  }

  /** A number stops where the digits do, once something else follows it. */
  lemma NumberStops(s: string, i: nat, j: nat)
    requires i <= j < |s| && s[j] !in DIGITS
    ensures Matches(Plus(DIGIT), s, i, j) <==> i < j == DigitsEnd(s, i)
  {
    NumberMatches(s, i, j);
    var d := DigitsEnd(s, i);
    assert d < j ==> s[d] !in DIGITS;
  }
}
