/** Who wins a lookup, in plain numbers: the lower priority number, a missing one last, then the id. */
module TimelinePriority {
  import opened Wrappers
  import opened Ordering
  import opened Model
  import opened Timelines
  import opened TimelineLookup

  /** An id ahead in the dictionary is not also behind. */
  lemma AheadIsNotBehind(a: string, b: string)
    requires Precedes(a, b)
    ensures !LexLeq(b, a)
  {
    LexIsDictionary(a, b);
    var k: nat :| k <= |a| && k < |b| && DiffersFirstAt(a, b, k);
    if LexLeq(b, a) {
      LexAntisymmetric(a, b);
    }
  }

  lemma InPool(es: seq<Entry>, e: Entry) returns (n: nat)
    requires e in es
    ensures n < |es| && es[n] == e
  {
    n :| n < |es| && es[n] == e;
  }

  lemma WinnerBeats(fs: seq<Entry>, e: Entry, i: nat, w: nat, k: nat, t: Timestamp)
    requires e in fs && Candidate(e, i, t) && Winner(fs, w, k, t)
    ensures EntryLeq(fs[w], e)
  {
    var m := InPool(fs, e);
    assert Candidate(fs[m], i, t);
  }

  /** One of the entries that are not skipped is shown, and it is no less important than any candidate. */
  lemma ShownIsLeast(es: seq<Entry>, from: Timestamp, to: Timestamp, t: Timestamp, m: nat, i: nat)
      returns (w: nat, k: nat)
    requires AllReached(es, from, to) && DistinctIds(es) && from <= t < to
    requires m < |es| && Expands(es[m], from, to) && Candidate(es[m], i, t)
    ensures FirstContaining(Segments(es, from, to), t).Some?
    ensures w < |es| && Expands(es[w], from, to) && Candidate(es[w], k, t)
    ensures ShowsIndex(FirstContaining(Segments(es, from, to), t).value, es[w], k)
    ensures EntryLeq(es[w], es[m])
  {
    var fs := Expandable(es, from, to);
    assert es[m] in fs;
    var m' := InPool(fs, es[m]);
    var w';
    w', k := ShownWins(es, from, to, t, m', i);
    WinnerBeats(fs, es[m], i, w', k, t);
    w := InPool(es, fs[w']);
  }

  lemma ShownWins(es: seq<Entry>, from: Timestamp, to: Timestamp, t: Timestamp, m: nat, i: nat)
      returns (w: nat, k: nat)
    requires AllReached(es, from, to) && DistinctIds(es) && from <= t < to
    requires m < |Expandable(es, from, to)| && Candidate(Expandable(es, from, to)[m], i, t)
    ensures FirstContaining(Segments(es, from, to), t).Some?
    ensures Winner(Expandable(es, from, to), w, k, t)
    ensures ShowsIndex(FirstContaining(Segments(es, from, to), t).value, Expandable(es, from, to)[w], k)
  {
    LookupIsArgmin(es, from, to, t);
    w, k :| Winner(Expandable(es, from, to), w, k, t)
      && ShowsIndex(FirstContaining(Segments(es, from, to), t).value, Expandable(es, from, to)[w], k);
  }

  /**
   Of two events with an interval at the instant the lower number is shown rather than the higher, any
   number rather than none, and on a tie the id that comes first in the dictionary. Whatever is shown
   carries a number no higher than any candidate's.
   */
  lemma LowerNumberWins(es: seq<Entry>, from: Timestamp, to: Timestamp, t: Timestamp, m: nat, i: nat, n: nat, j: nat)
    requires AllReached(es, from, to) && DistinctIds(es) && from <= t < to
    requires m < |es| && Expands(es[m], from, to) && Candidate(es[m], i, t)
    requires n < |es| && Expands(es[n], from, to) && Candidate(es[n], j, t)
    ensures var found, p, q :=
        FirstContaining(Segments(es, from, to), t), es[m].event.priority, es[n].event.priority;
      && found.Some?
      && (p.Some? && q.Some? && p.value < q.value ==> found.value.eventId != es[n].id)
      && (p.Some? && q.None? ==> found.value.eventId != es[n].id)
      && (p == q && Precedes(es[m].id, es[n].id) ==> found.value.eventId != es[n].id)
      && (p.Some? ==> found.value.priority.Some? && found.value.priority.value <= p.value)
  {
    var w, k := ShownIsLeast(es, from, to, t, m, i);
    if es[w].id == es[n].id {
      assert w == n;
      if es[m].event.priority == es[n].event.priority && Precedes(es[m].id, es[n].id) {
        AheadIsNotBehind(es[m].id, es[n].id);
      }
    }
  }
}
