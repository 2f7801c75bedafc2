/** Byte-wise string order, and the stable library sort the program calls. */
module Ordering {
  import opened Model

  /** `str::cmp` is not `Greater`. */
  predicate LexLeq(a: string, b: string) {
    || a == []
    || (b != [] && (a[0] < b[0] || (a[0] == b[0] && LexLeq(a[1..], b[1..]))))
  }

  lemma LexTotal(a: string, b: string)
    ensures LexLeq(a, b) || LexLeq(b, a)
  {}

  lemma {:induction false} LexAntisymmetric(a: string, b: string)
    requires LexLeq(a, b) && LexLeq(b, a)
    ensures a == b
  {
    if a != [] && b != [] {
      LexAntisymmetric(a[1..], b[1..]);
      assert a == [a[0]] + a[1..] && b == [b[0]] + b[1..];
    }
  }

  lemma {:induction false} LexTransitive(a: string, b: string, c: string)
    requires LexLeq(a, b) && LexLeq(b, c)
    ensures LexLeq(a, c)
  {
    if a != [] && a[0] == b[0] && b[0] == c[0] {
      LexTransitive(a[1..], b[1..], c[1..]);
    }
  }

  /** `a` comes before `b` in a dictionary: a smaller byte where they first differ, or nothing left. */
  ghost predicate Precedes(a: string, b: string) {
    exists k: nat :: k <= |a| && k < |b| && DiffersFirstAt(a, b, k)
  }

  ghost predicate DiffersFirstAt(a: string, b: string, k: nat)
    requires k <= |a| && k < |b|
  {
    a[..k] == b[..k] && (k == |a| || a[k] < b[k])
  }

  /** The byte-wise order is the dictionary's. */
  lemma {:induction false} LexIsDictionary(a: string, b: string)
    ensures LexLeq(a, b) <==> a == b || Precedes(a, b)
  {
    if a == [] || b == [] || a[0] != b[0] {
      if LexLeq(a, b) && a != b {
        assert DiffersFirstAt(a, b, 0);
      }
    } else {
      var c, d := a[1..], b[1..];
      LexIsDictionary(c, d);
      assert a == [a[0]] + c && b == [b[0]] + d;
      if Precedes(c, d) {
        var k: nat :| k <= |c| && k < |d| && DiffersFirstAt(c, d, k);
        assert a[..k + 1] == [a[0]] + c[..k] && b[..k + 1] == [b[0]] + d[..k];
        assert DiffersFirstAt(a, b, k + 1);
      }
      if Precedes(a, b) {
        var k: nat :| k <= |a| && k < |b| && DiffersFirstAt(a, b, k);
        assert c[..k - 1] == a[..k][1..] && d[..k - 1] == b[..k][1..];
        assert DiffersFirstAt(c, d, k - 1);
      }
    }
  }

  predicate IsLeast(x: ObjectId, s: set<ObjectId>) {
    x in s && forall z :: z in s ==> LexLeq(x, z)
  }

  lemma LeastExists(s: set<ObjectId>)
    requires s != {}
    ensures exists x :: IsLeast(x, s)
    ensures forall x: ObjectId, y: ObjectId :: IsLeast(x, s) && IsLeast(y, s) ==> x == y
  {
    var y :| y in s;
    var rest := s - {y};
    LexTotal(y, y);
    if rest == {} {
      assert s == {y};
      assert IsLeast(y, s);
    } else {
      LeastExists(rest);
      var x :| IsLeast(x, rest);
      LexTotal(x, y);
      var least := if LexLeq(x, y) then x else y;
      forall z | z in s ensures LexLeq(least, z) {
        if z in rest && least == y {
          LexTransitive(y, x, z);
        }
      }
      assert IsLeast(least, s);
    }
    forall x: ObjectId, z: ObjectId | IsLeast(x, s) && IsLeast(z, s) ensures x == z {
      LexAntisymmetric(x, z);
    }
  }

  function Least(s: set<ObjectId>): (x: ObjectId)
    requires s != {}
    ensures IsLeast(x, s)
  {
    LeastExists(s);
    var x :| IsLeast(x, s);
    x
  }

  /** The ids of a set in ascending order: how an ordered map is walked. */
  function SortedIds(s: set<ObjectId>): (r: seq<ObjectId>)
    ensures forall x :: x in r <==> x in s
    ensures forall i, j :: 0 <= i < j < |r| ==> r[i] != r[j]
  {
    if s == {} then [] else [Least(s)] + SortedIds(s - {Least(s)})
  }

  ghost predicate IdsAscend(r: seq<ObjectId>) {
    forall i, j :: 0 <= i < j < |r| ==> LexLeq(r[i], r[j])
  }

  lemma {:induction false} SortedIdsAscend(s: set<ObjectId>)
    ensures IdsAscend(SortedIds(s))
  {
    if s != {} {
      var x := Least(s);
      var rest := SortedIds(s - {x});
      SortedIdsAscend(s - {x});
      forall j | 0 <= j < |rest| ensures LexLeq(x, rest[j]) {
        assert rest[j] in rest;
      }
      IdsAscendCons(x, rest);
    }
  }

  lemma IdsAscendCons(x: ObjectId, rest: seq<ObjectId>)
    requires IdsAscend(rest) && forall j :: 0 <= j < |rest| ==> LexLeq(x, rest[j])
    ensures IdsAscend([x] + rest)
  {
    var r := [x] + rest;
    forall i, j | 0 <= i < j < |r| ensures LexLeq(r[i], r[j]) {
      assert r[j] == rest[j - 1];
      assert i > 0 ==> LexLeq(rest[i - 1], rest[j - 1]);
    }
  }

  ghost predicate TotalPreorder<T(!new)>(leq: (T, T) -> bool) {
    && (forall x, y :: leq(x, y) || leq(y, x))
    && (forall x, y, z :: leq(x, y) && leq(y, z) ==> leq(x, z))
  }

  ghost predicate SortedBy<T>(s: seq<T>, leq: (T, T) -> bool) {
    forall i, j :: 0 <= i < j < |s| ==> leq(s[i], s[j])
  }

  /** Insert after every element that is not greater, so equal keys keep their order. */
  function Insert<T>(s: seq<T>, x: T, leq: (T, T) -> bool): seq<T> {
    if s == [] then [x]
    else if leq(s[|s| - 1], x) then s + [x]
    else Insert(s[..|s| - 1], x, leq) + [s[|s| - 1]]
  }

  /** A stable sort. */
  function Sort<T>(s: seq<T>, leq: (T, T) -> bool): seq<T> {
    if s == [] then [] else Insert(Sort(s[..|s| - 1], leq), s[|s| - 1], leq)
  }

  lemma SortedSnoc<T>(s: seq<T>, x: T, leq: (T, T) -> bool)
    requires SortedBy(s, leq)
    requires forall i :: 0 <= i < |s| ==> leq(s[i], x)
    ensures SortedBy(s + [x], leq)
  {}

  lemma {:induction false} InsertSorts<T(!new)>(s: seq<T>, x: T, leq: (T, T) -> bool)
    requires TotalPreorder(leq) && SortedBy(s, leq)
    ensures SortedBy(Insert(s, x, leq), leq)
    ensures multiset(Insert(s, x, leq)) == multiset(s) + multiset{x}
    ensures |Insert(s, x, leq)| == |s| + 1
  {
    if s != [] {
      var init, last := s[..|s| - 1], s[|s| - 1];
      assert s == init + [last];
      if !leq(last, x) {
        InsertSorts(init, x, leq);
        var r := Insert(init, x, leq);
        assert leq(x, last);
        forall i | 0 <= i < |r| ensures leq(r[i], last) {
          assert r[i] in multiset(r);
          if r[i] != x {
            assert r[i] in multiset(init);
          }
        }
        SortedSnoc(r, last, leq);
      } else {
        forall i | 0 <= i < |s| ensures leq(s[i], x) {
          assert i == |s| - 1 || leq(s[i], last);
        }
        SortedSnoc(s, x, leq);
      }
    }
  }

  lemma {:induction false} SortSorts<T(!new)>(s: seq<T>, leq: (T, T) -> bool)
    requires TotalPreorder(leq)
    ensures SortedBy(Sort(s, leq), leq)
    ensures multiset(Sort(s, leq)) == multiset(s)
    ensures |Sort(s, leq)| == |s|
  {
    if s != [] {
      SortSorts(s[..|s| - 1], leq);
      InsertSorts(Sort(s[..|s| - 1], leq), s[|s| - 1], leq);
      assert s == s[..|s| - 1] + [s[|s| - 1]];
    }
  }
}
