/** Flattening a list of lists, and what survives permuting it. */
module Sequences {

  function Flat<T, U>(xs: seq<T>, f: T -> seq<U>): seq<U> {
    if xs == [] then [] else Flat(xs[..|xs| - 1], f) + f(xs[|xs| - 1])
  }

  lemma FlatNext<T, U>(before: seq<U>, xs: seq<T>, f: T -> seq<U>, i: nat)
    requires i < |xs|
    ensures before + Flat(xs[..i + 1], f) == (before + Flat(xs[..i], f)) + f(xs[i])
  {
    FlatLast(xs, f, i);
  }

  lemma FlatLast<T, U>(xs: seq<T>, f: T -> seq<U>, i: nat)
    requires i < |xs|
    ensures Flat(xs[..i + 1], f) == Flat(xs[..i], f) + f(xs[i])
  {
    assert xs[..i + 1][..i] == xs[..i];
  }

  lemma FlatSnoc<T, U>(xs: seq<T>, x: T, f: T -> seq<U>)
    ensures Flat(xs + [x], f) == Flat(xs, f) + f(x)
  {
    assert (xs + [x])[..|xs|] == xs;
  }

  lemma FlatMember<T, U>(xs: seq<T>, f: T -> seq<U>, u: U) returns (x: T)
    requires u in Flat(xs, f)
    ensures x in xs && u in f(x)
  {
    if u in f(xs[|xs| - 1]) {
      x := xs[|xs| - 1];
    } else {
      x := FlatMember(xs[..|xs| - 1], f, u);
    }
  }

  lemma FlatContains<T, U>(xs: seq<T>, f: T -> seq<U>, x: T, u: U)
    requires x in xs && u in f(x)
    ensures u in Flat(xs, f)
  {
    if x != xs[|xs| - 1] {
      assert x in xs[..|xs| - 1];
      FlatContains(xs[..|xs| - 1], f, x, u);
    }
  }

  lemma FlatConcat<T, U>(a: seq<T>, b: seq<T>, f: T -> seq<U>)
    ensures Flat(a + b, f) == Flat(a, f) + Flat(b, f)
  {
    if b == [] {
      assert a + b == a;
    } else {
      assert (a + b)[..|a + b| - 1] == a + b[..|b| - 1];
      FlatConcat(a, b[..|b| - 1], f);
    }
  }

  lemma Cancel<T>(a: multiset<T>, b: multiset<T>, x: T)
    requires a + multiset{x} == b + multiset{x}
    ensures a == b
  {
    assert (a + multiset{x}) - multiset{x} == a;
    assert (b + multiset{x}) - multiset{x} == b;
  }

  /** An element of a permutation can be taken out at some place. */
  lemma Take<T>(xs: seq<T>, ys: seq<T>) returns (i: nat)
    requires xs != [] && multiset(xs) == multiset(ys)
    ensures i < |ys| && ys[i] == xs[|xs| - 1]
    ensures ys == ys[..i] + [ys[i]] + ys[i + 1..]
    ensures multiset(xs[..|xs| - 1]) == multiset(ys[..i] + ys[i + 1..])
  {
    var x := xs[|xs| - 1];
    assert xs == xs[..|xs| - 1] + [x];
    assert x in multiset(ys);
    i :| 0 <= i < |ys| && ys[i] == x;
    assert ys == ys[..i] + [ys[i]] + ys[i + 1..];
    assert multiset(ys) == multiset(ys[..i] + ys[i + 1..]) + multiset{x};
    Cancel(multiset(xs[..|xs| - 1]), multiset(ys[..i] + ys[i + 1..]), x);
  }

  lemma {:induction false} FlatPermutes<T, U>(xs: seq<T>, ys: seq<T>, f: T -> seq<U>)
    requires multiset(xs) == multiset(ys)
    ensures multiset(Flat(xs, f)) == multiset(Flat(ys, f))
    decreases |xs|
  {
    if xs == [] {
      assert |multiset(ys)| == |ys|;
    } else {
      var i := Take(xs, ys);
      FlatPermutes(xs[..|xs| - 1], ys[..i] + ys[i + 1..], f);
      FlatConcat(ys[..i], ys[i + 1..], f);
      FlatConcat(ys[..i] + [ys[i]], ys[i + 1..], f);
      FlatConcat(ys[..i], [ys[i]], f);
      assert Flat([ys[i]], f) == f(ys[i]) by {
        assert [ys[i]][..0] == [];
      }
    }
  }

  lemma LeastIntExists(s: set<int>)
    requires s != {}
    ensures exists x :: x in s && forall y :: y in s ==> x <= y
  {
    if forall x :: x !in s {
      assert false;
    }
    var x :| x in s;
    var rest := s - {x};
    if rest == {} {
      assert s == {x};
    } else {
      LeastIntExists(rest);
      var z :| z in rest && forall w :: w in rest ==> z <= w;
      var least := if x < z then x else z;
      assert forall w :: w in s ==> w == x || w in rest;
      assert least in s && forall w :: w in s ==> least <= w;
    }
  }

  /** The keys of an ordered map. */
  method AscendingKeys(s: set<int>) returns (r: seq<int>)
    ensures forall x :: x in r <==> x in s
    ensures forall i :: 0 <= i < |r| ==> r[i] in s
    ensures forall i, j :: 0 <= i < j < |r| ==> r[i] < r[j]
  {
    r := [];
    var rest := s;
    while rest != {}
      invariant rest <= s && forall x :: x in s <==> x in r || x in rest
      invariant forall i, x :: 0 <= i < |r| && x in rest ==> r[i] < x
      invariant forall i, j :: 0 <= i < j < |r| ==> r[i] < r[j]
      decreases rest
    {
      LeastIntExists(rest);
      var x :| x in rest && forall y :: y in rest ==> x <= y;
      r := r + [x];
      rest := rest - {x};
    }
  }
}
