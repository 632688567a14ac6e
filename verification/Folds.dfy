/** Running a list of steps through a state, and when the order of the list is immaterial. */
module Folds {

  function Fold<S, E>(f: (S, E) -> S, s: S, es: seq<E>): S {
    if |es| == 0 then s
    else f(Fold(f, s, es[..|es| - 1]), es[|es| - 1])
  }

  lemma FoldOne<S, E>(f: (S, E) -> S, s: S, es: seq<E>, e: E)
    ensures Fold(f, s, es + [e]) == f(Fold(f, s, es), e)
    ensures Fold(f, s, [e]) == f(s, e)
  {
    assert (es + [e])[..|es|] == es;
    assert [e][..0] == [];
  }

  lemma {:induction false} FoldAppend<S, E>(f: (S, E) -> S, s: S, a: seq<E>, b: seq<E>)
    ensures Fold(f, s, a + b) == Fold(f, Fold(f, s, a), b)
    decreases |b|
  {
    if |b| == 0 {
      assert a + b == a;
    } else {
      assert (a + b)[..|a + b| - 1] == a + b[..|b| - 1];
      FoldAppend(f, s, a, b[..|b| - 1]);
    }
  }

  ghost predicate Commutes<S(!new), E(!new)>(f: (S, E) -> S) {
    forall s, a, b :: f(f(s, a), b) == f(f(s, b), a)
  }

  lemma {:induction false} MoveToEnd<S(!new), E(!new)>(f: (S, E) -> S, s: S, e: E, q: seq<E>)
    requires Commutes(f)
    ensures Fold(f, s, [e] + q) == Fold(f, s, q + [e])
    decreases |q|
  {
    if |q| == 0 {
      assert [e] + q == q + [e];
    } else {
      var init := q[..|q| - 1];
      assert ([e] + q)[..|q|] == [e] + init;
      MoveToEnd(f, s, e, init);
      FoldOne(f, s, init, e);
      FoldOne(f, s, q, e);
    }
  }

  /** Where the last element of a list sits in one of the list's permutations. */
  lemma FindLast<E>(xs: seq<E>, ys: seq<E>) returns (i: nat)
    requires xs != [] && multiset(xs) == multiset(ys)
    ensures i < |ys| && ys[i] == xs[|xs| - 1]
    ensures multiset(xs[..|xs| - 1]) == multiset(ys[..i] + ys[i + 1..])
  {
    var (init, last) := (xs[..|xs| - 1], xs[|xs| - 1]);
    assert xs == init + [last];
    assert last in multiset(ys);
    i :| 0 <= i < |ys| && ys[i] == last;
    var (p, q) := (ys[..i], ys[i + 1..]);
    assert ys == p + [last] + q;
    assert multiset(ys) == multiset(p) + multiset{last} + multiset(q);
    assert multiset(p + q) == multiset(ys) - multiset{last};
    assert multiset(init) == multiset(xs) - multiset{last};
  }

  lemma MoveOut<S(!new), E(!new)>(f: (S, E) -> S, s: S, p: seq<E>, e: E, q: seq<E>)
    requires Commutes(f)
    ensures Fold(f, s, p + ([e] + q)) == f(Fold(f, s, p + q), e)
  {
    FoldAppend(f, s, p, [e] + q);
    MoveToEnd(f, Fold(f, s, p), e, q);
    FoldAppend(f, s, p, q);
    FoldOne(f, Fold(f, s, p), q, e);
  }

  /** Commuting steps act through their multiset only. */
  lemma {:induction false} FoldPermutes<S(!new), E(!new)>(f: (S, E) -> S, s: S, xs: seq<E>, ys: seq<E>)
    requires Commutes(f)
    requires multiset(xs) == multiset(ys)
    ensures Fold(f, s, xs) == Fold(f, s, ys)
    decreases |xs|
  {
    if |xs| == 0 {
      assert |multiset(ys)| == 0;
    } else {
      var i := FindLast(xs, ys);
      var (p, q) := (ys[..i], ys[i + 1..]);
      assert ys == p + ([ys[i]] + q);
      MoveOut(f, s, p, ys[i], q);
      FoldPermutes(f, s, xs[..|xs| - 1], p + q);
    }
  }

  lemma Associate<T>(a: seq<T>, b: seq<T>, c: seq<T>)
    ensures a + b + c == a + (b + c)
  {
  }

  lemma MiddleMovesOut<T>(a: seq<T>, b: seq<T>, c: seq<T>)
    ensures multiset(a + (b + c)) == multiset(a + c) + multiset(b)
  {
    assert multiset(b + c) == multiset(b) + multiset(c);
  }

  // ---------------------------------------------------------------- lists without duplicates

  ghost predicate Distinct<T>(s: seq<T>) {
    forall i, j | 0 <= i < j < |s| :: s[i] != s[j]
  }

  function Elems<T(==)>(s: seq<T>): set<T> {
    set x | x in s
  }

  lemma {:induction false} CountedOnce<T>(s: seq<T>, x: T)
    requires Distinct(s)
    ensures multiset(s)[x] == if x in s then 1 else 0
  {
    if |s| != 0 {
      var init := s[..|s| - 1];
      assert s == init + [s[|s| - 1]];
      CountedOnce(init, x);
    }
  }

  lemma DistinctSameElements<T(!new)>(a: seq<T>, b: seq<T>)
    requires Distinct(a) && Distinct(b)
    requires forall x :: x in a <==> x in b
    ensures multiset(a) == multiset(b)
  {
    forall x ensures multiset(a)[x] == multiset(b)[x] {
      CountedOnce(a, x);
      CountedOnce(b, x);
    }
  }

  lemma DistinctAppend<T>(s: seq<T>, x: T)
    ensures Distinct(s + [x]) <==> Distinct(s) && x !in s
  {
    var longer := s + [x];
    if Distinct(longer) {
      assert forall i | 0 <= i < |s| :: longer[i] == s[i] && longer[i] != longer[|s|];
    }
  }

  lemma DistinctJoin<T>(a: seq<T>, b: seq<T>)
    requires Distinct(a) && Distinct(b) && forall x | x in a :: x !in b
    ensures Distinct(a + b)
  {
    var both := a + b;
    forall i, j | 0 <= i < j < |both| ensures both[i] != both[j] {
      if i < |a| <= j { assert a[i] in a && b[j - |a|] in b; }
    }
  }

  lemma {:induction false} CountDistinct<T>(s: seq<T>)
    ensures |Elems(s)| <= |s|
    ensures |Elems(s)| == |s| <==> Distinct(s)
  {
    if |s| > 0 {
      var init, last := s[..|s| - 1], s[|s| - 1];
      CountDistinct(init);
      assert s == init + [last];
      DistinctAppend(init, last);
      assert Elems(s) == Elems(init) + {last};
    }
  }

  lemma ElemsJoin<T>(seen: set<T>, a: seq<T>, b: seq<T>)
    ensures seen + Elems(a) + Elems(b) == seen + Elems(a + b)
  {
  }

  lemma SameMembers<T>(a: seq<T>, b: seq<T>)
    requires multiset(a) == multiset(b)
    ensures |a| == |b| && forall x :: x in a <==> x in b
  {
    assert |a| == |multiset(a)| && |b| == |multiset(b)|;
    forall x ensures x in a <==> x in b {
      assert x in a <==> x in multiset(a);
      assert x in b <==> x in multiset(b);
    }
  }
}
