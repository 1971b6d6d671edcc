/** Sums over a sequence do not depend on its order. */
module Permutations {

  /** Some occurrence of the last element of `a` can be taken out of a permutation `b` of it. */
  lemma TakeOutLast<T>(a: seq<T>, b: seq<T>) returns (i: nat)
    requires a != [] && multiset(a) == multiset(b)
    ensures i < |b| && b[i] == a[|a| - 1]
    ensures b == b[..i] + [b[i]] + b[i + 1..]
    ensures multiset(a[..|a| - 1]) == multiset(b[..i] + b[i + 1..])
  {
    var x := a[|a| - 1];
    assert a == a[..|a| - 1] + [x];
    assert x in multiset(b);
    i :| 0 <= i < |b| && b[i] == x;
    var others := b[..i] + b[i + 1..];
    assert b == b[..i] + [x] + b[i + 1..];
    assert multiset(b) == multiset(others) + multiset{x};
    assert multiset(a) == multiset(a[..|a| - 1]) + multiset{x};
    assert multiset(a[..|a| - 1]) == multiset(a) - multiset{x} == multiset(others);
  }

  function Sum<T>(f: T -> int, s: seq<T>): int {
    if s == [] then 0 else Sum(f, s[..|s| - 1]) + f(s[|s| - 1])
  }

  lemma SumNonNegative<T>(f: T -> int, s: seq<T>)
    requires forall x :: x in s ==> f(x) >= 0
    ensures Sum(f, s) >= 0
  {
    if s != [] {
      assert s == s[..|s| - 1] + [s[|s| - 1]];
      SumNonNegative(f, s[..|s| - 1]);
    }
  }

  lemma SumAppend<T>(f: T -> int, a: seq<T>, b: seq<T>)
    ensures Sum(f, a + b) == Sum(f, a) + Sum(f, b)
  {
    if b == [] {
      assert a + b == a;
    } else {
      assert (a + b)[..|a + b| - 1] == a + b[..|b| - 1];
      SumAppend(f, a, b[..|b| - 1]);
    }
  }

  lemma SumInsert<T>(f: T -> int, a: seq<T>, x: T, b: seq<T>)
    ensures Sum(f, a + [x] + b) == Sum(f, a + b) + f(x)
  {
    SumAppend(f, a + [x], b);
    SumAppend(f, a, [x]);
    SumAppend(f, a, b);
    assert [x][..0] == [];
  }

  lemma {:induction false} SumPermutes<T>(f: T -> int, a: seq<T>, b: seq<T>)
    requires multiset(a) == multiset(b)
    ensures Sum(f, a) == Sum(f, b)
    decreases |a|
  {
    if a == [] {
      assert |b| == |multiset(b)| == 0;
    } else {
      var i := TakeOutLast(a, b);
      SumPermutes(f, a[..|a| - 1], b[..i] + b[i + 1..]);
      SumInsert(f, b[..i], b[i], b[i + 1..]);
    }
  }

  /** Equal terms have equal sums. */
  lemma SumCongruent<T>(f: T -> int, g: T -> int, s: seq<T>)
    requires forall x :: x in s ==> f(x) == g(x)
    ensures Sum(f, s) == Sum(g, s)
  {
    if s != [] {
      assert s == s[..|s| - 1] + [s[|s| - 1]];
      SumCongruent(f, g, s[..|s| - 1]);
    }
  }
}
