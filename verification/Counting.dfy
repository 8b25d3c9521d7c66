/** Filtering and counting lists, and what neither depends on. */
module Counting {
  function Filter<T>(s: seq<T>, p: T -> bool): (r: seq<T>)
    ensures |r| <= |s|
  {
    if s == [] then []
    else if p(s[|s| - 1]) then Filter(s[..|s| - 1], p) + [s[|s| - 1]]
    else Filter(s[..|s| - 1], p)
  }

  lemma {:induction false} FilterMembers<T>(s: seq<T>, p: T -> bool)
    ensures forall x :: x in Filter(s, p) <==> x in s && p(x)
  {
    if s != [] {
      FilterMembers(s[..|s| - 1], p);
    }
  }

  lemma {:induction false} FilterAgrees<T>(s: seq<T>, p: T -> bool, q: T -> bool)
    requires forall x :: x in s ==> p(x) == q(x)
    ensures Filter(s, p) == Filter(s, q)
  {
    if s != [] {
      FilterAgrees(s[..|s| - 1], p, q);
    }
  }

  lemma {:induction false} FilterTwice<T>(s: seq<T>, p: T -> bool, q: T -> bool, both: T -> bool)
    requires forall x :: x in s ==> both(x) == (p(x) && q(x))
    ensures Filter(Filter(s, p), q) == Filter(s, both)
  {
    if s != [] {
      var n := |s| - 1;
      FilterTwice(s[..n], p, q, both);
      if p(s[n]) {
        assert Filter(s, p)[..|Filter(s[..n], p)|] == Filter(s[..n], p);
      }
    }
  }

  /** Elements of two disjoint kinds. */
  lemma {:induction false} FilterUnion<T>(s: seq<T>, p: T -> bool, q: T -> bool, either: T -> bool)
    requires forall x :: x in s ==> either(x) == (p(x) || q(x)) && !(p(x) && q(x))
    ensures multiset(Filter(s, either)) == multiset(Filter(s, p)) + multiset(Filter(s, q))
    ensures |Filter(s, either)| == |Filter(s, p)| + |Filter(s, q)|
  {
    if s != [] {
      assert s[|s| - 1] in s;
      FilterUnion(s[..|s| - 1], p, q, either);
    }
  }

  lemma {:induction false} FilterAll<T>(s: seq<T>, p: T -> bool)
    requires forall x :: x in s ==> p(x)
    ensures Filter(s, p) == s
  {
    if s != [] {
      FilterAll(s[..|s| - 1], p);
      assert s == s[..|s| - 1] + [s[|s| - 1]];
    }
  }

  lemma {:induction false} FilterNone<T>(s: seq<T>, p: T -> bool)
    requires forall x :: x in s ==> !p(x)
    ensures Filter(s, p) == []
  {
    if s != [] {
      FilterNone(s[..|s| - 1], p);
    }
  }

  /** A counter filled in a loop over a list. */
  function Count<T, K>(s: seq<T>, f: T -> multiset<K>): multiset<K> {
    if s == [] then multiset{} else Count(s[..|s| - 1], f) + f(s[|s| - 1])
  }

  lemma {:induction false} CountConcat<T, K>(a: seq<T>, b: seq<T>, f: T -> multiset<K>)
    ensures Count(a + b, f) == Count(a, f) + Count(b, f)
  {
    if b == [] {
      assert a + b == a;
    } else {
      var n := |b| - 1;
      assert (a + b)[..|a| + n] == a + b[..n];
      CountConcat(a, b[..n], f);
    }
  }

  /** Counters do not depend on the order of the list. */
  lemma {:induction false} CountPermutes<T, K>(a: seq<T>, b: seq<T>, f: T -> multiset<K>)
    requires multiset(a) == multiset(b)
    ensures Count(a, f) == Count(b, f)
    decreases |a|
  {
    assert |multiset(a)| == |a| && |multiset(b)| == |b|;
    if a != [] {
      var n := |a| - 1;
      var x := a[n];
      assert x in multiset(a);
      assert x in b;
      var i :| 0 <= i < |b| && b[i] == x;
      var left, right := b[..i], b[i + 1..];
      assert b == left + [x] + right;
      assert a == a[..n] + [x];
      assert multiset(a[..n]) == multiset(a) - multiset{x};
      assert multiset(left + right) == multiset(b) - multiset{x};
      CountPermutes(a[..n], left + right, f);
      CountConcat(left, right, f);
      CountConcat(left, [x], f);
      CountConcat(left + [x], right, f);
    }
  }

  function Where<T(==)>(p: T -> bool): T -> multiset<T> {
    (x: T) => if p(x) then multiset{x} else multiset{}
  }

  lemma {:induction false} FilterIsACount<T>(s: seq<T>, p: T -> bool)
    ensures multiset(Filter(s, p)) == Count(s, Where(p))
  {
    if s != [] {
      FilterIsACount(s[..|s| - 1], p);
    }
  }

  lemma FilterPermutes<T>(a: seq<T>, b: seq<T>, p: T -> bool)
    requires multiset(a) == multiset(b)
    ensures multiset(Filter(a, p)) == multiset(Filter(b, p)) && |Filter(a, p)| == |Filter(b, p)|
  {
    FilterIsACount(a, p);
    FilterIsACount(b, p);
    CountPermutes(a, b, Where(p));
    assert |multiset(Filter(a, p))| == |Filter(a, p)| && |multiset(Filter(b, p))| == |Filter(b, p)|;
  }

  /** The i-th value is one that an earlier position has. */
  ghost predicate Again<T, K>(s: seq<T>, f: T -> K, i: int)
    requires 0 <= i < |s|
  {
    exists k :: 0 <= k < i && f(s[k]) == f(s[i])
  }

  lemma {:induction false} RepeatsCount<T, K(!new)>(s: seq<T>, f: T -> K, values: set<K>, repeating: set<int>)
    requires forall y :: y in values <==> exists i :: 0 <= i < |s| && f(s[i]) == y
    requires forall i :: i in repeating <==> 0 <= i < |s| && Again(s, f, i)
    ensures |s| - |values| == |repeating|
  {
    if s == [] {
      assert values == {};
      assert forall i :: i !in repeating;
    } else {
      var n := |s| - 1;
      assert forall i :: 0 <= i < n ==> s[..n][i] == s[i];
      forall i | 0 <= i < n ensures Again(s[..n], f, i) == Again(s, f, i) {
        if k :| 0 <= k < i && f(s[k]) == f(s[i]) {
          assert f(s[..n][k]) == f(s[..n][i]);
        }
      }
      var before := if Again(s, f, n) then values else values - {f(s[n])};
      forall y ensures y in before <==> exists i :: 0 <= i < n && f(s[..n][i]) == y {
        if i :| 0 <= i < n && f(s[i]) == y {
          assert f(s[..n][i]) == y;
          assert y == f(s[n]) ==> Again(s, f, n);
        }
        if y in before && y == f(s[n]) {
          var k :| 0 <= k < n && f(s[k]) == f(s[n]);
          assert f(s[..n][k]) == y;
        }
      }
      RepeatsCount(s[..n], f, before, repeating - {n});
    }
  }
}
