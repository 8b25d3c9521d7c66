/** The orders Python puts on `str` and on tuples of `str`, and the stable sort it offers.
    Every "lowest identifier wins" rule of the repository rests on these. */
module Ordering {

  datatype Option<+T> = None | Some(value: T)

  datatype Result<+R, +E> = Ok(value: R) | Err(error: E)

  /** `a < b` for Python strings: lexicographic by code point. */
  predicate StringLess(a: string, b: string) {
    if b == [] then false
    else if a == [] then true
    else if a[0] != b[0] then a[0] < b[0]
    else StringLess(a[1..], b[1..])
  }

  /** `a < b` for Python tuples of strings. */
  predicate TupleLess(a: seq<string>, b: seq<string>) {
    if b == [] then false
    else if a == [] then true
    else if a[0] != b[0] then StringLess(a[0], b[0])
    else TupleLess(a[1..], b[1..])
  }

  lemma {:induction false} StringTrichotomy(a: string, b: string)
    ensures StringLess(a, b) || StringLess(b, a) || a == b
    ensures !(StringLess(a, b) && StringLess(b, a))
    ensures !StringLess(a, a)
  {
    if a != [] {
      if b != [] && a[0] == b[0] {
        StringTrichotomy(a[1..], b[1..]);
        assert a == [a[0]] + a[1..] && b == [b[0]] + b[1..];
      } else {
        StringTrichotomy(a[1..], a[1..]);
      }
    }
  }

  lemma {:induction false} StringTransitive(a: string, b: string, c: string)
    requires StringLess(a, b) && StringLess(b, c)
    ensures StringLess(a, c)
  {
    if a != [] && a[0] == b[0] == c[0] {
      StringTransitive(a[1..], b[1..], c[1..]);
    }
  }

  lemma {:induction false} TupleTrichotomy(a: seq<string>, b: seq<string>)
    ensures TupleLess(a, b) || TupleLess(b, a) || a == b
    ensures !(TupleLess(a, b) && TupleLess(b, a))
    ensures !TupleLess(a, a)
  {
    if a != [] {
      if b != [] && a[0] == b[0] {
        TupleTrichotomy(a[1..], b[1..]);
        assert a == [a[0]] + a[1..] && b == [b[0]] + b[1..];
      } else {
        if b != [] {
          StringTrichotomy(a[0], b[0]);
        }
        TupleTrichotomy(a[1..], a[1..]);
      }
    }
  }

  lemma {:induction false} TupleTransitive(a: seq<string>, b: seq<string>, c: seq<string>)
    requires TupleLess(a, b) && TupleLess(b, c)
    ensures TupleLess(a, c)
  {
    if a != [] {
      if a[0] == b[0] == c[0] {
        TupleTransitive(a[1..], b[1..], c[1..]);
      } else if a[0] != b[0] && b[0] != c[0] {
        StringTransitive(a[0], b[0], c[0]);
        StringTrichotomy(a[0], b[0]);
      }
    }
  }

  /** What a sort key must satisfy: `less(a, b)` reads "a's key is smaller than b's". */
  ghost predicate KeyOrder<T(!new)>(less: (T, T) -> bool) {
    && (forall a, b :: less(a, b) ==> !less(b, a))
    && (forall a, b, c :: less(a, c) ==> less(a, b) || less(b, c))
  }

  lemma StringKeyOrder()
    ensures KeyOrder<string>((a, b) => StringLess(a, b))
  {
    forall a: string, b: string
      ensures StringLess(a, b) ==> !StringLess(b, a)
    {
      StringTrichotomy(a, b);
    }
    forall a: string, b: string, c: string | StringLess(a, c)
      ensures StringLess(a, b) || StringLess(b, c)
    {
      StringTrichotomy(a, b);
      if StringLess(b, a) {
        StringTransitive(b, a, c);
      }
    }
  }

  /** Insert after every element whose key is not larger: this keeps the sort stable. */
  function Insert<T>(s: seq<T>, x: T, less: (T, T) -> bool): seq<T> {
    if s == [] then [x]
    else if less(x, s[|s| - 1]) then Insert(s[..|s| - 1], x, less) + [s[|s| - 1]]
    else s + [x]
  }

  /** Python's `sorted`, specified by insertion. */
  function Sort<T>(s: seq<T>, less: (T, T) -> bool): seq<T> {
    if s == [] then [] else Insert(Sort(s[..|s| - 1], less), s[|s| - 1], less)
  }

  ghost predicate Sorted<T>(s: seq<T>, less: (T, T) -> bool) {
    forall i, j :: 0 <= i < j < |s| ==> !less(s[j], s[i])
  }

  lemma {:induction false} InsertSorted<T(!new)>(s: seq<T>, x: T, less: (T, T) -> bool)
    requires KeyOrder(less) && Sorted(s, less)
    ensures Sorted(Insert(s, x, less), less)
    ensures multiset(Insert(s, x, less)) == multiset(s) + multiset{x}
  {
    if s != [] {
      var last := s[|s| - 1];
      assert s == s[..|s| - 1] + [last];
      if less(x, last) {
        InsertSorted(s[..|s| - 1], x, less);
        var front := Insert(s[..|s| - 1], x, less);
        forall i | 0 <= i < |front| ensures !less(last, front[i]) {
          assert front[i] in multiset(front);
          if front[i] != x {
            assert front[i] in s[..|s| - 1];
          }
        }
      } else {
        forall i | 0 <= i < |s| ensures !less(x, s[i]) {
          if i < |s| - 1 {
            assert !less(last, s[i]);
          }
        }
      }
    }
  }

  lemma {:induction false} SortSorts<T(!new)>(s: seq<T>, less: (T, T) -> bool)
    requires KeyOrder(less)
    ensures Sorted(Sort(s, less), less)
    ensures multiset(Sort(s, less)) == multiset(s)
  {
    if s != [] {
      SortSorts(s[..|s| - 1], less);
      InsertSorted(Sort(s[..|s| - 1], less), s[|s| - 1], less);
      assert s == s[..|s| - 1] + [s[|s| - 1]];
    }
  }

  /** Distinct elements never share a key. */
  ghost predicate TieFree<T(!new)>(s: seq<T>, less: (T, T) -> bool) {
    forall a, b :: a in s && b in s && a != b ==> less(a, b) || less(b, a)
  }

  lemma SortedHeadsAgree<T(!new)>(s: seq<T>, t: seq<T>, less: (T, T) -> bool)
    requires Sorted(s, less) && Sorted(t, less) && TieFree(s, less)
    requires s != [] && t != [] && s[0] in t && t[0] in s
    ensures s[0] == t[0]
  {
    var j :| 0 <= j < |t| && t[j] == s[0];
    var i :| 0 <= i < |s| && s[i] == t[0];
  }

  lemma TailMultiset<T>(s: seq<T>)
    requires s != []
    ensures multiset(s[1..]) == multiset(s) - multiset{s[0]}
  {
    assert s == [s[0]] + s[1..];
  }

  /** A sorted arrangement is unique once distinct elements never tie. */
  lemma {:induction false} SortedUnique<T(!new)>(s: seq<T>, t: seq<T>, less: (T, T) -> bool)
    requires Sorted(s, less) && Sorted(t, less) && TieFree(s, less)
    requires multiset(s) == multiset(t)
    ensures s == t
  {
    assert |multiset(s)| == |s| && |multiset(t)| == |t|;
    if s != [] {
      assert s[0] in multiset(t) && t[0] in multiset(s);
      SortedHeadsAgree(s, t, less);
      TailMultiset(s);
      TailMultiset(t);
      SortedUnique(s[1..], t[1..], less);
      assert s == [s[0]] + s[1..] && t == [t[0]] + t[1..];
    }
  }

  /** Sorting forgets the order in which its argument was listed. */
  lemma SortForgetsOrder<T(!new)>(s: seq<T>, t: seq<T>, less: (T, T) -> bool)
    requires KeyOrder(less) && multiset(s) == multiset(t) && TieFree(s, less)
    ensures Sort(s, less) == Sort(t, less)
  {
    SortSorts(s, less);
    SortSorts(t, less);
    SameMembers(s, Sort(s, less));
    SortedUnique(Sort(s, less), Sort(t, less), less);
  }

  lemma SameMembers<T>(s: seq<T>, t: seq<T>)
    requires multiset(s) == multiset(t)
    ensures forall x :: x in s <==> x in t
    ensures |s| == |t|
  {
    assert |multiset(s)| == |s| && |multiset(t)| == |t|;
    assert forall x :: x in s <==> x in multiset(s);
    assert forall x :: x in t <==> x in multiset(t);
  }

  function SortStrings(s: seq<string>): seq<string> {
    Sort(s, (a, b) => StringLess(a, b))
  }

  lemma SortStringsPermutes(s: seq<string>)
    ensures multiset(SortStrings(s)) == multiset(s)
    ensures Sorted(SortStrings(s), (a, b) => StringLess(a, b))
  {
    StringKeyOrder();
    SortSorts(s, (a, b) => StringLess(a, b));
  }

  lemma SortStringsForgetsOrder(s: seq<string>, t: seq<string>)
    requires multiset(s) == multiset(t)
    ensures SortStrings(s) == SortStrings(t)
  {
    StringKeyOrder();
    forall a: string, b: string | a != b ensures StringLess(a, b) || StringLess(b, a) {
      StringTrichotomy(a, b);
    }
    SortForgetsOrder(s, t, (a, b) => StringLess(a, b));
  }

  ghost predicate Distinct<T(!new)>(s: seq<T>) {
    forall i, j :: 0 <= i < j < |s| ==> s[i] != s[j]
  }
}
