/**
 What Python's `sorted` returns: a set in increasing order, and a list ordered by a key. With it what the
 planner and the readers need to know of sorting: the same elements with the same repeats, the images under
 a function kept, distinctness kept, a sorted list left alone, and counting a list against its elements.
 */
module Sorting {

  predicate Increasing(s: seq<int>) {
    forall i, j :: 0 <= i < j < |s| ==> s[i] < s[j]
  }

  predicate IsLeast(m: int, s: set<int>) {
    m in s && forall x :: x in s ==> m <= x
  }

  lemma Member<T>(s: set<T>) returns (a: T)
    requires |s| > 0
    ensures a in s
  {
    a :| a in s;
  }

  lemma {:induction false} LeastExists(s: set<int>)
    requires |s| > 0
    ensures exists m :: IsLeast(m, s)
    decreases |s|
  {
    var a := Member(s);
    if |s| == 1 {
      assert |s - {a}| == 0;
      assert forall x :: x in s ==> x == a || x in s - {a};
      assert IsLeast(a, s);
    } else {
      LeastExists(s - {a});
      var m :| IsLeast(m, s - {a});
      var least := if a < m then a else m;
      forall x | x in s ensures least <= x {
        assert x == a || x in s - {a};
      }
      assert IsLeast(least, s);
    }
  }

  /** The elements of a set of integers, in increasing order. */
  function SortedSet(s: set<int>): (r: seq<int>)
    ensures |r| == |s|
    ensures forall x :: x in r <==> x in s
    decreases |s|
  {
    if |s| == 0 then []
    else
      LeastExists(s);
      var m :| IsLeast(m, s);
      [m] + SortedSet(s - {m})
  }

  lemma {:induction false} SortedSetIncreases(s: set<int>)
    ensures Increasing(SortedSet(s))
    decreases |s|
  {
    if |s| > 0 {
      var r := SortedSet(s);
      var m := r[0];
      var rest := SortedSet(s - {m});
      assert IsLeast(m, s) && r == [m] + rest;
      SortedSetIncreases(s - {m});
      forall j | 0 <= j < |rest| ensures m < rest[j] {
        assert rest[j] in rest;
      }
    }
  }

  lemma HeadIsIn(s: seq<int>)
    requires |s| > 0
    ensures s[0] in s
  {
  }

  /** Increasing lists with the same elements are the same list. */
  lemma {:induction false} IncreasingIsUnique(a: seq<int>, b: seq<int>)
    requires Increasing(a) && Increasing(b)
    requires forall x :: x in a <==> x in b
    ensures a == b
  {
    if |a| == 0 {
      if |b| != 0 {
        HeadIsIn(b);
      }
    } else if |b| == 0 {
      HeadIsIn(a);
    } else {
      HeadIsIn(a);
      HeadIsIn(b);
      assert a[0] in b;
      assert b[0] in a;
      assert a[0] == b[0];
      forall x ensures x in a[1..] <==> x in b[1..] {
        assert x in a[1..] ==> x in a && x != a[0];
        assert x in b[1..] ==> x in b && x != b[0];
      }
      IncreasingIsUnique(a[1..], b[1..]);
    }
  }

  // ---------- sorting a list by a key ----------

  predicate SortedBy<T>(s: seq<T>, key: T -> int) {
    forall i, j :: 0 <= i < j < |s| ==> key(s[i]) <= key(s[j])
  }

  function Insert<T>(x: T, s: seq<T>, key: T -> int): (r: seq<T>)
    ensures |r| == |s| + 1
  {
    if s == [] then [x]
    else if key(x) <= key(s[0]) then [x] + s
    else [s[0]] + Insert(x, s[1..], key)
  }

  /** A stable sort: increasing key, equal keys in their original order. */
  function SortBy<T>(s: seq<T>, key: T -> int): (r: seq<T>)
    ensures |r| == |s|
  {
    if s == [] then [] else Insert(s[0], SortBy(s[1..], key), key)
  }

  lemma {:induction false} InsertKeeps<T>(x: T, s: seq<T>, key: T -> int)
    ensures multiset(Insert(x, s, key)) == multiset(s) + multiset{x}
  {
    if s != [] {
      assert s == [s[0]] + s[1..];
      if key(x) > key(s[0]) {
        InsertKeeps(x, s[1..], key);
      }
    }
  }

  lemma {:induction false} InsertSorts<T>(x: T, s: seq<T>, key: T -> int)
    requires SortedBy(s, key)
    ensures SortedBy(Insert(x, s, key), key)
  {
    if s != [] && key(x) > key(s[0]) {
      InsertSorts(x, s[1..], key);
      InsertKeeps(x, s[1..], key);
      var t := Insert(x, s[1..], key);
      forall j | 0 <= j < |t| ensures key(s[0]) <= key(t[j]) {
        assert t[j] in multiset(t);
        assert t[j] == x || t[j] in multiset(s[1..]);
      }
    }
  }

  /** Sorting keeps the elements, with their number of occurrences, and orders them. */
  lemma {:induction false} SortBySorts<T>(s: seq<T>, key: T -> int)
    ensures SortedBy(SortBy(s, key), key)
    ensures multiset(SortBy(s, key)) == multiset(s)
  {
    if s != [] {
      SortBySorts(s[1..], key);
      InsertSorts(s[0], SortBy(s[1..], key), key);
      InsertKeeps(s[0], SortBy(s[1..], key), key);
      assert s == [s[0]] + s[1..];
    }
  }

  function Map<T, U>(s: seq<T>, f: T -> U): (r: seq<U>)
    ensures |r| == |s| && forall i :: 0 <= i < |s| ==> r[i] == f(s[i])
  {
    seq(|s|, i requires 0 <= i < |s| => f(s[i]))
  }

  lemma {:induction false} InsertKeepsImage<T, U>(x: T, s: seq<T>, key: T -> int, f: T -> U)
    ensures multiset(Map(Insert(x, s, key), f)) == multiset(Map(s, f)) + multiset{f(x)}
  {
    var r := Insert(x, s, key);
    if s == [] || key(x) <= key(s[0]) {
      assert Map(r, f) == [f(x)] + Map(s, f);
    } else {
      var t := Insert(x, s[1..], key);
      InsertKeepsImage(x, s[1..], key, f);
      assert Map(r, f) == [f(s[0])] + Map(t, f);
      assert Map(s, f) == [f(s[0])] + Map(s[1..], f);
    }
  }

  /** Whatever is read off the elements is permuted with them. */
  lemma {:induction false} SortByKeepsImage<T, U>(s: seq<T>, key: T -> int, f: T -> U)
    ensures multiset(Map(SortBy(s, key), f)) == multiset(Map(s, f))
  {
    if s != [] {
      SortByKeepsImage(s[1..], key, f);
      InsertKeepsImage(s[0], SortBy(s[1..], key), key, f);
      assert Map(s, f) == [f(s[0])] + Map(s[1..], f);
    }
  }

  predicate Distinct<T(==)>(s: seq<T>) {
    forall i, j :: 0 <= i < j < |s| ==> s[i] != s[j]
  }

  lemma PermutationKeepsDistinct<T>(a: seq<T>, b: seq<T>)
    requires Distinct(a) && multiset(a) == multiset(b)
    ensures Distinct(b)
  {
    forall i, j | 0 <= i < j < |b| ensures b[i] != b[j] {
      var x := b[i];
      assert b == b[..i] + [x] + b[i + 1..];
      assert b[j] in b[i + 1..];
      assert x in multiset(a);
      var k :| 0 <= k < |a| && a[k] == x;
      assert a == a[..k] + [x] + a[k + 1..];
      assert x !in a[..k] && x !in a[k + 1..];
      assert multiset(a)[x] == 1;
    }
  }

  function Elements<T>(s: seq<T>): set<T> {
    set x | x in s
  }

  lemma ElementsOfSum<T>(a: seq<T>, b: seq<T>)
    ensures Elements(a + b) == Elements(a) + Elements(b)
    ensures |b| == 1 ==> Elements(b) == {b[0]}
    ensures b == [] ==> Elements(b) == {}
  {
  }

  lemma DistinctFromFirst<T>(s: seq<T>)
    requires s != []
    ensures Distinct(s) <==> s[0] !in s[1..] && Distinct(s[1..])
  {
    var rest := s[1..];
    assert forall j :: 1 <= j < |s| ==> s[j] == rest[j - 1];
    assert forall i :: 0 <= i < |rest| ==> rest[i] == s[i + 1];
  }

  /** The set is never larger than the list, and as large exactly when the list repeats nothing. */
  lemma {:induction false} ElementCount<T>(s: seq<T>)
    ensures |Elements(s)| <= |s|
    ensures |Elements(s)| == |s| <==> Distinct(s)
  {
    if s == [] {
      assert Elements(s) == {};
    } else {
      var rest := s[1..];
      ElementCount(rest);
      DistinctFromFirst(s);
      assert s == [s[0]] + rest;
      assert Elements(s) == {s[0]} + Elements(rest);
      if s[0] in rest {
        assert Elements(s) == Elements(rest);
      }
    }
  }

  lemma {:induction false} SortOfSorted<T>(s: seq<T>, key: T -> int)
    requires SortedBy(s, key)
    ensures SortBy(s, key) == s
  {
    if s != [] {
      SortOfSorted(s[1..], key);
    }
  }

  predicate NonIncreasing(s: seq<int>) {
    forall i, j :: 0 <= i < j < |s| ==> s[i] >= s[j]
  }

  /** The first of a list in decreasing order is the largest of its elements. */
  lemma FirstIsLargest(a: seq<int>, x: int)
    requires NonIncreasing(a) && x in multiset(a)
    ensures a != [] && a[0] >= x
  {
  }

  lemma SameRest(x: int, a: seq<int>, b: seq<int>)
    requires multiset([x] + a) == multiset([x] + b)
    ensures multiset(a) == multiset(b)
  {
    assert multiset([x] + a) - multiset{x} == multiset(a);
    assert multiset([x] + b) - multiset{x} == multiset(b);
  }

  lemma SameFirst(a: seq<int>, b: seq<int>)
    requires NonIncreasing(a) && NonIncreasing(b) && multiset(a) == multiset(b) && a != []
    ensures b != [] && a[0] == b[0] && multiset(a[1..]) == multiset(b[1..])
  {
    FirstIsLargest(b, a[0]);
    FirstIsLargest(a, b[0]);
    assert a == [a[0]] + a[1..] && b == [a[0]] + b[1..];
    SameRest(a[0], a[1..], b[1..]);
  }

  /** There is one way to order integers from the largest down. */
  lemma {:induction false} NonIncreasingIsUnique(a: seq<int>, b: seq<int>)
    requires NonIncreasing(a) && NonIncreasing(b) && multiset(a) == multiset(b)
    ensures a == b
  {
    if a == [] {
      assert |b| == |multiset(b)| == 0;
    } else {
      SameFirst(a, b);
      NonIncreasingIsUnique(a[1..], b[1..]);
    }
  }
}
