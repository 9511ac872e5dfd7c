/** A stable sort by an integer key, and what it keeps. */
module Sorting {

  function InsertBy<T>(s: seq<T>, x: T, key: T -> int): seq<T> {
    if s == [] || key(s[|s| - 1]) <= key(x) then s + [x]
    else InsertBy(s[..|s| - 1], x, key) + [s[|s| - 1]]
  }

  /** Go's `sort.SliceStable`: elements with equal keys keep their order. */
  function SortBy<T>(s: seq<T>, key: T -> int): seq<T> {
    if s == [] then [] else InsertBy(SortBy(s[..|s| - 1], key), s[|s| - 1], key)
  }

  function Filter<T>(s: seq<T>, p: T -> bool): seq<T> {
    if s == [] then []
    else if p(s[|s| - 1]) then Filter(s[..|s| - 1], p) + [s[|s| - 1]]
    else Filter(s[..|s| - 1], p)
  }

  ghost predicate Sorted<T>(s: seq<T>, key: T -> int) {
    forall i, j :: 0 <= i < j < |s| ==> key(s[i]) <= key(s[j])
  }

  ghost predicate StrictlySorted<T>(s: seq<T>, key: T -> int) {
    forall i, j :: 0 <= i < j < |s| ==> key(s[i]) < key(s[j])
  }

  lemma {:induction false} InsertHas<T>(s: seq<T>, x: T, key: T -> int, y: T)
    ensures y in InsertBy(s, x, key) <==> y in s || y == x
  {
    if s != [] && key(s[|s| - 1]) > key(x) {
      InsertHas(s[..|s| - 1], x, key, y);
      assert s == s[..|s| - 1] + [s[|s| - 1]];
    }
  }

  lemma {:induction false} InsertKeepsSorted<T>(s: seq<T>, x: T, key: T -> int)
    requires Sorted(s, key)
    ensures Sorted(InsertBy(s, x, key), key)
  {
    if s != [] && key(s[|s| - 1]) > key(x) {
      var front, last := s[..|s| - 1], s[|s| - 1];
      InsertKeepsSorted(front, x, key);
      var r := InsertBy(front, x, key);
      forall i | 0 <= i < |r| ensures key(r[i]) <= key(last) {
        InsertHas(front, x, key, r[i]);
      }
    }
  }

  /** The result is sorted and holds exactly the given elements. */
  lemma {:induction false} SortSorts<T>(s: seq<T>, key: T -> int, y: T)
    ensures Sorted(SortBy(s, key), key)
    ensures y in SortBy(s, key) <==> y in s
  {
    if s != [] {
      SortSorts(s[..|s| - 1], key, y);
      InsertKeepsSorted(SortBy(s[..|s| - 1], key), s[|s| - 1], key);
      InsertHas(SortBy(s[..|s| - 1], key), s[|s| - 1], key, y);
      assert s == s[..|s| - 1] + [s[|s| - 1]];
    }
  }

  lemma FilterAppend<T>(s: seq<T>, x: T, p: T -> bool)
    ensures Filter(s + [x], p) == if p(x) then Filter(s, p) + [x] else Filter(s, p)
  {
    assert (s + [x])[..|s|] == s;
  }

  lemma {:induction false} FilterOfMore<T>(a: seq<T>, b: seq<T>, p: T -> bool)
    ensures Filter(a + b, p) == Filter(a, p) + Filter(b, p)
  {
    if b == [] {
      assert a + b == a;
    } else {
      var front, last := b[..|b| - 1], b[|b| - 1];
      FilterOfMore(a, front, p);
      FilterAppend(a + front, last, p);
      FilterAppend(front, last, p);
      hide Filter;
      assert b == front + [last] && a + b == a + front + [last];
    }
  }

  lemma {:induction false} FilterHas<T>(s: seq<T>, p: T -> bool, x: T)
    ensures x in Filter(s, p) <==> x in s && p(x)
  {
    if s != [] {
      FilterHas(s[..|s| - 1], p, x);
      assert s == s[..|s| - 1] + [s[|s| - 1]];
    }
  }

  lemma {:induction false} FilterKeepsSorted<T>(s: seq<T>, p: T -> bool, key: T -> int)
    requires Sorted(s, key)
    ensures Sorted(Filter(s, p), key)
  {
    if s != [] {
      var front, last := s[..|s| - 1], s[|s| - 1];
      FilterKeepsSorted(front, p, key);
      var r := Filter(front, p);
      forall i | 0 <= i < |r| ensures key(r[i]) <= key(last) {
        FilterHas(front, p, r[i]);
      }
    }
  }

  lemma InsertAppend<T>(s: seq<T>, last: T, x: T, key: T -> int)
    requires key(last) > key(x)
    ensures InsertBy(s + [last], x, key) == InsertBy(s, x, key) + [last]
  {
    assert (s + [last])[..|s|] == s;
  }

  lemma {:induction false} InsertFilters<T>(s: seq<T>, x: T, key: T -> int, p: T -> bool)
    requires Sorted(s, key)
    ensures Filter(InsertBy(s, x, key), p) == if p(x) then InsertBy(Filter(s, p), x, key) else Filter(s, p)
  {
    if s == [] || key(s[|s| - 1]) <= key(x) {
      FilterAppend(s, x, p);
      var f := Filter(s, p);
      if f != [] { FilterHas(s, p, f[|f| - 1]); }
    } else {
      var front, last := s[..|s| - 1], s[|s| - 1];
      InsertFilters(front, x, key, p);
      FilterAppend(InsertBy(front, x, key), last, p);
      if p(x) && p(last) { InsertAppend(Filter(front, p), last, x, key); }
    }
  }

  /** Sorting and selecting commute: a stable sort keeps the order among any selected elements
      as if they had been sorted alone. */
  lemma {:induction false} SortFilters<T>(s: seq<T>, key: T -> int, p: T -> bool)
    ensures Filter(SortBy(s, key), p) == SortBy(Filter(s, p), key)
  {
    if s != [] {
      var front, last := s[..|s| - 1], s[|s| - 1];
      SortFilters(front, key, p);
      SortSorts(front, key, last);
      InsertFilters(SortBy(front, key), last, key, p);
      if p(last) { SortAppend(Filter(front, p), last, key); }
    }
  }

  lemma SortAppend<T>(s: seq<T>, x: T, key: T -> int)
    ensures SortBy(s + [x], key) == InsertBy(SortBy(s, key), x, key)
  {
    assert (s + [x])[..|s|] == s;
  }

  lemma {:induction false} SortedStays<T>(s: seq<T>, key: T -> int)
    requires Sorted(s, key)
    ensures SortBy(s, key) == s
  {
    if s != [] {
      var front, last := s[..|s| - 1], s[|s| - 1];
      SortedStays(front, key);
      assert SortBy(s, key) == InsertBy(front, last, key);
      assert InsertBy(front, last, key) == front + [last];
      hide SortBy, InsertBy, Sorted;
      assert s == front + [last];
    }
  }
}
