/**
 * Sorting by a caller-supplied order, and the one fact the program relies on
 * wherever it compares sorted lists: a sorted list is determined by its
 * multiset of elements.
 */
module Sorting {
  ghost predicate TotalPreorder<T(!new)>(le: (T, T) -> bool) {
    && (forall x, y :: le(x, y) || le(y, x))
    && (forall x, y, z :: le(x, y) && le(y, z) ==> le(x, z))
  }

  /** No two different elements of s are equivalent under the order. */
  ghost predicate Separates<T>(le: (T, T) -> bool, s: seq<T>) {
    forall x, y | x in s && y in s :: le(x, y) && le(y, x) ==> x == y
  }

  ghost predicate Sorted<T>(le: (T, T) -> bool, s: seq<T>) {
    forall i, j | 0 <= i < j < |s| :: le(s[i], s[j])
  }

  /** A list is empty or has a member. */
  lemma Occupied<T(!new)>(s: seq<T>)
    ensures s == [] || exists x :: x in s
  {
    if s != [] { assert s[0] in s; }
  }

  function Insert<T>(le: (T, T) -> bool, x: T, s: seq<T>): (r: seq<T>)
    ensures multiset(r) == multiset{x} + multiset(s)
  {
    if s == [] then [x]
    else
      assert s == [s[0]] + s[1..];
      if le(x, s[0]) then [x] + s
      else [s[0]] + Insert(le, x, s[1..])
  }

  function Sort<T>(le: (T, T) -> bool, s: seq<T>): (r: seq<T>)
    ensures multiset(r) == multiset(s)
  {
    if s == [] then []
    else
      assert s == [s[0]] + s[1..];
      Insert(le, s[0], Sort(le, s[1..]))
  }

  lemma SameMembers<T(!new)>(a: seq<T>, b: seq<T>)
    requires multiset(a) == multiset(b)
    ensures forall x :: x in a <==> x in b
    ensures |a| == |b|
  {
    forall x ensures x in a <==> x in b {
      assert x in a <==> x in multiset(a);
      assert x in b <==> x in multiset(b);
    }
    assert |a| == |multiset(a)| == |multiset(b)| == |b|;
  }

  lemma InsertSorted<T(!new)>(le: (T, T) -> bool, x: T, s: seq<T>)
    requires TotalPreorder(le) && Sorted(le, s)
    ensures Sorted(le, Insert(le, x, s))
  {
    if s != [] && !le(x, s[0]) {
      InsertSorted(le, x, s[1..]);
      var rest := Insert(le, x, s[1..]);
      forall j | 0 <= j < |rest| ensures le(s[0], rest[j]) {
        assert rest[j] in multiset(rest);
        assert rest[j] == x || rest[j] in s[1..];
      }
    }
  }

  lemma SortSorted<T(!new)>(le: (T, T) -> bool, s: seq<T>)
    requires TotalPreorder(le)
    ensures Sorted(le, Sort(le, s))
  {
    if s == [] {
    } else {
      SortSorted(le, s[1..]);
      InsertSorted(le, s[0], Sort(le, s[1..]));
    }
  }

  lemma SortedFirst<T(!new)>(le: (T, T) -> bool, s: seq<T>, x: T)
    requires TotalPreorder(le) && Sorted(le, s) && x in s
    ensures le(s[0], x)
  {
    assert le(s[0], s[0]);
  }

  lemma MultisetTail<T>(s: seq<T>)
    requires s != []
    ensures multiset(s[1..]) == multiset(s) - multiset{s[0]}
  {
    assert s == [s[0]] + s[1..];
  }

  /** Two sorted arrangements of the same elements are the same list. */
  lemma {:induction false} SortedUnique<T(!new)>(le: (T, T) -> bool, a: seq<T>, b: seq<T>)
    requires TotalPreorder(le) && Sorted(le, a) && Sorted(le, b)
    requires multiset(a) == multiset(b) && Separates(le, a)
    ensures a == b
  {
    SameMembers(a, b);
    if a == [] {
    } else {
      assert a[0] in b && b[0] in a;
      SortedFirst(le, a, b[0]);
      SortedFirst(le, b, a[0]);
      assert a[0] == b[0];
      MultisetTail(a);
      MultisetTail(b);
      assert forall x | x in a[1..] :: x in a;
      SortedUnique(le, a[1..], b[1..]);
    }
  }

  /** Sorting forgets the order in which the elements were listed. */
  lemma SortForgetsOrder<T(!new)>(le: (T, T) -> bool, a: seq<T>, b: seq<T>)
    requires TotalPreorder(le) && Separates(le, a)
    requires multiset(a) == multiset(b)
    ensures Sort(le, a) == Sort(le, b)
  {
    SortSorted(le, a);
    SortSorted(le, b);
    SameMembers(a, Sort(le, a));
    SortedUnique(le, Sort(le, a), Sort(le, b));
  }

  ghost predicate DistinctBy<T, K>(key: T -> K, s: seq<T>) {
    forall i, j | 0 <= i < j < |s| :: key(s[i]) != key(s[j])
  }

  lemma InsertDistinct<T(!new), K>(le: (T, T) -> bool, key: T -> K, x: T, s: seq<T>)
    requires DistinctBy(key, s) && forall y | y in s :: key(y) != key(x)
    ensures DistinctBy(key, Insert(le, x, s))
  {
    if s != [] && !le(x, s[0]) {
      assert DistinctBy(key, s[1..]);
      InsertDistinct(le, key, x, s[1..]);
      var rest := Insert(le, x, s[1..]);
      forall j | 0 <= j < |rest| ensures key(s[0]) != key(rest[j]) {
        assert rest[j] in multiset(rest);
        assert rest[j] == x || rest[j] in s[1..];
      }
    }
  }

  lemma SortDistinct<T(!new), K>(le: (T, T) -> bool, key: T -> K, s: seq<T>)
    requires DistinctBy(key, s)
    ensures DistinctBy(key, Sort(le, s))
  {
    if s == [] {
    } else {
      var tail, sorted := s[1..], Sort(le, s[1..]);
      SortDistinct(le, key, tail);
      SameMembers(tail, sorted);
      forall y | y in sorted ensures key(y) != key(s[0]) {
        assert y in tail;
        var k :| 0 <= k < |tail| && tail[k] == y;
        assert s[k + 1] == y;
      }
      InsertDistinct(le, key, s[0], sorted);
    }
  }
}
