/** Sorting by a strict order, and why the result does not depend on how it was reached. */
module Sorting {
  ghost predicate Sorted<T(!new)>(less: (T, T) -> bool, s: seq<T>) {
    forall i, j :: 0 <= i < j < |s| ==> less(s[i], s[j])
  }

  /** On these elements `less` is a strict total order. */
  ghost predicate Orders<T(!new)>(less: (T, T) -> bool, s: seq<T>) {
    && (forall x, y :: x in s && y in s ==> x == y || less(x, y) || less(y, x))
    && (forall x, y :: x in s && y in s && less(x, y) ==> x != y && !less(y, x))
    && (forall x, y, z :: x in s && y in s && z in s && less(x, y) && less(y, z) ==> less(x, z))
  }

  ghost predicate Distinct<T(!new)>(s: seq<T>) {
    forall i, j :: 0 <= i < j < |s| ==> s[i] != s[j]
  }

  function InsertBy<T(!new)>(less: (T, T) -> bool, sorted: seq<T>, x: T): seq<T> {
    if sorted == [] || less(x, sorted[0]) then [x] + sorted
    else [sorted[0]] + InsertBy(less, sorted[1..], x)
  }

  function SortBy<T(!new)>(less: (T, T) -> bool, s: seq<T>): seq<T> {
    if s == [] then [] else InsertBy(less, SortBy(less, s[..|s| - 1]), s[|s| - 1])
  }

  lemma {:induction false} OrdersFewer<T(!new)>(less: (T, T) -> bool, s: seq<T>, t: seq<T>)
    requires Orders(less, s) && forall x :: x in t ==> x in s
    ensures Orders(less, t)
  {
  }

  lemma {:induction false} Inserts<T(!new)>(less: (T, T) -> bool, sorted: seq<T>, x: T)
    requires Sorted(less, sorted) && x !in sorted && Orders(less, sorted + [x])
    ensures Sorted(less, InsertBy(less, sorted, x))
    ensures forall y :: y in InsertBy(less, sorted, x) <==> y == x || y in sorted
  {
    if sorted != [] {
      var first, rest := sorted[0], sorted[1..];
      assert sorted == [first] + rest;
      assert x in sorted + [x] && first in sorted + [x];
      if less(x, first) {
        forall j | 0 <= j < |sorted|
          ensures less(x, sorted[j])
        {
          assert sorted[j] in sorted + [x];
        }
      } else {
        OrdersFewer(less, sorted + [x], rest + [x]);
        Inserts(less, rest, x);
        var longer := InsertBy(less, rest, x);
        assert forall j :: 0 <= j < |longer| ==> longer[j] in longer;
      }
    }
  }

  lemma {:induction false} Sorts<T(!new)>(less: (T, T) -> bool, s: seq<T>)
    requires Orders(less, s) && Distinct(s)
    ensures Sorted(less, SortBy(less, s)) && forall y :: y in SortBy(less, s) <==> y in s
  {
    hide Orders;
    if s != [] {
      var n := |s| - 1;
      assert s == s[..n] + [s[n]];
      OrdersFewer(less, s, s[..n]);
      Sorts(less, s[..n]);
      OrdersFewer(less, s, SortBy(less, s[..n]) + [s[n]]);
      Inserts(less, SortBy(less, s[..n]), s[n]);
    }
  }

  /** The same elements have one sorted arrangement. */
  lemma {:induction false} SortedUnique<T(!new)>(less: (T, T) -> bool, a: seq<T>, b: seq<T>)
    requires Orders(less, a) && Sorted(less, a) && Sorted(less, b) && forall x :: x in a <==> x in b
    ensures a == b
  {
    hide Orders, Sorted;
    if a == [] {
      assert forall k :: 0 <= k < |b| ==> b[k] in a;
    } else {
      assert a[0] in b && b[0] in a;
      FirstIsLeast(less, a, b[0]);
      FirstIsLeast(less, b, a[0]);
      OneWay(less, a, a[0], b[0]);
      OrdersFewer(less, a, b);
      TailSorted(less, a);
      TailSorted(less, b);
      assert a == [a[0]] + a[1..] && b == [b[0]] + b[1..];
      OrdersFewer(less, a, a[1..]);
      SortedUnique(less, a[1..], b[1..]);
    }
  }

  lemma {:induction false} OneWay<T(!new)>(less: (T, T) -> bool, a: seq<T>, x: T, y: T)
    requires Orders(less, a) && x in a && y in a
    ensures !(less(x, y) && less(y, x))
  {
  }

  lemma {:induction false} TailSorted<T(!new)>(less: (T, T) -> bool, a: seq<T>)
    requires Orders(less, a) && Sorted(less, a) && a != []
    ensures Sorted(less, a[1..]) && forall x :: x in a[1..] <==> x in a && x != a[0]
  {
    forall x
      ensures x in a[1..] <==> x in a && x != a[0]
    {
      NotFirst(less, a, x);
    }
  }

  lemma {:induction false} FirstIsLeast<T(!new)>(less: (T, T) -> bool, a: seq<T>, x: T)
    requires Sorted(less, a) && x in a
    ensures x == a[0] || less(a[0], x)
  {
  }

  lemma {:induction false} NotFirst<T(!new)>(less: (T, T) -> bool, a: seq<T>, x: T)
    requires Sorted(less, a) && a != [] && forall y, z :: y in a && z in a && less(y, z) ==> y != z
    ensures x in a[1..] <==> x in a && x != a[0]
  {
    assert a == [a[0]] + a[1..];
    assert forall j :: 0 < j < |a| ==> less(a[0], a[j]) && a[j] in a && a[0] in a;
  }
}
