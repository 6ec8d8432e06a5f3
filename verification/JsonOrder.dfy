/** The order across JSON values that `sort` and `unique` rely on. */
module JsonOrder {
  import opened Json
  import opened TextOrder
  import Sorting

  datatype Ordering = Before | Same | After

  function CompareInts(a: int, b: int): Ordering {
    if a < b then Before else if a == b then Same else After
  }

  function CompareNumbers(a: real, b: real): Ordering {
    if a < b then Before else if a == b then Same else After
  }

  function CompareStrings(a: string, b: string): Ordering {
    if a == b then Same else if Less(a, b) then Before else After
  }

  function Rank(v: Json): nat {
    match v
    case Null => 0
    case Bool(b) => if b then 2 else 1
    case Number(_) => 3
    case Str(_) => 4
    case Array(_) => 5
    case Object(_) => 6
  }

  predicate ObjectFree(v: Json) {
    match v
    case Object(_) => false
    case Array(items) => AllObjectFree(items)
    case _ => true
  }

  predicate AllObjectFree(items: seq<Json>) {
    items == [] || (ObjectFree(items[0]) && AllObjectFree(items[1..]))
  }

  function Order(a: Json, b: Json): Ordering
    decreases a
  {
    if a.Number? && b.Number? then CompareNumbers(a.value, b.value)
    else if a.Str? && b.Str? then CompareStrings(a.text, b.text)
    else if a.Array? && b.Array? then OrderItems(a.items, b.items)
    else CompareInts(Rank(a), Rank(b))
  }

  function OrderItems(a: seq<Json>, b: seq<Json>): Ordering
    decreases a
  {
    if a == [] || b == [] then CompareInts(|a|, |b|)
    else
      var first := Order(a[0], b[0]);
      if first != Same then first else OrderItems(a[1..], b[1..])
  }

  // ---- the order in plain terms -------------------------------------------------------------

  /** The kinds in their order: null, false, true, numbers, strings, arrays, objects. */
  predicate KindBelow(a: Json, b: Json) {
    match a
    case Null => !b.Null?
    case Bool(value) => if value then !b.Null? && !b.Bool? else !b.Null? && b != Bool(false)
    case Number(_) => b.Str? || b.Array? || b.Object?
    case Str(_) => b.Array? || b.Object?
    case Array(_) => b.Object?
    case Object(_) => false
  }

  /** Objects tie, arrays tie item by item, and anything else ties with its equals. */
  ghost predicate Ties(a: Json, b: Json)
    decreases a
  {
    match a
    case Object(_) => b.Object?
    case Array(items) => b.Array? && ItemsTie(items, b.items)
    case _ => a == b
  }

  ghost predicate ItemsTie(a: seq<Json>, b: seq<Json>)
    decreases a
  {
    |a| == |b| && forall k :: 0 <= k < |a| ==> Ties(a[k], b[k])
  }

  /**
    The lower kind; of numbers the smaller, of strings the one before the other,
    of arrays the one lower at the first items that do not tie, or shorter.
   */
  ghost predicate Below(a: Json, b: Json)
    decreases a
  {
    || KindBelow(a, b)
    || (a.Number? && b.Number? && a.value < b.value)
    || (a.Str? && b.Str? && Precedes(a.text, b.text))
    || (a.Array? && b.Array? && ItemsBelow(a.items, b.items))
  }

  ghost predicate ItemsBelow(a: seq<Json>, b: seq<Json>)
    decreases a, 1
  {
    exists k :: 0 <= k <= |a| && BelowAt(a, b, k)
  }

  ghost predicate BelowAt(a: seq<Json>, b: seq<Json>, k: nat)
    decreases a, 0
  {
    && k <= |a| && k < |b| && (k < |a| ==> Below(a[k], b[k]))
    && forall m :: 0 <= m < k ==> Ties(a[m], b[m])
  }

  lemma {:induction false} OrderMeans(a: Json, b: Json)
    ensures Order(a, b) == Same <==> Ties(a, b)
    ensures Order(a, b) == Before <==> Below(a, b)
    decreases a
  {
    if a.Str? && b.Str? {
      LessMeans(a.text, b.text);
      StringsFlip(a.text, b.text);
      if Less(a.text, b.text) {
        LessIsStrict(a.text, b.text);
      }
    } else if a.Array? && b.Array? {
      ItemsMean(a.items, b.items);
    }
  }

  lemma {:induction false} ItemsMean(a: seq<Json>, b: seq<Json>)
    ensures OrderItems(a, b) == Same <==> ItemsTie(a, b)
    ensures OrderItems(a, b) == Before <==> ItemsBelow(a, b)
    decreases a
  {
    hide Order, Ties, Below;
    if a != [] && b != [] {
      OrderMeans(a[0], b[0]);
      ItemsMean(a[1..], b[1..]);
      TieStep(a, b);
      BelowStep(a, b);
      NotBoth(a[0], b[0]);
    } else if b != [] {
      BelowSome(a, b, 0);
    }
  }

  lemma {:induction false} TieStep(a: seq<Json>, b: seq<Json>)
    requires a != [] && b != []
    ensures ItemsTie(a, b) <==> Ties(a[0], b[0]) && ItemsTie(a[1..], b[1..])
  {
    hide Ties;
    if Ties(a[0], b[0]) && ItemsTie(a[1..], b[1..]) {
      forall k | 0 <= k < |a|
        ensures Ties(a[k], b[k])
      {
        if k > 0 {
          assert Ties(a[1..][k - 1], b[1..][k - 1]);
        }
      }
    }
    if ItemsTie(a, b) {
      forall k | 0 <= k < |a[1..]|
        ensures Ties(a[1..][k], b[1..][k])
      {
        assert Ties(a[k + 1], b[k + 1]);
      }
    }
  }

  lemma {:induction false} SomeBelow(a: seq<Json>, b: seq<Json>) returns (k: nat)
    requires ItemsBelow(a, b)
    ensures BelowAt(a, b, k)
  {
    hide Ties, Below, BelowAt;
    k :| k <= |a| && BelowAt(a, b, k);
  }

  lemma {:induction false} BelowSome(a: seq<Json>, b: seq<Json>, k: nat)
    requires BelowAt(a, b, k)
    ensures ItemsBelow(a, b)
  {
    hide Ties, Below;
  }

  lemma {:induction false} BelowStep(a: seq<Json>, b: seq<Json>)
    requires a != [] && b != []
    ensures ItemsBelow(a, b) <==> Below(a[0], b[0]) || (Ties(a[0], b[0]) && ItemsBelow(a[1..], b[1..]))
  {
    hide Ties, Below, ItemsBelow;
    if Below(a[0], b[0]) {
      BelowSome(a, b, 0);
    } else if Ties(a[0], b[0]) && ItemsBelow(a[1..], b[1..]) {
      var k := SomeBelow(a[1..], b[1..]);
      forall m | 0 <= m < k + 1
        ensures Ties(a[m], b[m])
      {
        if m > 0 {
          assert Ties(a[1..][m - 1], b[1..][m - 1]);
        }
      }
      BelowSome(a, b, k + 1);
    }
    if ItemsBelow(a, b) {
      var k := SomeBelow(a, b);
      if k > 0 {
        forall m | 0 <= m < k - 1
          ensures Ties(a[1..][m], b[1..][m])
        {
          assert Ties(a[m + 1], b[m + 1]);
        }
        BelowSome(a[1..], b[1..], k - 1);
      }
    }
  }

  lemma {:induction false} NotBoth(a: Json, b: Json)
    ensures !(Order(a, b) == Same && Order(a, b) == Before)
  {
  }

  /** No later value is below an earlier one. */
  ghost predicate Ascending(items: seq<Json>) {
    forall i, j :: 0 <= i < j < |items| ==> Below(items[i], items[j]) || Ties(items[i], items[j])
  }

  ghost predicate StrictlyAscending(items: seq<Json>) {
    forall i, j :: 0 <= i < j < |items| ==> Below(items[i], items[j])
  }

  lemma {:induction false} SortedAscends(items: seq<Json>)
    requires Sorted(items)
    ensures Ascending(items)
  {
    hide Order, Below, Ties;
    forall i, j | 0 <= i < j < |items|
      ensures Below(items[i], items[j]) || Ties(items[i], items[j])
    {
      assert AtMost(items[i], items[j]);
      OrderMeans(items[i], items[j]);
    }
  }

  lemma {:induction false} StrictAscends(items: seq<Json>)
    requires Strict(items)
    ensures StrictlyAscending(items)
  {
    hide Order, Below;
    forall i, j | 0 <= i < j < |items|
      ensures Below(items[i], items[j])
    {
      OrderMeans(items[i], items[j]);
    }
  }

  // ---- a total order that agrees with equality ---------------------------------------------

  function Flip(o: Ordering): Ordering {
    match o
    case Before => After
    case Same => Same
    case After => Before
  }

  lemma {:induction false} StringsFlip(a: string, b: string)
    ensures a == b || Less(a, b) || Less(b, a)
    ensures CompareStrings(b, a) == Flip(CompareStrings(a, b))
  {
    if a != "" && b != "" && a[0] == b[0] {
      StringsFlip(a[1..], b[1..]);
      assert a == [a[0]] + a[1..] && b == [b[0]] + b[1..];
    }
    if Less(a, b) {
      LessIsStrict(a, b);
    } else if Less(b, a) {
      LessIsStrict(b, a);
    }
  }

  /** Swapping the sides flips the answer; on object-free values `Same` means equal. */
  lemma {:induction false} OrderAgrees(a: Json, b: Json)
    ensures Order(b, a) == Flip(Order(a, b))
    ensures a == b ==> Order(a, b) == Same
    ensures ObjectFree(a) && ObjectFree(b) && Order(a, b) == Same ==> a == b
    decreases a
  {
    if a.Str? && b.Str? {
      StringsFlip(a.text, b.text);
    } else if a.Array? && b.Array? {
      ItemsAgree(a.items, b.items);
    }
  }

  lemma {:induction false} ItemsAgree(a: seq<Json>, b: seq<Json>)
    ensures OrderItems(b, a) == Flip(OrderItems(a, b))
    ensures a == b ==> OrderItems(a, b) == Same
    ensures AllObjectFree(a) && AllObjectFree(b) && OrderItems(a, b) == Same ==> a == b
    decreases a
  {
    if a != [] && b != [] {
      OrderAgrees(a[0], b[0]);
      ItemsAgree(a[1..], b[1..]);
      assert a == [a[0]] + a[1..] && b == [b[0]] + b[1..];
    }
  }

  /** `Same` or `Before`, chained. */
  predicate AtMost(a: Json, b: Json) {
    Order(a, b) != After
  }

  lemma {:induction false} OrderTransitive(a: Json, b: Json, c: Json)
    requires AtMost(a, b) && AtMost(b, c)
    ensures AtMost(a, c)
    ensures Order(a, c) == Same ==> Order(a, b) == Same && Order(b, c) == Same
    decreases a
  {
    if a.Str? && b.Str? && c.Str? {
      StringsTransitive(a.text, b.text, c.text);
    } else if a.Array? && b.Array? && c.Array? {
      ItemsTransitive(a.items, b.items, c.items);
    }
  }

  lemma {:induction false} StringsTransitive(a: string, b: string, c: string)
    requires CompareStrings(a, b) != After && CompareStrings(b, c) != After
    ensures CompareStrings(a, c) != After
    ensures CompareStrings(a, c) == Same ==> CompareStrings(a, b) == Same && CompareStrings(b, c) == Same
  {
    if Less(a, b) && Less(b, c) {
      LessTransitive(a, b, c);
      LessIsStrict(a, c);
    }
  }

  lemma {:induction false} ItemsTransitive(a: seq<Json>, b: seq<Json>, c: seq<Json>)
    requires OrderItems(a, b) != After && OrderItems(b, c) != After
    ensures OrderItems(a, c) != After
    ensures OrderItems(a, c) == Same ==> OrderItems(a, b) == Same && OrderItems(b, c) == Same
    decreases a
  {
    if a != [] && b != [] && c != [] {
      OrderTransitive(a[0], b[0], c[0]);
      if Order(a[0], b[0]) == Same && Order(b[0], c[0]) == Same {
        SameChain(a[0], b[0], c[0]);
        ItemsTransitive(a[1..], b[1..], c[1..]);
      }
    }
  }

  lemma {:induction false} SameChain(a: Json, b: Json, c: Json)
    requires Order(a, b) == Same && Order(b, c) == Same
    ensures Order(a, c) == Same
    decreases a
  {
    if a.Array? && b.Array? && c.Array? {
      ItemsSameChain(a.items, b.items, c.items);
    }
  }

  lemma {:induction false} ItemsSameChain(a: seq<Json>, b: seq<Json>, c: seq<Json>)
    requires OrderItems(a, b) == Same && OrderItems(b, c) == Same
    ensures OrderItems(a, c) == Same
    decreases a
  {
    if a != [] && b != [] && c != [] {
      SameChain(a[0], b[0], c[0]);
      ItemsSameChain(a[1..], b[1..], c[1..]);
    }
  }

  // ---- sort and unique ----------------------------------------------------------------------

  ghost predicate Sorted(items: seq<Json>) {
    forall i, j :: 0 <= i < j < |items| ==> AtMost(items[i], items[j])
  }

  ghost predicate Strict(items: seq<Json>) {
    forall i, j :: 0 <= i < j < |items| ==> Order(items[i], items[j]) == Before
  }

  /** Keeps equal-ranking values in their first order, as a stable sort does. */
  function InsertSorted(sorted: seq<Json>, v: Json): (r: seq<Json>)
    ensures multiset(r) == multiset(sorted) + multiset{v}
    ensures forall w :: w in r <==> w in sorted || w == v
  {
    if sorted == [] then [v]
    else if AtMost(sorted[|sorted| - 1], v) then sorted + [v]
    else
      assert sorted == sorted[..|sorted| - 1] + [sorted[|sorted| - 1]];
      InsertSorted(sorted[..|sorted| - 1], v) + [sorted[|sorted| - 1]]
  }

  function SortedOf(items: seq<Json>): (r: seq<Json>)
    ensures multiset(r) == multiset(items)
    ensures forall w :: w in r <==> w in items
  {
    if items == [] then []
    else
      assert items == items[..|items| - 1] + [items[|items| - 1]];
      InsertSorted(SortedOf(items[..|items| - 1]), items[|items| - 1])
  }

  lemma {:induction false} SortedLast(front: seq<Json>, last: Json)
    requires Sorted(front)
    requires forall w :: w in front ==> AtMost(w, last)
    ensures Sorted(front + [last])
  {
    hide Order;
  }

  lemma {:induction false} InsertKeepsSorted(sorted: seq<Json>, v: Json)
    requires Sorted(sorted)
    ensures Sorted(InsertSorted(sorted, v))
  {
    hide Order;
    if sorted != [] {
      var n := |sorted| - 1;
      var last := sorted[n];
      if AtMost(last, v) {
        forall i | 0 <= i < n
          ensures AtMost(sorted[i], v)
        {
          OrderTransitive(sorted[i], last, v);
        }
      } else {
        InsertKeepsSorted(sorted[..n], v);
        OrderAgrees(last, v);
        var front := InsertSorted(sorted[..n], v);
        forall w | w in front
          ensures AtMost(w, last)
        {
          if w != v {
            var i :| 0 <= i < n && sorted[i] == w;
          }
        }
        SortedLast(front, last);
      }
    }
  }

  lemma {:induction false} SortSorts(items: seq<Json>)
    ensures Sorted(SortedOf(items))
  {
    if items != [] {
      SortSorts(items[..|items| - 1]);
      InsertKeepsSorted(SortedOf(items[..|items| - 1]), items[|items| - 1]);
    }
  }

  predicate Plain(items: seq<Json>) {
    forall v :: v in items ==> ObjectFree(v)
  }

  /** On object-free values a sorted arrangement is unique, whatever algorithm made it. */
  lemma {:induction false} SortedIsUnique(a: seq<Json>, b: seq<Json>)
    requires Plain(a) && Plain(b) && multiset(a) == multiset(b) && Sorted(a) && Sorted(b)
    ensures a == b
    decreases |a|
  {
    hide Order, OrderItems, ObjectFree;
    assert |a| == |multiset(a)| == |multiset(b)| == |b|;
    if a != [] {
      HeadsAgree(a, b);
      SameTails(a, b);
      SortedIsUnique(a[1..], b[1..]);
    }
  }

  lemma {:induction false} SameTails(a: seq<Json>, b: seq<Json>)
    requires a != [] && b != [] && a[0] == b[0] && multiset(a) == multiset(b)
    ensures multiset(a[1..]) == multiset(b[1..]) && a == [a[0]] + a[1..] && b == [b[0]] + b[1..]
  {
    assert a == [a[0]] + a[1..] && b == [b[0]] + b[1..];
    assert multiset(a[1..]) == multiset(a) - multiset{a[0]};
    assert multiset(b[1..]) == multiset(b) - multiset{b[0]};
  }

  lemma {:induction false} HeadsAgree(a: seq<Json>, b: seq<Json>)
    requires Plain(a) && Plain(b) && multiset(a) == multiset(b) && Sorted(a) && Sorted(b) && a != [] && b != []
    ensures a[0] == b[0]
  {
    hide Order, OrderItems, ObjectFree;
    assert a[0] in multiset(b) && b[0] in multiset(a);
    LeastFirst(a, b[0]);
    LeastFirst(b, a[0]);
    OrderAgrees(a[0], b[0]);
  }

  lemma {:induction false} LeastFirst(items: seq<Json>, v: Json)
    requires Plain(items) && Sorted(items) && v in items
    ensures AtMost(items[0], v)
  {
    var i :| 0 <= i < |items| && items[i] == v;
    OrderAgrees(v, v);
  }

  /** `dedup`: of each run of equal neighbours the first stays. */
  function Dedup(items: seq<Json>): (r: seq<Json>)
    ensures |r| <= |items| && (items != [] ==> r != [] && r[|r| - 1] == items[|items| - 1])
    ensures forall w :: w in r <==> w in items
  {
    if |items| <= 1 then items
    else
      var n := |items| - 1;
      assert items == items[..n] + [items[n]];
      var front := Dedup(items[..n]);
      if items[n - 1] == items[n] then front else front + [items[n]]
  }

  /** A run of the same value: nothing else stands between two equal ones of the same rank. */
  ghost predicate Grouped(items: seq<Json>) {
    forall i, j, k :: 0 <= i < j < k < |items| && items[i] == items[k] && Order(items[i], items[j]) == Same
                      ==> items[j] == items[i]
  }

  // ---- the sort is stable ------------------------------------------------------------------------

  /** The values that rank the same as `c`, in order. */
  ghost function Class(items: seq<Json>, c: Json): (r: seq<Json>)
  {
    if items == [] then []
    else
      var n := |items| - 1;
      Class(items[..n], c) + if Order(items[n], c) == Same then [items[n]] else []
  }

  lemma {:induction false} ClassOfMore(items: seq<Json>, v: Json, c: Json)
    ensures Class(items + [v], c) == Class(items, c) + if Order(v, c) == Same then [v] else []
  {
    hide Order;
    assert (items + [v])[..|items|] == items;
  }

  lemma {:induction false} InsertIsStable(sorted: seq<Json>, v: Json, c: Json)
    ensures Class(InsertSorted(sorted, v), c) == Class(sorted, c) + if Order(v, c) == Same then [v] else []
  {
    hide Order, Class;
    if sorted == [] {
      ClassOfMore([], v, c);
      assert [] + [v] == [v];
    } else {
      var n := |sorted| - 1;
      var front, last := sorted[..n], sorted[n];
      assert sorted == front + [last];
      if AtMost(last, v) {
        ClassOfMore(sorted, v, c);
      } else {
        InsertIsStable(front, v, c);
        ClassOfMore(InsertSorted(front, v), last, c);
        ClassOfMore(front, last, c);
        if Order(v, c) == Same && Order(last, c) == Same {
          OrderAgrees(v, c);
          SameChain(last, c, v);
        }
      }
    }
  }

  /** Values that rank the same keep their order. */
  lemma {:induction false} SortIsStable(items: seq<Json>, c: Json)
    ensures Class(SortedOf(items), c) == Class(items, c)
  {
    hide Order;
    if items != [] {
      var n := |items| - 1;
      SortIsStable(items[..n], c);
      InsertIsStable(SortedOf(items[..n]), items[n], c);
    }
  }

  /** Where the value at `i` stands in its class. */
  ghost function PlaceOf(items: seq<Json>, c: Json, i: nat): nat
    requires i <= |items|
  {
    |Class(items[..i], c)|
  }

  lemma {:induction false} PlacesAscend(items: seq<Json>, c: Json, i: nat, j: nat)
    requires i < j <= |items|
    ensures PlaceOf(items, c, i) <= PlaceOf(items, c, j)
    ensures Order(items[i], c) == Same ==>
              PlaceOf(items, c, i) < PlaceOf(items, c, j) && Class(items[..j], c)[PlaceOf(items, c, i)] == items[i]
    decreases j
  {
    hide Order, Class;
    assert items[..j] == items[..j - 1] + [items[j - 1]];
    ClassOfMore(items[..j - 1], items[j - 1], c);
    if i < j - 1 {
      PlacesAscend(items, c, i, j - 1);
    }
  }

  lemma {:induction false} SourceOf(items: seq<Json>, c: Json, m: nat) returns (i: nat)
    requires m < |Class(items, c)|
    ensures i < |items| && Order(items[i], c) == Same && PlaceOf(items, c, i) == m && Class(items, c)[m] == items[i]
  {
    hide Order;
    var n := |items| - 1;
    if m < |Class(items[..n], c)| {
      i := SourceOf(items[..n], c, m);
      assert items[..n][..i] == items[..i];
    } else {
      i := n;
    }
  }

  ghost predicate OneRunEach(t: seq<Json>) {
    forall i, j, k :: 0 <= i < j < k < |t| && t[i] == t[k] ==> t[j] == t[i]
  }

  lemma {:induction false} RunsOfClass(items: seq<Json>, c: Json)
    requires Grouped(items)
    ensures OneRunEach(Class(items, c))
  {
    hide Order, Class;
    var t := Class(items, c);
    forall m, n, p | 0 <= m < n < p < |t| && t[m] == t[p]
      ensures t[n] == t[m]
    {
      var i := SourceOf(items, c, m);
      var j := SourceOf(items, c, n);
      var k := SourceOf(items, c, p);
      PlacesReflect(items, c, i, j);
      PlacesReflect(items, c, j, k);
      OrderAgrees(items[j], c);
      SameChain(items[i], c, items[j]);
    }
  }

  lemma {:induction false} PlacesReflect(items: seq<Json>, c: Json, i: nat, j: nat)
    requires i < |items| && j < |items|
    requires PlaceOf(items, c, i) < PlaceOf(items, c, j)
    ensures i < j
  {
    if j < i {
      PlacesAscend(items, c, j, i);
    }
  }

  lemma {:induction false} ClassesOfRuns(items: seq<Json>)
    requires forall c :: c in items ==> OneRunEach(Class(items, c))
    ensures Grouped(items)
  {
    hide Order, Class;
    assert items[..|items|] == items;
    forall i, j, k | 0 <= i < j < k < |items| && items[i] == items[k] && Order(items[i], items[j]) == Same
      ensures items[j] == items[i]
    {
      var c := items[i];
      OrderAgrees(c, c);
      OrderAgrees(c, items[j]);
      PlacesAscend(items, c, i, j);
      PlacesAscend(items, c, j, k);
      PlacesAscend(items, c, i, |items|);
      PlacesAscend(items, c, j, |items|);
      PlacesAscend(items, c, k, |items|);
      assert OneRunEach(Class(items, c));
    }
  }

  lemma {:induction false} SortKeepsGroups(items: seq<Json>)
    ensures Grouped(SortedOf(items)) <==> Grouped(items)
  {
    hide Order, Class, Grouped, OneRunEach;
    var sorted := SortedOf(items);
    forall c | c in items
      ensures Class(sorted, c) == Class(items, c)
    {
      SortIsStable(items, c);
    }
    if Grouped(items) {
      forall c | c in items
        ensures OneRunEach(Class(items, c))
      {
        RunsOfClass(items, c);
      }
      ClassesOfRuns(sorted);
    }
    if Grouped(sorted) {
      forall c | c in items
        ensures OneRunEach(Class(items, c))
      {
        RunsOfClass(sorted, c);
      }
      ClassesOfRuns(items);
    }
  }

  // ---- what unique leaves ---------------------------------------------------------------------------

  lemma {:induction false} DedupSorted(items: seq<Json>)
    requires Sorted(items)
    ensures Sorted(Dedup(items))
  {
    hide Order;
    if |items| > 1 {
      var n := |items| - 1;
      DedupSorted(items[..n]);
      forall w | w in Dedup(items[..n])
        ensures AtMost(w, items[n])
      {
        var i :| 0 <= i < n && items[i] == w;
      }
    }
  }

  lemma {:induction false} DedupDistinctIff(items: seq<Json>)
    requires Sorted(items)
    ensures Sorting.Distinct(Dedup(items)) <==> Grouped(items)
  {
    hide Order;
    if |items| > 1 {
      var n := |items| - 1;
      DedupDistinctIff(items[..n]);
      if items[n - 1] == items[n] {
        RepeatKeepsGroups(items);
      } else {
        NewKeepsGroups(items);
        assert forall w :: w in Dedup(items[..n]) <==> w in items[..n];
        NewIsDistinct(Dedup(items[..n]), items[n]);
      }
    }
  }

  lemma {:induction false} RepeatKeepsGroups(items: seq<Json>)
    requires |items| > 1 && items[|items| - 2] == items[|items| - 1]
    ensures Grouped(items) <==> Grouped(items[..|items| - 1])
  {
    hide Order;
    var n := |items| - 1;
    if Grouped(items[..n]) {
      forall i, j, k | 0 <= i < j < k < |items| && items[i] == items[k] && Order(items[i], items[j]) == Same
        ensures items[j] == items[i]
      {
        if k == n && j < n - 1 {
          assert items[..n][i] == items[..n][n - 1] && items[..n][j] == items[j];
        } else if k < n {
          assert items[..n][i] == items[..n][k] && items[..n][j] == items[j];
        }
      }
    }
  }

  lemma {:induction false} NewKeepsGroups(items: seq<Json>)
    requires Sorted(items)
    requires |items| > 1 && items[|items| - 2] != items[|items| - 1]
    ensures var n := |items| - 1; Grouped(items) <==> Grouped(items[..n]) && items[n] !in items[..n]
  {
    hide Order;
    var n := |items| - 1;
    if items[n] in items[..n] {
      var i :| 0 <= i < n && items[i] == items[n];
      assert AtMost(items[i], items[n - 1]) && AtMost(items[n - 1], items[n]);
      OrderAgrees(items[i], items[n - 1]);
    } else if Grouped(items[..n]) {
      forall i, j, k | 0 <= i < j < k < |items| && items[i] == items[k] && Order(items[i], items[j]) == Same
        ensures items[j] == items[i]
      {
        assert items[..n][i] == items[i];
        assert k < n;
        assert items[..n][j] == items[j] && items[..n][k] == items[k];
      }
    }
  }

  lemma {:induction false} NewIsDistinct(front: seq<Json>, v: Json)
    ensures Sorting.Distinct(front + [v]) <==> Sorting.Distinct(front) && v !in front
  {
    var all := front + [v];
    if v in front {
      var i :| 0 <= i < |front| && front[i] == v;
      assert all[i] == all[|front|];
    }
    if Sorting.Distinct(all) {
      assert forall i, j :: 0 <= i < j < |front| ==> front[i] == all[i] && front[j] == all[j];
    }
  }

  lemma {:induction false} DistinctIsStrict(items: seq<Json>)
    requires Plain(items) && Sorted(items) && Sorting.Distinct(items)
    ensures Strict(items)
  {
    hide Order, ObjectFree;
    forall i, j | 0 <= i < j < |items|
      ensures Order(items[i], items[j]) == Before
    {
      OrderAgrees(items[i], items[j]);
    }
  }

  /** Object-free values of the same rank are equal, so they are always grouped. */
  lemma {:induction false} PlainIsGrouped(items: seq<Json>)
    requires Plain(items)
    ensures Grouped(items)
  {
    hide Order, ObjectFree;
    forall i, j | 0 <= i < |items| && 0 <= j < |items| && Order(items[i], items[j]) == Same
      ensures items[j] == items[i]
    {
      OrderAgrees(items[i], items[j]);
    }
  }

  method SortItems(items: seq<Json>) returns (sorted: seq<Json>)
    ensures sorted == SortedOf(items) && Sorted(sorted)
    ensures Ascending(sorted) && multiset(sorted) == multiset(items)
  {
    hide Order, Sorted, Ascending;
    sorted := [];
    for k := 0 to |items|
      invariant sorted == SortedOf(items[..k])
    {
      assert items[..k + 1][..k] == items[..k];
      sorted := InsertSorted(sorted, items[k]);
    }
    assert items[..|items|] == items;
    SortSorts(items);
    SortedAscends(sorted);
  }

  /**
    Every value of the array, ascending. It stands there once exactly when the
    array has no other value of its rank between two of it, which holds of every
    object-free array; those come out strictly ascending.
   */
  method Unique(items: seq<Json>) returns (unique: seq<Json>)
    ensures (forall v :: v in unique <==> v in items) && Sorted(unique) && Ascending(unique)
    ensures Sorting.Distinct(unique) <==> Grouped(items)
    ensures Plain(items) ==> Strict(unique) && StrictlyAscending(unique) && Sorting.Distinct(unique)
  {
    hide Grouped, Sorting.Distinct, Strict, ObjectFree, Ascending, StrictlyAscending;
    var sorted := SortItems(items);
    unique := DropRepeats(sorted);
    DedupSorted(sorted);
    DedupDistinctIff(sorted);
    SortKeepsGroups(items);
    SortedAscends(unique);
    if Plain(items) {
      PlainIsGrouped(items);
      DistinctIsStrict(unique);
      StrictAscends(unique);
    }
  }

  method DropRepeats(items: seq<Json>) returns (r: seq<Json>)
    ensures r == Dedup(items)
  {
    r := [];
    for k := 0 to |items|
      invariant r == Dedup(items[..k])
    {
      assert items[..k + 1][..k] == items[..k];
      if k == 0 || items[k - 1] != items[k] {
        r := r + [items[k]];
      }
    }
    assert items[..|items|] == items;
  }

  lemma {:induction false} SortedSnoc(items: seq<Json>, v: Json)
    requires SortedOf(items) == items && (items != [] ==> AtMost(items[|items| - 1], v))
    ensures SortedOf(items + [v]) == items + [v]
  {
    hide Order;
    assert (items + [v])[..|items|] == items;
  }

  lemma {:induction false} DedupSnoc(items: seq<Json>, v: Json)
    requires items != [] && Dedup(items) == items && items[|items| - 1] != v
    ensures Dedup(items + [v]) == items + [v]
  {
    assert (items + [v])[..|items|] == items;
  }

  /** All objects rank the same, so a repeated one that is not a neighbour survives. */
  lemma {:induction false} RepeatedObjectSurvives(a: Json, b: Json)
    requires a.Object? && b.Object? && a != b
    ensures Dedup(SortedOf([a, b, a])) == [a, b, a]
  {
    hide *;
    ObjectsTie(a, b);
    NothingSorted();
    var none: seq<Json>, one, two := [], [a], [a, b];
    assert none + [a] == one && one + [b] == two && two + [a] == [a, b, a];
    SortedSnoc(none, a);
    SortedSnoc(one, b);
    SortedSnoc(two, a);
    DedupOne(a);
    DedupSnoc(one, b);
    DedupSnoc(two, a);
  }

  lemma {:induction false} ObjectsTie(a: Json, b: Json)
    requires a.Object? && b.Object?
    ensures AtMost(a, b) && AtMost(b, a)
  {
  }

  lemma {:induction false} NothingSorted()
    ensures SortedOf([]) == []
  {
  }

  lemma {:induction false} DedupOne(a: Json)
    ensures Dedup([a]) == [a]
  {
  }
}
