/** Applying a list of text edits at once, all or nothing (TextEdit[] in the LSP 3.17 specification). */
module LspEdits {
  import opened LspLines
  import opened Splice
  import opened Wrappers
  import Sorting
  import Utf

  datatype Range = Range(start: Position, end: Position)

  datatype TextEdit = TextEdit(range: Range, newText: string)

  datatype EditError = Overlapping(line: nat)

  // ---- the edits' spans and their order -----------------------------------------------------

  /** The characters an edit replaces; an end before the start is an empty span. */
  function SpanOf(text: string, edit: TextEdit): (span: Span)
    ensures span.0 <= span.1 <= |text|
  {
    var start := CharOffset(text, edit.range.start);
    var end := CharOffset(text, edit.range.end);
    (start, if end < start then start else end)
  }

  /** By start, then by place in the list. */
  predicate Before(text: string, edits: seq<TextEdit>, i: nat, j: nat)
    requires i < |edits| && j < |edits|
  {
    var a, b := SpanOf(text, edits[i]).0, SpanOf(text, edits[j]).0;
    a < b || (a == b && i < j)
  }

  /** No edit begins before an earlier one ends. */
  ghost predicate Compatible(text: string, edits: seq<TextEdit>) {
    forall i, j :: 0 <= i < |edits| && 0 <= j < |edits| && Before(text, edits, i, j)
      ==> SpanOf(text, edits[i]).1 <= SpanOf(text, edits[j]).0
  }

  /** `order` lists every edit once, in order. */
  ghost predicate InOrder(text: string, edits: seq<TextEdit>, order: seq<nat>) {
    && (forall k :: 0 <= k < |order| ==> order[k] < |edits|)
    && (forall i :: 0 <= i < |edits| ==> i in order)
    && (forall a, b :: 0 <= a < b < |order| ==> Before(text, edits, order[a], order[b]))
  }

  function SpansIn(text: string, edits: seq<TextEdit>, order: seq<nat>): (spans: seq<Span>)
    requires forall k :: 0 <= k < |order| ==> order[k] < |edits|
    ensures |spans| == |order|
  {
    seq(|order|, k requires 0 <= k < |order| => SpanOf(text, edits[order[k]]))
  }

  function NewsIn(edits: seq<TextEdit>, order: seq<nat>): (news: seq<string>)
    requires forall k :: 0 <= k < |order| ==> order[k] < |edits|
    ensures |news| == |order|
  {
    seq(|order|, k requires 0 <= k < |order| => edits[order[k]].newText)
  }

  ghost function Sooner(text: string, edits: seq<TextEdit>): (nat, nat) -> bool {
    (i: nat, j: nat) => i < |edits| && j < |edits| && Before(text, edits, i, j)
  }

  lemma {:induction false} SoonerOrders(text: string, edits: seq<TextEdit>, a: seq<nat>)
    requires forall k :: 0 <= k < |a| ==> a[k] < |edits|
    ensures Sorting.Orders(Sooner(text, edits), a)
  {
    hide SpanOf;
  }

  /** There is only one such order. */
  lemma {:induction false} OrderUnique(text: string, edits: seq<TextEdit>, a: seq<nat>, b: seq<nat>)
    requires forall k :: 0 <= k < |a| ==> a[k] < |edits|
    requires forall k :: 0 <= k < |b| ==> b[k] < |edits|
    requires forall x, y :: 0 <= x < y < |a| ==> Before(text, edits, a[x], a[y])
    requires forall x, y :: 0 <= x < y < |b| ==> Before(text, edits, b[x], b[y])
    requires forall i :: i in a <==> i in b
    ensures a == b
  {
    hide Before;
    SoonerOrders(text, edits, a);
    Sorting.SortedUnique(Sooner(text, edits), a, b);
  }

  // ---- sorting -----------------------------------------------------------------------------------

  /** A span in bytes, with the place of its edit in the list. */
  datatype Marked = Marked(start: nat, end: nat, index: nat)

  predicate Precedes(x: Marked, y: Marked) {
    x.start < y.start || (x.start == y.start && x.index < y.index)
  }

  /** Spans marked with their places sort one way only. */
  lemma {:induction false} MarksOrder(spans: seq<Marked>)
    requires forall i :: 0 <= i < |spans| ==> spans[i].index == i
    ensures Sorting.Orders(Precedes, spans) && Sorting.Distinct(spans)
  {
  }

  // ---- applying -----------------------------------------------------------------------------------

  function MarkOf(text: string, edits: seq<TextEdit>, i: nat): Marked
    requires i < |edits|
  {
    var span := SpanOf(text, edits[i]);
    Marked(Utf.Offset(text, span.0), Utf.Offset(text, span.1), i)
  }

  method MarkSpans(text: string, edits: seq<TextEdit>) returns (lines: Lines, spans: seq<Marked>)
    ensures lines.text == text && Indexes(lines)
    ensures |spans| == |edits| && forall i :: 0 <= i < |edits| ==> spans[i] == MarkOf(text, edits, i)
  {
    hide MarkOf, Indexes, Utf.Offset;
    lines := NewLines(text);
    spans := [];
    for i := 0 to |edits|
      invariant |spans| == i && forall j :: 0 <= j < i ==> spans[j] == MarkOf(text, edits, j)
    {
      var start := OffsetOf(lines, edits[i].range.start);
      var end := OffsetOf(lines, edits[i].range.end);
      MarkIs(text, edits, i);
      spans := spans + [Marked(start, if end < start then start else end, i)];
    }
  }

  lemma {:induction false} OffsetCompare(text: string, i: nat, j: nat)
    requires i <= |text| && j <= |text|
    ensures i < j <==> Utf.Offset(text, i) < Utf.Offset(text, j)
    ensures i == j <==> Utf.Offset(text, i) == Utf.Offset(text, j)
  {
    if i < j {
      Utf.OffsetIncreases(text, i, j);
    } else if j < i {
      Utf.OffsetIncreases(text, j, i);
    }
  }

  /** Taking the larger byte is taking the later character. */
  lemma {:induction false} MarkIs(text: string, edits: seq<TextEdit>, i: nat)
    requires i < |edits|
    ensures var start := Utf.Offset(text, CharOffset(text, edits[i].range.start));
            var end := Utf.Offset(text, CharOffset(text, edits[i].range.end));
            MarkOf(text, edits, i) == Marked(start, if end < start then start else end, i)
  {
    hide CharOffset;
    OffsetCompare(text, CharOffset(text, edits[i].range.end), CharOffset(text, edits[i].range.start));
  }

  /** The edit indices in sorted order. */
  function Indices(sorted: seq<Marked>): (order: seq<nat>)
    ensures |order| == |sorted| && forall k :: 0 <= k < |sorted| ==> order[k] == sorted[k].index
  {
    seq(|sorted|, k requires 0 <= k < |sorted| => sorted[k].index)
  }

  ghost predicate Marks(text: string, edits: seq<TextEdit>, sorted: seq<Marked>) {
    forall k :: 0 <= k < |sorted| ==> sorted[k].index < |edits| && sorted[k] == MarkOf(text, edits, sorted[k].index)
  }

  /** The spans by start, then by place in the list. */
  function Arranged(spans: seq<Marked>): seq<Marked> {
    Sorting.SortBy(Precedes, spans)
  }

  lemma {:induction false} SortedMarks(text: string, edits: seq<TextEdit>, spans: seq<Marked>)
    requires |spans| == |edits| && forall i :: 0 <= i < |edits| ==> spans[i] == MarkOf(text, edits, i)
    ensures Marks(text, edits, Arranged(spans)) && Sorting.Sorted(Precedes, Arranged(spans))
    ensures forall i :: 0 <= i < |edits| ==> MarkOf(text, edits, i) in Arranged(spans)
  {
    hide SpanOf;
    MarksOrder(spans);
    Sorting.Sorts(Precedes, spans);
    forall y | y in Arranged(spans)
      ensures y.index < |edits| && y == MarkOf(text, edits, y.index)
    {
      var i :| 0 <= i < |spans| && spans[i] == y;
    }
    forall i | 0 <= i < |edits|
      ensures MarkOf(text, edits, i) in Arranged(spans)
    {
      assert spans[i] in Arranged(spans);
    }
  }

  lemma {:induction false} MarksInOrder(text: string, edits: seq<TextEdit>, sorted: seq<Marked>)
    requires Marks(text, edits, sorted) && Sorting.Sorted(Precedes, sorted)
    requires forall i :: 0 <= i < |edits| ==> MarkOf(text, edits, i) in sorted
    ensures InOrder(text, edits, Indices(sorted))
  {
    var order := Indices(sorted);
    forall i | 0 <= i < |edits|
      ensures i in order
    {
      var k :| 0 <= k < |sorted| && sorted[k] == MarkOf(text, edits, i);
      assert order[k] == i;
    }
    forall a, b | 0 <= a < b < |order|
      ensures Before(text, edits, order[a], order[b])
    {
      assert Precedes(sorted[a], sorted[b]);
      OffsetCompare(text, SpanOf(text, edits[order[a]]).0, SpanOf(text, edits[order[b]]).0);
    }
  }

  /** Neighbours do not overlap. */
  predicate NextClear(sorted: seq<Marked>, k: nat)
    requires k + 1 < |sorted|
  {
    sorted[k].end <= sorted[k + 1].start
  }

  ghost predicate AllClear(sorted: seq<Marked>) {
    forall k :: 0 <= k < |sorted| - 1 ==> NextClear(sorted, k)
  }

  lemma {:induction false} ClearToEnd(sorted: seq<Marked>, a: nat, b: nat)
    requires AllClear(sorted) && a < b < |sorted|
    requires forall k :: 0 <= k < |sorted| ==> sorted[k].start <= sorted[k].end
    ensures sorted[a].end <= sorted[b].start
  {
    assert NextClear(sorted, b - 1);
    if a + 1 < b {
      ClearToEnd(sorted, a, b - 1);
    }
  }

  lemma {:induction false} MarkBounds(text: string, edits: seq<TextEdit>, i: nat, j: nat)
    requires i < |edits| && j < |edits|
    ensures MarkOf(text, edits, i).start <= MarkOf(text, edits, i).end
    ensures MarkOf(text, edits, i).end <= MarkOf(text, edits, j).start
            <==> SpanOf(text, edits[i]).1 <= SpanOf(text, edits[j]).0
  {
    hide SpanOf;
    SpanBounds(text, edits[i]);
    SpanBounds(text, edits[j]);
    OffsetCompare(text, SpanOf(text, edits[i]).0, SpanOf(text, edits[i]).1);
    OffsetCompare(text, SpanOf(text, edits[j]).0, SpanOf(text, edits[i]).1);
  }

  lemma {:induction false} SpanBounds(text: string, edit: TextEdit)
    ensures SpanOf(text, edit).0 <= SpanOf(text, edit).1 <= |text|
  {
  }

  /** Checking neighbours is enough: the edits are compatible exactly when no neighbours overlap. */
  lemma {:induction false} ClearMakesCompatible(text: string, edits: seq<TextEdit>, sorted: seq<Marked>)
    requires Marks(text, edits, sorted) && InOrder(text, edits, Indices(sorted)) && AllClear(sorted)
    ensures Compatible(text, edits)
  {
    hide SpanOf, MarkOf, AllClear;
    var order := Indices(sorted);
    forall k | 0 <= k < |sorted|
      ensures sorted[k].start <= sorted[k].end
    {
      MarkBounds(text, edits, sorted[k].index, sorted[k].index);
    }
    forall i, j | 0 <= i < |edits| && 0 <= j < |edits| && Before(text, edits, i, j)
      ensures SpanOf(text, edits[i]).1 <= SpanOf(text, edits[j]).0
    {
      assert i in order && j in order;
      var a :| 0 <= a < |order| && order[a] == i;
      var b :| 0 <= b < |order| && order[b] == j;
      assert !Before(text, edits, order[b], order[a]);
      ClearToEnd(sorted, a, b);
      MarkBounds(text, edits, i, j);
    }
  }

  lemma {:induction false} CompatibleIsClear(text: string, edits: seq<TextEdit>, sorted: seq<Marked>)
    requires Marks(text, edits, sorted) && InOrder(text, edits, Indices(sorted)) && Compatible(text, edits)
    ensures AllClear(sorted) && Apart(SpansIn(text, edits, Indices(sorted)), 0, |text|)
  {
    hide SpanOf, MarkOf;
    var order := Indices(sorted);
    var spans := SpansIn(text, edits, order);
    forall k | 0 <= k < |sorted| - 1
      ensures NextClear(sorted, k)
    {
      assert Before(text, edits, order[k], order[k + 1]);
      MarkBounds(text, edits, order[k], order[k + 1]);
    }
    forall k | 0 <= k < |spans|
      ensures 0 <= spans[k].0 <= spans[k].1 <= |text|
    {
      SpanBounds(text, edits[order[k]]);
    }
    forall a, b | 0 <= a < b < |spans|
      ensures spans[a].1 <= spans[b].0
    {
      assert Before(text, edits, order[a], order[b]);
    }
    ApartFromPairs(spans, 0, |text|);
  }

  /**
    One pass over the text. It succeeds exactly when no edit begins before an earlier one ends,
    and then gives what the replacements give made one by one, from the last to the first.
   */
  method ApplyEdits(
    text: string, edits: seq<TextEdit>) returns (result: Result<string, EditError>, ghost order: seq<nat>)
    ensures InOrder(text, edits, order)
    ensures result.Ok? <==> Compatible(text, edits)
    ensures result.Ok? ==> Apart(SpansIn(text, edits, order), 0, |text|)
    ensures result.Ok? ==> result.value == BackToFront(text, SpansIn(text, edits, order), NewsIn(edits, order))
  {
    hide Compatible, InOrder, Apart, Arranged, SpanOf, Before;
    var lines, spans := MarkSpans(text, edits);
    SortedMarks(text, edits, spans);
    var sorted := Arranged(spans);
    order := Indices(sorted);
    MarksInOrder(text, edits, sorted);
    var k := 1;
    while k < |sorted|
      invariant 1 <= k && forall j :: 0 <= j < k - 1 && j < |sorted| - 1 ==> NextClear(sorted, j)
    {
      if sorted[k].start < sorted[k - 1].end {
        assert !NextClear(sorted, k - 1);
        if Compatible(text, edits) {
          CompatibleIsClear(text, edits, sorted);
        }
        var at := PositionOf(lines, sorted[k].start);
        return Err(Overlapping(at.line + 1)), order;
      }
      k := k + 1;
    }
    ClearMakesCompatible(text, edits, sorted);
    CompatibleIsClear(text, edits, sorted);
    var out := Pass(text, edits, sorted);
    result := Ok(out);
  }

  method Pass(text: string, edits: seq<TextEdit>, sorted: seq<Marked>) returns (out: string)
    requires Marks(text, edits, sorted) && Apart(SpansIn(text, edits, Indices(sorted)), 0, |text|)
    ensures out == BackToFront(text, SpansIn(text, edits, Indices(sorted)), NewsIn(edits, Indices(sorted)))
  {
    ghost var spans, news := SpansIn(text, edits, Indices(sorted)), NewsIn(edits, Indices(sorted));
    ghost var at: nat := 0;
    out := "";
    var cursor := 0;
    WeavingStarts(text, spans, news);
    for k := 0 to |sorted|
      invariant at <= |text| && cursor == Utf.Offset(text, at)
      invariant Weaving(text, spans, news, k, at, out)
    {
      WeavingStep(text, spans, news, k, at, out);
      var between := Between(text, cursor, sorted[k].start, at, spans[k].0);
      out := out + between + edits[sorted[k].index].newText;
      cursor := sorted[k].end;
      at := spans[k].1;
    }
    WeavingEnds(text, spans, news, at, out);
    var rest := Between(text, cursor, Utf.ByteLen(text), at, |text|);
    assert text[at..|text|] == text[at..];
    out := out + rest;
    PassIsBackToFront(text, spans, news);
  }

  // ---- as a function -------------------------------------------------------------------------------

  ghost function OrderOf(text: string, edits: seq<TextEdit>): (order: seq<nat>)
    ensures InOrder(text, edits, order)
  {
    var spans := seq(|edits|, i requires 0 <= i < |edits| => MarkOf(text, edits, i));
    SortedMarks(text, edits, spans);
    MarksInOrder(text, edits, Arranged(spans));
    Indices(Arranged(spans))
  }

  lemma {:induction false} OrderApart(text: string, edits: seq<TextEdit>)
    requires Compatible(text, edits)
    ensures Apart(SpansIn(text, edits, OrderOf(text, edits)), 0, |text|)
  {
    var spans := seq(|edits|, i requires 0 <= i < |edits| => MarkOf(text, edits, i));
    SortedMarks(text, edits, spans);
    MarksInOrder(text, edits, Arranged(spans));
    CompatibleIsClear(text, edits, Arranged(spans));
  }

  /** The text with all the edits made, or nothing when two of them overlap. */
  ghost function Edited(text: string, edits: seq<TextEdit>): Option<string> {
    if Compatible(text, edits) then
      OrderApart(text, edits);
      var order := OrderOf(text, edits);
      Some(BackToFront(text, SpansIn(text, edits, order), NewsIn(edits, order)))
    else None
  }

  method Apply(text: string, edits: seq<TextEdit>) returns (result: Result<string, EditError>)
    ensures if result.Ok? then Edited(text, edits) == Some(result.value) else Edited(text, edits) == None
  {
    hide Compatible, Apart;
    ghost var order;
    result, order := ApplyEdits(text, edits);
    ghost var same := OrderOf(text, edits);
    assert forall i :: i in order ==> i < |edits|;
    assert forall i :: i in same ==> i < |edits|;
    OrderUnique(text, edits, order, same);
  }
}
