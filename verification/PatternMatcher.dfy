/**
  The structural matcher as it runs: one capture table shared by every branch,
  written before a branch is tried and put back when it fails.
 */
module PatternMatcher {
  import opened Pattern
  import opened Tokens
  import opened Wrappers

  class Captures {
    var bindings: Bindings

    constructor ()
      ensures bindings == map[]
    {
      bindings := map[];
    }

    /** Undoes an `insert`: the earlier value back, or no value at all. */
    method Restore(name: string, earlier: Option<string>)
      modifies this
      ensures bindings == if earlier.Some? then old(bindings)[name := earlier.value] else old(bindings) - {name}
    {
      match earlier
      case Some(previous) => bindings := bindings[name := previous];
      case None => bindings := bindings - {name};
    }
  }

  function Lookup(bindings: Bindings, name: string): Option<string> {
    if name in bindings then Some(bindings[name]) else None
  }

  /** The index just past one balanced expression. */
  method FindBalancedEnd(tokens: seq<Token>, index: nat) returns (end: Option<nat>)
    ensures end == BalancedEnd(tokens, index)
  {
    if index >= |tokens| {
      return None;
    }
    if tokens[index].kind != Open {
      if tokens[index].kind == Close {
        return None;
      }
      return Some(index + 1);
    }
    var depth: nat := 0;
    var stop := index;
    while stop < |tokens|
      invariant index <= stop <= |tokens|
      invariant stop > index ==> depth > 0
      invariant GroupEnd(tokens, stop, depth) == GroupEnd(tokens, index, 0)
    {
      match tokens[stop].kind {
        case Open => depth := depth + 1;
        case Close =>
          depth := depth - 1;
          if depth == 0 {
            return Some(stop + 1);
          }
        case _ =>
      }
      stop := stop + 1;
    }
    return Some(|tokens|);
  }

  method RenderSpan(tokens: seq<Token>, start: nat, end: nat) returns (out: string)
    requires end <= |tokens|
    ensures out == SpanText(tokens, start, end)
  {
    hide SpanText, NeedsSpace;
    SpanNone(tokens, start, end);
    out := "";
    if start >= end {
      return;
    }
    for k := start to end
      invariant out == SpanText(tokens, start, k)
    {
      SpanGrows(tokens, start, k);
      var spacer := if k > start && NeedsSpace(tokens[k - 1], tokens[k]) then " " else "";
      out := out + spacer + tokens[k].text;
    }
  }

  lemma {:induction false} SpanNone(tokens: seq<Token>, start: nat, end: nat)
    requires end <= |tokens|
    ensures start <= |tokens| ==> SpanText(tokens, start, start) == ""
    ensures start >= end ==> SpanText(tokens, start, end) == ""
  {
  }

  lemma {:induction false} SpanGrows(tokens: seq<Token>, start: nat, k: nat)
    requires start <= k < |tokens|
    ensures SpanText(tokens, start, k + 1)
            == SpanText(tokens, start, k) + (if k > start && NeedsSpace(tokens[k - 1], tokens[k]) then " " else "")
              + tokens[k].text
  {
    hide NeedsSpace;
  }

  /** What a call with `captures` reports and leaves behind when the search gives `ends`. */
  ghost predicate Reports(
    tokens: seq<Token>, elements: seq<Element>, index: nat, captures: Bindings, ends: Option<seq<nat>>,
    end: Option<nat>, after: Bindings) {
    if ends == None then end == None && after == captures
    else
      && |ends.value| == |elements|
      && (forall k :: 0 <= k < |ends.value| ==> ends.value[k] <= |tokens|)
      && end == Some(LastOr(ends.value, index))
      && after == AllBound(tokens, elements, index, captures, ends.value)
  }

  lemma {:induction false} ReportsThen(
    tokens: seq<Token>, elements: seq<Element>, i: nat, e: nat, captures: Bindings, rest: Option<seq<nat>>,
    end: Option<nat>, after: Bindings)
    requires elements != [] && e <= |tokens|
    requires Reports(tokens, elements[1..], e, Bound(tokens, elements[0], i, e, captures), rest, end, after)
             && rest.Some?
    ensures Reports(tokens, elements, i, captures, Then(e, rest), end, after)
  {
    var ends := [e] + rest.value;
    assert ends[1..] == rest.value;
  }

  /**
    The first way the elements fit at `index`: where it ends, with `captures`
    extended by what it captured. When nothing fits, `captures` is as it was.
   */
  method MatchAt(tokens: seq<Token>, elements: seq<Element>, index: nat, captures: Captures) returns (end: Option<nat>)
    requires index <= |tokens|
    modifies captures
    ensures Reports(tokens, elements, index, old(captures.bindings),
            FirstFit(tokens, elements, index, old(captures.bindings)), end, captures.bindings)
    decreases |elements|, 1
  {
    if elements == [] {
      return Some(index);
    }
    ghost var before := captures.bindings;
    match elements[0]
    case Exact(text) =>
      if index >= |tokens| || tokens[index].text != text {
        return None;
      }
      end := MatchAt(tokens, elements[1..], index + 1, captures);
      if end.Some? {
        ReportsThen(tokens, elements, index, index + 1, before, FirstFit(tokens, elements[1..], index + 1, before), end,
          captures.bindings);
      }
    case AnyIdentifier =>
      if index >= |tokens| || tokens[index].kind != Identifier {
        return None;
      }
      end := MatchAt(tokens, elements[1..], index + 1, captures);
      if end.Some? {
        ReportsThen(tokens, elements, index, index + 1, before, FirstFit(tokens, elements[1..], index + 1, before), end,
          captures.bindings);
      }
    case Single(_) =>
      var first := FindBalancedEnd(tokens, index);
      if first == None {
        return None;
      }
      end := MatchRun(tokens, elements, index, first.value, captures);
    case Many(_) =>
      end := MatchRun(tokens, elements, index, index, captures);
  }

  /** A metavariable at the head: the shortest run first, one expression more each time the rest does not fit. */
  method MatchRun(
    tokens: seq<Token>, elements: seq<Element>, index: nat, first: nat, captures: Captures) returns (end: Option<nat>)
    requires index <= first <= |tokens| && elements != [] && (elements[0].Single? || elements[0].Many?)
    modifies captures
    ensures Reports(tokens, elements, index, old(captures.bindings),
            FirstFrom(tokens, elements, index, first, old(captures.bindings)), end, captures.bindings)
    decreases |elements|, 0
  {
    var stop := first;
    while true
      invariant first <= stop <= |tokens| && captures.bindings == old(captures.bindings)
      invariant FirstFrom(tokens, elements, index, stop, captures.bindings)
                == FirstFrom(tokens, elements, index, first, captures.bindings)
      decreases |tokens| - stop
    {
      end := TryRun(tokens, elements, index, stop, captures);
      if end.Some? {
        return;
      }
      var next := FindBalancedEnd(tokens, stop);
      if next == None || next.value <= stop {
        return None;
      }
      stop := next.value;
    }
  }

  /** The run up to `stop`, with its capture undone when the rest of the pattern does not fit after it. */
  method TryRun(
    tokens: seq<Token>, elements: seq<Element>, index: nat, stop: nat, captures: Captures) returns (end: Option<nat>)
    requires index <= stop <= |tokens| && elements != [] && (elements[0].Single? || elements[0].Many?)
    modifies captures
    ensures var before := old(captures.bindings);
            Reports(tokens, elements, index, before,
                    if Consistent(tokens, elements[0], index, stop, before)
                    then Then(stop, FirstFit(tokens, elements[1..], stop,
                      Bound(tokens, elements[0], index, stop, before)))
                    else None, end, captures.bindings)
    decreases |elements|, 0, 0
  {
    var name, many := elements[0].name, elements[0].Many?;
    var text := RenderSpan(tokens, index, stop);
    var previous := Lookup(captures.bindings, name);
    if previous.Some? && !(many && name == "") && previous.value != text {
      return None;
    }
    ghost var before := captures.bindings;
    if !many || name != "" {
      captures.bindings := captures.bindings[name := text];
    }
    ghost var bound := captures.bindings;
    end := MatchAt(tokens, elements[1..], stop, captures);
    if end.Some? {
      ReportsThen(tokens, elements, index, stop, before, FirstFit(tokens, elements[1..], stop, bound), end,
        captures.bindings);
    } else {
      captures.Restore(name, previous);
      assert captures.bindings == before;
    }
  }
}
