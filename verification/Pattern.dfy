/**
  Structural patterns over a token stream: what a pattern means, the search for
  the first way it fits, and the matcher that shares one capture table.
 */
module Pattern {
  import opened Tokens
  import opened Wrappers

  datatype Element = Exact(text: string) | AnyIdentifier | Single(name: string) | Many(name: string)

  type Bindings = map<string, string>

  // ---- balanced expressions ----------------------------------------------------

  /** Openers minus closers among tokens `from` up to `upTo`. */
  function Depth(tokens: seq<Token>, from: nat, upTo: nat): int
    requires from <= upTo <= |tokens|
  {
    if from == upTo then 0
    else
      Depth(tokens, from, upTo - 1)
      + if tokens[upTo - 1].kind == Open then 1 else if tokens[upTo - 1].kind == Close then -1 else 0
  }

  /**
    `end` is just past one balanced expression starting at `index`: a token that
    is no bracket, a bracket group closed at `end`, or a group nothing closes.
   */
  ghost predicate Balanced(tokens: seq<Token>, index: nat, end: nat) {
    && index < end <= |tokens|
    && tokens[index].kind != Close
    && if tokens[index].kind != Open then end == index + 1
       else
         && (forall m :: index < m < end ==> Depth(tokens, index, m) > 0)
         && (Depth(tokens, index, end) == 0 || (end == |tokens| && Depth(tokens, index, end) > 0))
  }

  /** The scan for the closer of the group opened before `end`, at nesting `depth`. */
  function GroupEnd(tokens: seq<Token>, end: nat, depth: nat): (r: nat)
    requires end <= |tokens|
    ensures end <= r <= |tokens| && (end < |tokens| ==> end < r)
    decreases |tokens| - end
  {
    if end == |tokens| then |tokens|
    else
      match tokens[end].kind
      case Open => GroupEnd(tokens, end + 1, depth + 1)
      case Close => if depth <= 1 then end + 1 else GroupEnd(tokens, end + 1, depth - 1)
      case _ => GroupEnd(tokens, end + 1, depth)
  }

  function BalancedEnd(tokens: seq<Token>, index: nat): (end: Option<nat>)
    ensures end.Some? ==> index < end.value <= |tokens|
  {
    if index >= |tokens| || tokens[index].kind == Close then None
    else if tokens[index].kind != Open then Some(index + 1)
    else Some(GroupEnd(tokens, index, 0))
  }

  lemma {:induction false} GroupEndBalances(tokens: seq<Token>, index: nat, end: nat, depth: nat)
    requires index <= end <= |tokens| && index < |tokens| && tokens[index].kind == Open
    requires depth == Depth(tokens, index, end) && (index < end ==> depth > 0)
    requires forall m :: index < m < end ==> Depth(tokens, index, m) > 0
    ensures Balanced(tokens, index, GroupEnd(tokens, end, depth))
    decreases |tokens| - end
  {
    if end < |tokens| && !(tokens[end].kind == Close && depth <= 1) {
      GroupEndBalances(tokens, index, end + 1, Depth(tokens, index, end + 1));
    }
  }

  lemma {:induction false} BalancedOnce(tokens: seq<Token>, index: nat, a: nat, b: nat)
    requires Balanced(tokens, index, a) && Balanced(tokens, index, b)
    ensures a <= b
  {
    var depth := Depth(tokens, index, b);
  }

  /** `BalancedEnd` answers exactly when an expression starts at `index`, and its answer is the only one. */
  lemma {:induction false} BalancedEndExact(tokens: seq<Token>, index: nat, end: nat)
    ensures BalancedEnd(tokens, index) == Some(end) <==> Balanced(tokens, index, end)
  {
    if index < |tokens| && tokens[index].kind == Open {
      GroupEndBalances(tokens, index, index, 0);
      var r := GroupEnd(tokens, index, 0);
      if Balanced(tokens, index, end) {
        BalancedOnce(tokens, index, end, r);
        BalancedOnce(tokens, index, r, end);
      }
    }
  }

  /** Zero or more balanced expressions in a row lead from `index` to `end`. */
  ghost predicate Reaches(tokens: seq<Token>, index: nat, end: nat)
    decreases (end as int) - index
  {
    index == end ||
    exists next :: index < next <= end && Balanced(tokens, index, next) && Reaches(tokens, next, end)
  }

  // ---- captured text ----------------------------------------------------------

  const SPACED_KEYWORDS: set<string> := {
    "if", "for", "while", "switch", "catch", "return", "match", "in", "of", "new", "await",
    "yield", "typeof", "instanceof", "delete", "throw", "else", "do", "case", "with"
  }

  predicate IsOneOf(text: string, marks: string) {
    |text| == 1 && text[0] in marks
  }

  predicate NeedsSpace(previous: Token, next: Token) {
    if IsOneOf(next.text, ",;)]:.?!") then false
    else if IsOneOf(previous.text, "([.") then false
    else if IsOneOf(next.text, "([") then
      if previous.kind == Identifier then previous.text in SPACED_KEYWORDS
      else !IsOneOf(previous.text, ")]")
    else true
  }

  /** The tokens from `start` up to `end`, spaced for reading. */
  function SpanText(tokens: seq<Token>, start: nat, end: nat): string
    requires end <= |tokens|
    decreases end
  {
    if start >= end then ""
    else
      SpanText(tokens, start, end - 1)
      + (if end - 1 > start && NeedsSpace(tokens[end - 2], tokens[end - 1]) then " " else "")
      + tokens[end - 1].text
  }

  // ---- what a pattern means ------------------------------------------------------

  predicate Agrees(captures: Bindings, name: string, text: string) {
    name !in captures || captures[name] == text
  }

  /** `element` may take the tokens from `i` up to `e`, given what is captured already. */
  ghost predicate Takes(tokens: seq<Token>, element: Element, i: nat, e: nat, captures: Bindings) {
    i <= e <= |tokens| &&
    match element
    case Exact(text) => e == i + 1 && tokens[i].text == text
    case AnyIdentifier => e == i + 1 && tokens[i].kind == Identifier
    case Single(name) => i < e && Reaches(tokens, i, e) && Agrees(captures, name, SpanText(tokens, i, e))
    case Many(name) => Reaches(tokens, i, e) && (name == "" || Agrees(captures, name, SpanText(tokens, i, e)))
  }

  /** The captures once `element` has taken the tokens from `i` up to `e`. */
  function Bound(tokens: seq<Token>, element: Element, i: nat, e: nat, captures: Bindings): Bindings
    requires e <= |tokens|
  {
    match element
    case Single(name) => captures[name := SpanText(tokens, i, e)]
    case Many(name) => if name == "" then captures else captures[name := SpanText(tokens, i, e)]
    case _ => captures
  }

  /** `ends` splits the tokens from `i` on among the elements, consistently. */
  ghost predicate Fits(tokens: seq<Token>, elements: seq<Element>, i: nat, captures: Bindings, ends: seq<nat>)
    decreases |elements|
  {
    if elements == [] then ends == []
    else
      && ends != []
      && Takes(tokens, elements[0], i, ends[0], captures)
      && Fits(tokens, elements[1..], ends[0], Bound(tokens, elements[0], i, ends[0], captures), ends[1..])
  }

  /** The captures after a whole split. */
  function AllBound(tokens: seq<Token>, elements: seq<Element>, i: nat, captures: Bindings, ends: seq<nat>): Bindings
    requires |ends| == |elements| && forall k :: 0 <= k < |ends| ==> ends[k] <= |tokens|
    decreases |elements|
  {
    if elements == [] then captures
    else AllBound(tokens, elements[1..], ends[0], Bound(tokens, elements[0], i, ends[0], captures), ends[1..])
  }

  function LastOr(ends: seq<nat>, i: nat): nat {
    if ends == [] then i else ends[|ends| - 1]
  }

  /** Earlier elements take as little as they can: at the first difference `a` takes less than `b`. */
  ghost predicate Shorter(a: seq<nat>, b: seq<nat>)
    decreases |a|
  {
    a != [] && b != [] && (a[0] < b[0] || (a[0] == b[0] && Shorter(a[1..], b[1..])))
  }

  // ---- what is captured --------------------------------------------------------------

  function NameOf(element: Element): Option<string> {
    match element
    case Single(name) => Some(name)
    case Many(name) => if name == "" then None else Some(name)
    case _ => None
  }

  lemma {:induction false} FitLength(
    tokens: seq<Token>, elements: seq<Element>, i: nat, captures: Bindings, ends: seq<nat>)
    requires Fits(tokens, elements, i, captures, ends)
    ensures |ends| == |elements| && forall k :: 0 <= k < |ends| ==> ends[k] <= |tokens|
    decreases |elements|
  {
    if elements != [] {
      FitLength(tokens, elements[1..], ends[0], Bound(tokens, elements[0], i, ends[0], captures), ends[1..]);
      assert forall k :: 0 < k < |ends| ==> ends[k] == ends[1..][k - 1];
    }
  }

  /** What is captured already stays: an element of that name can only take the same text. */
  lemma {:induction false} BindingsStay(
    tokens: seq<Token>, elements: seq<Element>, i: nat, captures: Bindings, ends: seq<nat>, name: string)
    requires Fits(tokens, elements, i, captures, ends) && name in captures
    requires |ends| == |elements| && forall k :: 0 <= k < |ends| ==> ends[k] <= |tokens|
    ensures name in AllBound(tokens, elements, i, captures, ends)
            && AllBound(tokens, elements, i, captures, ends)[name] == captures[name]
    decreases |elements|
  {
    if elements != [] {
      BindingsStay(
        tokens, elements[1..], ends[0], Bound(tokens, elements[0], i, ends[0], captures), ends[1..], name);
    }
  }

  /** A metavariable captures the text of the tokens it takes, wherever in the pattern it stands. */
  lemma {:induction false} NamesAreCaptured(
    tokens: seq<Token>, elements: seq<Element>, i: nat, captures: Bindings, ends: seq<nat>, k: nat)
    requires Fits(tokens, elements, i, captures, ends) && k < |elements| && NameOf(elements[k]).Some?
    requires |ends| == |elements| && forall m :: 0 <= m < |ends| ==> ends[m] <= |tokens|
    ensures var name, bound := NameOf(elements[k]).value, AllBound(tokens, elements, i, captures, ends);
            name in bound && bound[name] == SpanText(tokens, if k == 0 then i else ends[k - 1], ends[k])
    decreases |elements|
  {
    var next := Bound(tokens, elements[0], i, ends[0], captures);
    if k == 0 {
      BindingsStay(tokens, elements[1..], ends[0], next, ends[1..], NameOf(elements[0]).value);
    } else {
      NamesAreCaptured(tokens, elements[1..], ends[0], next, ends[1..], k - 1);
      assert elements[1..][k - 1] == elements[k] && ends[1..][k - 1] == ends[k];
    }
  }

  /** Nothing else is captured. */
  lemma {:induction false} OthersAreNotCaptured(
    tokens: seq<Token>, elements: seq<Element>, i: nat, captures: Bindings, ends: seq<nat>, name: string)
    requires |ends| == |elements| && forall m :: 0 <= m < |ends| ==> ends[m] <= |tokens|
    requires forall k :: 0 <= k < |elements| ==> NameOf(elements[k]) != Some(name)
    ensures name in AllBound(tokens, elements, i, captures, ends) <==> name in captures
    decreases |elements|
  {
    if elements != [] {
      assert NameOf(elements[0]) != Some(name);
      assert forall k :: 0 <= k < |elements[1..]| ==> elements[1..][k] == elements[k + 1];
      OthersAreNotCaptured(
        tokens, elements[1..], ends[0], Bound(tokens, elements[0], i, ends[0], captures), ends[1..], name);
    }
  }

  /** Captured text is the text of its tokens in order, some with a space in front. */
  lemma {:induction false} SpanTextIsTokens(tokens: seq<Token>, start: nat, end: nat) returns (gaps: seq<string>)
    requires start <= end <= |tokens|
    ensures |gaps| == end - start && forall k :: 0 <= k < |gaps| ==> gaps[k] == "" || (k > 0 && gaps[k] == " ")
    ensures SpanText(tokens, start, end) == Spaced(tokens[start..end], gaps)
    decreases end
  {
    hide NeedsSpace, SpanText, Spaced;
    if start == end {
      gaps := [];
      NothingSpanned(tokens, start);
    } else {
      var before := SpanTextIsTokens(tokens, start, end - 1);
      var gap := if end - 1 > start && NeedsSpace(tokens[end - 2], tokens[end - 1]) then " " else "";
      gaps := before + [gap];
      SpanStep(tokens, start, end);
      assert tokens[start..end] == tokens[start..end - 1] + [tokens[end - 1]];
      SpacedStep(tokens[start..end - 1], before, tokens[end - 1], gap);
    }
  }

  lemma {:induction false} NothingSpanned(tokens: seq<Token>, start: nat)
    requires start <= |tokens|
    ensures SpanText(tokens, start, start) == Spaced(tokens[start..start], [])
  {
  }

  lemma {:induction false} SpanStep(tokens: seq<Token>, start: nat, end: nat)
    requires start < end <= |tokens|
    ensures var gap := if end - 1 > start && NeedsSpace(tokens[end - 2], tokens[end - 1]) then " " else "";
            SpanText(tokens, start, end) == SpanText(tokens, start, end - 1) + gap + tokens[end - 1].text
  {
    hide NeedsSpace;
  }

  lemma {:induction false} SpacedStep(tokens: seq<Token>, gaps: seq<string>, token: Token, gap: string)
    requires |gaps| == |tokens|
    ensures Spaced(tokens + [token], gaps + [gap]) == Spaced(tokens, gaps) + gap + token.text
  {
    assert (tokens + [token])[..|tokens|] == tokens && (gaps + [gap])[..|gaps|] == gaps;
  }

  /** A call is written without spaces but behind its commas, a keyword keeps one in front of a parenthesis. */
  lemma {:induction false} SomeSpacings(tokens: seq<Token>)
    requires |tokens| == 6 && tokens[0].kind == Identifier
    requires tokens[1].text == "(" && tokens[2].text == "x" && tokens[3].text == "," && tokens[4].text == "y"
    requires tokens[5].text == ")"
    ensures tokens[0].text == "f" ==> SpanText(tokens, 0, 6) == "f(x, y)"
    ensures tokens[0].text == "if" ==> SpanText(tokens, 0, 6) == "if (x, y)"
  {
    hide NeedsSpace;
    CallSpacing(tokens);
    SpanGrows(tokens, 1);
    SpanGrows(tokens, 2);
    SpanGrows(tokens, 3);
    SpanGrows(tokens, 4);
    SpanGrows(tokens, 5);
    assert SpanText(tokens, 0, 0) == "" && SpanText(tokens, 0, 1) == tokens[0].text;
  }

  lemma {:induction false} SpanGrows(tokens: seq<Token>, n: nat)
    requires 0 < n < |tokens|
    ensures SpanText(tokens, 0, n + 1)
            == SpanText(tokens, 0, n) + (if NeedsSpace(tokens[n - 1], tokens[n]) then " " else "") + tokens[n].text
  {
  }

  lemma {:induction false} CallSpacing(tokens: seq<Token>)
    requires |tokens| == 6 && tokens[0].kind == Identifier
    requires tokens[1].text == "(" && tokens[2].text == "x" && tokens[3].text == "," && tokens[4].text == "y"
    requires tokens[5].text == ")"
    ensures tokens[0].text == "f" ==> !NeedsSpace(tokens[0], tokens[1])
    ensures tokens[0].text == "if" ==> NeedsSpace(tokens[0], tokens[1])
    ensures !NeedsSpace(tokens[1], tokens[2]) && !NeedsSpace(tokens[2], tokens[3])
    ensures NeedsSpace(tokens[3], tokens[4]) && !NeedsSpace(tokens[4], tokens[5])
  {
    hide NeedsSpace;
    FirstSpacing(tokens[0], tokens[1]);
    AfterOpening(tokens[1], tokens[2]);
    BeforeClosing(tokens[2], tokens[3]);
    BetweenWords(tokens[3], tokens[4]);
    BeforeClosing(tokens[4], tokens[5]);
  }

  lemma {:induction false} FirstSpacing(name: Token, open: Token)
    requires name.kind == Identifier && open.text == "("
    ensures name.text == "f" ==> !NeedsSpace(name, open)
    ensures name.text == "if" ==> NeedsSpace(name, open)
  {
    assert open.text[0] == '(' && !IsOneOf(open.text, ",;)]:.?!") && IsOneOf(open.text, "([");
    assert name.text == "f" ==> name.text[0] == 'f' && !IsOneOf(name.text, "([.");
    assert name.text == "if" ==> !IsOneOf(name.text, "([.");
  }

  lemma {:induction false} AfterOpening(open: Token, name: Token)
    requires open.text == "(" && name.text == "x"
    ensures !NeedsSpace(open, name)
  {
    assert open.text[0] == '(';
  }

  lemma {:induction false} BeforeClosing(name: Token, close: Token)
    requires close.text == "," || close.text == ")"
    ensures !NeedsSpace(name, close)
  {
    assert close.text[0] == ',' || close.text[0] == ')';
  }

  lemma {:induction false} BetweenWords(comma: Token, name: Token)
    requires comma.text == "," && name.text == "y"
    ensures NeedsSpace(comma, name)
  {
    assert comma.text[0] == ',' && name.text[0] == 'y';
  }

  function Spaced(tokens: seq<Token>, gaps: seq<string>): string
    requires |gaps| == |tokens|
  {
    if tokens == [] then ""
    else
      var n := |tokens| - 1;
      Spaced(tokens[..n], gaps[..n]) + gaps[n] + tokens[n].text
  }

  // ---- the search, as a function --------------------------------------------------

  function FirstFit(tokens: seq<Token>, elements: seq<Element>, i: nat, captures: Bindings): (ends: Option<seq<nat>>)
    requires i <= |tokens|
    ensures ends.Some? ==> |ends.value| == |elements| && forall k :: 0 <= k < |ends.value| ==> ends.value[k] <= |tokens|
    decreases |elements|, 1, 0
  {
    if elements == [] then Some([])
    else
      match elements[0]
      case Exact(text) =>
        if i < |tokens| && tokens[i].text == text then Then(i + 1, FirstFit(tokens, elements[1..], i + 1, captures))
            else None
      case AnyIdentifier =>
        if i < |tokens| && tokens[i].kind == Identifier
            then Then(i + 1, FirstFit(tokens, elements[1..], i + 1, captures)) else None
      case Single(_) =>
        var end := BalancedEnd(tokens, i);
        if end == None then None else FirstFrom(tokens, elements, i, end.value, captures)
      case Many(_) => FirstFrom(tokens, elements, i, i, captures)
  }

  /** A metavariable at the head, tried at `e` and then at every longer run. */
  function FirstFrom(
    tokens: seq<Token>, elements: seq<Element>, i: nat, e: nat, captures: Bindings): (ends: Option<seq<nat>>)
    requires i <= e <= |tokens| && elements != []
    ensures ends.Some? ==> |ends.value| == |elements| && forall k :: 0 <= k < |ends.value| ==> ends.value[k] <= |tokens|
    decreases |elements|, 0, |tokens| - e
  {
    var attempt :=
      if Consistent(tokens, elements[0], i, e, captures)
      then Then(e, FirstFit(tokens, elements[1..], e, Bound(tokens, elements[0], i, e, captures)))
      else None;
    var next := BalancedEnd(tokens, e);
    if attempt.Some? then attempt
    else if next == None then None
    else FirstFrom(tokens, elements, i, next.value, captures)
  }

  function Then(e: nat, rest: Option<seq<nat>>): Option<seq<nat>> {
    if rest == None then None else Some([e] + rest.value)
  }

  predicate Consistent(tokens: seq<Token>, element: Element, i: nat, e: nat, captures: Bindings)
    requires e <= |tokens|
  {
    match element
    case Single(name) => Agrees(captures, name, SpanText(tokens, i, e))
    case Many(name) => name == "" || Agrees(captures, name, SpanText(tokens, i, e))
    case _ => true
  }

  // ---- the search is sound, complete and shortest-first ---------------------------

  /** `found` is a split, and every other split comes after it; or there is none and no split exists. */
  ghost predicate IsFirst(
    tokens: seq<Token>, elements: seq<Element>, i: nat, captures: Bindings, found: Option<seq<nat>>) {
    if found == None then forall ends :: !Fits(tokens, elements, i, captures, ends)
    else
      && Fits(tokens, elements, i, captures, found.value)
      && forall ends :: Fits(tokens, elements, i, captures, ends) ==> ends == found.value || Shorter(found.value, ends)
  }

  lemma {:induction false} FirstFitIsFirst(tokens: seq<Token>, elements: seq<Element>, i: nat, captures: Bindings)
    requires i <= |tokens|
    ensures IsFirst(tokens, elements, i, captures, FirstFit(tokens, elements, i, captures))
    decreases |elements|, 1, 0
  {
    if elements != [] {
      match elements[0]
      case Exact(text) =>
        if i < |tokens| && tokens[i].text == text {
          FirstFitIsFirst(tokens, elements[1..], i + 1, captures);
          StepIsFirst(tokens, elements, i, captures, FirstFit(tokens, elements[1..], i + 1, captures));
        }
      case AnyIdentifier =>
        if i < |tokens| && tokens[i].kind == Identifier {
          FirstFitIsFirst(tokens, elements[1..], i + 1, captures);
          StepIsFirst(tokens, elements, i, captures, FirstFit(tokens, elements[1..], i + 1, captures));
        }
      case Single(_) =>
        var end := BalancedEnd(tokens, i);
        if end.Some? {
          BalancedEndExact(tokens, i, end.value);
          assert Reaches(tokens, end.value, end.value);
          FirstFromIsFirst(tokens, elements, i, end.value, captures);
          forall ends | Fits(tokens, elements, i, captures, ends)
            ensures Reaches(tokens, end.value, ends[0])
          {
            ReachesThroughFirst(tokens, i, ends[0], end.value);
          }
        } else {
          forall end: nat
            ensures Reaches(tokens, i, end) ==> end == i
          {
            NoExpression(tokens, i, end);
          }
        }
      case Many(_) =>
        FirstFromIsFirst(tokens, elements, i, i, captures);
    }
  }

  /** An element that can only take one token. */
  lemma {:induction false} StepIsFirst(
    tokens: seq<Token>, elements: seq<Element>, i: nat, captures: Bindings, rest: Option<seq<nat>>)
    requires i < |tokens| && elements != [] && (elements[0].Exact? || elements[0].AnyIdentifier?)
    requires Takes(tokens, elements[0], i, i + 1, captures)
    requires IsFirst(tokens, elements[1..], i + 1, captures, rest)
    ensures IsFirst(tokens, elements, i, captures, Then(i + 1, rest))
  {
    forall ends | Fits(tokens, elements, i, captures, ends)
      ensures ends[0] == i + 1 && Fits(tokens, elements[1..], i + 1, captures, ends[1..])
    {
    }
    if rest.Some? {
      var found := [i + 1] + rest.value;
      assert found[1..] == rest.value;
      forall ends | Fits(tokens, elements, i, captures, ends)
        ensures ends == found || Shorter(found, ends)
      {
        assert ends == [ends[0]] + ends[1..];
      }
    }
  }

  /** Reaching `end` from `i` in at least one step goes through the one expression that starts at `i`. */
  lemma {:induction false} ReachesThroughFirst(tokens: seq<Token>, i: nat, end: nat, first: nat)
    requires i < end && Reaches(tokens, i, end) && BalancedEnd(tokens, i) == Some(first)
    ensures first <= end && Reaches(tokens, first, end)
  {
    var next :| i < next <= end && Balanced(tokens, i, next) && Reaches(tokens, next, end);
    BalancedEndExact(tokens, i, next);
  }

  lemma {:induction false} NoExpression(tokens: seq<Token>, i: nat, end: nat)
    requires BalancedEnd(tokens, i) == None
    ensures Reaches(tokens, i, end) ==> end == i
  {
    forall next
      ensures !Balanced(tokens, i, next)
    {
      BalancedEndExact(tokens, i, next);
    }
  }

  lemma {:induction false} ReachesExtends(tokens: seq<Token>, i: nat, e: nat, next: nat)
    requires i <= e && Reaches(tokens, i, e) && Balanced(tokens, e, next)
    ensures Reaches(tokens, i, next)
    decreases (e as int) - i
  {
    if i == e {
      assert Reaches(tokens, next, next);
    } else {
      var mid :| i < mid <= e && Balanced(tokens, i, mid) && Reaches(tokens, mid, e);
      ReachesExtends(tokens, mid, e, next);
    }
  }

  /** The same among splits whose first element ends at `e` or later. */
  ghost predicate IsFirstFrom(
    tokens: seq<Token>, elements: seq<Element>, i: nat, e: nat, captures: Bindings, found: Option<seq<nat>>)
    requires elements != []
  {
    if found == None then
      forall ends :: Fits(tokens, elements, i, captures, ends) ==> !Reaches(tokens, e, ends[0])
    else
      && Fits(tokens, elements, i, captures, found.value)
      && forall ends :: Fits(tokens, elements, i, captures, ends) && Reaches(tokens, e, ends[0]) ==>
                          ends == found.value || Shorter(found.value, ends)
  }

  lemma {:induction false} FirstFromIsFirst(
    tokens: seq<Token>, elements: seq<Element>, i: nat, e: nat, captures: Bindings)
    requires i <= e <= |tokens| && elements != [] && (elements[0].Many? || (elements[0].Single? && i < e))
    requires Reaches(tokens, i, e)
    ensures IsFirstFrom(tokens, elements, i, e, captures, FirstFrom(tokens, elements, i, e, captures))
    decreases |elements|, 0, |tokens| - e
  {
    var bound := Bound(tokens, elements[0], i, e, captures);
    var rest := FirstFit(tokens, elements[1..], e, bound);
    FirstFitIsFirst(tokens, elements[1..], e, bound);
    var attempt := if Consistent(tokens, elements[0], i, e, captures) then Then(e, rest) else None;
    AttemptIsFirst(tokens, elements, i, e, captures, attempt);
    var next := BalancedEnd(tokens, e);
    if next == None {
      forall end: nat
        ensures Reaches(tokens, e, end) ==> end == e
      {
        NoExpression(tokens, e, end);
      }
    } else {
      BalancedEndExact(tokens, e, next.value);
      ReachesExtends(tokens, i, e, next.value);
      FirstFromIsFirst(tokens, elements, i, next.value, captures);
      forall end: nat | Reaches(tokens, e, end) && end != e
        ensures end > e && Reaches(tokens, next.value, end)
      {
        ReachesThroughFirst(tokens, e, end, next.value);
      }
    }
  }

  /** Splits whose first element ends exactly at `e`. */
  lemma {:induction false} AttemptIsFirst(
    tokens: seq<Token>, elements: seq<Element>, i: nat, e: nat, captures: Bindings, attempt: Option<seq<nat>>)
    requires i <= e <= |tokens| && elements != [] && (elements[0].Many? || (elements[0].Single? && i < e))
    requires Reaches(tokens, i, e)
    requires var rest := FirstFit(tokens, elements[1..], e, Bound(tokens, elements[0], i, e, captures));
             IsFirst(tokens, elements[1..], e, Bound(tokens, elements[0], i, e, captures), rest) &&
             attempt == if Consistent(tokens, elements[0], i, e, captures) then Then(e, rest) else None
    ensures attempt == None ==> forall ends :: Fits(tokens, elements, i, captures, ends) ==> ends[0] != e
    ensures attempt.Some? ==> Fits(tokens, elements, i, captures, attempt.value) && attempt.value[0] == e
    ensures attempt.Some? ==>
              forall ends :: Fits(tokens, elements, i, captures, ends) && ends[0] >= e
                             ==> ends == attempt.value || Shorter(attempt.value, ends)
  {
    if attempt.Some? {
      assert attempt.value[1..] == FirstFit(tokens, elements[1..], e, Bound(tokens, elements[0], i, e, captures)).value;
      forall ends | Fits(tokens, elements, i, captures, ends) && ends[0] >= e
        ensures ends == attempt.value || Shorter(attempt.value, ends)
      {
        assert ends == [ends[0]] + ends[1..];
      }
    }
  }
}
