/** Compiling a pattern, finding every match of it, and rewriting the matches. */
module PatternSearch {
  import opened Pattern
  import opened PatternMatcher
  import opened Tokens
  import opened Wrappers
  import Splice
  import Utf

  // ---- searching ------------------------------------------------------------------

  datatype Match = Match(start: nat, end: nat, line: nat, text: string, captures: Bindings)

  /** Where the pattern, tried at token `start` with nothing captured, ends. */
  function FitEnd(tokens: seq<Token>, elements: seq<Element>, start: nat): Option<nat>
    requires start <= |tokens|
  {
    var ends := FirstFit(tokens, elements, start, map[]);
    if ends == None then None else Some(LastOr(ends.value, start))
  }

  lemma {:induction false} FitsForward(
    tokens: seq<Token>, elements: seq<Element>, i: nat, captures: Bindings, ends: seq<nat>)
    requires Fits(tokens, elements, i, captures, ends) && i <= |tokens|
    ensures i <= LastOr(ends, i) <= |tokens|
    ensures (exists k :: 0 <= k < |elements| && !elements[k].Many?) ==> i < LastOr(ends, i)
    decreases |elements|
  {
    if elements != [] {
      FitsForward(tokens, elements[1..], ends[0], Bound(tokens, elements[0], i, ends[0], captures), ends[1..]);
      assert LastOr(ends, i) == LastOr(ends[1..], ends[0]);
      if k :| 0 <= k < |elements| && !elements[k].Many? {
        if k > 0 {
          assert !elements[1..][k - 1].Many?;
        }
      }
    }
  }

  lemma {:induction false} FitEndForward(tokens: seq<Token>, elements: seq<Element>, start: nat)
    requires start <= |tokens| && FitEnd(tokens, elements, start).Some?
    ensures start <= FitEnd(tokens, elements, start).value <= |tokens|
  {
    FirstFitIsFirst(tokens, elements, start, map[]);
    FitsForward(tokens, elements, start, map[], FirstFit(tokens, elements, start, map[]).value);
  }

  /** The token ranges that match, scanning left to right from `start`. */
  function AllMatches(tokens: seq<Token>, elements: seq<Element>, start: nat): (found: seq<(nat, nat)>)
    decreases |tokens| - start
  {
    if start >= |tokens| then []
    else
      var end := FitEnd(tokens, elements, start);
      if end.Some? && end.value > start then
        FitEndForward(tokens, elements, start);
        [(start, end.value)] + AllMatches(tokens, elements, end.value)
      else AllMatches(tokens, elements, start + 1)
  }

  /** Token ranges in order, not empty and not overlapping. */
  ghost predicate Ranges(found: seq<(nat, nat)>, from: nat, n: nat) {
    && (forall a :: 0 <= a < |found| ==> from <= found[a].0 < found[a].1 <= n)
    && (forall a, b :: 0 <= a < b < |found| ==> found[a].1 <= found[b].0)
  }

  lemma {:induction false} AllMatchesRanges(tokens: seq<Token>, elements: seq<Element>, start: nat)
    ensures Ranges(AllMatches(tokens, elements, start), start, |tokens|)
    decreases |tokens| - start
  {
    if start < |tokens| {
      var end := FitEnd(tokens, elements, start);
      if end.Some? && end.value > start {
        FitEndForward(tokens, elements, start);
        AllMatchesRanges(tokens, elements, end.value);
      } else {
        AllMatchesRanges(tokens, elements, start + 1);
      }
    }
  }

  /**
    Nothing is missed: for a pattern that is not all `$$$`, every token where
    some split fits starts a reported match or lies inside one.
   */
  lemma {:induction false} AllMatchesCover(
    tokens: seq<Token>, elements: seq<Element>, start: nat, at: nat, ends: seq<nat>)
    requires start <= at < |tokens| && Fits(tokens, elements, at, map[], ends)
    requires exists k :: 0 <= k < |elements| && !elements[k].Many?
    ensures exists a :: 0 <= a < |AllMatches(tokens, elements, start)| &&
                        AllMatches(tokens, elements, start)[a].0 <= at < AllMatches(tokens, elements, start)[a].1
    decreases |tokens| - start
  {
    var end := FitEnd(tokens, elements, start);
    if end.Some? && end.value > start {
      FitEndForward(tokens, elements, start);
      var found := AllMatches(tokens, elements, start);
      assert found[0] == (start, end.value);
      if end.value <= at {
        AllMatchesCover(tokens, elements, end.value, at, ends);
        var further := AllMatches(tokens, elements, end.value);
        var a :| 0 <= a < |further| && further[a].0 <= at < further[a].1;
        assert found[a + 1] == further[a];
      }
    } else {
      FirstFitIsFirst(tokens, elements, start, map[]);
      if start == at {
        FitsForward(tokens, elements, start, map[], FirstFit(tokens, elements, start, map[]).value);
      }
      AllMatchesCover(tokens, elements, start + 1, at, ends);
    }
  }

  /** `m` reports the tokens `range.0` up to `range.1`, with the captures of the first fit there. */
  ghost predicate ReportsMatch(
    source: string, tokens: seq<Token>, spans: seq<(nat, nat)>, elements: seq<Element>, m: Match, range: (nat, nat))
    requires InOrder(source, tokens, spans)
  {
    && range.0 < range.1 <= |tokens|
    && m.start == tokens[range.0].start && m.end == tokens[range.1 - 1].end
    && m.line == tokens[range.0].line
    && CharSpan(source, tokens, spans, range).0 <= CharSpan(source, tokens, spans, range).1 <= |source|
    && m.text == source[CharSpan(source, tokens, spans, range).0..CharSpan(source, tokens, spans, range).1]
    && var ends := FirstFit(tokens, elements, range.0, map[]);
    && ends.Some? && LastOr(ends.value, range.0) == range.1
    && m.captures == AllBound(tokens, elements, range.0, map[], ends.value)
  }

  ghost function CharSpan(
    source: string, tokens: seq<Token>, spans: seq<(nat, nat)>, range: (nat, nat)): (span: (nat, nat))
    requires InOrder(source, tokens, spans) && range.0 < range.1 <= |tokens|
    ensures span.0 < span.1 <= |source|
    ensures tokens[range.0].start == Utf.Offset(source, span.0) && tokens[range.1 - 1].end == Utf.Offset(source, span.1)
  {
    CutsInside(source, tokens, spans, range.0, range.1 - 1);
    (spans[range.0].0, spans[range.1 - 1].1)
  }

  lemma {:induction false} CutsInside(source: string, tokens: seq<Token>, spans: seq<(nat, nat)>, a: nat, b: nat)
    requires InOrder(source, tokens, spans) && a <= b < |tokens|
    ensures spans[a].0 < spans[b].1 <= |source|
    ensures tokens[a].start == Utf.Offset(source, spans[a].0) && tokens[b].end == Utf.Offset(source, spans[b].1)
  {
    CutAt(source, tokens, spans, a);
    CutAt(source, tokens, spans, b);
    StartsBefore(source, tokens, spans, a, b);
  }

  lemma {:induction false} StartsBefore(source: string, tokens: seq<Token>, spans: seq<(nat, nat)>, a: nat, b: nat)
    requires InOrder(source, tokens, spans) && a <= b < |tokens|
    ensures spans[a].0 <= spans[b].0
  {
    CutAt(source, tokens, spans, a);
    if a < b {
      assert spans[a].1 <= spans[b].0;
    }
  }

  lemma {:induction false} CutAt(source: string, tokens: seq<Token>, spans: seq<(nat, nat)>, k: nat)
    requires InOrder(source, tokens, spans) && k < |tokens|
    ensures spans[k].0 < spans[k].1 <= |source|
    ensures tokens[k].start == Utf.Offset(source, spans[k].0) && tokens[k].end == Utf.Offset(source, spans[k].1)
  {
    assert Cut(source, tokens[k], spans[k]);
  }

  ghost predicate ReportsAll(
    source: string, tokens: seq<Token>, spans: seq<(nat, nat)>, elements: seq<Element>, matches: seq<Match>,
    found: seq<(nat, nat)>)
    requires InOrder(source, tokens, spans)
  {
    |matches| == |found| && forall a :: 0 <= a < |matches|
                                        ==> ReportsMatch(source, tokens, spans, elements, matches[a], found[a])
  }

  /** What the search reports from its position on follows what it has reported so far. */
  ghost predicate Searched(
    source: string, tokens: seq<Token>, spans: seq<(nat, nat)>, elements: seq<Element>, matches: seq<Match>,
    found: seq<(nat, nat)>, start: nat)
    requires InOrder(source, tokens, spans) && start <= |tokens|
  {
    && ReportsAll(source, tokens, spans, elements, matches, found)
    && found + AllMatches(tokens, elements, start) == AllMatches(tokens, elements, 0)
  }

  lemma {:induction false} SearchedMatch(
    source: string, tokens: seq<Token>, spans: seq<(nat, nat)>, elements: seq<Element>, matches: seq<Match>,
    found: seq<(nat, nat)>, start: nat, m: Match, end: nat)
    requires InOrder(source, tokens, spans) && start < end <= |tokens| && FitEnd(tokens, elements, start) == Some(end)
    requires Searched(source, tokens, spans, elements, matches, found, start)
    requires ReportsMatch(source, tokens, spans, elements, m, (start, end))
    ensures Searched(source, tokens, spans, elements, matches + [m], found + [(start, end)], end)
  {
    hide ReportsMatch, FitEnd, InOrder;
    assert found + ([(start, end)] + AllMatches(tokens, elements, end))
      == (found + [(start, end)]) + AllMatches(tokens, elements, end);
  }

  lemma {:induction false} SearchedNothing(
    source: string, tokens: seq<Token>, spans: seq<(nat, nat)>, elements: seq<Element>, matches: seq<Match>,
    found: seq<(nat, nat)>, start: nat)
    requires InOrder(source, tokens, spans) && start < |tokens|
    requires FitEnd(tokens, elements, start) == None || FitEnd(tokens, elements, start).value <= start
    requires Searched(source, tokens, spans, elements, matches, found, start)
    ensures Searched(source, tokens, spans, elements, matches, found, start + 1)
  {
    hide ReportsAll, FitEnd, InOrder;
  }

  lemma {:induction false} SearchEnds(
    source: string, tokens: seq<Token>, spans: seq<(nat, nat)>, elements: seq<Element>, matches: seq<Match>,
    found: seq<(nat, nat)>)
    requires InOrder(source, tokens, spans) && Searched(source, tokens, spans, elements, matches, found, |tokens|)
    ensures ReportsAll(source, tokens, spans, elements, matches, AllMatches(tokens, elements, 0))
  {
    hide ReportsAll, InOrder;
    assert found + [] == found;
  }

  lemma {:induction false} SearchBegins(
    source: string, tokens: seq<Token>, spans: seq<(nat, nat)>, elements: seq<Element>)
    requires InOrder(source, tokens, spans)
    ensures Searched(source, tokens, spans, elements, [], [], 0)
  {
    hide ReportsMatch, InOrder;
    assert [] + AllMatches(tokens, elements, 0) == AllMatches(tokens, elements, 0);
  }

  method Search(
    source: string, tokens: seq<Token>, ghost spans: seq<(nat, nat)>,
    elements: seq<Element>) returns (matches: seq<Match>)
    requires InOrder(source, tokens, spans)
    ensures ReportsAll(source, tokens, spans, elements, matches, AllMatches(tokens, elements, 0))
  {
    hide Searched, ReportsMatch, InOrder, AllMatches, ReportsAll;
    matches := [];
    var start: nat := 0;
    ghost var found: seq<(nat, nat)> := [];
    SearchBegins(source, tokens, spans, elements);
    while start < |tokens|
      invariant start <= |tokens|
      invariant Searched(source, tokens, spans, elements, matches, found, start)
    {
      var hit := MatchFrom(source, tokens, spans, elements, start);
      if hit.Some? {
        var (m, end) := hit.value;
        SearchedMatch(source, tokens, spans, elements, matches, found, start, m, end);
        matches := matches + [m];
        found := found + [(start, end)];
        start := end;
        continue;
      }
      SearchedNothing(source, tokens, spans, elements, matches, found, start);
      start := start + 1;
    }
    SearchEnds(source, tokens, spans, elements, matches, found);
  }

  /** A match that begins at `start` and is not empty, and the token after it. */
  method MatchFrom(source: string, tokens: seq<Token>, ghost spans: seq<(nat, nat)>, elements: seq<Element>, start: nat)
    returns (hit: Option<(Match, nat)>)
    requires InOrder(source, tokens, spans) && start < |tokens|
    ensures var end := FitEnd(tokens, elements, start);
            if hit == None then end == None || end.value <= start
            else
              && start < hit.value.1 <= |tokens| && end == Some(hit.value.1)
              && ReportsMatch(source, tokens, spans, elements, hit.value.0, (start, hit.value.1))
  {
    hide InOrder;
    var captures := new Captures();
    var end := MatchAt(tokens, elements, start, captures);
    assert FitEnd(tokens, elements, start) == end;
    if end == None || end.value <= start {
      return None;
    }
    FitEndForward(tokens, elements, start);
    ghost var span := CharSpan(source, tokens, spans, (start, end.value));
    var first, last := tokens[start], tokens[end.value - 1];
    var text := Splice.Between(source, first.start, last.end, span.0, span.1);
    hit := Some((Match(first.start, last.end, first.line, text, captures.bindings), end.value));
  }

  /** From the source text itself: all its tokens, and those of them the search goes through. */
  ghost predicate Tokenized(
    source: string, syntax: Syntax, tables: Tables, all: seq<Token>, places: seq<(nat, nat)>, tokens: seq<Token>,
    spans: seq<(nat, nat)>)
    requires SoundSyntax(syntax)
  {
    Tiles(source, all, places, |source|, syntax, tables) && Kept(all, places) == (tokens, spans)
      && InOrder(source, tokens, spans)
  }

  method SearchSource(source: string, elements: seq<Element>, syntax: Syntax, tables: Tables)
    returns (matches: seq<Match>, ghost all: seq<Token>, ghost places: seq<(nat, nat)>, ghost tokens: seq<Token>,
      ghost spans: seq<(nat, nat)>)
    requires SoundSyntax(syntax) && SoundTables(tables)
    ensures Tokenized(source, syntax, tables, all, places, tokens, spans)
    ensures ReportsAll(source, tokens, spans, elements, matches, AllMatches(tokens, elements, 0))
  {
    hide Shaped, Kept, InOrder, AllMatches;
    var everything;
    everything, places := Tokenize(source, syntax, tables);
    all := everything;
    TilesInOrder(source, all, places, |source|, syntax, tables);
    KeptInOrder(source, all, places);
    var significant := Significant(everything, places);
    tokens, spans := significant, Kept(all, places).1;
    matches := Search(source, significant, spans, elements);
  }

  // ---- rewriting ---------------------------------------------------------------------

  function DollarRun(template: string): (n: nat)
    ensures n <= |template| && (template != "" && template[0] == '$' ==> n > 0)
    ensures forall k :: 0 <= k < n ==> template[k] == '$'
  {
    if template != "" && template[0] == '$' then 1 + DollarRun(template[1..]) else 0
  }

  function NameEnd(tables: Tables, template: string, from: nat): (end: nat)
    requires from <= |template|
    ensures from <= end <= |template|
    decreases |template| - from
  {
    if from < |template| && (tables.alphanumeric(template[from]) || template[from] == '_')
    then NameEnd(tables, template, from + 1) else from
  }

  /** What the head of the template stands for, and how many characters it takes. */
  function FillUnit(tables: Tables, template: string, captures: Bindings): (unit: (string, nat))
    requires template != ""
    ensures 1 <= unit.1 <= |template|
  {
    if template[0] != '$' then ([template[0]], 1)
    else
      var dollars := DollarRun(template);
      var end := NameEnd(tables, template, dollars);
      var name := template[dollars..end];
      (if name in captures then captures[name] else template[..end], end)
  }

  function Filled(tables: Tables, template: string, captures: Bindings): string {
    if template == "" then ""
    else
      var unit := FillUnit(tables, template, captures);
      unit.0 + Filled(tables, template[unit.1..], captures)
  }

  method Fill(tables: Tables, template: string, captures: Bindings) returns (out: string)
    ensures out == Filled(tables, template, captures)
  {
    hide FillUnit, Filled;
    out := "";
    var index := 0;
    FilledStarts(tables, template, captures);
    while index < |template|
      invariant index <= |template|
      invariant out + Filled(tables, template[index..], captures) == Filled(tables, template, captures)
    {
      var unit := FillUnit(tables, template[index..], captures);
      FilledStep(tables, template, captures, index, out);
      out := out + unit.0;
      index := index + unit.1;
    }
    assert template[index..] == "" && out + "" == out;
  }

  lemma {:induction false} FilledStarts(tables: Tables, template: string, captures: Bindings)
    ensures "" + Filled(tables, template[0..], captures) == Filled(tables, template, captures)
            && Filled(tables, "", captures) == ""
  {
    assert template[0..] == template;
  }

  lemma {:induction false} FilledStep(tables: Tables, template: string, captures: Bindings, index: nat, out: string)
    requires index < |template|
    ensures var unit := FillUnit(tables, template[index..], captures);
            out + Filled(tables, template[index..], captures)
              == out + unit.0 + Filled(tables, template[index + unit.1..], captures)
  {
    var unit := FillUnit(tables, template[index..], captures);
    assert template[index..][unit.1..] == template[index + unit.1..];
    var rest := Filled(tables, template[index + unit.1..], captures);
    assert Filled(tables, template[index..], captures) == unit.0 + rest;
    assert out + (unit.0 + rest) == out + unit.0 + rest;
  }

  /** Unbound names are left as written. */
  lemma {:induction false} FillingNothing(tables: Tables, template: string)
    ensures Filled(tables, template, map[]) == template
    decreases |template|
  {
    if template != "" {
      var unit := FillUnit(tables, template, map[]);
      FillingNothing(tables, template[unit.1..]);
      assert unit.0 == template[..unit.1];
    }
  }

  /** What a template is made of: text without dollars, and names behind dollars. */
  datatype Part = Text(text: string) | Hole(dollars: nat, name: string)

  /** Letters, digits and underscores make names. */
  predicate NameChar(tables: Tables, c: char) {
    tables.alphanumeric(c) || c == '_'
  }

  function Dollars(n: nat): (s: string)
    ensures |s| == n && forall k :: 0 <= k < n ==> s[k] == '$'
  {
    seq(n, _ => '$')
  }

  function PartText(part: Part): string {
    match part
    case Text(text) => text
    case Hole(dollars, name) => Dollars(dollars) + name
  }

  function Template(parts: seq<Part>): string {
    if parts == [] then "" else PartText(parts[0]) + Template(parts[1..])
  }

  /** A name ends where it is followed by something that cannot go on with it. */
  predicate NameStops(tables: Tables, name: string, rest: string) {
    rest == "" || (!NameChar(tables, rest[0]) && (name == "" ==> rest[0] != '$'))
  }

  predicate Readable(tables: Tables, parts: seq<Part>) {
    parts == [] ||
    (Readable(tables, parts[1..]) &&
     match parts[0]
     case Text(text) => '$' !in text
     case Hole(dollars, name) =>
       && dollars > 0 && (forall k :: 0 <= k < |name| ==> NameChar(tables, name[k]))
       && NameStops(tables, name, Template(parts[1..])))
  }

  /** Text stays; a bound name gives what it captured, an unbound one is left as written. */
  function PartMeaning(part: Part, captures: Bindings): string {
    match part
    case Text(text) => text
    case Hole(dollars, name) => if name in captures then captures[name] else Dollars(dollars) + name
  }

  function Meanings(parts: seq<Part>, captures: Bindings): string {
    if parts == [] then "" else PartMeaning(parts[0], captures) + Meanings(parts[1..], captures)
  }

  lemma {:induction false} LetterFirst(tables: Tables, c: char, rest: string, captures: Bindings)
    requires c != '$'
    ensures Filled(tables, [c] + rest, captures) == [c] + Filled(tables, rest, captures)
  {
    hide NameEnd, DollarRun;
    assert ([c] + rest)[1..] == rest;
  }

  lemma {:induction false} TextFirst(tables: Tables, text: string, rest: string, captures: Bindings)
    requires '$' !in text
    ensures Filled(tables, text + rest, captures) == text + Filled(tables, rest, captures)
  {
    hide Filled;
    if text == "" {
      assert text + rest == rest;
    } else {
      TextFirst(tables, text[1..], rest, captures);
      LetterFirst(tables, text[0], text[1..] + rest, captures);
      assert text + rest == [text[0]] + (text[1..] + rest) && text == [text[0]] + text[1..];
      assert [text[0]] + (text[1..] + Filled(tables, rest, captures)) == text + Filled(tables, rest, captures);
    }
  }

  lemma {:induction false} RunOfDollars(n: nat, rest: string)
    requires rest == "" || rest[0] != '$'
    ensures DollarRun(Dollars(n) + rest) == n
  {
    if n == 0 {
      assert Dollars(n) + rest == rest;
    } else {
      assert (Dollars(n) + rest)[1..] == Dollars(n - 1) + rest;
      RunOfDollars(n - 1, rest);
    }
  }

  lemma {:induction false} NameIsRead(tables: Tables, text: string, from: nat, upTo: nat)
    requires from <= upTo <= |text| && forall k :: from <= k < upTo ==> NameChar(tables, text[k])
    requires upTo < |text| ==> !NameChar(tables, text[upTo])
    ensures NameEnd(tables, text, from) == upTo
    decreases upTo - from
  {
    if from < upTo {
      NameIsRead(tables, text, from + 1, upTo);
    }
  }

  lemma {:induction false} HoleFirst(
    tables: Tables, dollars: nat, name: string, rest: string, captures: Bindings)
    requires !NameChar(tables, '$') && dollars > 0 && NameStops(tables, name, rest)
    requires forall k :: 0 <= k < |name| ==> NameChar(tables, name[k])
    ensures Filled(tables, Dollars(dollars) + name + rest, captures)
            == PartMeaning(Hole(dollars, name), captures) + Filled(tables, rest, captures)
  {
    hide NameEnd, DollarRun;
    var template := Dollars(dollars) + name + rest;
    assert template == Dollars(dollars) + (name + rest);
    RunOfDollars(dollars, name + rest);
    NameIsRead(tables, template, dollars, dollars + |name|);
    assert template[dollars..dollars + |name|] == name && template[..dollars + |name|] == Dollars(dollars) + name;
    assert template[dollars + |name|..] == rest;
  }

  /** A template comes out as its parts in order, each bound name replaced by what it captured. */
  lemma {:induction false} FilledIsParts(tables: Tables, parts: seq<Part>, captures: Bindings)
    requires !NameChar(tables, '$') && Readable(tables, parts)
    ensures Filled(tables, Template(parts), captures) == Meanings(parts, captures)
  {
    hide Filled, PartMeaning, NameStops;
    if parts == [] {
      FilledStarts(tables, "", captures);
    } else {
      var rest := Template(parts[1..]);
      FilledIsParts(tables, parts[1..], captures);
      match parts[0] {
        case Text(text) =>
          TextFirst(tables, text, rest, captures);
          TextMeans(text, captures);
        case Hole(dollars, name) =>
          HoleFirst(tables, dollars, name, rest, captures);
      }
    }
  }

  lemma {:induction false} TextMeans(text: string, captures: Bindings)
    ensures PartMeaning(Text(text), captures) == text
  {
  }

  /** A metavariable of the pattern, named in a template, gives the text of the tokens it took in the match. */
  lemma {:induction false} CapturesAreFilledIn(
    source: string, tokens: seq<Token>, spans: seq<(nat, nat)>, elements: seq<Element>, m: Match, range: (nat, nat),
    k: nat, tables: Tables, dollars: nat) returns (ends: seq<nat>)
    requires InOrder(source, tokens, spans) && ReportsMatch(source, tokens, spans, elements, m, range)
    requires k < |elements| && NameOf(elements[k]).Some? && dollars > 0 && !NameChar(tables, '$')
    requires forall c :: c in NameOf(elements[k]).value ==> NameChar(tables, c)
    ensures |ends| == |elements| && ends[k] <= |tokens| && Fits(tokens, elements, range.0, map[], ends)
    ensures Filled(tables, Dollars(dollars) + NameOf(elements[k]).value, m.captures)
            == SpanText(tokens, if k == 0 then range.0 else ends[k - 1], ends[k])
  {
    hide InOrder, FirstFit, Fits, AllBound, SpanText, Filled;
    ends := FirstFit(tokens, elements, range.0, map[]).value;
    FirstFitIsFirst(tokens, elements, range.0, map[]);
    NamesAreCaptured(tokens, elements, range.0, map[], ends, k);
    var name := NameOf(elements[k]).value;
    HoleFirst(tables, dollars, name, "", m.captures);
    FilledStarts(tables, "", m.captures);
    assert Dollars(dollars) + name + "" == Dollars(dollars) + name;
  }

  /** Every template has such parts. */
  lemma {:induction false} EveryTemplateHasParts(tables: Tables, template: string) returns (parts: seq<Part>)
    ensures Readable(tables, parts) && Template(parts) == template
    decreases |template|
  {
    hide DollarRun, NameEnd;
    if template == "" {
      parts := [];
    } else if template[0] != '$' {
      var rest := EveryTemplateHasParts(tables, template[1..]);
      parts := [Text(template[..1])] + rest;
      assert parts[1..] == rest && template == template[..1] + template[1..];
    } else {
      var dollars, end := HoleAt(tables, template);
      var rest := EveryTemplateHasParts(tables, template[end..]);
      parts := [Hole(dollars, template[dollars..end])] + rest;
      assert parts[1..] == rest && template == Dollars(dollars) + template[dollars..end] + template[end..];
    }
  }

  lemma {:induction false} HoleAt(tables: Tables, template: string) returns (dollars: nat, end: nat)
    requires template != "" && template[0] == '$'
    ensures 0 < dollars <= end <= |template| && template[..dollars] == Dollars(dollars)
    ensures forall k :: dollars <= k < end ==> NameChar(tables, template[k])
    ensures NameStops(tables, template[dollars..end], template[end..])
  {
    dollars := DollarRun(template);
    DollarsStand(template);
    end := NameEnd(tables, template, dollars);
    NameStands(tables, template, dollars);
  }

  lemma {:induction false} DollarsStand(text: string)
    ensures text[..DollarRun(text)] == Dollars(DollarRun(text))
    ensures DollarRun(text) < |text| ==> text[DollarRun(text)] != '$'
  {
    if text != "" && text[0] == '$' {
      DollarsStand(text[1..]);
      assert text[..DollarRun(text)] == [text[0]] + text[1..][..DollarRun(text[1..])];
    }
  }

  lemma {:induction false} NameStands(tables: Tables, text: string, from: nat)
    requires from <= |text|
    ensures forall k :: from <= k < NameEnd(tables, text, from) ==> NameChar(tables, text[k])
    ensures NameEnd(tables, text, from) < |text| ==> !NameChar(tables, text[NameEnd(tables, text, from)])
    decreases |text| - from
  {
    if from < |text| && NameChar(tables, text[from]) {
      NameStands(tables, text, from + 1);
    }
  }

  function FilledEach(tables: Tables, template: string, matches: seq<Match>): (news: seq<string>)
    ensures |news| == |matches|
  {
    seq(|matches|, k requires 0 <= k < |matches| => Filled(tables, template, matches[k].captures))
  }

  ghost function CharSpans(
    source: string, tokens: seq<Token>, spans: seq<(nat, nat)>, found: seq<(nat, nat)>): (r: seq<(nat, nat)>)
    requires InOrder(source, tokens, spans) && Ranges(found, 0, |tokens|)
    ensures |r| == |found| && forall k :: 0 <= k < |found| ==> r[k] == CharSpan(source, tokens, spans, found[k])
  {
    seq(|found|, k requires 0 <= k < |found| => CharSpan(source, tokens, spans, found[k]))
  }

  lemma {:induction false} CharSpansApart(
    source: string, tokens: seq<Token>, spans: seq<(nat, nat)>, found: seq<(nat, nat)>)
    requires InOrder(source, tokens, spans) && Ranges(found, 0, |tokens|)
    ensures Splice.Apart(CharSpans(source, tokens, spans, found), 0, |source|)
  {
    var r := CharSpans(source, tokens, spans, found);
    forall k | 0 <= k < |r|
      ensures r[k].0 <= r[k].1 <= |source|
    {
    }
    forall a, b | 0 <= a < b < |r|
      ensures r[a].1 <= r[b].0
    {
      assert found[a].1 - 1 < found[b].0;
      assert spans[found[a].1 - 1].1 <= spans[found[b].0].0;
    }
    Splice.ApartFromPairs(r, 0, |source|);
  }

  /** Every match replaced by the filled template, as if one at a time from the last to the first. */
  method Rewrite(
    source: string, tokens: seq<Token>, ghost spans: seq<(nat, nat)>, elements: seq<Element>, template: string,
    tables: Tables)
    returns (out: string, ghost matches: seq<Match>)
    requires InOrder(source, tokens, spans)
    ensures var found := AllMatches(tokens, elements, 0);
            && Ranges(found, 0, |tokens|)
            && ReportsAll(source, tokens, spans, elements, matches, found)
            && Splice.Apart(CharSpans(source, tokens, spans, found), 0, |source|)
            && out == Splice.BackToFront(source, CharSpans(source, tokens, spans, found),
               FilledEach(tables, template, matches))
  {
    var hits := Search(source, tokens, spans, elements);
    matches := hits;
    ghost var found := AllMatches(tokens, elements, 0);
    AllMatchesRanges(tokens, elements, 0);
    hide AllMatches, InOrder, ReportsMatch, Splice.Woven, Splice.BackToFront;
    CharSpansApart(source, tokens, spans, found);
    ghost var cuts := CharSpans(source, tokens, spans, found);
    Splice.PassIsBackToFront(source, cuts, FilledEach(tables, template, hits));
    if hits == [] {
      Splice.WovenNone(source, cuts, FilledEach(tables, template, hits), 0);
      return source, matches;
    }
    out := WriteMatches(source, tokens, spans, elements, hits, found, template, tables);
  }

  method WriteMatches(source: string, tokens: seq<Token>, ghost spans: seq<(nat, nat)>, ghost elements: seq<Element>,
                      hits: seq<Match>, ghost found: seq<(nat, nat)>, template: string, tables: Tables)
    returns (out: string)
    requires InOrder(source, tokens, spans) && Ranges(found, 0, |tokens|)
             && ReportsAll(source, tokens, spans, elements, hits, found)
    requires Splice.Apart(CharSpans(source, tokens, spans, found), 0, |source|)
    ensures out == Splice.Woven(source, CharSpans(source, tokens, spans, found), FilledEach(tables, template, hits), 0)
  {
    hide InOrder, Filled, Splice.Woven, Splice.Weaving, Splice.Apart, ReportsMatch;
    out := "";
    var last: nat := 0;
    ghost var i: nat := 0;
    ghost var cuts := CharSpans(source, tokens, spans, found);
    ghost var news := FilledEach(tables, template, hits);
    Splice.WeavingStarts(source, cuts, news);
    for k := 0 to |hits|
      invariant Splice.Weaving(source, cuts, news, k, i, out)
      invariant i <= |source| && last == Utf.Offset(source, i)
    {
      var hit := hits[k];
      HitSpan(source, tokens, spans, elements, hit, found[k]);
      Splice.WeavingStep(source, cuts, news, k, i, out);
      var kept := Splice.Between(source, last, hit.start, i, cuts[k].0);
      var filled := Fill(tables, template, hit.captures);
      out := out + kept + filled;
      last := hit.end;
      i := cuts[k].1;
    }
    Splice.WeavingEnds(source, cuts, news, i, out);
    var tail := Splice.Between(source, last, Utf.ByteLen(source), i, |source|);
    out := out + tail;
  }

  lemma {:induction false} HitSpan(
    source: string, tokens: seq<Token>, spans: seq<(nat, nat)>, elements: seq<Element>, hit: Match, range: (nat, nat))
    requires InOrder(source, tokens, spans) && range.0 < range.1 <= |tokens|
             && ReportsMatch(source, tokens, spans, elements, hit, range)
    ensures var span := CharSpan(source, tokens, spans, range);
            span.0 < span.1 <= |source| && hit.start == Utf.Offset(source, span.0)
              && hit.end == Utf.Offset(source, span.1)
  {
    hide InOrder;
  }

  // ---- compiling -----------------------------------------------------------------------

  datatype CompileError = EmptyPattern | NotAMetavariable(dollars: nat)

  function CountDollars(tokens: seq<Token>, start: nat): (n: nat)
    requires start <= |tokens|
    ensures start + n <= |tokens|
    decreases |tokens| - start
  {
    if start < |tokens| && tokens[start].text == "$" then 1 + CountDollars(tokens, start + 1) else 0
  }

  predicate HasPrefix(text: string, prefix: string) {
    |text| >= |prefix| && text[..|prefix|] == prefix
  }

  /** The element at the head of the tokens from `index`, and where the next one starts. */
  function CompileOne(tokens: seq<Token>, index: nat): (r: Result<(Element, nat), CompileError>)
    requires index < |tokens|
    ensures r.Ok? ==> index < r.value.1 <= |tokens|
  {
    var text := tokens[index].text;
    if text == "$" then
      var dollars := CountDollars(tokens, index);
      var nameIndex := index + dollars;
      var named := nameIndex < |tokens| && tokens[nameIndex].kind == Identifier;
      if dollars == 3 && named then Ok((Many(tokens[nameIndex].text), nameIndex + 1))
      else if dollars == 3 then Ok((Many(""), nameIndex))
      else if dollars == 1 && named then Ok((Single(tokens[nameIndex].text), nameIndex + 1))
      else Err(NotAMetavariable(dollars))
    else if HasPrefix(text, "$$$") then Ok((Many(text[3..]), index + 1))
    else if HasPrefix(text, "$") then Ok((Single(text[1..]), index + 1))
    else if text == "_" then Ok((AnyIdentifier, index + 1))
    else Ok((Exact(text), index + 1))
  }

  function Compiled(tokens: seq<Token>, index: nat): Result<seq<Element>, CompileError>
    requires index <= |tokens|
    decreases |tokens| - index
  {
    if index == |tokens| then Ok([])
    else
      match CompileOne(tokens, index)
      case Err(error) => Err(error)
      case Ok((element, next)) =>
        Prefixed([element], Compiled(tokens, next))
  }

  method Compile(tokens: seq<Token>) returns (r: Result<seq<Element>, CompileError>)
    ensures r == if tokens == [] then Err(EmptyPattern) else Compiled(tokens, 0)
  {
    if tokens == [] {
      return Err(EmptyPattern);
    }
    var elements: seq<Element> := [];
    var index: nat := 0;
    assert forall rest: seq<Element> :: [] + rest == rest && rest + [] == rest;
    while index < |tokens|
      invariant index <= |tokens|
      invariant Compiled(tokens, 0) == Prefixed(elements, Compiled(tokens, index))
    {
      var one := CompileOne(tokens, index);
      match one
      case Err(error) => return Err(error);
      case Ok((element, next)) =>
        assert forall rest: seq<Element> :: elements + ([element] + rest) == (elements + [element]) + rest;
        elements := elements + [element];
        index := next;
    }
    assert elements + [] == elements;
    return Ok(elements);
  }

  function Prefixed(elements: seq<Element>, r: Result<seq<Element>, CompileError>): Result<seq<Element>, CompileError> {
    match r
    case Err(error) => Err(error)
    case Ok(rest) => Ok(elements + rest)
  }

  /** How an element is written where `$` is an identifier character. */
  function Written(element: Element): string {
    match element
    case Exact(text) => text
    case AnyIdentifier => "_"
    case Single(name) => "$" + name
    case Many(name) => "$$$" + name
  }

  /** Elements whose written form cannot be read as something else. */
  predicate Plain(element: Element) {
    match element
    case Exact(text) => text != "_" && !HasPrefix(text, "$")
    case AnyIdentifier => true
    case Single(name) => name != "" && !HasPrefix(name, "$$")
    case Many(_) => true
  }

  /** Compiling what was written gives the elements back. */
  lemma {:induction false} CompilesBack(tokens: seq<Token>, elements: seq<Element>, index: nat)
    requires |tokens| == |elements| && index <= |tokens|
    requires forall k :: 0 <= k < |elements| ==> Plain(elements[k]) && tokens[k].text == Written(elements[k])
    ensures Compiled(tokens, index) == Ok(elements[index..])
    decreases |tokens| - index
  {
    if index < |tokens| {
      WrittenCompiles(tokens, index, elements[index]);
      CompilesBack(tokens, elements, index + 1);
      assert elements[index..] == [elements[index]] + elements[index + 1..];
    }
  }

  lemma {:induction false} WrittenCompiles(tokens: seq<Token>, index: nat, element: Element)
    requires index < |tokens| && Plain(element) && tokens[index].text == Written(element)
    ensures CompileOne(tokens, index) == Ok((element, index + 1))
  {
    var text := tokens[index].text;
    match element
    case Many(name) =>
      assert |text| >= 3;
      assert text[..3] == "$$$" && text[3..] == name;
    case Single(name) =>
      assert |text| >= 2;
      assert text[..1] == "$" && text[1..] == name;
      assert |text| >= 3 ==> name[..2] == text[1..3] == text[..3][1..];
    case _ =>
  }

  /** Where `$` is a token of its own: what `n` of them and the token after them compile to. */
  lemma {:induction false} DollarsCompile(tokens: seq<Token>, index: nat, n: nat)
    requires n > 0 && index + n <= |tokens| && forall k :: index <= k < index + n ==> tokens[k].text == "$"
    requires index + n < |tokens| ==> tokens[index + n].text != "$"
    ensures var name := if index + n < |tokens| && tokens[index + n].kind == Identifier
                        then Some(tokens[index + n].text) else None;
            CompileOne(tokens, index) ==
              if n == 1 && name.Some? then Ok((Single(name.value), index + 2))
              else if n == 3 && name.Some? then Ok((Many(name.value), index + 4))
              else if n == 3 then Ok((Many(""), index + 3))
              else Err(NotAMetavariable(n))
  {
    DollarsCounted(tokens, index, n);
  }

  lemma {:induction false} DollarsCounted(tokens: seq<Token>, index: nat, n: nat)
    requires index + n <= |tokens| && forall k :: index <= k < index + n ==> tokens[k].text == "$"
    requires index + n < |tokens| ==> tokens[index + n].text != "$"
    ensures CountDollars(tokens, index) == n
    decreases n
  {
    if n > 0 {
      DollarsCounted(tokens, index + 1, n - 1);
    }
  }
}
