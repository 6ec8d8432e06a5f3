/** The source tokenizer: every character that is not whitespace lands in exactly one token. */
module Tokens {
  import opened Wrappers
  import Decimal
  import Utf

  datatype Kind = Identifier | Number | Str | Comment | Open | Close | Punctuation | Newline

  /** A token, its byte span in the source, and the line and column reported for it. */
  datatype Token = Token(kind: Kind, text: string, start: nat, end: nat, line: nat, column: nat)

  predicate IsTrivia(t: Token) {
    t.kind == Comment || t.kind == Newline
  }

  datatype Syntax = Syntax(
    lineComments: seq<string>,
    blockComments: seq<(string, string)>,
    quotes: seq<char>,
    backslashEscapes: bool,
    nestedBlockComments: bool,
    identifierExtra: seq<char>)

  /** The Unicode tables the standard library supplies. */
  datatype Tables = Tables(whitespace: char -> bool, alphabetic: char -> bool, alphanumeric: char -> bool)

  /** Letters and digits are alphanumeric, and a newline is whitespace. */
  ghost predicate SoundTables(tables: Tables) {
    tables.whitespace('\n') && forall c: char :: tables.alphabetic(c) || Decimal.IsDigit(c) ==> tables.alphanumeric(c)
  }

  /** Comment markers are not empty, and line markers hold no newline: true of every built-in syntax. */
  ghost predicate SoundSyntax(syntax: Syntax) {
    && (forall k :: 0 <= k < |syntax.lineComments| ==> syntax.lineComments[k] != "" && '\n' !in syntax.lineComments[k])
    && (forall k :: 0 <= k < |syntax.blockComments|
                    ==> syntax.blockComments[k].0 != "" && syntax.blockComments[k].1 != "")
  }

  const RUST := Syntax(["//"], [("/*", "*/")], ['"', '\''], true, true, ['_'])
  const TYPESCRIPT := Syntax(["//"], [("/*", "*/")], ['"', '\'', '`'], true, false, ['_', '$'])
  const PYTHON := Syntax(["#"], [], ['"', '\''], true, false, ['_'])
  const GO := Syntax(["//"], [("/*", "*/")], ['"', '\'', '`'], true, false, ['_'])
  const SHELL := Syntax(["#"], [], ['"', '\''], true, false, ['_'])
  const JSON := Syntax([], [], ['"'], true, false, ['_'])

  lemma {:induction false} BuiltInSyntaxesAreSound()
    ensures SoundSyntax(RUST) && SoundSyntax(TYPESCRIPT) && SoundSyntax(PYTHON)
    ensures SoundSyntax(GO) && SoundSyntax(SHELL) && SoundSyntax(JSON)
  {
  }

  predicate StartsWith(chars: string, index: nat, needle: string) {
    index + |needle| <= |chars| && chars[index..index + |needle|] == needle
  }

  // ---- the scanners --------------------------------------------------------------

  /** To the end of the line, when a line comment starts here. */
  method LineCommentEnd(chars: string, index: nat, syntax: Syntax) returns (end: Option<nat>)
    requires index < |chars| && SoundSyntax(syntax)
    ensures end.Some? <==> exists k :: 0 <= k < |syntax.lineComments|
                                       && StartsWith(chars, index, syntax.lineComments[k])
    ensures end.Some? ==> index < end.value <= |chars| && '\n' !in chars[index..end.value]
    ensures end.Some? && end.value < |chars| ==> chars[end.value] == '\n'
  {
    for k := 0 to |syntax.lineComments|
      invariant forall m :: 0 <= m < k ==> !StartsWith(chars, index, syntax.lineComments[m])
    {
      var marker := syntax.lineComments[k];
      if StartsWith(chars, index, marker) {
        assert chars[index..index + |marker|][0] == chars[index];
        var stop := index;
        while stop < |chars| && chars[stop] != '\n'
          invariant index <= stop <= |chars| && '\n' !in chars[index..stop]
        {
          stop := stop + 1;
        }
        return Some(stop);
      }
    }
    return None;
  }

  /** Where a block comment opened before `at` ends, `depth` openings deep. */
  function BlockEnd(chars: string, at: nat, depth: nat, open: string, close: string, nested: bool): (end: nat)
    requires at <= |chars| && open != "" && close != ""
    ensures at <= end <= |chars|
    decreases |chars| - at
  {
    if at == |chars| then |chars|
    else if nested && StartsWith(chars, at, open) then BlockEnd(chars, at + |open|, depth + 1, open, close, nested)
    else if StartsWith(chars, at, close) then
      if depth <= 1 then at + |close| else BlockEnd(chars, at + |close|, depth - 1, open, close, nested)
    else BlockEnd(chars, at + 1, depth, open, close, nested)
  }

  /** The newlines counted on the way to that end: none inside a marker. */
  function BlockBreaks(chars: string, at: nat, depth: nat, open: string, close: string, nested: bool): nat
    requires at <= |chars| && open != "" && close != ""
    decreases |chars| - at
  {
    if at == |chars| then 0
    else
      var here := if chars[at] == '\n' then 1 else 0;
      if nested && StartsWith(chars, at, open) then
        here + BlockBreaks(chars, at + |open|, depth + 1, open, close, nested)
      else if StartsWith(chars, at, close) then
        here + if depth <= 1 then 0 else BlockBreaks(chars, at + |close|, depth - 1, open, close, nested)
      else here + BlockBreaks(chars, at + 1, depth, open, close, nested)
  }

  lemma {:induction false} ClosingIsInside(chars: string, at: nat, close: string)
    ensures StartsWith(chars, at, close) ==> at + |close| <= |chars|
  {
  }

  /** Without nesting a comment ends just past the first closing marker, or with the source. */
  lemma {:induction false} PlainBlockEnd(chars: string, at: nat, open: string, close: string)
    requires at <= |chars| && open != "" && close != ""
    ensures var end := BlockEnd(chars, at, 1, open, close, false);
            if exists p :: at <= p < |chars| && StartsWith(chars, p, close)
            then end >= at + |close| && StartsWith(chars, end - |close|, close) && forall p ::
              at <= p < end - |close| ==> !StartsWith(chars, p, close)
            else end == |chars|
    decreases |chars| - at
  {
    hide StartsWith;
    ClosingIsInside(chars, at, close);
    if at < |chars| && !StartsWith(chars, at, close) {
      PlainBlockEnd(chars, at + 1, open, close);
      assert (exists p :: at <= p < |chars| && StartsWith(chars, p, close)) <==>
             (exists p :: at + 1 <= p < |chars| && StartsWith(chars, p, close));
    }
  }

  /** The `k`-th pair of block markers is the first whose opening stands at `index`. */
  ghost predicate OpensBlock(chars: string, index: nat, syntax: Syntax, k: nat) {
    && k < |syntax.blockComments| && StartsWith(chars, index, syntax.blockComments[k].0)
    && forall m :: 0 <= m < k ==> !StartsWith(chars, index, syntax.blockComments[m].0)
  }

  /** Where the block comment opened at `index` by the `k`-th pair ends. */
  ghost function BlockStop(chars: string, index: nat, syntax: Syntax, k: nat): (end: nat)
    requires SoundSyntax(syntax) && OpensBlock(chars, index, syntax, k)
    ensures index < end <= |chars|
  {
    var (open, close) := syntax.blockComments[k];
    BlockEnd(chars, index + |open|, 1, open, close, syntax.nestedBlockComments)
  }

  /** The newlines counted in the block comment opened at `index` by the `k`-th pair. */
  ghost function BlockLines(chars: string, index: nat, syntax: Syntax, k: nat): nat
    requires SoundSyntax(syntax) && OpensBlock(chars, index, syntax, k)
  {
    var (open, close) := syntax.blockComments[k];
    BlockBreaks(chars, index + |open|, 1, open, close, syntax.nestedBlockComments)
  }

  method BlockCommentEnd(chars: string, index: nat, syntax: Syntax) returns (end: Option<nat>, lines: nat)
    requires index < |chars| && SoundSyntax(syntax)
    ensures end == None ==> forall k :: 0 <= k < |syntax.blockComments|
                                        ==> !StartsWith(chars, index, syntax.blockComments[k].0)
    ensures end.Some? ==> exists k :: OpensBlock(chars, index, syntax, k)
                                      && end.value == BlockStop(chars, index, syntax, k)
                                      && lines == BlockLines(chars, index, syntax, k)
  {
    for k := 0 to |syntax.blockComments|
      invariant forall m :: 0 <= m < k ==> !StartsWith(chars, index, syntax.blockComments[m].0)
    {
      var (open, close) := syntax.blockComments[k];
      if StartsWith(chars, index, open) {
        var stop, breaks := ScanBlock(chars, index + |open|, open, close, syntax.nestedBlockComments);
        assert OpensBlock(chars, index, syntax, k);
        return Some(stop), breaks;
      }
    }
    return None, 0;
  }

  method ScanBlock(
    chars: string, from: nat, open: string, close: string, nested: bool) returns (end: nat, lines: nat)
    requires from <= |chars| && open != "" && close != ""
    ensures end == BlockEnd(chars, from, 1, open, close, nested)
    ensures lines == BlockBreaks(chars, from, 1, open, close, nested)
  {
    end, lines := from, 0;
    var depth := 1;
    while end < |chars|
      invariant from <= end <= |chars| && depth >= 1
      invariant BlockEnd(chars, end, depth, open, close, nested) == BlockEnd(chars, from, 1, open, close, nested)
      invariant lines + BlockBreaks(chars, end, depth, open, close, nested)
                == BlockBreaks(chars, from, 1, open, close, nested)
    {
      if chars[end] == '\n' {
        lines := lines + 1;
      }
      if nested && StartsWith(chars, end, open) {
        depth := depth + 1;
        end := end + |open|;
        continue;
      }
      if StartsWith(chars, end, close) {
        depth := depth - 1;
        end := end + |close|;
        if depth == 0 {
          return end, lines;
        }
        continue;
      }
      end := end + 1;
    }
  }

  /** A string opened by `quote` is still open at `at`: where it ends. */
  function StringRest(chars: string, at: nat, quote: char, triple: bool, escapes: bool): (end: nat)
    requires at <= |chars| + 1
    ensures end <= |chars| && (at <= |chars| ==> at <= end)
    decreases |chars| + 1 - at
  {
    if at >= |chars| then |chars|
    else if chars[at] == '\n' && !triple && quote != '`' then at
    else if escapes && chars[at] == '\\' then
      if at + 2 > |chars| then |chars| else StringRest(chars, at + 2, quote, triple, escapes)
    else if chars[at] == quote && !triple then at + 1
    else if chars[at] == quote && StartsWith(chars, at, [quote, quote, quote]) then at + 3
    else StringRest(chars, at + 1, quote, triple, escapes)
  }

  /** The newlines counted on the way to that end: one that ends the string, but none that is escaped. */
  function StringBreaks(chars: string, at: nat, quote: char, triple: bool, escapes: bool): nat
    requires at <= |chars| + 1
    decreases |chars| + 1 - at
  {
    if at >= |chars| then 0
    else if chars[at] == '\n' && !triple && quote != '`' then 1
    else
      var here := if chars[at] == '\n' then 1 else 0;
      if escapes && chars[at] == '\\' then
        here + if at + 2 > |chars| then 0 else StringBreaks(chars, at + 2, quote, triple, escapes)
      else if chars[at] == quote && (!triple || StartsWith(chars, at, [quote, quote, quote])) then here
      else here + StringBreaks(chars, at + 1, quote, triple, escapes)
  }

  /** Where the search for the end of the string opened at `index` starts. */
  function StringFrom(chars: string, index: nat): nat {
    index + if TripleAt(chars, index) then 3 else 1
  }

  predicate TripleAt(chars: string, index: nat) {
    index + 2 < |chars| && chars[index + 1] == chars[index] && chars[index + 2] == chars[index]
  }

  lemma {:induction false} TripleIs(chars: string, at: nat, quote: char)
    ensures StartsWith(chars, at, [quote, quote, quote]) <==>
            at + 2 < |chars| && chars[at] == quote && chars[at + 1] == quote && chars[at + 2] == quote
  {
    if at + 2 < |chars| {
      var three := chars[at..at + 3];
      assert three == [chars[at], chars[at + 1], chars[at + 2]];
    }
  }

  method StringEnd(chars: string, index: nat, syntax: Syntax) returns (end: nat, lines: nat)
    requires index < |chars|
    ensures index < end <= |chars|
    ensures var triple, from := TripleAt(chars, index), StringFrom(chars, index);
            && end == StringRest(chars, from, chars[index], triple, syntax.backslashEscapes)
            && lines == StringBreaks(chars, from, chars[index], triple, syntax.backslashEscapes)
  {
    hide StartsWith;
    var quote := chars[index];
    var triple := TripleAt(chars, index);
    var from := index + if triple then 3 else 1;
    end, lines := from, 0;
    while end < |chars|
      invariant from <= end <= |chars| + 1
      invariant StringRest(chars, end, quote, triple, syntax.backslashEscapes)
                == StringRest(chars, from, quote, triple, syntax.backslashEscapes)
      invariant lines + StringBreaks(chars, end, quote, triple, syntax.backslashEscapes)
                == StringBreaks(chars, from, quote, triple, syntax.backslashEscapes)
    {
      var c := chars[end];
      TripleIs(chars, end, quote);
      if c == '\n' {
        lines := lines + 1;
        if !triple && quote != '`' {
          return end, lines;
        }
      }
      if syntax.backslashEscapes && c == '\\' {
        end := end + 2;
        continue;
      }
      if c == quote {
        if !triple {
          return end + 1, lines;
        }
        if end + 2 < |chars| && chars[end + 1] == quote && chars[end + 2] == quote {
          return end + 3, lines;
        }
      }
      end := end + 1;
    }
    return |chars|, lines;
  }

  /** The longest run of characters of one sort. */
  method RunEnd(chars: string, index: nat, sort: char -> bool) returns (end: nat)
    requires index < |chars| && sort(chars[index])
    ensures index < end <= |chars|
    ensures forall k :: index <= k < end ==> sort(chars[k])
    ensures end < |chars| ==> !sort(chars[end])
  {
    end := index;
    while end < |chars| && sort(chars[end])
      invariant index <= end <= |chars|
      invariant forall k :: index <= k < end ==> sort(chars[k])
    {
      end := end + 1;
    }
  }

  const OPERATORS: seq<string> := [
    "<<=", ">>=", "===", "!==", "**=", "...", "&&=", "||=", "??=", "<=>", "->>",
    "==", "!=", "<=", ">=", "&&", "||", "??", "?.", "=>", "->", "::", "++", "--", "+=", "-=",
    "*=", "/=", "%=", "&=", "|=", "^=", "<<", ">>", "**", ".."
  ]

  /** The longest operator that starts at `index`, or one character when none does. */
  ghost predicate OperatorSpan(chars: string, index: nat, end: nat) {
    && index < end <= |chars|
    && (end == index + 1 || chars[index..end] in OPERATORS)
    && forall k :: 0 <= k < |OPERATORS| && StartsWith(chars, index, OPERATORS[k]) ==> index + |OPERATORS[k]| <= end
  }

  method OperatorEnd(chars: string, index: nat) returns (end: nat)
    requires index < |chars|
    ensures OperatorSpan(chars, index, end)
  {
    assert forall k :: 0 <= k < 11 ==> |OPERATORS[k]| == 3;
    assert forall k :: 11 <= k < |OPERATORS| ==> |OPERATORS[k]| == 2;
    for k := 0 to |OPERATORS|
      invariant forall m :: 0 <= m < k ==> !StartsWith(chars, index, OPERATORS[m])
    {
      if StartsWith(chars, index, OPERATORS[k]) {
        return index + |OPERATORS[k]|;
      }
    }
    return index + 1;
  }

  // ---- tokenizing --------------------------------------------------------------------

  /** `t` is the characters `span.0` up to `span.1` of the source, under their byte offsets. */
  ghost predicate Cut(source: string, t: Token, span: (nat, nat)) {
    && span.0 < span.1 <= |source|
    && t.text == source[span.0..span.1]
    && t.start == Utf.Offset(source, span.0)
    && t.end == Utf.Offset(source, span.1)
  }

  predicate NumberChar(tables: Tables, c: char) {
    tables.alphanumeric(c) || c == '.' || c == '_'
  }

  predicate WordChar(syntax: Syntax, tables: Tables, c: char) {
    tables.alphanumeric(c) || c in syntax.identifierExtra
  }

  predicate WordStart(syntax: Syntax, tables: Tables, c: char) {
    tables.alphabetic(c) || c in syntax.identifierExtra
  }

  ghost predicate OpensLine(source: string, index: nat, syntax: Syntax) {
    exists k :: 0 <= k < |syntax.lineComments| && StartsWith(source, index, syntax.lineComments[k])
  }

  /** Neither a newline nor a comment starts here. */
  ghost predicate Code(source: string, index: nat, syntax: Syntax)
    requires index < |source|
  {
    && source[index] != '\n' && !OpensLine(source, index, syntax)
    && forall k :: 0 <= k < |syntax.blockComments| ==> !StartsWith(source, index, syntax.blockComments[k].0)
  }

  /** Nor a string, a number or a word. */
  ghost predicate Symbol(source: string, index: nat, syntax: Syntax, tables: Tables)
    requires index < |source|
  {
    var c := source[index];
    Code(source, index, syntax) && c !in syntax.quotes && !Decimal.IsDigit(c) && !WordStart(syntax, tables, c)
  }

  /** Characters of one sort from `index` to `end`, and not one more. */
  ghost predicate WholeRun(source: string, index: nat, end: nat, sort: char -> bool) {
    && index < end <= |source| && (forall k :: index <= k < end ==> sort(source[k]))
    && (end < |source| ==> !sort(source[end]))
  }

  /** A token of this kind starts at `index`, and this is where it ends. */
  ghost predicate Shaped(source: string, kind: Kind, index: nat, end: nat, syntax: Syntax, tables: Tables)
    requires index < |source| && SoundSyntax(syntax)
  {
    var c := source[index];
    match kind
    case Newline => c == '\n' && end == index + 1
    case Comment =>
      c != '\n' &&
      if OpensLine(source, index, syntax) then WholeRun(source, index, end, d => d != '\n')
      else exists k :: OpensBlock(source, index, syntax, k) && end == BlockStop(source, index, syntax, k)
    case Str =>
      var triple := TripleAt(source, index);
      Code(source, index, syntax) && c in syntax.quotes &&
      end == StringRest(source, StringFrom(source, index), c, triple, syntax.backslashEscapes)
    case Number =>
      && Code(source, index, syntax) && c !in syntax.quotes && Decimal.IsDigit(c)
      && WholeRun(source, index, end, d => NumberChar(tables, d))
    case Identifier =>
      && Code(source, index, syntax) && c !in syntax.quotes && !Decimal.IsDigit(c) && WordStart(syntax, tables, c)
      && WholeRun(source, index, end, d => WordChar(syntax, tables, d))
    case Open => Symbol(source, index, syntax, tables) && c in ['(', '[', '{'] && end == index + 1
    case Close => Symbol(source, index, syntax, tables) && c in [')', ']', '}'] && end == index + 1
    case Punctuation =>
      && Symbol(source, index, syntax, tables) && c !in ['(', '[', '{', ')', ']', '}']
      && OperatorSpan(source, index, end)
  }

  /** By how many lines the tokenizer goes on after a token of this kind that starts at `index`. */
  ghost function Breaks(source: string, kind: Kind, index: nat, syntax: Syntax): nat
    requires index < |source| && SoundSyntax(syntax)
  {
    match kind
    case Newline => 1
    case Comment =>
      if OpensLine(source, index, syntax) then 0
      else if k: nat :| OpensBlock(source, index, syntax, k) then BlockLines(source, index, syntax, k)
      else 0
    case Str =>
      StringBreaks(
        source, StringFrom(source, index), source[index], TripleAt(source, index), syntax.backslashEscapes)
    case _ => 0
  }

  /** At every place the source itself fixes the kind of the token and its end. */
  lemma {:induction false} ShapeIsFixed(
    source: string, kind: Kind, other: Kind, index: nat, end: nat, stop: nat, syntax: Syntax, tables: Tables)
    requires index < |source| && SoundSyntax(syntax)
    requires Shaped(source, kind, index, end, syntax, tables) && Shaped(source, other, index, stop, syntax, tables)
    ensures kind == other && end == stop
  {
    hide BlockStop, StringRest, StartsWith, NumberChar, WordChar, WordStart, OperatorSpan, WholeRun;
    assert kind == other;
    match kind {
      case Comment =>
        if OpensLine(source, index, syntax) {
          RunsAgree(source, index, end, stop, d => d != '\n');
        } else {
          var k :| OpensBlock(source, index, syntax, k) && end == BlockStop(source, index, syntax, k);
          var m :| OpensBlock(source, index, syntax, m) && stop == BlockStop(source, index, syntax, m);
          assert k == m;
        }
      case Number => RunsAgree(source, index, end, stop, d => NumberChar(tables, d));
      case Identifier => RunsAgree(source, index, end, stop, d => WordChar(syntax, tables, d));
      case Punctuation => OperatorsAgree(source, index, end, stop);
      case _ =>
    }
  }

  lemma {:induction false} RunsAgree(source: string, index: nat, end: nat, stop: nat, sort: char -> bool)
    requires WholeRun(source, index, end, sort) && WholeRun(source, index, stop, sort)
    ensures end == stop
  {
  }

  lemma {:induction false} OperatorsAgree(source: string, index: nat, end: nat, stop: nat)
    requires OperatorSpan(source, index, end) && OperatorSpan(source, index, stop)
    ensures end == stop
  {
    LongestOperator(source, index, end, stop);
    LongestOperator(source, index, stop, end);
  }

  lemma {:induction false} LongestOperator(source: string, index: nat, end: nat, stop: nat)
    requires OperatorSpan(source, index, end) && OperatorSpan(source, index, stop)
    ensures stop <= end
  {
    if stop != index + 1 {
      var k :| 0 <= k < |OPERATORS| && OPERATORS[k] == source[index..stop];
      assert StartsWith(source, index, OPERATORS[k]);
    }
  }

  /** Whitespace between two tokens, and no newline: newlines are tokens. */
  ghost predicate Gap(source: string, from: nat, upTo: nat, tables: Tables) {
    from <= upTo <= |source| && forall k :: from <= k < upTo ==> tables.whitespace(source[k]) && source[k] != '\n'
  }

  /** A token of the source, in its place and whole: it starts on no blank and cannot be longer or shorter. */
  ghost predicate Placed(source: string, t: Token, span: (nat, nat), syntax: Syntax, tables: Tables)
    requires SoundSyntax(syntax)
  {
    && Cut(source, t, span)
    && (tables.whitespace(source[span.0]) ==> source[span.0] == '\n')
    && Shaped(source, t.kind, span.0, span.1, syntax, tables)
  }

  /** The line the tokenizer is on after these tokens. */
  ghost function LineAfter(source: string, tokens: seq<Token>, spans: seq<(nat, nat)>, syntax: Syntax): nat
    requires |tokens| == |spans| && SoundSyntax(syntax)
  {
    if tokens == [] then 1
    else
      var n := |tokens| - 1;
      LineAfter(source, tokens[..n], spans[..n], syntax)
      + if spans[n].0 < |source| then Breaks(source, tokens[n].kind, spans[n].0, syntax) else 0
  }

  /** Where the tokenizer takes that line to start: after the last newline that is a token. */
  function LineStart(tokens: seq<Token>, spans: seq<(nat, nat)>): nat
    requires |tokens| == |spans|
  {
    if tokens == [] then 0
    else
      var n := |tokens| - 1;
      if tokens[n].kind == Newline then spans[n].1 else LineStart(tokens[..n], spans[..n])
  }

  /** The line and the column reported for the `k`-th token. */
  ghost predicate Marked(source: string, tokens: seq<Token>, spans: seq<(nat, nat)>, k: nat, syntax: Syntax)
    requires k < |tokens| == |spans| && SoundSyntax(syntax)
  {
    && tokens[k].line == LineAfter(source, tokens[..k], spans[..k], syntax)
    && tokens[k].column + LineStart(tokens[..k], spans[..k]) == spans[k].0 + 1
  }

  /** The tokens tile the source up to character `upTo`, with only gaps between them. */
  ghost predicate Tiles(
    source: string, tokens: seq<Token>, spans: seq<(nat, nat)>, upTo: nat, syntax: Syntax, tables: Tables)
    requires SoundSyntax(syntax)
  {
    && |tokens| == |spans|
    && (forall k :: 0 <= k < |tokens| ==> Placed(source, tokens[k], spans[k], syntax, tables))
    && (forall k :: 0 <= k < |spans| ==> Separated(source, spans, k, tables))
    && (forall k :: 0 <= k < |tokens| ==> Marked(source, tokens, spans, k, syntax))
    && Gap(source, EndBefore(spans, |spans|), upTo, tables)
  }

  ghost predicate Separated(source: string, spans: seq<(nat, nat)>, k: nat, tables: Tables)
    requires k < |spans|
  {
    Gap(source, EndBefore(spans, k), spans[k].0, tables)
  }

  function EndBefore(spans: seq<(nat, nat)>, k: nat): nat
    requires k <= |spans|
  {
    if k == 0 then 0 else spans[k - 1].1
  }

  lemma {:induction false} TileOne(
    source: string, tokens: seq<Token>, spans: seq<(nat, nat)>, index: nat, end: nat, t: Token, syntax: Syntax,
    tables: Tables)
    requires SoundSyntax(syntax) && Tiles(source, tokens, spans, index, syntax, tables) && index < end <= |source|
    requires Placed(source, t, (index, end), syntax, tables)
    requires t.line == LineAfter(source, tokens, spans, syntax) && t.column + LineStart(tokens, spans) == index + 1
    ensures Tiles(source, tokens + [t], spans + [(index, end)], end, syntax, tables)
  {
    hide Placed, LineAfter, LineStart;
    var ts, ss := tokens + [t], spans + [(index, end)];
    forall k | 0 <= k < |ts|
      ensures Placed(source, ts[k], ss[k], syntax, tables)
    {
      if k < |tokens| {
        assert ts[k] == tokens[k] && ss[k] == spans[k];
      }
    }
    forall k | 0 <= k < |ss|
      ensures Separated(source, ss, k, tables)
    {
      assert EndBefore(ss, k) == EndBefore(spans, k);
      if k < |spans| {
        assert ss[k] == spans[k] && Separated(source, spans, k, tables);
      }
    }
    forall k | 0 <= k < |ts|
      ensures Marked(source, ts, ss, k, syntax)
    {
      assert ts[..k] == tokens[..k] && ss[..k] == spans[..k];
      if k < |tokens| {
        assert Marked(source, tokens, spans, k, syntax);
      } else {
        assert tokens[..k] == tokens && spans[..k] == spans;
      }
    }
  }

  function TokenAt(source: string, kind: Kind, index: nat, end: nat, line: nat, column: nat): Token
    requires index < end <= |source|
  {
    Token(kind, source[index..end], Utf.Offset(source, index), Utf.Offset(source, end), line, column)
  }

  /** The token that starts at `index`, where it ends, and how many lines further that is. */
  method NextToken(
    source: string, index: nat, syntax: Syntax, tables: Tables) returns (kind: Kind, end: nat, lines: nat)
    requires index < |source| && SoundSyntax(syntax) && SoundTables(tables)
    requires !tables.whitespace(source[index]) || source[index] == '\n'
    ensures index < end <= |source| && Shaped(source, kind, index, end, syntax, tables)
    ensures lines == Breaks(source, kind, index, syntax)
  {
    hide BlockStop, BlockLines, StartsWith, OperatorSpan, StringRest, StringBreaks;
    var c := source[index];
    if c == '\n' {
      return Newline, index + 1, 1;
    }
    var comment := LineCommentEnd(source, index, syntax);
    if comment.Some? {
      return Comment, comment.value, 0;
    }
    comment, lines := BlockCommentEnd(source, index, syntax);
    if comment.Some? {
      return Comment, comment.value, lines;
    }
    if c in syntax.quotes {
      end, lines := StringEnd(source, index, syntax);
      return Str, end, lines;
    }
    if Decimal.IsDigit(c) {
      end := RunEnd(source, index, (d: char) => NumberChar(tables, d));
      return Number, end, 0;
    }
    if tables.alphabetic(c) || c in syntax.identifierExtra {
      end := RunEnd(source, index, (d: char) => WordChar(syntax, tables, d));
      return Identifier, end, 0;
    }
    if c in ['(', '[', '{'] {
      return Open, index + 1, 0;
    }
    if c in [')', ']', '}'] {
      return Close, index + 1, 0;
    }
    end := OperatorEnd(source, index);
    return Punctuation, end, 0;
  }

  lemma {:induction false} GoesOn(
    source: string, tokens: seq<Token>, spans: seq<(nat, nat)>, t: Token, span: (nat, nat), syntax: Syntax)
    requires |tokens| == |spans| && SoundSyntax(syntax) && span.0 < |source|
    ensures LineAfter(source, tokens + [t], spans + [span], syntax)
            == LineAfter(source, tokens, spans, syntax) + Breaks(source, t.kind, span.0, syntax)
    ensures LineStart(tokens + [t], spans + [span])
            == if t.kind == Newline then span.1 else LineStart(tokens, spans)
  {
    hide Breaks;
    var ts, ss := tokens + [t], spans + [span];
    assert ts[..|tokens|] == tokens && ss[..|tokens|] == spans;
  }

  lemma {:induction false} TilesNothing(source: string, syntax: Syntax, tables: Tables)
    requires SoundSyntax(syntax)
    ensures Tiles(source, [], [], 0, syntax, tables) && LineAfter(source, [], [], syntax) == 1 && LineStart([], []) == 0
  {
  }

  lemma {:induction false} TileBlank(
    source: string, tokens: seq<Token>, spans: seq<(nat, nat)>, index: nat, syntax: Syntax, tables: Tables)
    requires SoundSyntax(syntax) && Tiles(source, tokens, spans, index, syntax, tables)
    requires index < |source| && tables.whitespace(source[index]) && source[index] != '\n'
    ensures Tiles(source, tokens, spans, index + 1, syntax, tables)
  {
    hide Placed, Separated, Marked;
  }

  method Tokenize(
    source: string, syntax: Syntax, tables: Tables) returns (tokens: seq<Token>, ghost spans: seq<(nat, nat)>)
    requires SoundSyntax(syntax) && SoundTables(tables)
    ensures Tiles(source, tokens, spans, |source|, syntax, tables)
  {
    hide Tiles, LineAfter, LineStart, Breaks, Shaped;
    tokens, spans := [], [];
    TilesNothing(source, syntax, tables);
    var index: nat, line, lineStart: nat := 0, 1, 0;
    while index < |source|
      invariant index <= |source| && |tokens| == |spans| && Tiles(source, tokens, spans, index, syntax, tables)
      invariant line == LineAfter(source, tokens, spans, syntax) && lineStart == LineStart(tokens, spans) <= index
      decreases |source| - index
    {
      if source[index] != '\n' && tables.whitespace(source[index]) {
        TileBlank(source, tokens, spans, index, syntax, tables);
        index := index + 1;
        continue;
      }
      var kind, end, lines := NextToken(source, index, syntax, tables);
      var t := TokenAt(source, kind, index, end, line, index - lineStart + 1);
      assert Placed(source, t, (index, end), syntax, tables);
      TileOne(source, tokens, spans, index, end, t, syntax, tables);
      GoesOn(source, tokens, spans, t, (index, end), syntax);
      tokens, spans, index := tokens + [t], spans + [(index, end)], end;
      line := line + lines;
      if kind == Newline {
        lineStart := index;
      }
    }
  }

  // ---- what the matcher sees -----------------------------------------------------------

  /** Tokens in source order, each the slice of the source it claims to be. */
  ghost predicate InOrder(source: string, tokens: seq<Token>, spans: seq<(nat, nat)>) {
    && |tokens| == |spans|
    && (forall k :: 0 <= k < |tokens| ==> Cut(source, tokens[k], spans[k]))
    && (forall a, b :: 0 <= a < b < |spans| ==> spans[a].1 <= spans[b].0)
  }

  lemma {:induction false} TilesInOrder(
    source: string, tokens: seq<Token>, spans: seq<(nat, nat)>, upTo: nat, syntax: Syntax, tables: Tables)
    requires SoundSyntax(syntax) && Tiles(source, tokens, spans, upTo, syntax, tables)
    ensures InOrder(source, tokens, spans)
  {
    hide Shaped;
    forall a, b | 0 <= a < b < |spans|
      ensures spans[a].1 <= spans[b].0
    {
      TilesApart(source, tokens, spans, upTo, syntax, tables, a, b);
    }
  }

  lemma {:induction false} TilesApart(
    source: string, tokens: seq<Token>, spans: seq<(nat, nat)>, upTo: nat, syntax: Syntax, tables: Tables, a: nat,
    b: nat)
    requires SoundSyntax(syntax) && Tiles(source, tokens, spans, upTo, syntax, tables) && a < b < |spans|
    ensures spans[a].1 <= spans[b].0
  {
    hide Shaped;
    assert Separated(source, spans, b, tables);
    if a < b - 1 {
      TilesApart(source, tokens, spans, upTo, syntax, tables, a, b - 1);
      assert Placed(source, tokens[b - 1], spans[b - 1], syntax, tables);
    }
  }

  /** No character is lost: outside the tokens there is only whitespace. */
  lemma {:induction false} OnlyWhitespaceOutside(
    source: string, tokens: seq<Token>, spans: seq<(nat, nat)>, syntax: Syntax, tables: Tables, k: nat)
    requires SoundSyntax(syntax) && Tiles(source, tokens, spans, |source|, syntax, tables) && k < |source|
    requires forall a :: 0 <= a < |spans| ==> !(spans[a].0 <= k < spans[a].1)
    ensures tables.whitespace(source[k]) && source[k] != '\n'
  {
    hide Placed;
    var a := 0;
    while a < |spans| && spans[a].1 <= k
      invariant a <= |spans| && (a > 0 ==> spans[a - 1].1 <= k)
    {
      a := a + 1;
    }
    assert a < |spans| ==> Separated(source, spans, a, tables);
  }

  lemma {:induction false} GapHolds(source: string, from: nat, upTo: nat, tables: Tables, k: nat)
    requires Gap(source, from, upTo, tables) && from <= k < upTo
    ensures tables.whitespace(source[k]) && source[k] != '\n'
  {
  }

  /** The `k`-th token stands after a gap, on a character no gap holds. */
  lemma {:induction false} NextStart(
    source: string, tokens: seq<Token>, spans: seq<(nat, nat)>, upTo: nat, syntax: Syntax, tables: Tables, k: nat)
    requires SoundSyntax(syntax) && Tiles(source, tokens, spans, upTo, syntax, tables) && k < |tokens|
    ensures |spans| == |tokens| && Placed(source, tokens[k], spans[k], syntax, tables)
    ensures EndBefore(spans, k) <= spans[k].0 < spans[k].1 <= |source|
            && Gap(source, EndBefore(spans, k), spans[k].0, tables)
    ensures tables.whitespace(source[spans[k].0]) ==> source[spans[k].0] == '\n'
  {
    hide Shaped;
    assert Separated(source, spans, k, tables);
  }

  lemma {:induction false} NoMoreTokens(
    source: string, from: nat, others: seq<Token>, places: seq<(nat, nat)>, upTo: nat, syntax: Syntax, tables: Tables,
    k: nat)
    requires SoundSyntax(syntax) && Tiles(source, others, places, upTo, syntax, tables)
    requires k <= |others| == |places| && EndBefore(places, k) == from && Gap(source, from, |source|, tables)
    ensures |others| == k
  {
    hide Tiles, Placed, Gap;
    if k < |others| {
      NextStart(source, others, places, upTo, syntax, tables, k);
      GapHolds(source, from, |source|, tables, places[k].0);
    }
  }

  /** After gaps that begin together two tokens begin together. */
  lemma {:induction false} SameStart(source: string, from: nat, i: nat, j: nat, tables: Tables)
    requires from <= i < |source| && from <= j < |source| && Gap(source, from, i, tables)
             && Gap(source, from, j, tables)
    requires tables.whitespace(source[i]) ==> source[i] == '\n'
    requires tables.whitespace(source[j]) ==> source[j] == '\n'
    ensures i == j
  {
    hide Gap;
    if i < j {
      GapHolds(source, from, j, tables, i);
    } else if j < i {
      GapHolds(source, from, i, tables, j);
    }
  }

  lemma {:induction false} SamePlace(
    source: string, t: Token, u: Token, span: (nat, nat), place: (nat, nat), syntax: Syntax, tables: Tables)
    requires SoundSyntax(syntax) && Placed(source, t, span, syntax, tables) && Placed(source, u, place, syntax, tables)
    requires span.0 == place.0 && t.line == u.line && t.column == u.column
    ensures t == u && span == place
  {
    hide Shaped;
    ShapeIsFixed(source, t.kind, u.kind, span.0, span.1, place.1, syntax, tables);
  }

  /** The marks of a token depend on its place and what comes before. */
  lemma {:induction false} SameMarks(
    source: string, tokens: seq<Token>, spans: seq<(nat, nat)>, others: seq<Token>, places: seq<(nat, nat)>,
    syntax: Syntax, tables: Tables, k: nat)
    requires SoundSyntax(syntax) && k < |tokens| && k < |others|
    requires Tiles(source, tokens, spans, |source|, syntax, tables)
             && Tiles(source, others, places, |source|, syntax, tables)
    requires tokens[..k] == others[..k] && spans[..k] == places[..k] && spans[k].0 == places[k].0
    ensures tokens[k].line == others[k].line && tokens[k].column == others[k].column
  {
    hide Placed, LineAfter, LineStart;
    assert Marked(source, tokens, spans, k, syntax) && Marked(source, others, places, k, syntax);
  }

  lemma {:induction false} SameBeginnings(
    source: string, tokens: seq<Token>, spans: seq<(nat, nat)>, others: seq<Token>, places: seq<(nat, nat)>,
    syntax: Syntax, tables: Tables, n: nat)
    requires SoundSyntax(syntax) && n <= |tokens| == |spans| && n <= |others| == |places|
    requires Tiles(source, tokens, spans, |source|, syntax, tables)
             && Tiles(source, others, places, |source|, syntax, tables)
    ensures tokens[..n] == others[..n] && spans[..n] == places[..n] && EndBefore(spans, n) == EndBefore(places, n)
  {
    hide Tiles, Placed, Gap;
    if n > 0 {
      var k := n - 1;
      SameBeginnings(source, tokens, spans, others, places, syntax, tables, k);
      NextStart(source, tokens, spans, |source|, syntax, tables, k);
      NextStart(source, others, places, |source|, syntax, tables, k);
      SameStart(source, EndBefore(spans, k), spans[k].0, places[k].0, tables);
      SameMarks(source, tokens, spans, others, places, syntax, tables, k);
      SamePlace(source, tokens[k], others[k], spans[k], places[k], syntax, tables);
      assert spans[..n] == spans[..k] + [spans[k]] && places[..n] == places[..k] + [places[k]];
      assert tokens[..n] == tokens[..k] + [tokens[k]] && others[..n] == others[..k] + [others[k]];
    }
  }

  lemma {:induction false} TilesEnd(
    source: string, tokens: seq<Token>, spans: seq<(nat, nat)>, syntax: Syntax, tables: Tables)
    requires SoundSyntax(syntax) && Tiles(source, tokens, spans, |source|, syntax, tables)
    ensures |tokens| == |spans| && Gap(source, EndBefore(spans, |spans|), |source|, tables)
  {
    hide Placed;
  }

  /** No source has a second tiling: the tokens are determined. */
  lemma {:induction false} TilesAreUnique(
    source: string, tokens: seq<Token>, spans: seq<(nat, nat)>, others: seq<Token>, places: seq<(nat, nat)>,
    syntax: Syntax, tables: Tables)
    requires SoundSyntax(syntax)
    requires Tiles(source, tokens, spans, |source|, syntax, tables)
             && Tiles(source, others, places, |source|, syntax, tables)
    ensures tokens == others && spans == places
  {
    hide Tiles, Placed, Gap;
    TilesEnd(source, tokens, spans, syntax, tables);
    TilesEnd(source, others, places, syntax, tables);
    var n := if |tokens| < |others| then |tokens| else |others|;
    SameBeginnings(source, tokens, spans, others, places, syntax, tables, n);
    if n == |tokens| {
      NoMoreTokens(source, EndBefore(spans, n), others, places, |source|, syntax, tables, n);
    } else {
      NoMoreTokens(source, EndBefore(places, n), tokens, spans, |source|, syntax, tables, n);
    }
  }

  /** The tokens that are neither comments nor newlines, and where they stand. */
  ghost function Kept(tokens: seq<Token>, spans: seq<(nat, nat)>): (kept: (seq<Token>, seq<(nat, nat)>))
    requires |tokens| == |spans|
    ensures |kept.0| == |kept.1|
  {
    if tokens == [] then ([], [])
    else
      var n := |tokens| - 1;
      var before := Kept(tokens[..n], spans[..n]);
      if IsTrivia(tokens[n]) then before else (before.0 + [tokens[n]], before.1 + [spans[n]])
  }

  /** Exactly the comments and newlines are left out, and the others keep their order. */
  lemma {:induction false} KeptExact(tokens: seq<Token>, spans: seq<(nat, nat)>, n: nat) returns (places: seq<nat>)
    requires n <= |tokens| == |spans|
    ensures KeptAt(tokens, spans, n, places)
    ensures forall a, b :: 0 <= a < b < |places| ==> places[a] < places[b]
    ensures forall k: nat :: k in places <==> k < n && tokens[k].kind != Comment && tokens[k].kind != Newline
  {
    hide KeptAt;
    if n == 0 {
      places := [];
      KeptNothing(tokens, spans);
    } else {
      var k := n - 1;
      var before := KeptExact(tokens, spans, k);
      KeptMore(tokens, spans, k, before);
      assert forall a :: 0 <= a < |before| ==> before[a] in before;
      places := if tokens[k].kind == Comment || tokens[k].kind == Newline then before else before + [k];
    }
  }

  /** The kept tokens and spans stand at these places. */
  ghost predicate KeptAt(tokens: seq<Token>, spans: seq<(nat, nat)>, n: nat, places: seq<nat>)
    requires n <= |tokens| == |spans|
  {
    var kept := Kept(tokens[..n], spans[..n]);
    && |places| == |kept.0|
    && forall a :: 0 <= a < |places| ==>
         places[a] < n && kept.0[a] == tokens[places[a]] && kept.1[a] == spans[places[a]]
  }

  lemma {:induction false} KeptNothing(tokens: seq<Token>, spans: seq<(nat, nat)>)
    requires |tokens| == |spans|
    ensures KeptAt(tokens, spans, 0, [])
  {
  }

  lemma {:induction false} KeptMore(tokens: seq<Token>, spans: seq<(nat, nat)>, k: nat, before: seq<nat>)
    requires k < |tokens| == |spans| && KeptAt(tokens, spans, k, before)
    ensures KeptAt(tokens, spans, k + 1,
                   if tokens[k].kind == Comment || tokens[k].kind == Newline then before else before + [k])
  {
    hide Kept;
    KeptStep(tokens, spans, k);
  }

  lemma {:induction false} KeptStep(tokens: seq<Token>, spans: seq<(nat, nat)>, k: nat)
    requires k < |tokens| == |spans|
    ensures var before, after := Kept(tokens[..k], spans[..k]), Kept(tokens[..k + 1], spans[..k + 1]);
            after == if tokens[k].kind == Comment || tokens[k].kind == Newline then before
                     else (before.0 + [tokens[k]], before.1 + [spans[k]])
  {
    assert tokens[..k + 1][..k] == tokens[..k] && spans[..k + 1][..k] == spans[..k];
  }

  lemma {:induction false} KeptInOrder(source: string, tokens: seq<Token>, spans: seq<(nat, nat)>)
    requires InOrder(source, tokens, spans)
    ensures var kept := Kept(tokens, spans);
            InOrder(source, kept.0, kept.1) && forall a :: 0 <= a < |kept.1|
                                                           ==> exists m :: 0 <= m < |spans| && kept.1[a] == spans[m]
  {
    hide Cut;
    if tokens != [] {
      var n := |tokens| - 1;
      KeptInOrder(source, tokens[..n], spans[..n]);
    }
  }

  method Significant(tokens: seq<Token>, ghost spans: seq<(nat, nat)>) returns (kept: seq<Token>)
    requires |tokens| == |spans|
    ensures kept == Kept(tokens, spans).0
  {
    kept := [];
    for k := 0 to |tokens|
      invariant kept == Kept(tokens[..k], spans[..k]).0
    {
      assert tokens[..k + 1][..k] == tokens[..k] && spans[..k + 1][..k] == spans[..k];
      if !IsTrivia(tokens[k]) {
        kept := kept + [tokens[k]];
      }
    }
    assert tokens[..|tokens|] == tokens && spans[..|tokens|] == spans;
  }
}
