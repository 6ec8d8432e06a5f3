/** The lines and columns the tokenizer reports, against those of the source. */
module TokenLines {
  import opened Tokens

  function Newlines(s: string): nat {
    if s == "" then 0 else Newlines(s[..|s| - 1]) + if s[|s| - 1] == '\n' then 1 else 0
  }

  lemma {:induction false} NewlinesJoin(a: string, b: string)
    ensures Newlines(a + b) == Newlines(a) + Newlines(b)
    decreases |b|
  {
    if b == "" {
      assert a + b == a;
    } else {
      var n := |b| - 1;
      assert (a + b)[..|a + b| - 1] == a + b[..n];
      NewlinesJoin(a, b[..n]);
    }
  }

  lemma {:induction false} NoNewlines(s: string)
    ensures '\n' !in s <==> Newlines(s) == 0
    decreases |s|
  {
    if s != "" {
      NoNewlines(s[..|s| - 1]);
      assert s == s[..|s| - 1] + [s[|s| - 1]];
    }
  }

  lemma {:induction false} Between(s: string, i: nat, j: nat, k: nat)
    requires i <= j <= k <= |s|
    ensures Newlines(s[i..k]) == Newlines(s[i..j]) + Newlines(s[j..k])
  {
    assert s[i..k] == s[i..j] + s[j..k];
    NewlinesJoin(s[i..j], s[j..k]);
  }

  lemma {:induction false} OneCharacter(s: string, i: nat)
    requires i < |s|
    ensures Newlines(s[i..i + 1]) == if s[i] == '\n' then 1 else 0
  {
    assert s[i..i + 1][..0] == "";
  }

  // ---- strings --------------------------------------------------------------------------

  /** The newlines the scan of a string steps over behind a backslash. */
  function Escaped(chars: string, at: nat, quote: char, triple: bool, escapes: bool): nat
    requires at <= |chars| + 1
    decreases |chars| + 1 - at
  {
    if at >= |chars| || (chars[at] == '\n' && !triple && quote != '`') then 0
    else if escapes && chars[at] == '\\' then
      if at + 2 > |chars| then 0
      else (if chars[at + 1] == '\n' then 1 else 0) + Escaped(chars, at + 2, quote, triple, escapes)
    else if chars[at] == quote && (!triple || StartsWith(chars, at, [quote, quote, quote])) then 0
    else Escaped(chars, at + 1, quote, triple, escapes)
  }

  /** A string of one line that a newline ends. */
  predicate Unclosed(chars: string, at: nat, quote: char, triple: bool, escapes: bool)
    requires at <= |chars| + 1
    decreases |chars| + 1 - at
  {
    at < |chars| &&
    if chars[at] == '\n' && !triple && quote != '`' then true
    else if escapes && chars[at] == '\\' then
      at + 2 <= |chars| && Unclosed(chars, at + 2, quote, triple, escapes)
    else if chars[at] == quote && (!triple || StartsWith(chars, at, [quote, quote, quote])) then false
    else Unclosed(chars, at + 1, quote, triple, escapes)
  }

  /** What is counted in a string: its newlines, less those escaped, and the one that ends it. */
  lemma {:induction false} StringCounted(chars: string, at: nat, quote: char, triple: bool, escapes: bool)
    requires at <= |chars| && quote != '\n'
    ensures StringBreaks(chars, at, quote, triple, escapes) + Escaped(chars, at, quote, triple, escapes)
            == Newlines(chars[at..StringRest(chars, at, quote, triple, escapes)])
               + if Unclosed(chars, at, quote, triple, escapes) then 1 else 0
    decreases |chars| - at
  {
    hide StartsWith, Newlines;
    var end := StringRest(chars, at, quote, triple, escapes);
    NoNewlines("");
    if at < |chars| {
      OneCharacter(chars, at);
      TripleIs(chars, at, quote);
      if chars[at] == '\n' && !triple && quote != '`' {
        assert chars[at..end] == "";
      } else if escapes && chars[at] == '\\' {
        if at + 2 <= |chars| {
          StringCounted(chars, at + 2, quote, triple, escapes);
          OneCharacter(chars, at + 1);
          Between(chars, at, at + 1, end);
          Between(chars, at + 1, at + 2, end);
        }
      } else if chars[at] == quote && !triple {
        assert end == at + 1;
      } else if chars[at] == quote && StartsWith(chars, at, [quote, quote, quote]) {
        assert chars[at..end] == [chars[at], chars[at + 1], chars[at + 2]];
        NoNewlines(chars[at..end]);
      } else {
        StringCounted(chars, at + 1, quote, triple, escapes);
        Between(chars, at, at + 1, end);
      }
    } else {
      assert chars[at..end] == "";
    }
  }

  // ---- block comments -------------------------------------------------------------------

  lemma {:induction false} MarkerHasNone(chars: string, at: nat, marker: string)
    requires StartsWith(chars, at, marker) && marker != "" && '\n' !in marker
    ensures Newlines(chars[at..at + |marker|]) == 0 && chars[at] != '\n'
  {
    NoNewlines(marker);
    assert chars[at..at + |marker|][0] == chars[at];
  }

  lemma {:induction false} BlockCounted(
    chars: string, at: nat, depth: nat, open: string, close: string, nested: bool)
    requires at <= |chars| && open != "" && close != "" && '\n' !in open && '\n' !in close
    ensures BlockBreaks(chars, at, depth, open, close, nested)
            == Newlines(chars[at..BlockEnd(chars, at, depth, open, close, nested)])
    decreases |chars| - at
  {
    hide StartsWith, Newlines;
    var end := BlockEnd(chars, at, depth, open, close, nested);
    ClosingIsInside(chars, at, open);
    ClosingIsInside(chars, at, close);
    if at == |chars| {
      assert chars[at..end] == "";
      NoNewlines("");
    } else if nested && StartsWith(chars, at, open) {
      MarkerHasNone(chars, at, open);
      BlockCounted(chars, at + |open|, depth + 1, open, close, nested);
      Between(chars, at, at + |open|, end);
    } else if StartsWith(chars, at, close) {
      MarkerHasNone(chars, at, close);
      if depth > 1 {
        BlockCounted(chars, at + |close|, depth - 1, open, close, nested);
        Between(chars, at, at + |close|, end);
      }
    } else {
      BlockCounted(chars, at + 1, depth, open, close, nested);
      OneCharacter(chars, at);
      Between(chars, at, at + 1, end);
    }
  }

  // ---- every token ----------------------------------------------------------------------

  /** Newlines are no part of block markers, words and numbers: true of every built-in syntax and of Unicode. */
  ghost predicate PlainMarks(syntax: Syntax, tables: Tables) {
    && (forall k :: 0 <= k < |syntax.blockComments|
                    ==> '\n' !in syntax.blockComments[k].0 && '\n' !in syntax.blockComments[k].1)
    && !tables.alphanumeric('\n') && '\n' !in syntax.identifierExtra
  }

  lemma {:induction false} BuiltInMarksArePlain(tables: Tables)
    requires !tables.alphanumeric('\n')
    ensures PlainMarks(RUST, tables) && PlainMarks(TYPESCRIPT, tables) && PlainMarks(PYTHON, tables)
    ensures PlainMarks(GO, tables) && PlainMarks(SHELL, tables) && PlainMarks(JSON, tables)
  {
  }

  function EscapedIn(source: string, kind: Kind, index: nat, syntax: Syntax): nat {
    if kind != Str || index >= |source| then 0
    else
      Escaped(source, StringFrom(source, index), source[index], TripleAt(source, index), syntax.backslashEscapes)
  }

  function UnclosedAt(source: string, kind: Kind, index: nat, syntax: Syntax): nat {
    if kind == Str && index < |source|
       && Unclosed(source, StringFrom(source, index), source[index], TripleAt(source, index), syntax.backslashEscapes)
    then 1 else 0
  }

  lemma {:induction false} TokenCounted(
    source: string, kind: Kind, index: nat, end: nat, syntax: Syntax, tables: Tables)
    requires SoundSyntax(syntax) && PlainMarks(syntax, tables) && index < end <= |source|
    requires Shaped(source, kind, index, end, syntax, tables)
    ensures Breaks(source, kind, index, syntax) + EscapedIn(source, kind, index, syntax)
            == Newlines(source[index..end]) + UnclosedAt(source, kind, index, syntax)
  {
    hide Newlines, StartsWith, StringRest, StringBreaks, Escaped, Unclosed, BlockBreaks, OperatorSpan, WholeRun;
    match kind
    case Newline =>
      OneCharacter(source, index);
    case Comment =>
      CommentCounted(source, index, end, syntax, tables);
    case Str =>
      var from := StringFrom(source, index);
      QuotesCounted(source, index);
      StringCounted(source, from, source[index], TripleAt(source, index), syntax.backslashEscapes);
      Between(source, index, from, end);
    case Number =>
      RunHasNone(source, index, end, d => NumberChar(tables, d));
    case Identifier =>
      RunHasNone(source, index, end, d => WordChar(syntax, tables, d));
    case Punctuation =>
      OperatorHasNone(source, index, end);
    case _ =>
      OneCharacter(source, index);
  }

  lemma {:induction false} QuotesCounted(source: string, index: nat)
    requires index < |source| && source[index] != '\n'
    ensures StringFrom(source, index) <= |source| && Newlines(source[index..StringFrom(source, index)]) == 0
  {
    NoNewlines(source[index..StringFrom(source, index)]);
  }

  lemma {:induction false} RunHasNone(source: string, index: nat, end: nat, sort: char -> bool)
    requires WholeRun(source, index, end, sort) && !sort('\n')
    ensures Newlines(source[index..end]) == 0
  {
    NoNewlines(source[index..end]);
  }

  lemma {:induction false} OperatorHasNone(source: string, index: nat, end: nat)
    requires OperatorSpan(source, index, end) && source[index] != '\n'
    ensures Newlines(source[index..end]) == 0
  {
    NoNewlines(source[index..end]);
    if end > index + 1 {
      OperatorsHaveNone();
    }
  }

  lemma {:induction false} OperatorsHaveNone()
    ensures forall k :: 0 <= k < |OPERATORS| ==> '\n' !in OPERATORS[k]
  {
  }

  lemma {:induction false} CommentCounted(source: string, index: nat, end: nat, syntax: Syntax, tables: Tables)
    requires SoundSyntax(syntax) && PlainMarks(syntax, tables) && index < end <= |source|
    requires Shaped(source, Comment, index, end, syntax, tables)
    ensures Breaks(source, Comment, index, syntax) == Newlines(source[index..end])
  {
    hide Newlines, StartsWith, BlockBreaks;
    if OpensLine(source, index, syntax) {
      RunHasNone(source, index, end, d => d != '\n');
    } else {
      var k: nat :| OpensBlock(source, index, syntax, k) && end == BlockStop(source, index, syntax, k);
      var (open, close) := syntax.blockComments[k];
      ClosingIsInside(source, index, open);
      MarkerHasNone(source, index, open);
      BlockCounted(source, index + |open|, 1, open, close, syntax.nestedBlockComments);
      Between(source, index, index + |open|, end);
      assert Breaks(source, Comment, index, syntax) == BlockLines(source, index, syntax, k);
    }
  }

  // ---- all tokens ---------------------------------------------------------------------------

  /** The newlines escaped in these tokens. */
  function AllEscaped(source: string, tokens: seq<Token>, spans: seq<(nat, nat)>, syntax: Syntax): nat
    requires |tokens| == |spans|
  {
    if tokens == [] then 0
    else
      var n := |tokens| - 1;
      AllEscaped(source, tokens[..n], spans[..n], syntax) + EscapedIn(source, tokens[n].kind, spans[n].0, syntax)
  }

  /** How many of these tokens are strings that a newline ends. */
  function AllUnclosed(source: string, tokens: seq<Token>, spans: seq<(nat, nat)>, syntax: Syntax): nat
    requires |tokens| == |spans|
  {
    if tokens == [] then 0
    else
      var n := |tokens| - 1;
      AllUnclosed(source, tokens[..n], spans[..n], syntax) + UnclosedAt(source, tokens[n].kind, spans[n].0, syntax)
  }

  lemma {:induction false} GapHasNone(source: string, from: nat, upTo: nat, tables: Tables)
    requires Gap(source, from, upTo, tables)
    ensures Newlines(source[from..upTo]) == 0
  {
    NoNewlines(source[from..upTo]);
  }

  /** The tokenizer's line: the true one, more by the unclosed strings so far, and less by the escaped newlines. */
  lemma {:induction false} LineCounted(
    source: string, tokens: seq<Token>, spans: seq<(nat, nat)>, syntax: Syntax, tables: Tables, n: nat)
    requires SoundSyntax(syntax) && PlainMarks(syntax, tables)
    requires Tiles(source, tokens, spans, |source|, syntax, tables) && n <= |tokens|
    ensures EndBefore(spans, n) <= |source|
    ensures LineAfter(source, tokens[..n], spans[..n], syntax) + AllEscaped(source, tokens[..n], spans[..n], syntax)
            == 1 + Newlines(source[..EndBefore(spans, n)])
               + AllUnclosed(source, tokens[..n], spans[..n], syntax)
  {
    hide Tiles, Placed, Shaped, Newlines, Gap, Breaks, EscapedIn, UnclosedAt, PlainMarks;
    TilesEnd(source, tokens, spans, syntax, tables);
    if n == 0 {
      NoNewlines("");
      assert source[..0] == "";
    } else {
      var k := n - 1;
      LineCounted(source, tokens, spans, syntax, tables, k);
      NextStart(source, tokens, spans, |source|, syntax, tables, k);
      assert tokens[..n][..k] == tokens[..k] && spans[..n][..k] == spans[..k];
      TokenInPlace(source, tokens[k], spans[k], syntax, tables);
      GapHasNone(source, EndBefore(spans, k), spans[k].0, tables);
      assert source[0..EndBefore(spans, k)] == source[..EndBefore(spans, k)];
      assert source[0..spans[k].0] == source[..spans[k].0] && source[0..spans[k].1] == source[..spans[k].1];
      Between(source, 0, EndBefore(spans, k), spans[k].0);
      Between(source, 0, spans[k].0, spans[k].1);
    }
  }

  lemma {:induction false} TokenInPlace(
    source: string, t: Token, span: (nat, nat), syntax: Syntax, tables: Tables)
    requires SoundSyntax(syntax) && PlainMarks(syntax, tables) && Placed(source, t, span, syntax, tables)
    ensures span.0 < |source| && span.0 < span.1 <= |source|
    ensures Breaks(source, t.kind, span.0, syntax) + EscapedIn(source, t.kind, span.0, syntax)
            == Newlines(source[span.0..span.1]) + UnclosedAt(source, t.kind, span.0, syntax)
  {
    hide Shaped, Breaks, EscapedIn, UnclosedAt, PlainMarks, Newlines;
    TokenCounted(source, t.kind, span.0, span.1, syntax, tables);
  }

  function TrueLine(source: string, index: nat): nat
    requires index <= |source|
  {
    1 + Newlines(source[..index])
  }

  /**
    A token's line is the one it stands on exactly when, of the strings before it,
    as many are ended by a newline as they hold escaped newlines.
   */
  lemma {:induction false} LineIsTrueIff(
    source: string, tokens: seq<Token>, spans: seq<(nat, nat)>, syntax: Syntax, tables: Tables, k: nat)
    requires SoundSyntax(syntax) && PlainMarks(syntax, tables)
    requires Tiles(source, tokens, spans, |source|, syntax, tables) && k < |tokens| == |spans|
    ensures spans[k].0 <= |source|
    ensures tokens[k].line + AllEscaped(source, tokens[..k], spans[..k], syntax)
            == TrueLine(source, spans[k].0) + AllUnclosed(source, tokens[..k], spans[..k], syntax)
    ensures tokens[k].line == TrueLine(source, spans[k].0) <==>
            AllUnclosed(source, tokens[..k], spans[..k], syntax) == AllEscaped(source, tokens[..k], spans[..k], syntax)
  {
    hide Placed, Newlines, LineAfter, AllEscaped, AllUnclosed, PlainMarks;
    LineCounted(source, tokens, spans, syntax, tables, k);
    NextStart(source, tokens, spans, |source|, syntax, tables, k);
    assert Marked(source, tokens, spans, k, syntax);
    GapHasNone(source, EndBefore(spans, k), spans[k].0, tables);
    assert source[0..EndBefore(spans, k)] == source[..EndBefore(spans, k)];
    assert source[0..spans[k].0] == source[..spans[k].0];
    Between(source, 0, EndBefore(spans, k), spans[k].0);
  }

  // ---- columns --------------------------------------------------------------------------------

  /** Where the line of `index` starts: after the last newline before it. */
  function TrueStart(source: string, index: nat): (start: nat)
    requires index <= |source|
    ensures start <= index && '\n' !in source[start..index] && (start > 0 ==> source[start - 1] == '\n')
  {
    if index == 0 || source[index - 1] == '\n' then index
    else
      var start := TrueStart(source, index - 1);
      assert source[start..index] == source[start..index - 1] + [source[index - 1]];
      start
  }

  lemma {:induction false} StartsAfterNewline(
    source: string, tokens: seq<Token>, spans: seq<(nat, nat)>, syntax: Syntax, tables: Tables, n: nat)
    requires SoundSyntax(syntax) && Tiles(source, tokens, spans, |source|, syntax, tables)
    requires n <= |tokens| == |spans|
    ensures var start := LineStart(tokens[..n], spans[..n]);
            start <= EndBefore(spans, n) <= |source| && (start > 0 ==> source[start - 1] == '\n')
  {
    hide Tiles, Placed, Gap;
    if n > 0 {
      var k := n - 1;
      StartsAfterNewline(source, tokens, spans, syntax, tables, k);
      NextStart(source, tokens, spans, |source|, syntax, tables, k);
      GapInOrder(source, EndBefore(spans, k), spans[k].0, tables);
      assert tokens[..n][..k] == tokens[..k] && spans[..n][..k] == spans[..k];
      NewlineInPlace(source, tokens[k], spans[k], syntax, tables);
    }
  }

  lemma {:induction false} GapInOrder(source: string, from: nat, upTo: nat, tables: Tables)
    requires Gap(source, from, upTo, tables)
    ensures from <= upTo
  {
  }

  lemma {:induction false} NewlineInPlace(source: string, t: Token, span: (nat, nat), syntax: Syntax, tables: Tables)
    requires SoundSyntax(syntax) && Placed(source, t, span, syntax, tables)
    ensures span.0 < span.1 <= |source| && (t.kind == Newline ==> source[span.1 - 1] == '\n')
  {
  }

  /**
    A token's column is the one it stands in exactly when since the last newline
    token no comment or string has held a newline.
   */
  lemma {:induction false} ColumnIsTrueIff(
    source: string, tokens: seq<Token>, spans: seq<(nat, nat)>, syntax: Syntax, tables: Tables, k: nat)
    requires SoundSyntax(syntax) && Tiles(source, tokens, spans, |source|, syntax, tables)
    requires k < |tokens| == |spans|
    ensures var start := LineStart(tokens[..k], spans[..k]);
            && start <= spans[k].0 <= |source|
            && (tokens[k].column == spans[k].0 - TrueStart(source, spans[k].0) + 1 <==>
                '\n' !in source[start..spans[k].0])
  {
    hide Placed, Gap, LineStart, LineAfter, TrueStart;
    StartsAfterNewline(source, tokens, spans, syntax, tables, k);
    NextStart(source, tokens, spans, |source|, syntax, tables, k);
    GapInOrder(source, EndBefore(spans, k), spans[k].0, tables);
    assert Marked(source, tokens, spans, k, syntax);
    OneStart(source, LineStart(tokens[..k], spans[..k]), TrueStart(source, spans[k].0), spans[k].0);
  }

  lemma {:induction false} OneStart(source: string, i: nat, j: nat, index: nat)
    requires i <= index <= |source| && (i > 0 ==> source[i - 1] == '\n')
    requires j <= index && (j > 0 ==> source[j - 1] == '\n') && '\n' !in source[j..index]
    ensures i == j <==> '\n' !in source[i..index]
  {
    if i < j {
      IsInSlice(source, i, j - 1, index);
    } else if j < i {
      IsInSlice(source, j, i - 1, index);
    }
  }

  lemma {:induction false} IsInSlice(source: string, from: nat, at: nat, upTo: nat)
    requires from <= at < upTo <= |source|
    ensures source[at] in source[from..upTo]
  {
    assert source[from..upTo][at - from] == source[at];
  }

  // ---- two sources with a wrong line -----------------------------------------------------------

  /** Neither a quotation mark nor a parenthesis is a blank or a letter. */
  ghost predicate PlainSigns(tables: Tables) {
    && SoundTables(tables) && !tables.whitespace('"') && !tables.whitespace('(') && !tables.alphabetic('(')
  }

  lemma {:induction false} ParenthesisOpens(source: string, index: nat, tables: Tables)
    requires index < |source| && source[index] == '(' && PlainSigns(tables)
    ensures Shaped(source, Open, index, index + 1, JSON, tables)
  {
  }

  const UNCLOSED: string := "\"\n("

  lemma {:induction false} UnclosedIsString(tables: Tables)
    ensures Shaped(UNCLOSED, Str, 0, 1, JSON, tables) && Breaks(UNCLOSED, Str, 0, JSON) == 1
  {
    assert StringRest(UNCLOSED, 1, '"', false, true) == 1 && StringBreaks(UNCLOSED, 1, '"', false, true) == 1;
  }

  lemma {:induction false} UnclosedLines()
    ensures TrueLine(UNCLOSED, 2) == 2
  {
    assert UNCLOSED[..2] == "\"" + "\n";
    NewlinesJoin("\"", "\n");
    NoNewlines("\"");
    assert "\n"[..0] == "";
  }

  /** A string that a newline ends: the parenthesis on the second line is reported on the third. */
  lemma {:induction false} UnclosedStringCountsTwice(tokens: seq<Token>, spans: seq<(nat, nat)>, tables: Tables)
    requires PlainSigns(tables) && Tiles(UNCLOSED, tokens, spans, 3, JSON, tables)
    ensures |tokens| == |spans| == 3 && spans[2] == (2, 3) && tokens[2].line == 3 && TrueLine(UNCLOSED, 2) == 2
  {
    hide Shaped, Breaks, Newlines, TrueLine, Tiles, LineAfter, LineStart;
    UnclosedLines();
    UnclosedIsString(tables);
    NewlineIsToken(UNCLOSED, 1, tables);
    ParenthesisOpens(UNCLOSED, 2, tables);
    var t0, t1 := TokenAt(UNCLOSED, Str, 0, 1, 1, 1), TokenAt(UNCLOSED, Newline, 1, 2, 2, 2);
    var t2 := TokenAt(UNCLOSED, Open, 2, 3, 3, 1);
    var none: seq<Token>, nowhere: seq<(nat, nat)> := [], [];
    var first, second, third := none + [t0], none + [t0] + [t1], none + [t0] + [t1] + [t2];
    var one, two, three := nowhere + [(0, 1)], nowhere + [(0, 1)] + [(1, 2)], nowhere + [(0, 1)] + [(1, 2)] + [(2, 3)];
    TilesNothing(UNCLOSED, JSON, tables);
    TileOne(UNCLOSED, none, nowhere, 0, 1, t0, JSON, tables);
    GoesOn(UNCLOSED, none, nowhere, t0, (0, 1), JSON);
    TileOne(UNCLOSED, first, one, 1, 2, t1, JSON, tables);
    NewlineGoesOn(UNCLOSED, first, one, t1, (1, 2), JSON);
    TileOne(UNCLOSED, second, two, 2, 3, t2, JSON, tables);
    TilesAreUnique(UNCLOSED, tokens, spans, third, three, JSON, tables);
  }

  lemma {:induction false} NewlineGoesOn(
    source: string, tokens: seq<Token>, spans: seq<(nat, nat)>, t: Token, span: (nat, nat), syntax: Syntax)
    requires |tokens| == |spans| && SoundSyntax(syntax) && span.0 < |source| && t.kind == Newline
    ensures LineAfter(source, tokens + [t], spans + [span], syntax) == LineAfter(source, tokens, spans, syntax) + 1
    ensures LineStart(tokens + [t], spans + [span]) == span.1
  {
    hide LineAfter, LineStart;
    GoesOn(source, tokens, spans, t, span, syntax);
  }

  lemma {:induction false} NewlineIsToken(source: string, index: nat, tables: Tables)
    requires index < |source| && source[index] == '\n'
    ensures Shaped(source, Newline, index, index + 1, JSON, tables)
  {
  }

  const ESCAPED: string := "\"\\\n\"("

  lemma {:induction false} EscapedIsString(tables: Tables)
    ensures Shaped(ESCAPED, Str, 0, 4, JSON, tables) && Breaks(ESCAPED, Str, 0, JSON) == 0
  {
    assert StringRest(ESCAPED, 3, '"', false, true) == 4 && StringRest(ESCAPED, 1, '"', false, true) == 4;
    assert StringBreaks(ESCAPED, 3, '"', false, true) == 0 && StringBreaks(ESCAPED, 1, '"', false, true) == 0;
  }

  lemma {:induction false} EscapedLines()
    ensures TrueLine(ESCAPED, 4) == 2
  {
    assert ESCAPED[..4] == "\"\\" + "\n" + "\"";
    NewlinesJoin("\"\\" + "\n", "\"");
    NewlinesJoin("\"\\", "\n");
    NoNewlines("\"\\");
    NoNewlines("\"");
    assert "\n"[..0] == "";
  }

  /** An escaped newline in a string: the parenthesis on the second line is reported on the first. */
  lemma {:induction false} EscapedNewlineIsMissed(tokens: seq<Token>, spans: seq<(nat, nat)>, tables: Tables)
    requires PlainSigns(tables) && Tiles(ESCAPED, tokens, spans, 5, JSON, tables)
    ensures |tokens| == |spans| == 2 && spans[1] == (4, 5) && tokens[1].line == 1 && TrueLine(ESCAPED, 4) == 2
  {
    hide Shaped, Breaks, Newlines, TrueLine, Tiles, LineAfter, LineStart;
    var t0, t1 := TokenAt(ESCAPED, Str, 0, 4, 1, 1), TokenAt(ESCAPED, Open, 4, 5, 1, 5);
    EscapedLines();
    EscapedIsString(tables);
    ParenthesisOpens(ESCAPED, 4, tables);
    var none: seq<Token>, nowhere: seq<(nat, nat)> := [], [];
    TilesNothing(ESCAPED, JSON, tables);
    TileOne(ESCAPED, none, nowhere, 0, 4, t0, JSON, tables);
    GoesOn(ESCAPED, none, nowhere, t0, (0, 4), JSON);
    TileOne(ESCAPED, none + [t0], nowhere + [(0, 4)], 4, 5, t1, JSON, tables);
    TilesAreUnique(ESCAPED, tokens, spans, none + [t0] + [t1], nowhere + [(0, 4)] + [(4, 5)], JSON, tables);
  }
}
