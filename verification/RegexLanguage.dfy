/** What quantifiers and escapes mean in the language of patterns. */
module RegexLanguage {
  import opened RegexModel
  import opened RegexParser

  lemma {:induction false} ChainForward(s: Subject, n: Node, times: nat, i: nat, j: nat)
    requires Chain(s, n, times, i, j)
    ensures i <= j
  {
  }

  lemma {:induction false} FirstLink(s: Subject, n: Node, times: nat, i: nat, j: nat) returns (k: nat)
    requires times > 0 && Chain(s, n, times, i, j)
    ensures i <= k <= j && NodeMatches(s, n, i, k) && Chain(s, n, times - 1, k, j)
  {
    k :| i <= k <= j && NodeMatches(s, n, i, k) && Chain(s, n, times - 1, k, j);
  }

  lemma {:induction false} LinkFirst(s: Subject, n: Node, times: nat, i: nat, k: nat, j: nat)
    requires i <= k <= j && NodeMatches(s, n, i, k) && Chain(s, n, times, k, j)
    ensures Chain(s, n, times + 1, i, j)
  {
  }

  lemma {:induction false} NoLink(s: Subject, n: Node, i: nat, j: nat)
    ensures Chain(s, n, 0, i, j) <==> i == j
  {
  }

  lemma {:induction false} OneLink(s: Subject, n: Node, i: nat, j: nat)
    requires i <= j
    ensures Chain(s, n, 1, i, j) <==> NodeMatches(s, n, i, j)
  {
    hide NodeMatches, Chain;
    NoLink(s, n, j, j);
    if NodeMatches(s, n, i, j) {
      LinkFirst(s, n, 0, i, j, j);
    }
    if Chain(s, n, 1, i, j) {
      var k := FirstLink(s, n, 1, i, j);
      NoLink(s, n, k, j);
    }
  }

  lemma {:induction false} ChainOf(s: Subject, r: Node, i: nat, j: nat) returns (times: nat)
    requires r.Repeat? && NodeMatches(s, r, i, j)
    ensures r.min <= times <= r.max && Chain(s, r.node, times, i, j)
  {
    times :| r.min <= times <= r.max && Chain(s, r.node, times, i, j);
  }

  lemma {:induction false} RepeatOf(s: Subject, r: Node, times: nat, i: nat, j: nat)
    requires r.Repeat? && r.min <= times <= r.max && Chain(s, r.node, times, i, j)
    ensures NodeMatches(s, r, i, j)
  {
  }

  /** `x?` is nothing or one `x`. */
  lemma {:induction false} OptionalIsAtMostOne(s: Subject, n: Node, greedy: bool, i: nat, j: nat)
    requires i <= j
    ensures NodeMatches(s, Repeat(n, 0, 1, greedy), i, j) <==> i == j || NodeMatches(s, n, i, j)
  {
    hide Chain, NodeMatches;
    var r := Repeat(n, 0, 1, greedy);
    OneLink(s, n, i, j);
    NoLink(s, n, i, j);
    if NodeMatches(s, r, i, j) {
      var times := ChainOf(s, r, i, j);
      assert times == 0 || times == 1;
    }
    if i == j {
      RepeatOf(s, r, 0, i, j);
    } else if NodeMatches(s, n, i, j) {
      RepeatOf(s, r, 1, i, j);
    }
  }

  /** One match up to `k`, and from there between `min` and `max` more. */
  ghost predicate OneThen(s: Subject, n: Node, min: nat, max: nat, greedy: bool, i: nat, k: nat, j: nat) {
    i <= k <= j && NodeMatches(s, n, i, k) && NodeMatches(s, Repeat(n, min, max, greedy), k, j)
  }

  lemma {:induction false} OneComesFirst(
    s: Subject, n: Node, min: nat, max: nat, greedy: bool, i: nat, j: nat) returns (k: nat)
    requires NodeMatches(s, Repeat(n, min + 1, max + 1, greedy), i, j)
    ensures OneThen(s, n, min, max, greedy, i, k, j)
  {
    hide Chain, NodeMatches;
    var times := ChainOf(s, Repeat(n, min + 1, max + 1, greedy), i, j);
    k := FirstLink(s, n, times, i, j);
    RepeatOf(s, Repeat(n, min, max, greedy), times - 1, k, j);
  }

  lemma {:induction false} OneMore(
    s: Subject, n: Node, min: nat, max: nat, greedy: bool, i: nat, k: nat, j: nat)
    requires OneThen(s, n, min, max, greedy, i, k, j)
    ensures NodeMatches(s, Repeat(n, min + 1, max + 1, greedy), i, j)
  {
    hide Chain, NodeMatches;
    var times := ChainOf(s, Repeat(n, min, max, greedy), k, j);
    LinkFirst(s, n, times, i, k, j);
    RepeatOf(s, Repeat(n, min + 1, max + 1, greedy), times + 1, i, j);
  }

  /** A repeat of at least one is one, and then a repeat of one less. */
  lemma {:induction false} RepeatIsOneMore(s: Subject, n: Node, min: nat, max: nat, greedy: bool, i: nat, j: nat)
    ensures NodeMatches(s, Repeat(n, min + 1, max + 1, greedy), i, j) <==>
            exists k: nat :: OneThen(s, n, min, max, greedy, i, k, j)
  {
    hide NodeMatches, OneThen;
    if NodeMatches(s, Repeat(n, min + 1, max + 1, greedy), i, j) {
      var k := OneComesFirst(s, n, min, max, greedy, i, j);
    }
    forall k: nat | OneThen(s, n, min, max, greedy, i, k, j)
      ensures NodeMatches(s, Repeat(n, min + 1, max + 1, greedy), i, j)
    {
      OneMore(s, n, min, max, greedy, i, k, j);
    }
  }

  /** A repeat with no lower bound is nothing, or one and then a repeat of one less. */
  lemma {:induction false} StarIsNothingOrOneMore(s: Subject, n: Node, max: nat, greedy: bool, i: nat, j: nat)
    requires i <= j
    ensures NodeMatches(s, Repeat(n, 0, max + 1, greedy), i, j) <==>
            i == j || exists k: nat :: OneThen(s, n, 0, max, greedy, i, k, j)
  {
    hide NodeMatches, Chain, OneThen;
    var star, plus := Repeat(n, 0, max + 1, greedy), Repeat(n, 1, max + 1, greedy);
    RepeatIsOneMore(s, n, 0, max, greedy, i, j);
    NoLink(s, n, i, j);
    if NodeMatches(s, star, i, j) {
      var times := ChainOf(s, star, i, j);
      if times > 0 {
        RepeatOf(s, plus, times, i, j);
      }
    }
    if i == j {
      RepeatOf(s, star, 0, i, j);
    } else if NodeMatches(s, plus, i, j) {
      var times := ChainOf(s, plus, i, j);
      RepeatOf(s, star, times, i, j);
    }
  }

  const ALL_BUT_ONE: nat := MAX_COUNT - 1

  /**
    The quantifiers by their signs: `*` is nothing or one more, `+` is one and
    then `*`, both up to the largest count, and `?` is nothing or one.
   */
  lemma {:induction false} SignsMean(s: Subject, n: Node, tail: string, i: nat, j: nat)
    requires i <= j && (tail == "" || tail[0] != '?')
    ensures Quantified(n, "*" + tail).Ok? && Quantified(n, "+" + tail).Ok? && Quantified(n, "?" + tail).Ok?
    ensures NodeMatches(s, Quantified(n, "*" + tail).value.0, i, j) <==>
            i == j || exists k: nat :: OneThen(s, n, 0, ALL_BUT_ONE, true, i, k, j)
    ensures NodeMatches(s, Quantified(n, "+" + tail).value.0, i, j) <==>
            exists k: nat :: OneThen(s, n, 0, ALL_BUT_ONE, true, i, k, j)
    ensures NodeMatches(s, Quantified(n, "?" + tail).value.0, i, j) <==> i == j || NodeMatches(s, n, i, j)
  {
    hide NodeMatches, OneThen;
    assert ("*" + tail)[1..] == tail && ("+" + tail)[1..] == tail && ("?" + tail)[1..] == tail;
    StarIsNothingOrOneMore(s, n, ALL_BUT_ONE, true, i, j);
    RepeatIsOneMore(s, n, 0, ALL_BUT_ONE, true, i, j);
    OptionalIsAtMostOne(s, n, true, i, j);
  }

  // ---- escapes -------------------------------------------------------------------------------

  /** The character has a property, or where case is ignored one of its case forms has. */
  ghost predicate Has(s: Subject, c: char, property: char -> bool) {
    property(c) ||
    (s.ignoreCase && exists form :: (form in s.tables.lower(c) || form in s.tables.upper(c)) && property(form))
  }

  predicate IsDigit(c: char) {
    '0' <= c <= '9'
  }

  predicate IsWordChar(c: char) {
    'a' <= c <= 'z' || 'A' <= c <= 'Z' || '0' <= c <= '9' || c == '_'
  }

  /** Space, tab, newline, carriage return, vertical tab and form feed. */
  predicate IsSpace(c: char) {
    c == ' ' || c == '\t' || c == '\n' || c == '\r' || c as int == 11 || c as int == 12
  }

  lemma {:induction false} ClassMeans(s: Subject, ranges: Ranges, negated: bool, property: char -> bool, i: nat, j: nat)
    requires forall c :: InRanges(c, ranges) <==> property(c)
    ensures NodeMatches(s, Class(ranges, negated), i, j) <==>
            i < |s.chars| && j == i + 1 && (Has(s, s.chars[i], property) != negated)
  {
    hide InRanges;
  }

  lemma {:induction false} DigitRanges(c: char)
    ensures InRanges(c, DIGIT_RANGES) <==> IsDigit(c)
  {
    if IsDigit(c) {
      assert DIGIT_RANGES[0] == ('0', '9');
    }
  }

  lemma {:induction false} WordRanges(c: char)
    ensures InRanges(c, WORD_RANGES) <==> IsWordChar(c)
  {
    var r := WORD_RANGES;
    assert r[0] == ('a', 'z') && r[1] == ('A', 'Z') && r[2] == ('0', '9') && r[3] == ('_', '_') && |r| == 4;
  }

  lemma {:induction false} SpaceRanges(c: char)
    ensures InRanges(c, SPACE_RANGES) <==> IsSpace(c)
  {
    var r := SPACE_RANGES;
    assert r[0] == (' ', ' ') && r[1] == ('\t', '\t') && r[2] == ('\n', '\n') && r[3] == ('\r', '\r');
    assert r[4] == ('\U{0b}', '\U{0c}') && |r| == 5;
  }

  /** The class escapes accept one character with their property, and the capital forms one without it. */
  lemma {:induction false} EscapesMean(s: Subject, capital: bool, i: nat, j: nat)
    ensures NodeMatches(s, EscapeNode(if capital then 'D' else 'd'), i, j) <==>
            i < |s.chars| && j == i + 1 && (Has(s, s.chars[i], IsDigit) != capital)
    ensures NodeMatches(s, EscapeNode(if capital then 'W' else 'w'), i, j) <==>
            i < |s.chars| && j == i + 1 && (Has(s, s.chars[i], IsWordChar) != capital)
    ensures NodeMatches(s, EscapeNode(if capital then 'S' else 's'), i, j) <==>
            i < |s.chars| && j == i + 1 && (Has(s, s.chars[i], IsSpace) != capital)
  {
    hide NodeMatches, Has, InRanges;
    forall c: char
      ensures InRanges(c, DIGIT_RANGES) <==> IsDigit(c)
      ensures InRanges(c, WORD_RANGES) <==> IsWordChar(c)
      ensures InRanges(c, SPACE_RANGES) <==> IsSpace(c)
    {
      DigitRanges(c);
      WordRanges(c);
      SpaceRanges(c);
    }
    ClassMeans(s, DIGIT_RANGES, capital, IsDigit, i, j);
    ClassMeans(s, WORD_RANGES, capital, IsWordChar, i, j);
    ClassMeans(s, SPACE_RANGES, capital, IsSpace, i, j);
  }

  // ---- letters and boundaries ---------------------------------------------------------------------

  /** The one is an ASCII letter and the other the same letter in the other case. */
  predicate OtherCase(a: char, b: char) {
    ('a' <= a <= 'z' && b as int == a as int - 32) || ('A' <= a <= 'Z' && b as int == a as int + 32)
  }

  /** A literal character is matched by itself, and where case is ignored by its other case. */
  lemma {:induction false} LetterMeans(s: Subject, c: char, i: nat, j: nat)
    ensures NodeMatches(s, Char(c), i, j) <==>
            && i < |s.chars| && j == i + 1
            && var actual := s.chars[i];
               actual == c ||
               (s.ignoreCase && (OtherCase(actual, c) || s.tables.lower(actual) == s.tables.lower(c)))
  {
  }

  /** A word boundary lies between a letter, digit or underscore and something else, or an end of the text. */
  lemma {:induction false} BoundaryMeans(s: Subject, capital: bool, i: nat, j: nat)
    requires i <= |s.chars|
    ensures NodeMatches(s, EscapeNode(if capital then 'B' else 'b'), i, j) <==>
            && i == j
            && var before := i > 0 && (s.tables.alphanumeric(s.chars[i - 1]) || s.chars[i - 1] == '_');
               var after := i < |s.chars| && (s.tables.alphanumeric(s.chars[i]) || s.chars[i] == '_');
               capital == (before == after)
  {
  }
}
