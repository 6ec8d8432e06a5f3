/** What a hashline anchor sees of a line: its words, whatever white space separates or surrounds them. */
module HashlineText {
  import Utf

  /** White space as JavaScript sees it: the byte order mark counts, NEL does not. */
  predicate IsSpace(c: char) {
    c == '\U{feff}' || (Utf.IsWhitespace(c) && c != '\U{85}')
  }

  predicate AllSpace(s: string) {
    forall k :: 0 <= k < |s| ==> IsSpace(s[k])
  }

  // ---- words: what is left when white space does not count -------------------------------------

  /** Character `|s| - 1` goes on with the word before it. */
  predicate InWord(s: string) {
    |s| >= 2 && !IsSpace(s[|s| - 2])
  }

  /** The maximal runs without white space. */
  function Words(s: string): (words: seq<string>)
    ensures s != "" && !IsSpace(s[|s| - 1]) ==> words != []
    ensures forall k :: 0 <= k < |words| ==> words[k] != ""
  {
    if s == "" then []
    else
      var n := |s| - 1;
      var before := Words(s[..n]);
      if IsSpace(s[n]) then before
      else if InWord(s) then before[..|before| - 1] + [before[|before| - 1] + [s[n]]]
      else before + [[s[n]]]
  }

  lemma {:induction false} WordsSnoc(s: string, c: char)
    ensures var before := Words(s);
            Words(s + [c]) ==
              if IsSpace(c) then before
              else if s != "" && !IsSpace(s[|s| - 1]) then
                var last := |before| - 1;
                before[..last] + [before[last] + [c]]
              else before + [[c]]
  {
    assert (s + [c])[..|s|] == s;
  }

  /** The words with one space between neighbours. */
  function Spaced(words: seq<string>): string {
    if words == [] then ""
    else if |words| == 1 then words[0]
    else Spaced(words[..|words| - 1]) + " " + words[|words| - 1]
  }

  lemma {:induction false} SpacedGrows(words: seq<string>, more: string)
    requires words != []
    ensures Spaced(words[..|words| - 1] + [words[|words| - 1] + more]) == Spaced(words) + more
  {
    var n := |words| - 1;
    var longer := words[..n] + [words[n] + more];
    assert longer[..n] == words[..n];
    if n > 0 {
      assert Spaced(words[..n]) + " " + (words[n] + more) == Spaced(words[..n]) + " " + words[n] + more;
    }
  }

  lemma {:induction false} SpacedAppend(words: seq<string>, word: string)
    requires forall k :: 0 <= k < |words| ==> words[k] != ""
    ensures Spaced(words + [word]) == if words == [] then word else Spaced(words) + " " + word
    ensures Spaced(words) == "" <==> words == []
  {
    assert (words + [word])[..|words|] == words;
  }

  // ---- trimming -----------------------------------------------------------------------------------

  function FrontSpace(s: string): (n: nat)
    ensures n <= |s| && forall k :: 0 <= k < n ==> IsSpace(s[k])
    ensures n < |s| ==> !IsSpace(s[n])
  {
    if s != "" && IsSpace(s[0]) then 1 + FrontSpace(s[1..]) else 0
  }

  function BackSpace(s: string): (n: nat)
    ensures n <= |s| && forall k :: |s| - n <= k < |s| ==> IsSpace(s[k])
    ensures n < |s| ==> !IsSpace(s[|s| - 1 - n])
  {
    if s != "" && IsSpace(s[|s| - 1]) then 1 + BackSpace(s[..|s| - 1]) else 0
  }

  function TrimStart(s: string): string {
    s[FrontSpace(s)..]
  }

  function TrimEnd(s: string): string {
    s[..|s| - BackSpace(s)]
  }

  lemma {:induction false} SpaceBefore(space: string, s: string)
    requires AllSpace(space)
    ensures Words(space + s) == Words(s)
  {
    if s == "" {
      if space != "" {
        var n := |space| - 1;
        assert (space + s)[..n] == space[..n] + s;
        SpaceBefore(space[..n], s);
      }
    } else {
      var n := |s| - 1;
      assert (space + s)[..|space| + n] == space + s[..n];
      SpaceBefore(space, s[..n]);
    }
  }

  lemma {:induction false} SpaceAfter(s: string, space: string)
    requires AllSpace(space)
    ensures Words(s + space) == Words(s)
  {
    if space == "" {
      assert s + space == s;
    } else {
      var n := |space| - 1;
      assert (s + space)[..|s| + n] == s + space[..n];
      SpaceAfter(s, space[..n]);
    }
  }

  /** The text an anchor is made of: the words of the line with single spaces between them. */
  method Normalize(line: string) returns (out: string)
    ensures out == Spaced(Words(line))
  {
    var front := TrimStart(line);
    var trimmed := TrimEnd(front);
    TrimmedWords(line);
    hide Words, Spaced, TrimStart, TrimEnd, IsSpace;
    NothingSpaced();
    out := "";
    var pendingSpace := false;
    for k := 0 to |trimmed|
      invariant out == Spaced(Words(trimmed[..k]))
      invariant pendingSpace == (k > 0 && IsSpace(trimmed[k - 1]))
    {
      var c := trimmed[k];
      NormalizeStep(trimmed[..k], c);
      assert trimmed[..k + 1] == trimmed[..k] + [c];
      if IsSpace(c) {
        pendingSpace := true;
        continue;
      }
      if pendingSpace && out != "" {
        out := out + " ";
      }
      pendingSpace := false;
      out := out + [c];
    }
    assert trimmed[..|trimmed|] == trimmed;
  }

  lemma {:induction false} NothingSpaced()
    ensures Spaced(Words("")) == ""
  {
  }

  lemma {:induction false} NormalizeStep(s: string, c: char)
    ensures var out := Spaced(Words(s));
            Spaced(Words(s + [c])) ==
              if IsSpace(c) then out
              else if s != "" && IsSpace(s[|s| - 1]) && out != "" then out + " " + [c]
              else out + [c]
  {
    hide IsSpace;
    WordsSnoc(s, c);
    WordsNonempty(s);
    SpacedAppend(Words(s), [c]);
    if Words(s) != [] {
      SpacedGrows(Words(s), [c]);
    } else {
      assert "" + [c] == [c];
    }
  }

  lemma {:induction false} WordsNonempty(s: string)
    ensures forall k :: 0 <= k < |Words(s)| ==> Words(s)[k] != ""
    ensures s != "" && !IsSpace(s[|s| - 1]) ==> Words(s) != []
    ensures s == "" ==> Words(s) == []
  {
  }

  lemma {:induction false} FrontTrimmed(s: string) returns (space: string)
    ensures s == space + TrimStart(s) && AllSpace(space)
  {
    hide IsSpace;
    space := s[..FrontSpace(s)];
  }

  lemma {:induction false} BackTrimmed(s: string) returns (space: string)
    ensures s == TrimEnd(s) + space && AllSpace(space)
  {
    hide IsSpace;
    space := s[|s| - BackSpace(s)..];
  }

  lemma {:induction false} TrimmedWords(line: string)
    ensures Words(TrimEnd(TrimStart(line))) == Words(line)
  {
    hide *;
    var before := FrontTrimmed(line);
    SpaceBefore(before, TrimStart(line));
    var after := BackTrimmed(TrimStart(line));
    SpaceAfter(TrimEnd(TrimStart(line)), after);
  }

  function Normalized(line: string): string {
    Spaced(Words(line))
  }

  // ---- what normalization forgets, and what it keeps -------------------------------------------------

  predicate IsWord(w: string) {
    w != "" && forall k :: 0 <= k < |w| ==> !IsSpace(w[k])
  }

  lemma {:induction false} WordsAreWords(s: string)
    ensures forall k :: 0 <= k < |Words(s)| ==> IsWord(Words(s)[k])
  {
    if s != "" {
      WordsAreWords(s[..|s| - 1]);
    }
  }

  lemma {:induction false} WordAfter(s: string, w: string)
    requires IsWord(w) && (s == "" || IsSpace(s[|s| - 1]))
    ensures Words(s + w) == Words(s) + [w]
  {
    hide Words, IsSpace;
    var n := |w| - 1;
    assert s + w == (s + w[..n]) + [w[n]];
    WordsSnoc(s + w[..n], w[n]);
    if n == 0 {
      assert s + w[..n] == s && [w[n]] == w;
    } else {
      WordAfter(s, w[..n]);
      assert w == w[..n] + [w[n]];
    }
  }

  lemma {:induction false} WordsOfSpaced(words: seq<string>)
    requires forall k :: 0 <= k < |words| ==> IsWord(words[k])
    ensures Words(Spaced(words)) == words
  {
    hide Words, IsWord;
    NothingSpaced();
    WordsNonempty("");
    if |words| == 1 {
      WordAfter("", words[0]);
      assert "" + words[0] == words[0];
    } else if words != [] {
      var n := |words| - 1;
      var before := Spaced(words[..n]);
      WordsOfSpaced(words[..n]);
      SpaceAfter(before, " ");
      assert (before + " ")[|before|] == ' ';
      WordAfter(before + " ", words[n]);
    }
  }

  /** Two lines have the same anchor text exactly when they have the same words. */
  lemma {:induction false} SameAnchorTextIff(x: string, y: string)
    ensures Normalized(x) == Normalized(y) <==> Words(x) == Words(y)
  {
    WordsAreWords(x);
    WordsAreWords(y);
    WordsOfSpaced(Words(x));
    WordsOfSpaced(Words(y));
  }

  lemma {:induction false} NormalizedTwice(line: string)
    ensures Normalized(Normalized(line)) == Normalized(line)
  {
    WordsAreWords(line);
    WordsOfSpaced(Words(line));
  }

  /** Indenting a line differently, or trailing it with blanks, leaves its anchor alone. */
  lemma {:induction false} ReindentingKeepsAnchor(before: string, line: string, after: string)
    requires AllSpace(before) && AllSpace(after)
    ensures Normalized(before + line + after) == Normalized(line)
  {
    SpaceAfter(before + line, after);
    SpaceBefore(before, line);
  }
}
