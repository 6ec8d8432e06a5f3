/** Splitting a text into lines and joining lines into a text. */
module TextLines {
  predicate NoNewline(line: string) {
    '\n' !in line
  }

  predicate AllLines(lines: seq<string>) {
    forall k :: 0 <= k < |lines| ==> NoNewline(lines[k])
  }

  /** The pieces between newlines; one more piece than there are newlines. */
  function Split(text: string): (pieces: seq<string>)
    ensures pieces != [] && AllLines(pieces)
  {
    if text == "" then [""]
    else
      var rest := Split(text[1..]);
      if text[0] == '\n' then [""] + rest else [[text[0]] + rest[0]] + rest[1..]
  }

  /** The lines of a text: a final newline ends the last line and starts no other. */
  function ToLines(text: string): (lines: seq<string>)
    ensures AllLines(lines)
  {
    var pieces := Split(text);
    if pieces[|pieces| - 1] == "" then pieces[..|pieces| - 1] else pieces
  }

  /** Every line followed by a newline. */
  function FromLines(lines: seq<string>): string {
    if lines == [] then "" else lines[0] + "\n" + FromLines(lines[1..])
  }

  lemma {:induction false} SplitLine(line: string, rest: string)
    requires NoNewline(line)
    ensures Split(line + "\n" + rest) == [line] + Split(rest)
  {
    var text := line + "\n" + rest;
    if line == "" {
      assert text[1..] == rest;
    } else {
      SplitLine(line[1..], rest);
      assert text[1..] == line[1..] + "\n" + rest;
      assert [line[0]] + line[1..] == line;
    }
  }

  lemma {:induction false} SplitJoined(lines: seq<string>)
    requires AllLines(lines)
    ensures Split(FromLines(lines)) == lines + [""]
  {
    if lines != [] {
      SplitJoined(lines[1..]);
      SplitLine(lines[0], FromLines(lines[1..]));
      assert lines == [lines[0]] + lines[1..];
    }
  }

  /** Joining and splitting again gives the lines back. */
  lemma {:induction false} LinesRoundTrip(lines: seq<string>)
    requires AllLines(lines)
    ensures ToLines(FromLines(lines)) == lines
  {
    SplitJoined(lines);
  }

  lemma {:induction false} FromLinesStep(a: seq<string>, b: seq<string>)
    requires a != []
    ensures FromLines(a + b) == a[0] + "\n" + FromLines(a[1..] + b) && FromLines(a) == a[0] + "\n" + FromLines(a[1..])
  {
    assert (a + b)[0] == a[0] && (a + b)[1..] == a[1..] + b;
  }

  lemma {:induction false} FromLinesConcat(a: seq<string>, b: seq<string>)
    ensures FromLines(a + b) == FromLines(a) + FromLines(b)
  {
    if a == [] {
      assert a + b == b;
    } else {
      FromLinesStep(a, b);
      FromLinesConcat(a[1..], b);
      hide FromLines;
      var head, rest := a[0] + "\n", FromLines(a[1..]);
      assert head + (rest + FromLines(b)) == (head + rest) + FromLines(b);
    }
  }
}
