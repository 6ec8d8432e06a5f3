/**
  Positions in text: lines and UTF-16 columns on one side, byte offsets on the other
  (Position in the LSP 3.17 specification).
 */
module LspLines {
  import Utf

  /** Line and UTF-16 column, both from zero. */
  datatype Position = Position(line: nat, character: nat)

  // ---- columns of one line ----------------------------------------------------------------

  /** UTF-16 code units before character `k`. */
  function Units(s: string, k: nat): (units: nat)
    requires k <= |s|
  {
    if k == 0 then 0 else Units(s, k - 1) + Utf.Utf16Len(s[k - 1])
  }

  lemma {:induction false} UnitsIncrease(s: string, i: nat, j: nat)
    requires i < j <= |s|
    ensures Units(s, i) + (j - i) <= Units(s, j)
  {
    if i + 1 < j {
      UnitsIncrease(s, i, j - 1);
    }
  }

  lemma {:induction false} UnitsOfPrefix(s: string, n: nat, k: nat)
    requires k <= n <= |s|
    ensures Units(s[..n], k) == Units(s, k)
  {
    if k > 0 {
      UnitsOfPrefix(s, n, k - 1);
    }
  }

  /** The first character at or past a column; the end of the line when there is none. */
  function AtColumn(s: string, column: nat): (k: nat)
    ensures k <= |s|
    ensures k < |s| ==> Units(s, k) >= column
    ensures forall i :: 0 <= i < k ==> Units(s, i) < column
  {
    AtColumnFrom(s, column, 0)
  }

  function AtColumnFrom(s: string, column: nat, k: nat): (r: nat)
    requires k <= |s|
    requires forall i :: 0 <= i < k ==> Units(s, i) < column
    ensures k <= r <= |s|
    ensures r < |s| ==> Units(s, r) >= column
    ensures forall i :: 0 <= i < r ==> Units(s, i) < column
    decreases |s| - k
  {
    if k == |s| || Units(s, k) >= column then k else AtColumnFrom(s, column, k + 1)
  }

  lemma {:induction false} AtColumnOfUnits(s: string, k: nat)
    requires k <= |s|
    ensures AtColumn(s, Units(s, k)) == k
  {
    var r := AtColumn(s, Units(s, k));
    if r < k {
      UnitsIncrease(s, r, k);
    }
  }

  lemma {:induction false} AtColumnMonotone(s: string, c: nat, d: nat)
    requires c <= d
    ensures AtColumn(s, c) <= AtColumn(s, d)
  {
  }

  /** The last character that starts at or before a byte. */
  function Floor(s: string, byte: nat): (k: nat)
    ensures k <= |s| && Utf.Offset(s, k) <= byte
    ensures k < |s| ==> byte < Utf.Offset(s, k + 1)
  {
    FloorFrom(s, byte, |s|)
  }

  function FloorFrom(s: string, byte: nat, k: nat): (r: nat)
    requires k <= |s| && (k < |s| ==> byte < Utf.Offset(s, k + 1))
    ensures r <= |s| && Utf.Offset(s, r) <= byte
    ensures r < |s| ==> byte < Utf.Offset(s, r + 1)
  {
    if Utf.Offset(s, k) <= byte then k else FloorFrom(s, byte, k - 1)
  }

  lemma {:induction false} FloorUnique(s: string, byte: nat, k: nat)
    requires k <= |s| && Utf.Offset(s, k) <= byte && (k < |s| ==> byte < Utf.Offset(s, k + 1))
    ensures Floor(s, byte) == k
  {
    var f := Floor(s, byte);
    if f < k {
      OffsetOrder(s, f + 1, k);
    } else if k < f {
      OffsetOrder(s, k + 1, f);
    }
  }

  lemma {:induction false} OffsetOrder(s: string, i: nat, j: nat)
    requires i <= j <= |s|
    ensures Utf.Offset(s, i) <= Utf.Offset(s, j)
  {
    if i < j {
      Utf.OffsetIncreases(s, i, j);
    }
  }

  lemma {:induction false} FloorOfOffset(s: string, k: nat)
    requires k <= |s|
    ensures Floor(s, Utf.Offset(s, k)) == k
  {
    FloorUnique(s, Utf.Offset(s, k), k);
  }

  method Utf16ToByte(line: string, column: nat) returns (index: nat)
    ensures index == Utf.Offset(line, AtColumn(line, column))
  {
    var units := 0;
    index := 0;
    for k := 0 to |line|
      invariant units == Units(line, k) && index == Utf.Offset(line, k)
      invariant AtColumn(line, column) >= k
    {
      if units >= column {
        return;
      }
      units := units + Utf.Utf16Len(line[k]);
      index := index + Utf.Utf8Len(line[k]);
    }
  }

  method ByteToUtf16(line: string, byte: nat) returns (column: nat)
    ensures column == Units(line, Floor(line, byte))
  {
    var end := if byte < Utf.ByteLen(line) then byte else Utf.ByteLen(line);
    ghost var k := Floor(line, byte);
    OffsetOrder(line, k, |line|);
    while !Utf.IsBoundary(line, end)
      invariant Utf.Offset(line, k) <= end <= byte && end <= Utf.ByteLen(line)
      decreases end
    {
      assert Utf.Offset(line, k) != end;
      end := end - 1;
    }
    var j: nat :| j <= |line| && Utf.Offset(line, j) == end;
    assert j == k by {
      if k < j {
        OffsetOrder(line, k + 1, j);
      } else if j < k {
        Utf.OffsetIncreases(line, j, k);
      }
    }
    Utf.SliceIsChars(line, 0, k);
    var slice := Utf.ByteSlice(line, 0, end);
    UnitsOfPrefix(line, k, k);
    column := Units(slice, |slice|);
  }

  /** At character boundaries the two conversions undo each other. */
  lemma {:induction false} ColumnsInvert(line: string, k: nat)
    requires k <= |line|
    ensures AtColumn(line, Units(line, Floor(line, Utf.Offset(line, k)))) == k
    ensures Units(line, Floor(line, Utf.Offset(line, AtColumn(line, Units(line, k))))) == Units(line, k)
  {
    FloorOfOffset(line, k);
    AtColumnOfUnits(line, k);
  }

  /** A column comes back from its byte unchanged exactly when it is some character's first unit, or the line's end. */
  lemma {:induction false} ColumnSurvivesIff(line: string, column: nat)
    ensures Units(line, Floor(line, Utf.Offset(line, AtColumn(line, column)))) == column
            <==> exists k :: 0 <= k <= |line| && Units(line, k) == column
  {
    var k := AtColumn(line, column);
    FloorOfOffset(line, k);
    if exists i :: 0 <= i <= |line| && Units(line, i) == column {
      var i :| 0 <= i <= |line| && Units(line, i) == column;
      AtColumnOfUnits(line, i);
    }
  }

  // ---- where lines start --------------------------------------------------------------------

  predicate IsBreakChar(c: char) {
    c == '\n' || c == '\r'
  }

  /** Length of the line break at character `k`: none, one, or the two of CRLF. */
  function BreakLength(text: string, k: nat): (n: nat)
    requires k < |text|
    ensures k + n <= |text|
  {
    if text[k] == '\r' && k + 1 < |text| && text[k + 1] == '\n' then 2
    else if IsBreakChar(text[k]) then 1 else 0
  }

  /** Line starts after character `k`. */
  function StartsFrom(text: string, k: nat): (starts: seq<nat>)
    requires k <= |text|
    decreases |text| - k
  {
    if k == |text| then []
    else
      var n := BreakLength(text, k);
      if n == 0 then StartsFrom(text, k + 1) else [k + n] + StartsFrom(text, k + n)
  }

  function Starts(text: string): (starts: seq<nat>)
    ensures |starts| >= 1 && starts[0] == 0
  {
    [0] + StartsFrom(text, 0)
  }

  /** `k` is between the two characters of a CRLF. */
  predicate InsideCrlf(text: string, k: nat) {
    0 < k < |text| && text[k - 1] == '\r' && text[k] == '\n'
  }

  /** A line starts at 0, and after every break character but the CR of a CRLF. */
  predicate IsStart(text: string, k: nat) {
    k == 0 || (k <= |text| && IsBreakChar(text[k - 1]) && !InsideCrlf(text, k))
  }

  ghost predicate Increasing(s: seq<nat>) {
    forall i, j :: 0 <= i < j < |s| ==> s[i] < s[j]
  }

  lemma {:induction false} IncreasingCons(first: nat, rest: seq<nat>)
    requires Increasing(rest) && forall s :: s in rest ==> first < s
    ensures Increasing([first] + rest)
  {
    assert forall j :: 0 <= j < |rest| ==> rest[j] in rest;
  }

  lemma {:induction false} StartsFromExact(text: string, k: nat)
    requires k <= |text| && !InsideCrlf(text, k)
    ensures Increasing(StartsFrom(text, k))
    ensures forall s :: s in StartsFrom(text, k) <==> k < s && IsStart(text, s)
    decreases |text| - k
  {
    if k < |text| {
      var n := BreakLength(text, k);
      if n == 0 {
        StartsFromExact(text, k + 1);
        assert !IsStart(text, k + 1);
      } else {
        StartsFromExact(text, k + n);
        var rest := StartsFrom(text, k + n);
        assert StartsFrom(text, k) == [k + n] + rest;
        IncreasingCons(k + n, rest);
        assert IsStart(text, k + n) && (n == 2 ==> !IsStart(text, k + 1));
        forall s: nat
          ensures s in [k + n] + rest <==> k < s && IsStart(text, s)
        {
          assert s in [k + n] + rest <==> s == k + n || s in rest;
        }
      }
    }
  }

  /** Line starts strictly increase, and are exactly the text's start and the places after a line break. */
  lemma {:induction false} StartsExact(text: string)
    ensures Increasing(Starts(text))
    ensures forall s :: s in Starts(text) <==> IsStart(text, s)
  {
    StartsFromExact(text, 0);
    var rest := StartsFrom(text, 0);
    assert forall j :: 0 <= j < |rest| ==> rest[j] in rest;
  }

  // ---- the content of a line ------------------------------------------------------------------

  function TrimEnd(s: string): (r: string)
    ensures r <= s
  {
    if s != "" && IsBreakChar(s[|s| - 1]) then TrimEnd(s[..|s| - 1]) else s
  }

  /** Where the next line starts; the end of the text after the last line. */
  function NextStart(text: string, i: nat): nat
    requires i < |Starts(text)|
  {
    if i + 1 < |Starts(text)| then Starts(text)[i + 1] else |text|
  }

  lemma {:induction false} StartBounds(text: string, i: nat)
    requires i < |Starts(text)|
    ensures Starts(text)[i] <= NextStart(text, i) <= |text|
    ensures i + 1 < |Starts(text)| ==> Starts(text)[i] < NextStart(text, i)
    ensures forall k :: Starts(text)[i] < k < NextStart(text, i) ==> !IsStart(text, k)
    ensures i + 1 == |Starts(text)| ==> !IsStart(text, |text|) || Starts(text)[i] == |text|
    ensures IsStart(text, Starts(text)[i])
  {
    StartsExact(text);
    var starts := Starts(text);
    assert starts[i] in starts;
    if i + 1 < |starts| {
      assert starts[i + 1] in starts;
    }
    forall k: nat | starts[i] < k && IsStart(text, k)
      ensures i + 1 < |starts| && starts[i + 1] <= k
    {
      var j :| 0 <= j < |starts| && starts[j] == k;
    }
  }

  function Content(text: string, i: nat): string
    requires i < |Starts(text)|
  {
    StartBounds(text, i);
    TrimEnd(text[Starts(text)[i]..NextStart(text, i)])
  }

  predicate NoBreaks(s: string) {
    forall k :: 0 <= k < |s| ==> !IsBreakChar(s[k])
  }

  lemma {:induction false} TrimEndExact(s: string, t: string)
    requires NoBreaks(s) && forall k :: 0 <= k < |t| ==> IsBreakChar(t[k])
    ensures TrimEnd(s + t) == s
  {
    if t == "" {
      assert s + t == s;
    } else {
      TrimEndExact(s, t[..|t| - 1]);
      assert (s + t)[..|s + t| - 1] == s + t[..|t| - 1];
    }
  }

  /** What ends line `i`. */
  function Terminator(text: string, i: nat): string
    requires i < |Starts(text)|
  {
    StartBounds(text, i);
    if i + 1 == |Starts(text)| then ""
    else
      var next := NextStart(text, i);
      if next >= 2 + Starts(text)[i] && InsideCrlf(text, next - 1) then "\r\n" else [text[next - 1]]
  }

  /**
    A line is its content and one terminator: LF, CRLF or CR, or none at the end of the
    text. The content holds neither CR nor LF.
   */
  lemma {:induction false} LineShape(text: string, i: nat)
    requires i < |Starts(text)|
    ensures NoBreaks(Content(text, i))
    ensures Starts(text)[i] <= NextStart(text, i) <= |text|
    ensures text[Starts(text)[i]..NextStart(text, i)] == Content(text, i) + Terminator(text, i)
    ensures Terminator(text, i) in {"", "\n", "\r\n", "\r"}
    ensures Terminator(text, i) == "" <==> i + 1 == |Starts(text)|
  {
    StartBounds(text, i);
    var start, next, t := Starts(text)[i], NextStart(text, i), Terminator(text, i);
    var end := next - |t|;
    assert t in {"", "\n", "\r\n", "\r"} by {
      if i + 1 < |Starts(text)| {
        StartsExact(text);
        assert Starts(text)[i + 1] in Starts(text);
        assert t == "\n" || t == "\r\n" || t == "\r";
      }
    }
    assert text[start..next] == text[start..end] + t;
    forall k | start <= k < end
      ensures !IsBreakChar(text[k])
    {
      if IsBreakChar(text[k]) {
        assert !IsStart(text, k + 1);
        assert InsideCrlf(text, k + 1);
        assert IsStart(text, k + 2);
      }
    }
    TrimEndExact(text[start..end], t);
  }

  // ---- positions and characters -----------------------------------------------------------------

  function ContentEnd(text: string, i: nat): (end: nat)
    requires i < |Starts(text)|
    ensures Starts(text)[i] <= end <= NextStart(text, i) <= |text|
  {
    LineShape(text, i);
    Starts(text)[i] + |Content(text, i)|
  }

  lemma {:induction false} LineLengths(text: string, i: nat)
    requires i < |Starts(text)|
    ensures ContentEnd(text, i) == Starts(text)[i] + |Content(text, i)| <= NextStart(text, i)
    ensures i + 1 < |Starts(text)| ==> ContentEnd(text, i) < NextStart(text, i)
  {
    LineShape(text, i);
  }

  /** The character a position names, clamped to its line and to the text. */
  function CharOffset(text: string, p: Position): (k: nat)
    ensures k <= |text|
  {
    if p.line >= |Starts(text)| then |text|
    else
      assert ContentEnd(text, p.line) <= |text|;
      Starts(text)[p.line] + AtColumn(Content(text, p.line), p.character)
  }

  /** The line character `k` is on. */
  ghost predicate OnLine(text: string, k: nat, i: nat) {
    i < |Starts(text)| && Starts(text)[i] <= k && (i + 1 < |Starts(text)| ==> k < Starts(text)[i + 1])
  }

  lemma {:induction false} OnLineUnique(text: string, k: nat, i: nat, j: nat)
    requires OnLine(text, k, i) && OnLine(text, k, j)
    ensures i == j
  {
    StartsExact(text);
  }

  function WithinLine(text: string, k: nat, i: nat): (within: nat)
    requires i < |Starts(text)| && Starts(text)[i] <= k
    ensures within <= |Content(text, i)|
  {
    if k - Starts(text)[i] <= |Content(text, i)| then k - Starts(text)[i] else |Content(text, i)|
  }

  ghost predicate IsPosition(text: string, k: nat, p: Position) {
    OnLine(text, k, p.line) && p.character == Units(Content(text, p.line), WithinLine(text, k, p.line))
  }

  lemma {:induction false} PositionUnique(text: string, k: nat, p: Position, q: Position)
    requires IsPosition(text, k, p) && IsPosition(text, k, q)
    ensures p == q
  {
    OnLineUnique(text, k, p.line, q.line);
  }

  /** Going to a position and back finds the character again, except that the middle of a CRLF goes to its start. */
  lemma {:induction false} CharacterComesBack(text: string, k: nat, p: Position)
    requires k <= |text| && IsPosition(text, k, p)
    ensures CharOffset(text, p) == if InsideCrlf(text, k) then k - 1 else k
  {
    var i := p.line;
    var start, end := Starts(text)[i], ContentEnd(text, i);
    AtColumnOfUnits(Content(text, i), WithinLine(text, k, i));
    LineShape(text, i);
    StartBounds(text, i);
    var next := NextStart(text, i);
    assert next == end + |Terminator(text, i)|;
    assert text[start..next][..end - start] == Content(text, i);
    if k > end {
      assert k < next && Terminator(text, i) == "\r\n";
      assert text[start..next][end - start] == '\r' && text[start..next][end - start + 1] == '\n';
      assert InsideCrlf(text, k);
    } else if k > start {
      assert text[k - 1] == text[start..next][..end - start][k - 1 - start] == Content(text, i)[k - 1 - start];
      assert !IsBreakChar(text[k - 1]);
    }
  }

  /** A position that names a real column of a real line is the position of its character. */
  lemma {:induction false} PositionComesBack(text: string, i: nat, j: nat)
    requires i < |Starts(text)| && j <= |Content(text, i)|
    ensures var p := Position(i, Units(Content(text, i), j));
            CharOffset(text, p) == Starts(text)[i] + j && IsPosition(text, CharOffset(text, p), p)
  {
    hide Starts, Content, AtColumn, Units;
    AtColumnOfUnits(Content(text, i), j);
    LineLengths(text, i);
  }

  predicate AtOrBefore(p: Position, q: Position) {
    p.line < q.line || (p.line == q.line && p.character <= q.character)
  }

  lemma {:induction false} OffsetIsMonotone(text: string, p: Position, q: Position)
    requires AtOrBefore(p, q)
    ensures CharOffset(text, p) <= CharOffset(text, q)
  {
    if q.line < |Starts(text)| {
      if p.line == q.line {
        AtColumnMonotone(Content(text, p.line), p.character, q.character);
      } else {
        StartsExact(text);
        assert ContentEnd(text, p.line) <= NextStart(text, p.line);
        assert p.line + 1 == q.line || Starts(text)[p.line + 1] < Starts(text)[q.line];
      }
    }
  }

  // ---- the index, in bytes ------------------------------------------------------------------------

  /** A text and the byte offsets its lines start at. */
  datatype Lines = Lines(text: string, starts: seq<nat>)

  ghost predicate Indexes(lines: Lines) {
    StartsExact(lines.text);
    && |lines.starts| == |Starts(lines.text)|
    && forall i :: 0 <= i < |lines.starts| ==>
         (StartBounds(lines.text, i); lines.starts[i] == Utf.Offset(lines.text, Starts(lines.text)[i]))
  }

  /** Byte offsets of the line starts, in one scan. */
  method NewLines(text: string) returns (lines: Lines)
    ensures lines.text == text && Indexes(lines)
  {
    var starts: seq<nat> := [0];
    ghost var found: seq<nat> := [0];
    var k, index := 0, 0;
    while k < |text|
      invariant k <= |text| && index == Utf.Offset(text, k)
      invariant found + StartsFrom(text, k) == Starts(text)
      invariant |starts| == |found| && forall i :: 0 <= i < |found|
                                                   ==> found[i] <= |text| && starts[i] == Utf.Offset(text, found[i])
    {
      var n := BreakLength(text, k);
      ghost var next := StartsFrom(text, k);
      if n == 0 {
        index := index + Utf.Utf8Len(text[k]);
        k := k + 1;
      } else {
        assert Utf.Offset(text, k + 1) == index + 1;
        assert n == 2 ==> Utf.Offset(text, k + 2) == index + 2;
        found := found + [k + n];
        index := index + n;
        starts := starts + [index];
        k := k + n;
        assert found + StartsFrom(text, k) == found[..|found| - 1] + next;
      }
    }
    assert found + [] == found;
    lines := Lines(text, starts);
  }

  lemma {:induction false} OffsetOfSlice(s: string, i: nat, n: nat, j: nat)
    requires i + j <= n <= |s|
    ensures Utf.Offset(s, i + j) == Utf.Offset(s, i) + Utf.Offset(s[i..n], j)
  {
    if j > 0 {
      OffsetOfSlice(s, i, n, j - 1);
    }
  }

  lemma {:induction false} OffsetOfLine(text: string, i: nat, j: nat)
    requires i < |Starts(text)| && j <= |Content(text, i)|
    ensures Starts(text)[i] + j <= ContentEnd(text, i) <= |text|
    ensures Utf.Offset(text, Starts(text)[i] + j) == Utf.Offset(text, Starts(text)[i]) + Utf.Offset(Content(text, i), j)
  {
    LineShape(text, i);
    var start, next := Starts(text)[i], NextStart(text, i);
    OffsetOfSlice(text, start, next, j);
    Utf.OffsetOfPrefix(text[start..next], |Content(text, i)|, j);
    assert text[start..next][..|Content(text, i)|] == Content(text, i);
  }

  /** A line's content; past the last line, nothing. */
  method LineAt(lines: Lines, i: nat) returns (content: string)
    requires Indexes(lines)
    ensures content == if i < |Starts(lines.text)| then Content(lines.text, i) else ""
  {
    if i >= |lines.starts| {
      return "";
    }
    StartBounds(lines.text, i);
    ghost var from, upTo := Starts(lines.text)[i], NextStart(lines.text, i);
    var start := lines.starts[i];
    var end := if i + 1 < |lines.starts| then lines.starts[i + 1] else Utf.ByteLen(lines.text);
    Utf.SliceIsChars(lines.text, from, upTo);
    content := TrimEnd(Utf.ByteSlice(lines.text, start, end));
  }

  /** The byte a position names. */
  method OffsetOf(lines: Lines, p: Position) returns (offset: nat)
    requires Indexes(lines)
    ensures offset == Utf.Offset(lines.text, CharOffset(lines.text, p))
  {
    if p.line >= |lines.starts| {
      return Utf.ByteLen(lines.text);
    }
    var content := LineAt(lines, p.line);
    var within := Utf16ToByte(content, p.character);
    OffsetOfLine(lines.text, p.line, AtColumn(content, p.character));
    offset := lines.starts[p.line] + within;
  }

  ghost predicate SortedBytes(starts: seq<nat>) {
    forall i, j :: 0 <= i < j < |starts| ==> starts[i] < starts[j]
  }

  lemma {:induction false} StartsSorted(lines: Lines)
    requires Indexes(lines)
    ensures SortedBytes(lines.starts) && |lines.starts| >= 1 && lines.starts[0] == 0
  {
    StartsExact(lines.text);
    forall i, j | 0 <= i < j < |lines.starts|
      ensures lines.starts[i] < lines.starts[j]
    {
      StartBounds(lines.text, j);
      Utf.OffsetIncreases(lines.text, Starts(lines.text)[i], Starts(lines.text)[j]);
    }
  }

  /** The last line starting at or before an offset, by binary search. */
  method Search(starts: seq<nat>, offset: nat) returns (line: nat)
    requires SortedBytes(starts) && |starts| >= 1 && starts[0] == 0
    ensures line < |starts| && starts[line] <= offset && (line + 1 < |starts| ==> offset < starts[line + 1])
  {
    var low, high := 0, |starts|;
    while low + 1 < high
      invariant low < high <= |starts| && starts[low] <= offset
      invariant high < |starts| ==> offset < starts[high]
    {
      var mid := (low + high) / 2;
      if starts[mid] <= offset {
        low := mid;
      } else {
        high := mid;
      }
    }
    line := low;
  }

  /** The position of a byte offset, clamped to the text; inside a character, that character's. */
  method PositionOf(lines: Lines, offset: nat) returns (p: Position)
    requires Indexes(lines)
    ensures IsPosition(lines.text, Floor(lines.text, offset), p)
  {
    hide Starts, Content, Floor, Units;
    ghost var text := lines.text;
    var clamped := if offset < Utf.ByteLen(lines.text) then offset else Utf.ByteLen(lines.text);
    ghost var k := Floor(text, offset);
    OffsetOrder(text, k, |text|);
    FloorUnique(text, clamped, k);
    StartsSorted(lines);
    var i := Search(lines.starts, clamped);
    FloorOnLine(lines, clamped, i);
    var content := LineAt(lines, i);
    var fromStart := clamped - lines.starts[i];
    var within := if fromStart < Utf.ByteLen(content) then fromStart else Utf.ByteLen(content);
    var character := ByteToUtf16(content, within);
    FloorWithin(text, clamped, i);
    p := Position(i, character);
  }

  lemma {:induction false} FloorOnLine(lines: Lines, byte: nat, i: nat)
    requires Indexes(lines) && i < |lines.starts| && lines.starts[i] <= byte
    requires i + 1 < |lines.starts| ==> byte < lines.starts[i + 1]
    ensures OnLine(lines.text, Floor(lines.text, byte), i)
  {
    var text := lines.text;
    var k, start := Floor(text, byte), Starts(text)[i];
    StartBounds(text, i);
    if k < start {
      OffsetOrder(text, k + 1, start);
    }
    if i + 1 < |Starts(text)| && Starts(text)[i + 1] <= k {
      StartBounds(text, i + 1);
      OffsetOrder(text, Starts(text)[i + 1], k);
    }
  }

  lemma {:induction false} FloorWithin(text: string, byte: nat, i: nat)
    requires i < |Starts(text)| && OnLine(text, Floor(text, byte), i)
    ensures Starts(text)[i] <= |text| && Utf.Offset(text, Starts(text)[i]) <= byte
    ensures var content := Content(text, i);
            var fromStart: nat := byte - Utf.Offset(text, Starts(text)[i]);
            Floor(content, if fromStart < Utf.ByteLen(content) then fromStart else Utf.ByteLen(content))
              == WithinLine(text, Floor(text, byte), i)
  {
    hide Starts, Content, Floor, OnLine, Utf.Offset, Units;
    var k, start, content := Floor(text, byte), Starts(text)[i], Content(text, i);
    FloorBounds(text, byte, i);
    OffsetOrder(text, start, k);
    var fromStart := byte - Utf.Offset(text, start);
    OffsetOfLine(text, i, |content|);
    if k - start < |content| {
      OffsetOfLine(text, i, k - start);
      OffsetOfLine(text, i, k - start + 1);
      OffsetOrder(text, k + 1, start + |content|);
      FloorUnique(content, fromStart, k - start);
    } else {
      OffsetOrder(text, start + |content|, k);
      FloorUnique(content, Utf.ByteLen(content), |content|);
    }
  }

  lemma {:induction false} FloorBounds(text: string, byte: nat, i: nat)
    requires i < |Starts(text)| && OnLine(text, Floor(text, byte), i)
    ensures Starts(text)[i] <= Floor(text, byte) <= |text| && Utf.Offset(text, Floor(text, byte)) <= byte
    ensures Floor(text, byte) < |text| ==> byte < Utf.Offset(text, Floor(text, byte) + 1)
    ensures Starts(text)[i] + |Content(text, i)| <= |text|
  {
    assert ContentEnd(text, i) <= |text|;
  }

  /** `offset(position(o)) == o` at every character boundary not inside a CRLF. */
  method OffsetRoundTrip(lines: Lines, k: nat) returns (back: nat)
    requires Indexes(lines) && k <= |lines.text|
    ensures back == Utf.Offset(lines.text, if InsideCrlf(lines.text, k) then k - 1 else k)
  {
    FloorOfOffset(lines.text, k);
    var p := PositionOf(lines, Utf.Offset(lines.text, k));
    CharacterComesBack(lines.text, k, p);
    back := OffsetOf(lines, p);
  }

  /** `position(offset(p)) == p` for every real column of a real line. */
  method PositionRoundTrip(lines: Lines, i: nat, j: nat) returns (back: Position)
    requires Indexes(lines) && i < |Starts(lines.text)| && j <= |Content(lines.text, i)|
    ensures back == Position(i, Units(Content(lines.text, i), j))
  {
    ghost var p := Position(i, Units(Content(lines.text, i), j));
    var content := LineAt(lines, i);
    var offset := OffsetOf(lines, Position(i, Units(content, j)));
    PositionComesBack(lines.text, i, j);
    FloorOfOffset(lines.text, CharOffset(lines.text, p));
    back := PositionOf(lines, offset);
    PositionUnique(lines.text, CharOffset(lines.text, p), p, back);
  }
}
