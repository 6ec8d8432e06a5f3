/** Content-Length framing (Base Protocol, Header Part, in the LSP 3.17 specification). */
module Framing {
  import opened Wrappers
  import Decimal
  import LspLines
  import Utf

  type Byte = n: int | 0 <= n < 256

  const NEWLINE: Byte := 10
  const LIMIT: nat := 0x1_0000_0000_0000_0000

  predicate IsAscii(s: string) {
    forall k :: 0 <= k < |s| ==> s[k] as int < 128
  }

  /** The bytes of a text of one-byte characters. */
  function Raw(s: string): (bytes: seq<Byte>)
    requires IsAscii(s)
    ensures |bytes| == |s|
  {
    seq(|s|, k requires 0 <= k < |s| => s[k] as int)
  }

  /** How the reader turns a line's bytes into text, whatever the bytes are. */
  datatype Decoder = Decoder(text: seq<Byte> -> string)

  /** Decoding gives texts of one-byte characters back. */
  ghost predicate Sound(d: Decoder) {
    forall s: string :: IsAscii(s) ==> d.text(Raw(s)) == s
  }

  // ---- header lines ----------------------------------------------------------------------------

  /** How many bytes the next line takes, its newline included. */
  function LineLength(input: seq<Byte>): (n: nat)
    ensures n <= |input| && (input != [] ==> n > 0)
    ensures forall k :: 0 <= k < n - 1 ==> input[k] != NEWLINE
    ensures n < |input| ==> n > 0 && input[n - 1] == NEWLINE
  {
    if input == [] then 0
    else if input[0] == NEWLINE then 1
    else 1 + LineLength(input[1..])
  }

  function TrimFront(s: string): string {
    if s != "" && Utf.IsWhitespace(s[0]) then TrimFront(s[1..]) else s
  }

  function TrimBack(s: string): string {
    if s != "" && Utf.IsWhitespace(s[|s| - 1]) then TrimBack(s[..|s| - 1]) else s
  }

  function Trim(s: string): string {
    TrimBack(TrimFront(s))
  }

  function Lower(c: char): char {
    if 'A' <= c <= 'Z' then (c as int + 32) as char else c
  }

  predicate SameIgnoringCase(a: string, b: string) {
    |a| == |b| && forall k :: 0 <= k < |a| ==> Lower(a[k]) == Lower(b[k])
  }

  function ColonAt(s: string): (at: Option<nat>)
    ensures at.Some? ==> at.value < |s| && s[at.value] == ':' && forall k :: 0 <= k < at.value ==> s[k] != ':'
    ensures at == None ==> ':' !in s
  {
    if s == "" then None
    else if s[0] == ':' then Some(0)
    else
      var later := ColonAt(s[1..]);
      if later == None then None else Some(later.value + 1)
  }

  /** A machine word, as `parse` reads it: digits, perhaps after a plus sign. */
  function ParseLength(value: string): Option<nat> {
    var digits := if value != "" && value[0] == '+' then value[1..] else value;
    if digits == "" || !Decimal.AllDigits(digits) || Decimal.Value(digits) >= LIMIT then None
    else Some(Decimal.Value(digits))
  }

  /** What a header line says about the length, if it is about the length. */
  function LengthHeader(text: string): Option<Option<nat>> {
    var colon := ColonAt(text);
    if colon == None || !SameIgnoringCase(Trim(text[..colon.value]), "content-length") then None
    else Some(ParseLength(Trim(text[colon.value + 1..])))
  }

  function LineText(d: Decoder, line: seq<Byte>): string {
    LspLines.TrimEnd(d.text(line))
  }

  // ---- reading ------------------------------------------------------------------------------------

  datatype ReadResult = Message(body: seq<Byte>, rest: seq<Byte>) | EndOfStream | UnexpectedEof

  function ReadBody(input: seq<Byte>, length: nat): ReadResult {
    if length <= |input| then Message(input[..length], input[length..]) else UnexpectedEof
  }

  /** The next message, when header lines so far have said `length`. */
  function ReadFrom(d: Decoder, input: seq<Byte>, length: Option<nat>): (r: ReadResult)
    ensures r.Message? ==> |r.rest| + |r.body| < |input|
    decreases |input|
  {
    if input == [] then EndOfStream
    else
      var n := LineLength(input);
      var text := LineText(d, input[..n]);
      if text == "" then
        if length.Some? then ReadBody(input[n..], length.value) else ReadFrom(d, input[n..], None)
      else
        var header := LengthHeader(text);
        ReadFrom(d, input[n..], if header.Some? then header.value else length)
  }

  lemma CutAt(data: seq<Byte>, start: nat, end: nat)
    requires start <= end <= |data|
    ensures data[start..][..end - start] == data[start..end] && data[start..][end - start..] == data[end..]
  {
  }

  class Reader {
    const decoder: Decoder
    const data: seq<Byte>
    var position: nat

    constructor (decoder: Decoder, data: seq<Byte>)
      ensures this.decoder == decoder && this.data == data && position == 0 && Valid()
    {
      this.decoder := decoder;
      this.data := data;
      position := 0;
    }

    ghost predicate Valid()
      reads this
    {
      position <= |data|
    }

    ghost function Left(): seq<Byte>
      requires Valid()
      reads this
    {
      data[position..]
    }

    /** The next line, its newline included; nothing at the end. */
    method ReadLine() returns (line: seq<Byte>)
      requires Valid()
      modifies this
      ensures Valid() && line == old(Left())[..LineLength(old(Left()))]
              && Left() == old(Left())[LineLength(old(Left()))..]
      ensures line == [] <==> old(Left()) == []
    {
      var start := position;
      ghost var left := Left();
      while position < |data| && data[position] != NEWLINE
        invariant start <= position <= |data|
        invariant LineLength(left) == position - start + LineLength(data[position..])
      {
        assert data[position..][1..] == data[position + 1..];
        position := position + 1;
      }
      if position < |data| {
        position := position + 1;
      }
      line := data[start..position];
      CutAt(data, start, position);
    }

    method ReadMessage() returns (body: Option<seq<Byte>>, eof: bool)
      requires Valid()
      modifies this
      ensures Valid()
      ensures match ReadFrom(decoder, old(Left()), None)
              case Message(b, rest) => body == Some(b) && Left() == rest
              case EndOfStream => body == None && !eof
              case UnexpectedEof => body == None && eof
    {
      hide LineText, LengthHeader, LineLength;
      var length: Option<nat> := None;
      eof := false;
      while true
        invariant Valid() && ReadFrom(decoder, Left(), length) == ReadFrom(decoder, old(Left()), None)
        decreases |data| - position
      {
        ghost var left := Left();
        LineIsPart(left);
        var line := ReadLine();
        if line == [] {
          return None, false;
        }
        var text := LineText(decoder, line);
        if text == "" {
          if length.Some? {
            break;
          }
          continue;
        }
        var header := LengthHeader(text);
        if header.Some? {
          length := header.value;
        }
      }
      body, eof := TakeBody(length.value);
    }

    /** `read_exact`: all the bytes asked for, or an error. */
    method TakeBody(length: nat) returns (body: Option<seq<Byte>>, eof: bool)
      requires Valid()
      modifies this
      ensures Valid()
      ensures match ReadBody(old(Left()), length)
              case Message(b, rest) => body == Some(b) && !eof && Left() == rest
              case UnexpectedEof => body == None && eof
              case EndOfStream => false
    {
      if length <= |data| - position {
        body, eof := Some(data[position..position + length]), false;
        assert Left()[..length] == data[position..position + length] && Left()[length..] == data[position + length..];
        position := position + length;
      } else {
        body, eof := None, true;
      }
    }
  }

  lemma {:induction false} LineIsPart(input: seq<Byte>)
    ensures LineLength(input) <= |input| && (input != [] ==> LineLength(input) > 0)
  {
  }

  // ---- writing --------------------------------------------------------------------------------------

  lemma {:induction false} DigitsAscii(n: nat)
    ensures IsAscii(Decimal.Digits(n))
  {
  }

  function HeaderText(n: nat): (s: string)
    ensures IsAscii(s)
  {
    DigitsAscii(n);
    "Content-Length: " + Decimal.Digits(n)
  }

  function Frame(body: seq<Byte>): seq<Byte> {
    Raw(HeaderText(|body|) + "\r\n" + "\r\n") + body
  }

  class Writer {
    var data: seq<Byte>

    constructor ()
      ensures data == []
    {
      data := [];
    }

    method WriteMessage(body: seq<Byte>)
      modifies this
      ensures data == old(data) + Frame(body)
    {
      var frame := Raw(HeaderText(|body|) + "\r\n" + "\r\n");
      frame := frame + body;
      data := data + frame;
    }
  }

  // ---- the round trip -----------------------------------------------------------------------------------

  /** A line: no newline but the one it ends with. */
  ghost predicate IsLine(line: seq<Byte>) {
    line != [] && line[|line| - 1] == NEWLINE && forall k :: 0 <= k < |line| - 1 ==> line[k] != NEWLINE
  }

  lemma {:induction false} LineFirst(line: seq<Byte>, rest: seq<Byte>)
    requires IsLine(line)
    ensures LineLength(line + rest) == |line|
    ensures (line + rest)[..|line|] == line && (line + rest)[|line|..] == rest
  {
    if line[0] != NEWLINE {
      assert (line + rest)[1..] == line[1..] + rest;
      LineFirst(line[1..], rest);
    }
  }

  lemma {:induction false} ReadLineFirst(d: Decoder, line: seq<Byte>, rest: seq<Byte>, length: Option<nat>)
    requires IsLine(line)
    ensures ReadFrom(d, line + rest, length) ==
            if LineText(d, line) == "" then
              if length.Some? then ReadBody(rest, length.value) else ReadFrom(d, rest, None)
            else
              var header := LengthHeader(LineText(d, line));
              ReadFrom(d, rest, if header.Some? then header.value else length)
  {
    hide LineText, LengthHeader, LineLength;
    LineFirst(line, rest);
  }

  lemma {:induction false} HeaderReads(n: nat)
    requires n < LIMIT
    ensures LengthHeader(HeaderText(n)) == Some(Some(n))
  {
    hide ColonAt, Trim, ParseLength;
    var digits := Decimal.Digits(n);
    var text := HeaderText(n);
    var name := "Content-Length";
    assert text == name + ":" + (" " + digits);
    ColonAfter(name, " " + digits);
    Around(name, " " + digits);
    NameTrims(name);
    assert SameIgnoringCase(name, "content-length");
    LengthParses(n);
    DigitsTrim(n);
    Decimal.DigitsValue(n);
  }

  lemma {:induction false} Around(name: string, value: string)
    ensures (name + ":" + value)[..|name|] == name && (name + ":" + value)[|name| + 1..] == value
  {
  }

  lemma {:induction false} LengthParses(n: nat)
    requires n < LIMIT
    ensures ParseLength(Decimal.Digits(n)) == Some(n)
  {
    DigitsTrim(n);
    Decimal.DigitsValue(n);
  }

  lemma {:induction false} NameTrims(name: string)
    requires name == "Content-Length"
    ensures Trim(name) == name
  {
  }

  lemma {:induction false} ColonAfter(name: string, value: string)
    requires ':' !in name
    ensures ColonAt(name + ":" + value) == Some(|name|)
  {
    if name != "" {
      assert (name + ":" + value)[1..] == name[1..] + ":" + value;
      ColonAfter(name[1..], value);
    }
  }

  lemma {:induction false} DigitsTrim(n: nat)
    ensures Trim(" " + Decimal.Digits(n)) == Decimal.Digits(n) && Decimal.Digits(n)[0] != '+'
  {
    var digits := Decimal.Digits(n);
    assert (" " + digits)[1..] == digits;
    assert Decimal.IsDigit(digits[0]) && Decimal.IsDigit(digits[|digits| - 1]);
    assert !Utf.IsWhitespace(digits[0]) && !Utf.IsWhitespace(digits[|digits| - 1]);
    assert TrimFront(digits) == digits && TrimBack(digits) == digits;
    assert TrimFront(" " + digits) == TrimFront(digits);
  }

  lemma {:induction false} HeaderLine(d: Decoder, n: nat)
    requires Sound(d)
    ensures HeaderText(n) != "" && IsLine(Raw(HeaderText(n) + "\r\n"))
            && LineText(d, Raw(HeaderText(n) + "\r\n")) == HeaderText(n)
  {
    hide LspLines.TrimEnd;
    HeaderHasNoBreaks(n);
    LspLines.TrimEndExact(HeaderText(n), "\r\n");
    var line := Raw(HeaderText(n) + "\r\n");
    forall k | 0 <= k < |line| - 1
      ensures line[k] != NEWLINE
    {
      if k < |HeaderText(n)| {
        assert !LspLines.IsBreakChar(HeaderText(n)[k]);
      }
    }
  }

  lemma {:induction false} HeaderHasNoBreaks(n: nat)
    ensures HeaderText(n) != "" && LspLines.NoBreaks(HeaderText(n))
  {
    var digits := Decimal.Digits(n);
    assert forall k :: 0 <= k < |digits| ==> Decimal.IsDigit(digits[k]);
  }

  lemma {:induction false} BlankLine(d: Decoder)
    requires Sound(d)
    ensures IsLine(Raw("\r\n")) && LineText(d, Raw("\r\n")) == ""
  {
    LspLines.TrimEndExact("", "\r\n");
    assert "" + "\r\n" == "\r\n" == d.text(Raw("\r\n"));
  }

  /** Whatever a body holds, its frame reads back as that body, and the stream goes on after it. */
  lemma {:induction false} FrameReads(d: Decoder, body: seq<Byte>, rest: seq<Byte>)
    requires Sound(d)
    requires |body| < LIMIT
    ensures ReadFrom(d, Frame(body) + rest, None) == Message(body, rest)
  {
    hide LineText, LengthHeader, ReadFrom, IsLine, HeaderText;
    var n := |body|;
    var header, blank := Raw(HeaderText(n) + "\r\n"), Raw("\r\n");
    HeaderLine(d, n);
    BlankLine(d);
    HeaderReads(n);
    assert Frame(body) + rest == header + (blank + (body + rest));
    ReadLineFirst(d, header, blank + (body + rest), None);
    ReadLineFirst(d, blank, body + rest, Some(n));
    assert (body + rest)[..n] == body && (body + rest)[n..] == rest;
  }

  function Frames(bodies: seq<seq<Byte>>): seq<Byte> {
    if bodies == [] then [] else Frame(bodies[0]) + Frames(bodies[1..])
  }

  datatype Stream = Stream(bodies: seq<seq<Byte>>, broken: bool)

  /** Every message up to the end of the stream, or to where it breaks off. */
  function ReadEvery(d: Decoder, input: seq<Byte>): Stream
    decreases |input|
  {
    match ReadFrom(d, input, None)
    case Message(body, rest) =>
      var later := ReadEvery(d, rest);
      Stream([body] + later.bodies, later.broken)
    case EndOfStream => Stream([], false)
    case UnexpectedEof => Stream([], true)
  }

  /** Reading the frames of some bodies yields the bodies in order, and then the end of the stream. */
  lemma {:induction false} FramesRead(d: Decoder, bodies: seq<seq<Byte>>)
    requires Sound(d)
    requires forall k :: 0 <= k < |bodies| ==> |bodies[k]| < LIMIT
    ensures ReadEvery(d, Frames(bodies)) == Stream(bodies, false)
  {
    hide Frame, ReadFrom;
    if bodies == [] {
      NothingReads(d);
    } else {
      FrameReads(d, bodies[0], Frames(bodies[1..]));
      FramesRead(d, bodies[1..]);
      assert bodies == [bodies[0]] + bodies[1..];
    }
  }

  lemma {:induction false} NothingReads(d: Decoder)
    ensures ReadFrom(d, [], None) == EndOfStream
  {
  }

  // ---- noise -------------------------------------------------------------------------------------------------

  /** A whole line that says nothing about the length. */
  ghost predicate IsNoise(d: Decoder, line: seq<Byte>) {
    IsLine(line) && LengthHeader(LineText(d, line)) == None
  }

  function Joined(lines: seq<seq<Byte>>): seq<Byte> {
    if lines == [] then [] else lines[0] + Joined(lines[1..])
  }

  /** Whole lines before the first length header are skipped, blank or not. */
  lemma {:induction false} NoiseIsSkipped(d: Decoder, lines: seq<seq<Byte>>, rest: seq<Byte>)
    requires forall k :: 0 <= k < |lines| ==> IsNoise(d, lines[k])
    ensures ReadFrom(d, Joined(lines) + rest, None) == ReadFrom(d, rest, None)
  {
    hide LineText, LengthHeader, ReadFrom, IsLine;
    if lines == [] {
      assert Joined(lines) + rest == rest;
    } else {
      assert Joined(lines) + rest == lines[0] + (Joined(lines[1..]) + rest);
      assert IsNoise(d, lines[0]);
      ReadLineFirst(d, lines[0], Joined(lines[1..]) + rest, None);
      NoiseIsSkipped(d, lines[1..], rest);
    }
  }

  /** Further headers after the length change nothing. */
  lemma {:induction false} HeadersAreSkipped(d: Decoder, lines: seq<seq<Byte>>, rest: seq<Byte>, length: Option<nat>)
    requires forall k :: 0 <= k < |lines| ==> IsNoise(d, lines[k]) && LineText(d, lines[k]) != ""
    ensures ReadFrom(d, Joined(lines) + rest, length) == ReadFrom(d, rest, length)
  {
    hide LineText, LengthHeader, ReadFrom, IsLine;
    if lines == [] {
      assert Joined(lines) + rest == rest;
    } else {
      assert Joined(lines) + rest == lines[0] + (Joined(lines[1..]) + rest);
      assert IsNoise(d, lines[0]) && LineText(d, lines[0]) != "";
      ReadLineFirst(d, lines[0], Joined(lines[1..]) + rest, length);
      HeadersAreSkipped(d, lines[1..], rest, length);
    }
  }

  // ---- names in any case, lengths too large, streams that break off ---------------------------------

  /** Each letter of a lower-case name as it is, or as a capital. */
  predicate IsCase(s: string, name: string, capitals: seq<bool>) {
    && |s| == |capitals| == |name|
    && forall k :: 0 <= k < |name| ==>
         if capitals[k] then 'a' <= name[k] <= 'z' && s[k] as int == name[k] as int - 32 else s[k] == name[k]
  }

  /** The name of the length header in any case of its letters, and nothing else, is taken for it. */
  lemma {:induction false} NameInAnyCaseIff(name: string)
    ensures SameIgnoringCase(name, "content-length") <==>
            exists capitals: seq<bool> :: IsCase(name, "content-length", capitals)
  {
    var wanted := "content-length";
    assert forall k :: 0 <= k < 14 ==> wanted[k] == '-' || 'a' <= wanted[k] <= 'z';
    if SameIgnoringCase(name, wanted) {
      var capitals := seq(14, k requires 0 <= k < 14 => name[k] != wanted[k]);
      forall k | 0 <= k < 14
        ensures capitals[k] ==> 'a' <= wanted[k] <= 'z' && name[k] as int == wanted[k] as int - 32
      {
        CaseOfLetter(name[k], wanted[k]);
      }
      assert IsCase(name, wanted, capitals);
    }
    if capitals: seq<bool> :| IsCase(name, wanted, capitals) {
      forall k | 0 <= k < 14
        ensures Lower(name[k]) == Lower(wanted[k])
      {
        CaseOfLetter(name[k], wanted[k]);
      }
    }
  }

  lemma {:induction false} CaseOfLetter(c: char, letter: char)
    requires letter == '-' || 'a' <= letter <= 'z'
    ensures Lower(c) == Lower(letter) <==> c == letter || ('a' <= letter <= 'z' && c as int == letter as int - 32)
  {
  }

  /** A length is read if and only if it fits a 64-bit word. */
  lemma {:induction false} LengthFitsIff(n: nat)
    ensures ParseLength(Decimal.Digits(n)) == if n < LIMIT then Some(n) else None
  {
    Decimal.DigitsValue(n);
    assert Decimal.IsDigit(Decimal.Digits(n)[0]);
  }

  /** A frame whose body breaks off. */
  lemma {:induction false} CutFrameBreaks(d: Decoder, body: seq<Byte>, k: nat)
    requires Sound(d) && k < |body| < LIMIT
    ensures |Frame(body)| >= |body|
    ensures ReadFrom(d, Frame(body)[..|Frame(body)| - |body| + k], None) == UnexpectedEof
  {
    hide LineText, LengthHeader, ReadFrom, IsLine, HeaderText;
    var n := |body|;
    var header, blank := Raw(HeaderText(n) + "\r\n"), Raw("\r\n");
    HeaderLine(d, n);
    BlankLine(d);
    HeaderReads(n);
    assert Frame(body) == header + (blank + body);
    assert Frame(body)[..|Frame(body)| - n + k] == header + (blank + body[..k]);
    ReadLineFirst(d, header, blank + body[..k], None);
    ReadLineFirst(d, blank, body[..k], Some(n));
  }

  /** A stream that breaks off in a body yields the bodies before it, and says so. */
  lemma {:induction false} BrokenStreamIsTold(d: Decoder, bodies: seq<seq<Byte>>, last: seq<Byte>, k: nat)
    requires Sound(d) && k < |last| < LIMIT && forall m :: 0 <= m < |bodies| ==> |bodies[m]| < LIMIT
    ensures |Frame(last)| >= |last|
    ensures ReadEvery(d, Frames(bodies) + Frame(last)[..|Frame(last)| - |last| + k]) == Stream(bodies, true)
    decreases |bodies|
  {
    hide Frame, ReadFrom;
    CutFrameBreaks(d, last, k);
    var cut := Frame(last)[..|Frame(last)| - |last| + k];
    if bodies == [] {
      assert Frames(bodies) + cut == cut;
    } else {
      assert Frames(bodies) + cut == Frame(bodies[0]) + (Frames(bodies[1..]) + cut);
      FrameReads(d, bodies[0], Frames(bodies[1..]) + cut);
      BrokenStreamIsTold(d, bodies[1..], last, k);
      assert bodies == [bodies[0]] + bodies[1..];
    }
  }
}
