/** JSON values, how they are printed, how they are read, and that reading undoes printing. */
module Json {
  import opened TextOrder
  import opened Wrappers
  import Decimal
  import Utf

  /** A number is the one its text stands for. An object's fields are kept in ascending order of their keys. */
  datatype Json =
    | Null
    | Bool(b: bool)
    | Number(value: real)
    | Str(text: string)
    | Array(items: seq<Json>)
    | Object(fields: seq<Field>)

  datatype Field = Field(key: string, value: Json)

  const LIMIT: int := 1_000_000_000_000_000

  predicate Ascending(fields: seq<Field>) {
    |fields| <= 1 || (Less(fields[0].key, fields[1].key) && Ascending(fields[1..]))
  }

  /** A whole number that prints in full. */
  predicate IsShort(value: real) {
    value.Floor as real == value && -LIMIT < value.Floor < LIMIT
  }

  /** Keys ascend, and every number is whole and prints in full. */
  predicate Printable(v: Json) {
    match v
    case Number(value) => IsShort(value)
    case Array(items) => AllPrintable(items)
    case Object(fields) => Ascending(fields) && FieldsPrintable(fields)
    case _ => true
  }

  predicate AllPrintable(items: seq<Json>) {
    items == [] || (Printable(items[0]) && AllPrintable(items[1..]))
  }

  predicate FieldsPrintable(fields: seq<Field>) {
    fields == [] || (Printable(fields[0].value) && FieldsPrintable(fields[1..]))
  }

  // ---- printing ---------------------------------------------------------------------------

  function Pad(depth: nat): string {
    if depth == 0 then "" else "  " + Pad(depth - 1)
  }

  /** What separates the parts of a collection: a fresh indented line, or nothing. */
  function Gap(pretty: bool, depth: nat): string {
    if pretty then "\n" + Pad(depth) else ""
  }

  function FormatWhole(n: int): string {
    if n < 0 then "-" + Decimal.Digits(-n) else Decimal.Digits(n)
  }

  function HexDigit(d: nat): char
    requires d < 16
  {
    if d < 10 then ('0' as int + d) as char else ('a' as int + d - 10) as char
  }

  /** One character of a string literal. */
  function Escape(c: char): string {
    if c == '"' then "\\\""
    else if c == '\\' then "\\\\"
    else if c == '\n' then "\\n"
    else if c == '\r' then "\\r"
    else if c == '\t' then "\\t"
    else if c as int == 8 then "\\b"
    else if c as int == 12 then "\\f"
    else if c as int < 0x20 then ['\\', 'u', '0', '0', HexDigit(c as int / 16), HexDigit(c as int % 16)]
    else [c]
  }

  function EscapeAll(s: string): string {
    if s == "" then "" else Escape(s[0]) + EscapeAll(s[1..])
  }

  function Quote(s: string): string {
    "\"" + EscapeAll(s) + "\""
  }

  function Colon(pretty: bool): string {
    if pretty then ": " else ":"
  }

  /** The parts of a collection between its brackets, each after a gap, with commas between them. */
  function Join(parts: seq<string>, pretty: bool, depth: nat): string
    requires parts != []
  {
    Gap(pretty, depth + 1) + (parts[0] + if |parts| == 1 then Gap(pretty, depth)
      else "," + Join(parts[1..], pretty, depth))
  }

  /** The compact form on one line, or the indented form at `depth`. */
  function Render(v: Json, pretty: bool, depth: nat): string
    requires Printable(v)
    decreases v
  {
    match v
    case Null => "null"
    case Bool(b) => if b then "true" else "false"
    case Number(value) => FormatWhole(value.Floor)
    case Str(text) => Quote(text)
    case Array(items) => if items == [] then "[]"
      else "[" + Join(RenderItems(items, pretty, depth + 1), pretty, depth) + "]"
    case Object(fields) => if fields == [] then "{}"
      else "{" + Join(RenderFields(fields, pretty, depth + 1), pretty, depth) + "}"
  }

  function RenderItems(items: seq<Json>, pretty: bool, depth: nat): (parts: seq<string>)
    requires AllPrintable(items)
    ensures |parts| == |items|
    decreases items
  {
    if items == [] then [] else [Render(items[0], pretty, depth)] + RenderItems(items[1..], pretty, depth)
  }

  function RenderFields(fields: seq<Field>, pretty: bool, depth: nat): (parts: seq<string>)
    requires FieldsPrintable(fields)
    ensures |parts| == |fields|
    decreases fields
  {
    if fields == [] then []
    else
      [Quote(fields[0].key) + (Colon(pretty) + Render(fields[0].value, pretty, depth))]
      + RenderFields(fields[1..], pretty, depth)
  }

  // ---- reading ------------------------------------------------------------------------------

  datatype JsonError =
    | UnexpectedEnd
    | Unexpected(c: char)
    | Expected(c: char)
    | Unterminated
    | UnknownEscape(c: char)
    | ShortEscape
    | NotHex(c: char)
    | LoneSurrogate
    | InvalidCodePoint
    | BadNumber(text: string)
    | Trailing(c: char)

  type Parsed<T> = Result<(T, string), JsonError>

  function SkipWhitespace(s: string): (rest: string)
    ensures |rest| <= |s|
    ensures rest != "" ==> !Utf.IsWhitespace(rest[0])
  {
    if s != "" && Utf.IsWhitespace(s[0]) then SkipWhitespace(s[1..]) else s
  }

  function Expect(s: string, c: char): (r: Result<string, JsonError>)
    ensures r.Ok? ==> |r.value| < |s|
  {
    if s != "" && s[0] == c then Ok(s[1..]) else Err(Expected(c))
  }

  function Literal(s: string, word: string, v: Json): (r: Parsed<Json>)
    ensures r.Ok? ==> |r.value.1| <= |s| && (word != "" ==> |r.value.1| < |s|)
  {
    if word == "" then Ok((v, s))
    else
      match Expect(s, word[0])
      case Err(e) => Err(e)
      case Ok(rest) => Literal(rest, word[1..], v)
  }

  function HexValue(c: char): Option<nat> {
    if '0' <= c <= '9' then Some(c as int - '0' as int)
    else if 'a' <= c <= 'f' then Some(c as int - 'a' as int + 10)
    else if 'A' <= c <= 'F' then Some(c as int - 'A' as int + 10)
    else None
  }

  /** `count` more hexadecimal digits after the ones that made `value`. */
  function ReadHex(s: string, count: nat, value: nat): (r: Parsed<nat>)
    ensures r.Ok? ==> |r.value.1| + count == |s|
  {
    if count == 0 then Ok((value, s))
    else if s == "" then Err(ShortEscape)
    else
      match HexValue(s[0])
      case None => Err(NotHex(s[0]))
      case Some(d) => ReadHex(s[1..], count - 1, value * 16 + d)
  }

  /** The character of a code point; surrogates are no characters. */
  function CharOf(code: nat): Result<char, JsonError> {
    if code < 0xd800 || 0xe000 <= code < 0x11_0000 then Ok(code as char) else Err(InvalidCodePoint)
  }

  /** After `\u`: one unit, or a surrogate pair written as two escapes. */
  function UnicodeEscape(s: string): (r: Parsed<char>)
    ensures r.Ok? ==> |r.value.1| < |s|
  {
    match ReadHex(s, 4, 0)
    case Err(e) => Err(e)
    case Ok((high, rest)) =>
      if 0xd800 <= high < 0xdc00 then
        if |rest| >= 2 && rest[0] == '\\' && rest[1] == 'u' then
          match ReadHex(rest[2..], 4, 0)
          case Err(e) => Err(e)
          case Ok((low, after)) =>
            if 0xdc00 <= low < 0xe000 then
              match CharOf(0x1_0000 + (high - 0xd800) * 0x400 + (low - 0xdc00))
              case Err(e) => Err(e)
              case Ok(c) => Ok((c, after))
            else Err(LoneSurrogate)
        else Err(LoneSurrogate)
      else
        match CharOf(high)
        case Err(e) => Err(e)
        case Ok(c) => Ok((c, rest))
  }

  function SimpleEscape(c: char): Option<char> {
    if c == '"' || c == '\\' || c == '/' then Some(c)
    else if c == 'b' then Some(8 as char)
    else if c == 'f' then Some(12 as char)
    else if c == 'n' then Some('\n')
    else if c == 'r' then Some('\r')
    else if c == 't' then Some('\t')
    else None
  }

  /** The inside of a string literal, up to and past its closing quote. */
  function StringBody(s: string, out: string): (r: Parsed<string>)
    ensures r.Ok? ==> |r.value.1| < |s|
    decreases |s|
  {
    if s == "" then Err(Unterminated)
    else if s[0] == '"' then Ok((out, s[1..]))
    else if s[0] != '\\' then StringBody(s[1..], out + [s[0]])
    else if |s| == 1 then Err(Unterminated)
    else if s[1] == 'u' then
      match UnicodeEscape(s[2..])
      case Err(e) => Err(e)
      case Ok((c, rest)) => StringBody(rest, out + [c])
    else
      match SimpleEscape(s[1])
      case None => Err(UnknownEscape(s[1]))
      case Some(c) => StringBody(s[2..], out + [c])
  }

  function StringLiteral(s: string): (r: Parsed<string>)
    ensures r.Ok? ==> |r.value.1| < |s|
  {
    match Expect(s, '"')
    case Err(e) => Err(e)
    case Ok(rest) => StringBody(rest, "")
  }

  /** The sign, the digits and the fraction of a number: their extent, and how many digits there are. */
  function Mantissa(s: string): (m: (nat, nat))
    ensures m.0 <= |s|
  {
    var sign := if s != "" && s[0] == '-' then 1 else 0;
    var digits := Decimal.DigitRun(s[sign..]);
    var fraction := Fraction(s[sign + digits..]);
    (sign + digits + fraction.0, digits + fraction.1)
  }

  /** A point and the digits after it, if there is a point: their extent, and how many digits. */
  function Fraction(s: string): (f: (nat, nat))
    ensures f.0 <= |s|
  {
    if s != "" && s[0] == '.' then (1 + Decimal.DigitRun(s[1..]), Decimal.DigitRun(s[1..])) else (0, 0)
  }

  /** The exponent, if there is one: its extent, and whether it has the digits it needs. */
  function Exponent(s: string): (e: (nat, bool))
    ensures e.0 <= |s|
  {
    if s != "" && (s[0] == 'e' || s[0] == 'E') then
      var signed := if |s| > 1 && (s[1] == '+' || s[1] == '-') then 2 else 1;
      var digits := Decimal.DigitRun(s[signed..]);
      (signed + digits, digits > 0)
    else (0, true)
  }

  /** The extent of a number, and whether its text is one the float parser takes. */
  datatype NumberShape = NumberShape(length: nat, valid: bool)

  function ShapeOf(s: string): (shape: NumberShape)
    ensures shape.length <= |s|
  {
    var mantissa := Mantissa(s);
    var exponent := Exponent(s[mantissa.0..]);
    NumberShape(mantissa.0 + exponent.0, mantissa.1 > 0 && exponent.1)
  }

  function PowerOfTen(n: nat): (p: real)
    ensures p >= 1.0
  {
    if n == 0 then 1.0 else 10.0 * PowerOfTen(n - 1)
  }

  function Scaled(digits: nat, exponent: int): real {
    if exponent >= 0 then digits as real * PowerOfTen(exponent) else digits as real / PowerOfTen(-exponent)
  }

  /** What comes after `e` or `E`. */
  function ExponentValue(s: string): int {
    if s != "" && (s[0] == 'e' || s[0] == 'E') then
      var signed := if |s| > 1 && (s[1] == '+' || s[1] == '-') then 2 else 1;
      var size: int := Decimal.Value(s[signed..][..Decimal.DigitRun(s[signed..])]);
      if signed == 2 && s[1] == '-' then -size else size
    else 0
  }

  /** The digits after a point. */
  function Decimals(s: string): (digits: string)
    ensures Decimal.AllDigits(digits)
  {
    if s != "" && s[0] == '.' then s[1..][..Decimal.DigitRun(s[1..])] else ""
  }

  /** The number a numeral without a sign stands for. */
  function Magnitude(s: string): real {
    var digits := Decimal.DigitRun(s);
    var after := s[digits..];
    var decimals := Decimals(after);
    Scaled(Decimal.Value(s[..digits] + decimals), ExponentValue(after[Fraction(after).0..]) - |decimals|)
  }

  function NumberValue(text: string): real {
    if text != "" && text[0] == '-' then -Magnitude(text[1..]) else Magnitude(text)
  }

  function NumberToken(s: string): (r: Parsed<Json>)
    ensures r.Ok? ==> |r.value.1| < |s|
  {
    var shape := ShapeOf(s);
    var text := s[..shape.length];
    assert shape.valid ==> shape.length > 0;
    if !shape.valid then Err(BadNumber(text))
    else Ok((Number(NumberValue(text)), s[shape.length..]))
  }

  /** The map's `insert`: the fields stay in key order and a key seen before takes the new value. */
  function Insert(fields: seq<Field>, key: string, v: Json): seq<Field> {
    if fields == [] then [Field(key, v)]
    else if fields[0].key == key then [Field(key, v)] + fields[1..]
    else if Less(key, fields[0].key) then [Field(key, v)] + fields
    else [fields[0]] + Insert(fields[1..], key, v)
  }

  function Value(s: string): (r: Parsed<Json>)
    ensures r.Ok? ==> |r.value.1| < |s|
    decreases |s|, 2
  {
    var t := SkipWhitespace(s);
    if t == "" then Err(UnexpectedEnd)
    else if t[0] == '{' then
      var u := SkipWhitespace(t[1..]);
      if u != "" && u[0] == '}' then Ok((Object([]), u[1..])) else Fields(u, [])
    else if t[0] == '[' then
      var u := SkipWhitespace(t[1..]);
      if u != "" && u[0] == ']' then Ok((Array([]), u[1..])) else Items(u, [])
    else if t[0] == '"' then
      match StringLiteral(t)
      case Err(e) => Err(e)
      case Ok((text, rest)) => Ok((Str(text), rest))
    else if t[0] == 't' then Literal(t, "true", Bool(true))
    else if t[0] == 'f' then Literal(t, "false", Bool(false))
    else if t[0] == 'n' then Literal(t, "null", Null)
    else if t[0] == '-' || Decimal.IsDigit(t[0]) then NumberToken(t)
    else Err(Unexpected(t[0]))
  }

  /** The rest of an array after `items`. */
  function Items(s: string, items: seq<Json>): (r: Parsed<Json>)
    ensures r.Ok? ==> |r.value.1| < |s|
    decreases |s|, 3
  {
    match Value(s)
    case Err(e) => Err(e)
    case Ok((item, rest)) =>
      var t := SkipWhitespace(rest);
      if t != "" && t[0] == ',' then Items(t[1..], items + [item])
      else if t != "" && t[0] == ']' then Ok((Array(items + [item]), t[1..]))
      else Err(Expected(']'))
  }

  /** The rest of an object after `fields`. */
  function Fields(s: string, fields: seq<Field>): (r: Parsed<Json>)
    ensures r.Ok? ==> |r.value.1| < |s|
    decreases |s|, 3
  {
    match StringLiteral(SkipWhitespace(s))
    case Err(e) => Err(e)
    case Ok((key, afterKey)) =>
      match Expect(SkipWhitespace(afterKey), ':')
      case Err(e) => Err(e)
      case Ok(afterColon) =>
        match Value(afterColon)
        case Err(e) => Err(e)
        case Ok((v, rest)) =>
          var t := SkipWhitespace(rest);
          if t != "" && t[0] == ',' then Fields(t[1..], Insert(fields, key, v))
          else if t != "" && t[0] == '}' then Ok((Object(Insert(fields, key, v)), t[1..]))
          else Err(Expected('}'))
  }

  /** A whole text: one value, with nothing but whitespace around it. */
  function Parse(text: string): Result<Json, JsonError> {
    match Value(SkipWhitespace(text))
    case Err(e) => Err(e)
    case Ok((v, rest)) =>
      var t := SkipWhitespace(rest);
      if t != "" then Err(Trailing(t[0])) else Ok(v)
  }

  // ---- reading undoes printing -----------------------------------------------------------------

  lemma {:induction false} EscapeReads(c: char, rest: string, out: string)
    ensures StringBody(Escape(c) + rest, out) == StringBody(rest, out + [c])
  {
    var s := Escape(c) + rest;
    if |Escape(c)| == 1 {
      assert s[1..] == rest;
    } else if |Escape(c)| == 2 {
      assert s[2..] == rest;
    } else {
      ControlReads(c, s[2..], rest);
    }
  }

  lemma {:induction false} ControlReads(c: char, s: string, rest: string)
    requires c as int < 0x20
    requires s == ['0', '0', HexDigit(c as int / 16), HexDigit(c as int % 16)] + rest
    ensures UnicodeEscape(s) == Ok((c, rest))
  {
    var high, low := c as int / 16, c as int % 16;
    assert HexValue(HexDigit(high)) == Some(high) && HexValue(HexDigit(low)) == Some(low);
    assert s[1..][1..][1..][1..] == rest;
    assert ReadHex(s[1..][1..][1..], 1, high) == Ok((high * 16 + low, rest));
    assert ReadHex(s[1..][1..], 2, 0) == ReadHex(s[1..][1..][1..], 1, high);
    assert ReadHex(s[1..], 3, 0) == ReadHex(s[1..][1..], 2, 0);
    assert ReadHex(s, 4, 0) == Ok((c as int, rest));
  }

  lemma {:induction false} EscapesRead(text: string, rest: string, out: string)
    ensures StringBody(EscapeAll(text) + "\"" + rest, out) == Ok((out + text, rest))
  {
    if text == "" {
      assert (EscapeAll(text) + "\"" + rest)[1..] == rest;
      assert out + text == out;
    } else {
      assert EscapeAll(text) + "\"" + rest == Escape(text[0]) + (EscapeAll(text[1..]) + "\"" + rest);
      EscapeReads(text[0], EscapeAll(text[1..]) + "\"" + rest, out);
      EscapesRead(text[1..], rest, out + [text[0]]);
      assert (out + [text[0]]) + text[1..] == out + text;
    }
  }

  lemma {:induction false} QuoteReads(text: string, rest: string)
    ensures StringLiteral(Quote(text) + rest) == Ok((text, rest))
  {
    EscapesRead(text, rest, "");
    assert "" + text == text;
    assert (Quote(text) + rest)[1..] == EscapeAll(text) + "\"" + rest;
  }

  /** What may follow a number without being read as part of it. */
  predicate Stops(rest: string) {
    rest != "" ==> !Decimal.IsDigit(rest[0]) && rest[0] != '.' && rest[0] != 'e' && rest[0] != 'E'
  }

  lemma {:induction false} DigitRunStops(digits: string, rest: string)
    requires Decimal.AllDigits(digits) && (rest != "" ==> !Decimal.IsDigit(rest[0]))
    ensures Decimal.DigitRun(digits + rest) == |digits|
  {
    if digits == "" {
      assert digits + rest == rest;
    } else {
      assert (digits + rest)[1..] == digits[1..] + rest;
      DigitRunStops(digits[1..], rest);
    }
  }

  lemma {:induction false} WholeReads(n: int, rest: string)
    requires -LIMIT < n < LIMIT && Stops(rest)
    ensures NumberToken(FormatWhole(n) + rest) == Ok((Number(n as real), rest))
  {
    var text := FormatWhole(n);
    var s := text + rest;
    WholeShape(n, rest);
    assert s[..|text|] == text && s[|text|..] == rest;
    WholeValueReads(n);
  }

  lemma {:induction false} WholeShape(n: int, rest: string)
    requires Stops(rest)
    ensures var shape := ShapeOf(FormatWhole(n) + rest); shape.valid && shape.length == |FormatWhole(n)|
  {
    hide Mantissa, Decimal.DigitRun, FormatWhole;
    var s := FormatWhole(n) + rest;
    MantissaReads(n, rest);
    assert s[|FormatWhole(n)|..] == rest;
    NoExponent(rest);
  }

  lemma {:induction false} NoExponent(rest: string)
    requires Stops(rest)
    ensures Exponent(rest) == (0, true)
  {
    hide Decimal.DigitRun;
  }

  lemma {:induction false} MantissaReads(n: int, rest: string)
    requires Stops(rest)
    ensures Mantissa(FormatWhole(n) + rest) == (|FormatWhole(n)|, |Decimal.Digits(if n < 0 then -n else n)|)
    ensures |Decimal.Digits(if n < 0 then -n else n)| > 0
  {
    hide Mantissa, Stops;
    var digits := Decimal.Digits(if n < 0 then -n else n);
    SignedMantissa(if n < 0 then "-" else "", digits, rest);
    assert FormatWhole(n) == (if n < 0 then "-" else "") + digits;
  }

  lemma {:induction false} SignedMantissa(sign: string, digits: string, rest: string)
    requires sign == "" || sign == "-"
    requires digits != "" && Decimal.AllDigits(digits) && Stops(rest)
    ensures Mantissa(sign + digits + rest) == (|sign| + |digits|, |digits|)
  {
    hide Decimal.DigitRun;
    var s := sign + digits + rest;
    DigitRunStops(digits, rest);
    assert Decimal.IsDigit(digits[0]);
    assert s[|sign|..] == digits + rest;
    assert s[|sign| + |digits|..] == rest;
    assert s[0] == if sign == "" then digits[0] else '-';
  }

  lemma {:induction false} WholeValueReads(n: int)
    ensures NumberValue(FormatWhole(n)) == n as real
  {
    var digits := Decimal.Digits(if n < 0 then -n else n);
    DigitsMagnitude(digits);
    Decimal.DigitsValue(if n < 0 then -n else n);
    if n < 0 {
      assert FormatWhole(n)[1..] == digits;
    }
  }

  lemma {:induction false} DigitsMagnitude(digits: string)
    requires Decimal.AllDigits(digits)
    ensures Magnitude(digits) == Decimal.Value(digits) as real
  {
    DigitRunStops(digits, "");
    assert digits + "" == digits;
    assert digits[..|digits|] + "" == digits;
  }

  lemma {:induction false} LiteralReads(word: string, v: Json, rest: string)
    ensures Literal(word + rest, word, v) == Ok((v, rest))
  {
    if word == "" {
      assert word + rest == rest;
    } else {
      assert (word + rest)[1..] == word[1..] + rest;
      LiteralReads(word[1..], v, rest);
    }
  }

  lemma {:induction false} SkipsPad(depth: nat, rest: string)
    requires rest != "" && !Utf.IsWhitespace(rest[0])
    ensures SkipWhitespace(Pad(depth) + rest) == rest
  {
    if depth == 0 {
      assert Pad(depth) + rest == rest;
    } else {
      SkipsPad(depth - 1, rest);
      var s := Pad(depth) + rest;
      assert s[1..][1..] == Pad(depth - 1) + rest;
      assert s[0] == ' ' && s[1..][0] == ' ';
    }
  }

  lemma {:induction false} SkipsGap(pretty: bool, depth: nat, rest: string)
    requires rest != "" && !Utf.IsWhitespace(rest[0])
    ensures SkipWhitespace(Gap(pretty, depth) + rest) == rest
  {
    var s := Gap(pretty, depth) + rest;
    if pretty {
      SkipsPad(depth, rest);
      assert s[1..] == Pad(depth) + rest;
    } else {
      assert s == rest;
    }
  }

  /** `text` does not start with whitespace, nor with a closing bracket. */
  predicate Begins(text: string) {
    text != "" && !Utf.IsWhitespace(text[0]) && text[0] != ']' && text[0] != '}'
  }

  /** Whatever follows it, `text` is read as `v` and the reader stops right after it. */
  ghost predicate Reads(text: string, v: Json) {
    Begins(text) && forall rest: string :: Stops(rest) ==> Value(text + rest) == Ok((v, rest))
  }

  /** The same of the text of a field. */
  ghost predicate ReadsField(text: string, f: Field) {
    exists quoted: string, printed: string :: FieldText(text, f, quoted, printed)
  }

  ghost predicate FieldText(text: string, f: Field, quoted: string, printed: string) {
    && (text == quoted + (":" + printed) || text == quoted + (": " + printed))
    && Begins(quoted) && (forall rest: string :: StringLiteral(quoted + rest) == Ok((f.key, rest)))
    && Reads(printed, f.value)
  }

  ghost predicate AllReadFields(parts: seq<string>, fields: seq<Field>) {
    |parts| == |fields| &&
    (parts == [] || (ReadsField(parts[0], fields[0]) && AllReadFields(parts[1..], fields[1..])))
  }

  // One step of the reader at a time, with what it reads left abstract.

  lemma {:induction false} ValueSkips(s: string)
    ensures Value(SkipWhitespace(s)) == Value(s)
  {
    assert SkipWhitespace(SkipWhitespace(s)) == SkipWhitespace(s);
  }

  lemma {:induction false} ItemsSkip(s: string, before: seq<Json>)
    ensures Items(SkipWhitespace(s), before) == Items(s, before)
  {
    ValueSkips(s);
  }

  lemma {:induction false} FieldsSkip(s: string, before: seq<Field>)
    ensures Fields(SkipWhitespace(s), before) == Fields(s, before)
  {
    assert SkipWhitespace(SkipWhitespace(s)) == SkipWhitespace(s);
  }

  lemma {:induction false} ItemsStep(s: string, item: Json, after: string, before: seq<Json>)
    requires Value(s) == Ok((item, after))
    ensures Items(s, before) == (var t := SkipWhitespace(after);
                                 if t != "" && t[0] == ',' then Items(t[1..], before + [item])
                                 else if t != "" && t[0] == ']' then Ok((Array(before + [item]), t[1..]))
                                 else Err(Expected(']')))
  {
  }

  lemma {:induction false} FieldsStep(
    s: string, f: Field, afterKey: string, afterColon: string, after: string, before: seq<Field>)
    requires StringLiteral(SkipWhitespace(s)) == Ok((f.key, afterKey))
    requires Expect(SkipWhitespace(afterKey), ':') == Ok(afterColon)
    requires Value(afterColon) == Ok((f.value, after))
    ensures Fields(s, before) == (var t := SkipWhitespace(after);
                                  if t != "" && t[0] == ',' then Fields(t[1..], Insert(before, f.key, f.value))
                                  else if t != "" && t[0] == '}'
                                       then Ok((Object(Insert(before, f.key, f.value)), t[1..]))
                                  else Err(Expected('}')))
  {
  }

  lemma {:induction false} CommaFollows(more: string)
    ensures SkipWhitespace("," + more) == "," + more && ("," + more)[1..] == more
  {
  }

  lemma {:induction false} GapStops(pretty: bool, depth: nat, rest: string)
    requires Stops(rest)
    ensures Stops(Gap(pretty, depth) + rest)
  {
    if !pretty {
      assert Gap(pretty, depth) + rest == rest;
    }
  }

  /** The first part, then what is left of a joined collection and its closing bracket. */
  lemma {:induction false} JoinUnfolds(parts: seq<string>, pretty: bool, depth: nat, close: string)
    requires parts != []
    ensures Join(parts, pretty, depth) + close
            == Gap(pretty, depth + 1) + (parts[0] + if |parts| == 1 then Gap(pretty, depth) + close
                                                    else "," + (Join(parts[1..], pretty, depth) + close))
  {
    var gap, first := Gap(pretty, depth + 1), parts[0];
    var tail := if |parts| == 1 then Gap(pretty, depth) else "," + Join(parts[1..], pretty, depth);
    Assoc(gap, first + tail, close);
    Assoc(first, tail, close);
    if |parts| > 1 {
      Assoc(",", Join(parts[1..], pretty, depth), close);
    }
  }

  /** A gap and then `text`: the reader skips to `text`. */
  lemma {:induction false} SkipsTo(pretty: bool, depth: nat, text: string, more: string)
    requires Begins(text)
    ensures SkipWhitespace(Gap(pretty, depth) + (text + more)) == text + more
  {
    assert (text + more)[0] == text[0];
    SkipsGap(pretty, depth, text + more);
  }

  // ---- arrays

  lemma {:induction false} ItemReads(text: string, item: Json, pretty: bool, depth: nat, after: string)
    requires Reads(text, item) && Stops(after)
    ensures Value(Gap(pretty, depth) + (text + after)) == Ok((item, after))
  {
    SkipsTo(pretty, depth, text, after);
    ValueSkips(Gap(pretty, depth) + (text + after));
  }

  lemma {:induction false} ItemsRead(
    parts: seq<string>, items: seq<Json>, before: seq<Json>, pretty: bool, depth: nat, rest: string)
    requires |parts| == |items| > 0 && forall k :: 0 <= k < |items| ==> Reads(parts[k], items[k])
    ensures Items(Join(parts, pretty, depth) + ("]" + rest), before) == Ok((Array(before + items), rest))
    decreases |items|
  {
    hide Value, Items, Fields, Join, Gap, Reads;
    var close := "]" + rest;
    JoinUnfolds(parts, pretty, depth, close);
    if |parts| == 1 {
      LastItemReads(parts[0], items[0], pretty, depth, rest, before);
      assert before + [items[0]] == before + items;
    } else {
      NextItemReads(parts[0], items[0], pretty, depth + 1, Join(parts[1..], pretty, depth) + close, before);
      ItemsRead(parts[1..], items[1..], before + [items[0]], pretty, depth, rest);
      assert before + [items[0]] + items[1..] == before + items;
    }
  }

  lemma {:induction false} NextItemReads(
    text: string, item: Json, pretty: bool, depth: nat, more: string, before: seq<Json>)
    requires Reads(text, item)
    ensures Items(Gap(pretty, depth) + (text + ("," + more)), before) == Items(more, before + [item])
  {
    hide Value;
    ItemReads(text, item, pretty, depth, "," + more);
    CommaFollows(more);
    ItemsStep(Gap(pretty, depth) + (text + ("," + more)), item, "," + more, before);
  }

  lemma {:induction false} LastItemReads(
    text: string, item: Json, pretty: bool, depth: nat, rest: string, before: seq<Json>)
    requires Reads(text, item)
    ensures Items(Gap(pretty, depth + 1) + (text + (Gap(pretty, depth) + ("]" + rest))), before)
            == Ok((Array(before + [item]), rest))
  {
    hide Value;
    var close := "]" + rest;
    GapStops(pretty, depth, close);
    ItemReads(text, item, pretty, depth + 1, Gap(pretty, depth) + close);
    SkipsGap(pretty, depth, close);
    assert close[1..] == rest;
    ItemsStep(Gap(pretty, depth + 1) + (text + (Gap(pretty, depth) + close)), item, Gap(pretty, depth) + close, before);
  }

  lemma {:induction false} ArrayReads(parts: seq<string>, items: seq<Json>, pretty: bool, depth: nat, rest: string)
    requires |parts| == |items| > 0 && forall k :: 0 <= k < |items| ==> Reads(parts[k], items[k])
    ensures Value("[" + Join(parts, pretty, depth) + "]" + rest) == Ok((Array(items), rest))
  {
    var inner := Join(parts, pretty, depth) + ("]" + rest);
    var s := "[" + Join(parts, pretty, depth) + "]" + rest;
    Encloses("[", Join(parts, pretty, depth), "]", rest);
    ItemsRead(parts, items, [], pretty, depth, rest);
    assert [] + items == items;
    JoinUnfolds(parts, pretty, depth, "]" + rest);
    var more := if |parts| == 1 then Gap(pretty, depth) + ("]" + rest)
      else "," + (Join(parts[1..], pretty, depth) + ("]" + rest));
    SkipsTo(pretty, depth + 1, parts[0], more);
    ItemsSkip(inner, []);
    OpensArray(s, parts[0] + more, Ok((Array(items), rest)));
  }

  lemma {:induction false} Encloses(open: string, inner: string, close: string, rest: string)
    requires |open| == 1
    ensures (open + inner + close + rest)[0] == open[0] && (open + inner + close + rest)[1..] == inner + (close + rest)
  {
  }

  lemma {:induction false} OpensArray(s: string, u: string, r: Parsed<Json>)
    requires s != "" && s[0] == '[' && u == SkipWhitespace(s[1..]) && u != "" && u[0] != ']' && Items(u, []) == r
    ensures Value(s) == r
  {
    assert SkipWhitespace(s) == s;
  }

  lemma {:induction false} EmptyArrayReads(rest: string)
    ensures Value("[]" + rest) == Ok((Array([]), rest))
  {
    var s := "[]" + rest;
    assert SkipWhitespace(s) == s && s[1..] == "]" + rest;
    assert SkipWhitespace(s[1..]) == s[1..] && s[1..][1..] == rest;
  }

  // ---- objects

  lemma {:induction false} FieldReads(
    text: string, f: Field, pretty: bool, depth: nat, after: string, before: seq<Field>)
    requires ReadsField(text, f) && Stops(after)
    ensures Fields(Gap(pretty, depth) + (text + after), before)
            == (var t := SkipWhitespace(after);
                if t != "" && t[0] == ',' then Fields(t[1..], Insert(before, f.key, f.value))
                else if t != "" && t[0] == '}' then Ok((Object(Insert(before, f.key, f.value)), t[1..]))
                else Err(Expected('}')))
  {
    var quoted, printed :| FieldText(text, f, quoted, printed);
    var spaced := text == quoted + (": " + printed);
    var afterColon := (if spaced then " " else "") + (printed + after);
    var s := Gap(pretty, depth) + (text + after);
    TextSplits(text, quoted, printed, after, spaced);
    SkipsTo(pretty, depth, quoted, ":" + afterColon);
    assert SkipWhitespace(":" + afterColon) == ":" + afterColon && (":" + afterColon)[1..] == afterColon;
    SpaceSkips(spaced, printed + after);
    assert (printed + after)[0] == printed[0];
    ValueSkips(afterColon);
    ValueSkips(printed + after);
    FieldsStep(s, f, ":" + afterColon, afterColon, after, before);
  }

  lemma {:induction false} Assoc(a: string, b: string, c: string)
    ensures (a + b) + c == a + (b + c)
  {
  }

  lemma {:induction false} TextSplits(text: string, quoted: string, printed: string, after: string, spaced: bool)
    requires text == quoted + (if spaced then ": " + printed else ":" + printed)
    ensures text + after == quoted + (":" + ((if spaced then " " else "") + (printed + after)))
  {
    var space := if spaced then " " else "";
    var colon := if spaced then ": " else ":";
    assert colon == ":" + space;
    assert text == quoted + (colon + printed);
    Assoc(quoted, colon + printed, after);
    Assoc(colon, printed, after);
    Assoc(":", space, printed + after);
  }

  lemma {:induction false} SpaceSkips(spaced: bool, text: string)
    ensures SkipWhitespace((if spaced then " " else "") + text) == SkipWhitespace(text)
  {
    if spaced {
      assert (" " + text)[1..] == text;
    } else {
      assert "" + text == text;
    }
  }

  predicate KeysBelow(fields: seq<Field>, key: string) {
    forall k :: 0 <= k < |fields| ==> Less(fields[k].key, key)
  }

  /** A key past every other is put at the end. */
  lemma {:induction false} InsertLast(fields: seq<Field>, key: string, v: Json)
    requires KeysBelow(fields, key)
    ensures Insert(fields, key, v) == fields + [Field(key, v)]
  {
    if fields != [] {
      LessIsStrict(fields[0].key, key);
      InsertLast(fields[1..], key, v);
    }
  }

  lemma {:induction false} KeysStayBelow(fields: seq<Field>, before: seq<Field>)
    requires |fields| > 1 && Ascending(fields) && KeysBelow(before, fields[0].key)
    ensures Ascending(fields[1..]) && KeysBelow(before + [fields[0]], fields[1..][0].key)
  {
    forall k | 0 <= k < |before|
      ensures Less(before[k].key, fields[1].key)
    {
      LessTransitive(before[k].key, fields[0].key, fields[1].key);
    }
  }

  lemma {:induction false} FieldsRead(
    parts: seq<string>, fields: seq<Field>, before: seq<Field>, pretty: bool, depth: nat, rest: string)
    requires fields != [] && AllReadFields(parts, fields)
    requires Ascending(fields) && KeysBelow(before, fields[0].key)
    ensures Fields(Join(parts, pretty, depth) + ("}" + rest), before) == Ok((Object(before + fields), rest))
    decreases |fields|
  {
    hide Value, Items, Fields, Less, Join, Gap, ReadsField, Insert, KeysBelow;
    var close := "}" + rest;
    JoinUnfolds(parts, pretty, depth, close);
    if |parts| == 1 {
      LastFieldReads(parts[0], fields[0], pretty, depth, rest, before);
      assert before + [fields[0]] == before + fields;
    } else {
      NextFieldReads(parts[0], fields[0], pretty, depth + 1, Join(parts[1..], pretty, depth) + close, before);
      KeysStayBelow(fields, before);
      FieldsRead(parts[1..], fields[1..], before + [fields[0]], pretty, depth, rest);
      assert before + [fields[0]] + fields[1..] == before + fields;
    }
  }

  lemma {:induction false} NextFieldReads(
    text: string, f: Field, pretty: bool, depth: nat, more: string, before: seq<Field>)
    requires ReadsField(text, f) && KeysBelow(before, f.key)
    ensures Fields(Gap(pretty, depth) + (text + ("," + more)), before) == Fields(more, before + [f])
  {
    hide Fields, Gap, Insert, Less, ReadsField;
    FieldReads(text, f, pretty, depth, "," + more, before);
    CommaFollows(more);
    InsertLast(before, f.key, f.value);
  }

  lemma {:induction false} LastFieldReads(
    text: string, f: Field, pretty: bool, depth: nat, rest: string, before: seq<Field>)
    requires ReadsField(text, f) && KeysBelow(before, f.key)
    ensures Fields(Gap(pretty, depth + 1) + (text + (Gap(pretty, depth) + ("}" + rest))), before)
            == Ok((Object(before + [f]), rest))
  {
    hide Fields, Gap, Insert, Less, ReadsField;
    var close := "}" + rest;
    GapStops(pretty, depth, close);
    FieldReads(text, f, pretty, depth + 1, Gap(pretty, depth) + close, before);
    SkipsGap(pretty, depth, close);
    assert close[1..] == rest;
    InsertLast(before, f.key, f.value);
  }

  lemma {:induction false} ObjectReads(parts: seq<string>, fields: seq<Field>, pretty: bool, depth: nat, rest: string)
    requires fields != [] && AllReadFields(parts, fields)
    requires Ascending(fields)
    ensures Value("{" + Join(parts, pretty, depth) + "}" + rest) == Ok((Object(fields), rest))
  {
    var inner := Join(parts, pretty, depth) + ("}" + rest);
    var s := "{" + Join(parts, pretty, depth) + "}" + rest;
    Encloses("{", Join(parts, pretty, depth), "}", rest);
    FieldsRead(parts, fields, [], pretty, depth, rest);
    assert [] + fields == fields;
    JoinUnfolds(parts, pretty, depth, "}" + rest);
    var more := if |parts| == 1 then Gap(pretty, depth) + ("}" + rest)
      else "," + (Join(parts[1..], pretty, depth) + ("}" + rest));
    FieldBegins(parts[0], fields[0]);
    SkipsTo(pretty, depth + 1, parts[0], more);
    FieldsSkip(inner, []);
    OpensObject(s, parts[0] + more, Ok((Object(fields), rest)));
  }

  lemma {:induction false} FieldBegins(text: string, f: Field)
    requires ReadsField(text, f)
    ensures Begins(text)
  {
    var quoted, printed :| FieldText(text, f, quoted, printed);
    assert text[0] == quoted[0];
  }

  lemma {:induction false} OpensObject(s: string, u: string, r: Parsed<Json>)
    requires s != "" && s[0] == '{' && u == SkipWhitespace(s[1..]) && u != "" && u[0] != '}' && Fields(u, []) == r
    ensures Value(s) == r
  {
    assert SkipWhitespace(s) == s;
  }

  lemma {:induction false} EmptyObjectReads(rest: string)
    ensures Value("{}" + rest) == Ok((Object([]), rest))
  {
    var s := "{}" + rest;
    assert SkipWhitespace(s) == s && s[1..] == "}" + rest;
    assert SkipWhitespace(s[1..]) == s[1..] && s[1..][1..] == rest;
  }

  // ---- any value

  lemma {:induction false} ScalarReads(v: Json, pretty: bool, depth: nat, rest: string)
    requires Printable(v) && Stops(rest) && !v.Array? && !v.Object?
    ensures Begins(Render(v, pretty, depth)) && Value(Render(v, pretty, depth) + rest) == Ok((v, rest))
  {
    match v
    case Null => LiteralReads("null", v, rest);
    case Bool(b) => LiteralReads(if b then "true" else "false", v, rest);
    case Number(value) => NumberReads(value.Floor, rest);
    case Str(t) => StrReads(t, rest);
  }

  lemma {:induction false} NumberReads(n: int, rest: string)
    requires -LIMIT < n < LIMIT && Stops(rest)
    ensures Begins(FormatWhole(n)) && Value(FormatWhole(n) + rest) == Ok((Number(n as real), rest))
  {
    hide NumberToken, Value;
    var text := FormatWhole(n);
    assert text[0] == '-' || Decimal.IsDigit(text[0]);
    var s := text + rest;
    assert s[0] == text[0];
    WholeReads(n, rest);
    ValueOfNumber(s);
  }

  lemma {:induction false} ValueOfNumber(s: string)
    requires s != "" && (s[0] == '-' || Decimal.IsDigit(s[0]))
    ensures Value(s) == NumberToken(s)
  {
    hide Items, Fields, NumberToken, StringLiteral, Literal;
    assert SkipWhitespace(s) == s;
  }

  lemma {:induction false} StrReads(t: string, rest: string)
    ensures Begins(Quote(t)) && Value(Quote(t) + rest) == Ok((Str(t), rest))
  {
    var s := Quote(t) + rest;
    assert s[0] == '"' && SkipWhitespace(s) == s;
    QuoteReads(t, rest);
  }

  lemma {:induction false} RenderReads(v: Json, pretty: bool, depth: nat)
    requires Printable(v)
    ensures Reads(Render(v, pretty, depth), v)
    decreases v, 1
  {
    hide Value, Items, Fields;
    forall rest: string | Stops(rest)
      ensures Begins(Render(v, pretty, depth)) && Value(Render(v, pretty, depth) + rest) == Ok((v, rest))
    {
      RenderReadsThen(v, pretty, depth, rest);
    }
    assert Stops("");
  }

  lemma {:induction false} RenderReadsThen(v: Json, pretty: bool, depth: nat, rest: string)
    requires Printable(v) && Stops(rest)
    ensures Begins(Render(v, pretty, depth)) && Value(Render(v, pretty, depth) + rest) == Ok((v, rest))
    decreases v, 0
  {
    hide Value, Items, Fields;
    match v
    case Array(items) =>
      if items == [] {
        EmptyArrayReads(rest);
      } else {
        ItemsReadEach(items, pretty, depth + 1);
        ArrayReads(RenderItems(items, pretty, depth + 1), items, pretty, depth, rest);
      }
    case Object(fields) =>
      if fields == [] {
        EmptyObjectReads(rest);
      } else {
        FieldsReadEach(fields, pretty, depth + 1);
        ObjectReads(RenderFields(fields, pretty, depth + 1), fields, pretty, depth, rest);
      }
    case _ => ScalarReads(v, pretty, depth, rest);
  }

  lemma {:induction false} ItemsReadEach(items: seq<Json>, pretty: bool, depth: nat)
    requires AllPrintable(items)
    ensures forall k :: 0 <= k < |items| ==> Reads(RenderItems(items, pretty, depth)[k], items[k])
    decreases items
  {
    if items != [] {
      RenderReads(items[0], pretty, depth);
      ItemsReadEach(items[1..], pretty, depth);
    }
  }

  lemma {:induction false} FieldsReadEach(fields: seq<Field>, pretty: bool, depth: nat)
    requires FieldsPrintable(fields)
    ensures AllReadFields(RenderFields(fields, pretty, depth), fields)
    decreases fields
  {
    if fields != [] {
      var quoted, printed := Quote(fields[0].key), Render(fields[0].value, pretty, depth);
      RenderReads(fields[0].value, pretty, depth);
      forall rest: string
        ensures StringLiteral(quoted + rest) == Ok((fields[0].key, rest))
      {
        QuoteReads(fields[0].key, rest);
      }
      assert FieldText(quoted + (Colon(pretty) + printed), fields[0], quoted, printed);
      FieldsReadEach(fields[1..], pretty, depth);
    }
  }

  /** Parsing either printed form gives the value back. */
  lemma {:induction false} ParseUndoesPrinting(v: Json, pretty: bool)
    requires Printable(v)
    ensures Parse(Render(v, pretty, 0)) == Ok(v)
  {
    var text := Render(v, pretty, 0);
    RenderReads(v, pretty, 0);
    assert Stops("") && text + "" == text;
    assert SkipWhitespace(text) == text;
  }

  // ---- compact output is one line ---------------------------------------------------------------

  predicate NoControls(s: string) {
    forall k :: 0 <= k < |s| ==> s[k] as int >= 0x20
  }

  lemma {:induction false} EscapesHaveNoControls(s: string)
    ensures NoControls(EscapeAll(s))
  {
    if s != "" {
      EscapesHaveNoControls(s[1..]);
      assert NoControls(Escape(s[0]));
    }
  }

  lemma {:induction false} CompactHasNoControls(v: Json, depth: nat)
    requires Printable(v)
    ensures NoControls(Render(v, false, depth))
    decreases v, 1
  {
    match v
    case Number(value) => assert NoControls(FormatWhole(value.Floor));
    case Str(text) => EscapesHaveNoControls(text);
    case Array(items) =>
      if items != [] {
        ItemsHaveNoControls(items, depth + 1);
        JoinHasNoControls(RenderItems(items, false, depth + 1), depth);
      }
    case Object(fields) =>
      if fields != [] {
        FieldsHaveNoControls(fields, depth + 1);
        JoinHasNoControls(RenderFields(fields, false, depth + 1), depth);
      }
    case _ =>
  }

  lemma {:induction false} JoinHasNoControls(parts: seq<string>, depth: nat)
    requires parts != [] && forall k :: 0 <= k < |parts| ==> NoControls(parts[k])
    ensures NoControls(Join(parts, false, depth))
  {
    if |parts| > 1 {
      JoinHasNoControls(parts[1..], depth);
    }
  }

  lemma {:induction false} ItemsHaveNoControls(items: seq<Json>, depth: nat)
    requires AllPrintable(items)
    ensures forall k :: 0 <= k < |items| ==> NoControls(RenderItems(items, false, depth)[k])
    decreases items
  {
    if items != [] {
      CompactHasNoControls(items[0], depth);
      ItemsHaveNoControls(items[1..], depth);
    }
  }

  lemma {:induction false} FieldsHaveNoControls(fields: seq<Field>, depth: nat)
    requires FieldsPrintable(fields)
    ensures forall k :: 0 <= k < |fields| ==> NoControls(RenderFields(fields, false, depth)[k])
    decreases fields
  {
    if fields != [] {
      EscapesHaveNoControls(fields[0].key);
      assert NoControls(Quote(fields[0].key));
      CompactHasNoControls(fields[0].value, depth);
      FieldsHaveNoControls(fields[1..], depth);
    }
  }
}
