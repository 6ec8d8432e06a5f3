/** The two writers, which push into one growing text, and the reader, which advances one position. */
module JsonText {
  import opened Json
  import opened Wrappers
  import Decimal
  import Utf

  // ---- writing -----------------------------------------------------------------------------

  method WriteString(value: string, out: string) returns (r: string)
    ensures r == out + Quote(value)
  {
    r := out + "\"";
    for k := 0 to |value|
      invariant r + EscapeAll(value[k..]) == out + "\"" + EscapeAll(value)
    {
      assert value[k..][0] == value[k] && value[k..][1..] == value[k + 1..];
      Assoc(r, Escape(value[k]), EscapeAll(value[k + 1..]));
      r := r + Escape(value[k]);
    }
    assert r == out + "\"" + EscapeAll(value);
    Assoc(out, "\"", EscapeAll(value));
    Assoc(out, "\"" + EscapeAll(value), "\"");
    r := r + "\"";
  }

  /** What the compact loop still has to write before part `k`. */
  ghost function CompactRest(parts: seq<string>, k: nat, depth: nat): string
    requires k <= |parts|
  {
    if k == |parts| then "" else (if k == 0 then "" else ",") + Join(parts[k..], false, depth)
  }

  lemma {:induction false} CompactStep(parts: seq<string>, k: nat, depth: nat, out: string)
    requires k < |parts|
    ensures out + CompactRest(parts, k, depth)
            == out + (if k > 0 then "," else "") + parts[k] + CompactRest(parts, k + 1, depth)
  {
    var comma := if k > 0 then "," else "";
    var further := CompactRest(parts, k + 1, depth);
    assert parts[k..][0] == parts[k] && parts[k..][1..] == parts[k + 1..];
    assert Join(parts[k..], false, depth) == parts[k] + further;
    Assoc(out + comma, parts[k], further);
    Assoc(out, comma, parts[k] + further);
  }

  /** What the indented loop still has to write before part `k`, the cursor being at the start of a line. */
  ghost function PrettyRest(parts: seq<string>, k: nat, depth: nat): string
    requires k <= |parts|
  {
    if k == |parts| then Pad(depth)
    else Pad(depth + 1) + (parts[k] + if k + 1 == |parts| then Gap(true, depth)
         else "," + Join(parts[k + 1..], true, depth))
  }

  lemma {:induction false} JoinIsNewlineThenRest(parts: seq<string>, k: nat, depth: nat)
    requires k < |parts|
    ensures Join(parts[k..], true, depth) == "\n" + PrettyRest(parts, k, depth)
  {
    assert parts[k..][0] == parts[k] && parts[k..][1..] == parts[k + 1..];
    var tail := if k + 1 == |parts| then Gap(true, depth) else "," + Join(parts[k + 1..], true, depth);
    Assoc("\n", Pad(depth + 1), parts[k] + tail);
  }

  lemma {:induction false} PrettyStep(parts: seq<string>, k: nat, depth: nat, out: string)
    requires k < |parts|
    ensures out + PrettyRest(parts, k, depth)
            == out + Pad(depth + 1) + parts[k] + (if k + 1 < |parts| then "," else "") + "\n"
              + PrettyRest(parts, k + 1, depth)
  {
    var pad, part, further := Pad(depth + 1), parts[k], PrettyRest(parts, k + 1, depth);
    var comma := if k + 1 < |parts| then "," else "";
    if k + 1 < |parts| {
      JoinIsNewlineThenRest(parts, k + 1, depth);
    } else {
      assert comma + ("\n" + further) == "\n" + further;
    }
    assert PrettyRest(parts, k, depth) == pad + (part + (comma + ("\n" + further)));
    Assoc(out, pad, part + (comma + ("\n" + further)));
    Assoc(out + pad, part, comma + ("\n" + further));
    Assoc(out + pad + part, comma, "\n" + further);
    Assoc(out + pad + part + comma, "\n", further);
  }

  lemma {:induction false} ItemPart(items: seq<Json>, pretty: bool, depth: nat, k: nat)
    requires AllPrintable(items) && k < |items|
    ensures Printable(items[k]) && RenderItems(items, pretty, depth)[k] == Render(items[k], pretty, depth)
  {
    if k > 0 {
      ItemPart(items[1..], pretty, depth, k - 1);
    }
  }

  lemma {:induction false} FieldPart(fields: seq<Field>, pretty: bool, depth: nat, k: nat)
    requires FieldsPrintable(fields) && k < |fields|
    ensures Printable(fields[k].value)
    ensures RenderFields(fields, pretty, depth)[k]
            == Quote(fields[k].key) + (Colon(pretty) + Render(fields[k].value, pretty, depth))
  {
    if k > 0 {
      FieldPart(fields[1..], pretty, depth, k - 1);
    }
  }

  /** One line, whatever the nesting. */
  method WriteCompact(v: Json, out: string, ghost depth: nat) returns (r: string)
    requires Printable(v)
    ensures r == out + Render(v, false, depth)
    decreases v, 1
  {
    match v
    case Null => r := out + "null";
    case Bool(b) => r := out + (if b then "true" else "false");
    case Number(value) => r := out + FormatWhole(value.Floor);
    case Str(text) => r := WriteString(text, out);
    case Array(items) =>
      r := CompactItems(items, out + "[", depth);
      r := r + "]";
      if items == [] {
        assert out + "[" + "" + "]" == out + "[]";
      } else {
        Bracketed(out, "[", Join(RenderItems(items, false, depth + 1), false, depth), "]");
      }
    case Object(fields) =>
      r := CompactFields(fields, out + "{", depth);
      r := r + "}";
      if fields == [] {
        assert out + "{" + "" + "}" == out + "{}";
      } else {
        Bracketed(out, "{", Join(RenderFields(fields, false, depth + 1), false, depth), "}");
      }
  }

  lemma {:induction false} Bracketed(out: string, open: string, inner: string, close: string)
    ensures out + open + inner + close == out + (open + inner + close)
  {
  }

  method CompactItems(items: seq<Json>, out: string, ghost depth: nat) returns (r: string)
    requires AllPrintable(items)
    ensures r == out + if items == [] then "" else Join(RenderItems(items, false, depth + 1), false, depth)
    decreases items, 0
  {
    hide Render, RenderItems, Join, Printable, AllPrintable;
    ghost var parts := RenderItems(items, false, depth + 1);
    r := out;
    CompactStarts(parts, depth, out);
    for k := 0 to |items|
      invariant r + CompactRest(parts, k, depth) == out + CompactRest(parts, 0, depth)
    {
      ItemPart(items, false, depth + 1, k);
      CompactStep(parts, k, depth, r);
      r := r + (if k > 0 then "," else "");
      r := WriteCompact(items[k], r, depth + 1);
    }
    assert r + "" == r;
  }

  lemma {:induction false} CompactStarts(parts: seq<string>, depth: nat, out: string)
    ensures out + CompactRest(parts, 0, depth) == out + if parts == [] then "" else Join(parts, false, depth)
  {
    if parts != [] {
      assert parts[0..] == parts;
      assert "" + Join(parts, false, depth) == Join(parts, false, depth);
    }
  }

  method CompactFields(fields: seq<Field>, out: string, ghost depth: nat) returns (r: string)
    requires FieldsPrintable(fields)
    ensures r == out + if fields == [] then "" else Join(RenderFields(fields, false, depth + 1), false, depth)
    decreases fields, 0
  {
    hide Render, RenderFields, Join, Printable, FieldsPrintable;
    ghost var parts := RenderFields(fields, false, depth + 1);
    r := out;
    CompactStarts(parts, depth, out);
    for k := 0 to |fields|
      invariant r + CompactRest(parts, k, depth) == out + CompactRest(parts, 0, depth)
    {
      FieldPart(fields, false, depth + 1, k);
      CompactStep(parts, k, depth, r);
      r := r + (if k > 0 then "," else "");
      ghost var before := r;
      r := WriteString(fields[k].key, r);
      r := r + ":";
      r := WriteCompact(fields[k].value, r, depth + 1);
      Assoc(before, Quote(fields[k].key), ":" + Render(fields[k].value, false, depth + 1));
      Assoc(before + Quote(fields[k].key), ":", Render(fields[k].value, false, depth + 1));
    }
    assert r + "" == r;
  }

  method Repeat(depth: nat) returns (pad: string)
    ensures pad == Pad(depth)
  {
    pad := "";
    for k := 0 to depth
      invariant pad == Pad(k)
    {
      Pads(k);
      pad := pad + "  ";
    }
  }

  lemma {:induction false} Pads(k: nat)
    ensures Pad(k) + "  " == Pad(k + 1)
  {
    if k > 0 {
      Pads(k - 1);
      Assoc("  ", Pad(k - 1), "  ");
    }
  }

  /** Indented by two spaces for each level. */
  method WritePretty(v: Json, out: string, depth: nat) returns (r: string)
    requires Printable(v)
    ensures r == out + Render(v, true, depth)
    decreases v, 1
  {
    hide Join, RenderItems, RenderFields, PrettyRest, Ascending;
    if v.Array? && v.items != [] {
      ghost var parts := RenderItems(v.items, true, depth + 1);
      r := PrettyItems(v.items, out + "[\n", depth);
      r := r + "]";
      PrettyBrackets(out, "[", parts, depth, "]");
    } else if v.Object? && v.fields != [] {
      ghost var parts := RenderFields(v.fields, true, depth + 1);
      r := PrettyFields(v.fields, out + "{\n", depth);
      r := r + "}";
      PrettyBrackets(out, "{", parts, depth, "}");
    } else {
      r := WriteCompact(v, out, depth);
    }
  }

  lemma {:induction false} PrettyBrackets(out: string, open: string, parts: seq<string>, depth: nat, close: string)
    requires parts != []
    ensures out + (open + "\n") + PrettyRest(parts, 0, depth) + close == out + (open + Join(parts, true, depth) + close)
  {
    assert parts[0..] == parts;
    JoinIsNewlineThenRest(parts, 0, depth);
    Assoc(out, open + "\n", PrettyRest(parts, 0, depth));
    Assoc(open, "\n", PrettyRest(parts, 0, depth));
    Assoc(out, open + Join(parts, true, depth), close);
  }

  method PrettyItems(items: seq<Json>, out: string, depth: nat) returns (r: string)
    requires AllPrintable(items)
    ensures r == out + PrettyRest(RenderItems(items, true, depth + 1), 0, depth)
    decreases items, 0
  {
    hide Render, RenderItems, Join, Printable, AllPrintable;
    ghost var parts := RenderItems(items, true, depth + 1);
    var innerPad := Repeat(depth + 1);
    r := out;
    for k := 0 to |items|
      invariant r + PrettyRest(parts, k, depth) == out + PrettyRest(parts, 0, depth)
    {
      ItemPart(items, true, depth + 1, k);
      PrettyStep(parts, k, depth, r);
      r := WritePretty(items[k], r + innerPad, depth + 1);
      r := r + (if k + 1 < |items| then "," else "") + "\n";
    }
    var pad := Repeat(depth);
    r := r + pad;
  }

  method PrettyFields(fields: seq<Field>, out: string, depth: nat) returns (r: string)
    requires FieldsPrintable(fields)
    ensures r == out + PrettyRest(RenderFields(fields, true, depth + 1), 0, depth)
    decreases fields, 0
  {
    hide Render, RenderFields, Join, Printable, FieldsPrintable;
    ghost var parts := RenderFields(fields, true, depth + 1);
    var innerPad := Repeat(depth + 1);
    r := out;
    for k := 0 to |fields|
      invariant r + PrettyRest(parts, k, depth) == out + PrettyRest(parts, 0, depth)
    {
      FieldPart(fields, true, depth + 1, k);
      PrettyStep(parts, k, depth, r);
      ghost var before := r + innerPad;
      r := WriteString(fields[k].key, r + innerPad);
      r := r + ": ";
      r := WritePretty(fields[k].value, r, depth + 1);
      Assoc(before, Quote(fields[k].key), ": " + Render(fields[k].value, true, depth + 1));
      Assoc(before + Quote(fields[k].key), ": ", Render(fields[k].value, true, depth + 1));
      r := r + (if k + 1 < |fields| then "," else "") + "\n";
    }
    var pad := Repeat(depth);
    r := r + pad;
  }

  /** Both printed forms are read back, and the compact one is a single line. */
  method RoundTrip(v: Json) returns (compact: string, pretty: string)
    requires Printable(v)
    ensures Parse(compact) == Ok(v) && Parse(pretty) == Ok(v) && NoControls(compact)
  {
    compact := WriteCompact(v, "", 0);
    pretty := WritePretty(v, "", 0);
    assert compact == Render(v, false, 0) && pretty == Render(v, true, 0);
    ParseUndoesPrinting(v, false);
    ParseUndoesPrinting(v, true);
    CompactHasNoControls(v, 0);
  }

  // ---- reading ------------------------------------------------------------------------------

  /** A method's answer and what it leaves unread agree with the function it follows. */
  ghost predicate Agrees<T>(spec: Parsed<T>, r: Result<T, JsonError>, rest: string) {
    match spec
    case Ok((v, left)) => r == Ok(v) && rest == left
    case Err(e) => r == Err(e)
  }

  class JsonParser {
    const chars: string
    var position: nat

    constructor (text: string)
      ensures chars == text && position == 0
    {
      chars := text;
      position := 0;
    }

    ghost predicate Valid()
      reads this
    {
      position <= |chars|
    }

    /** The characters not read yet. */
    ghost function Rest(): string
      requires Valid()
      reads this
    {
      chars[position..]
    }

    function Peek(): (c: Option<char>)
      requires Valid()
      reads this
      ensures c == if Rest() == "" then None else Some(Rest()[0])
    {
      if position < |chars| then Some(chars[position]) else None
    }

    /** Steps over one character. */
    method Step()
      requires Valid() && position < |chars|
      modifies this`position
      ensures Valid() && position == old(position) + 1 && Rest() == old(Rest())[1..]
    {
      position := position + 1;
    }

    method SkipSpace()
      requires Valid()
      modifies this`position
      ensures Valid() && position >= old(position) && Rest() == SkipWhitespace(old(Rest()))
    {
      while Peek().Some? && Utf.IsWhitespace(Peek().value)
        invariant Valid() && position >= old(position)
        invariant SkipWhitespace(Rest()) == SkipWhitespace(old(Rest()))
        decreases |chars| - position
      {
        Step();
      }
    }

    method ExpectChar(expected: char) returns (r: Result<(), JsonError>)
      requires Valid()
      modifies this`position
      ensures Valid() && position >= old(position)
      ensures match Expect(old(Rest()), expected)
              case Ok(rest) => r == Ok(()) && Rest() == rest && position > old(position)
              case Err(e) => r == Err(e)
    {
      if Peek() == Some(expected) {
        Step();
        return Ok(());
      }
      return Err(Expected(expected));
    }

    method ReadLiteral(word: string, value: Json) returns (r: Result<Json, JsonError>)
      requires Valid()
      modifies this`position
      ensures Valid() && position >= old(position) && Agrees(Literal(old(Rest()), word, value), r, Rest())
    {
      for k := 0 to |word|
        invariant Valid() && position >= old(position)
        invariant Literal(Rest(), word[k..], value) == Literal(old(Rest()), word, value)
      {
        assert word[k..][0] == word[k] && word[k..][1..] == word[k + 1..];
        var matched := ExpectChar(word[k]);
        if matched.Err? {
          return Err(matched.error);
        }
      }
      return Ok(value);
    }

    method ReadHex4() returns (r: Result<nat, JsonError>)
      requires Valid()
      modifies this`position
      ensures Valid() && position >= old(position) && Agrees(ReadHex(old(Rest()), 4, 0), r, Rest())
    {
      var value: nat := 0;
      for k := 0 to 4
        invariant Valid() && position >= old(position)
        invariant ReadHex(Rest(), 4 - k, value) == ReadHex(old(Rest()), 4, 0)
      {
        if position == |chars| {
          return Err(ShortEscape);
        }
        var c := chars[position];
        Step();
        match HexValue(c)
        case None => return Err(NotHex(c));
        case Some(d) => value := value * 16 + d;
      }
      return Ok(value);
    }

    method ReadUnicodeEscape() returns (r: Result<char, JsonError>)
      requires Valid()
      modifies this`position
      ensures Valid() && position >= old(position) && Agrees(UnicodeEscape(old(Rest())), r, Rest())
    {
      var high := ReadHex4();
      if high.Err? {
        return Err(high.error);
      }
      if 0xd800 <= high.value < 0xdc00 {
        if Peek() == Some('\\') && position + 1 < |chars| && chars[position + 1] == 'u' {
          assert Rest()[1] == 'u' && Rest()[1..][1..] == Rest()[2..];
          Step();
          Step();
          var low := ReadHex4();
          if low.Err? {
            return Err(low.error);
          }
          if 0xdc00 <= low.value < 0xe000 {
            r := CharOf(0x1_0000 + (high.value - 0xd800) * 0x400 + (low.value - 0xdc00));
            return;
          }
          return Err(LoneSurrogate);
        }
        return Err(LoneSurrogate);
      }
      r := CharOf(high.value);
    }

    method ReadString() returns (r: Result<string, JsonError>)
      requires Valid()
      modifies this`position
      ensures Valid() && position >= old(position) && (r.Ok? ==> position > old(position))
      ensures Agrees(StringLiteral(old(Rest())), r, Rest())
    {
      var bracket := ExpectChar('"');
      if bracket.Err? {
        return Err(bracket.error);
      }
      var out := "";
      while true
        invariant Valid() && position > old(position)
        invariant StringBody(Rest(), out) == StringLiteral(old(Rest()))
        decreases |chars| - position
      {
        if position == |chars| {
          return Err(Unterminated);
        }
        var c := chars[position];
        ghost var before := Rest();
        Step();
        if c == '"' {
          return Ok(out);
        }
        if c != '\\' {
          out := out + [c];
          continue;
        }
        if position == |chars| {
          return Err(Unterminated);
        }
        var escaped := chars[position];
        assert before[1] == escaped && before[2..] == before[1..][1..];
        Step();
        if escaped == 'u' {
          var decoded := ReadUnicodeEscape();
          if decoded.Err? {
            return Err(decoded.error);
          }
          out := out + [decoded.value];
          continue;
        }
        match SimpleEscape(escaped)
        case None => return Err(UnknownEscape(escaped));
        case Some(plain) => out := out + [plain];
      }
    }

    method SkipDigits()
      requires Valid()
      modifies this`position
      ensures Valid() && position == old(position) + Decimal.DigitRun(old(Rest()))
    {
      while Peek().Some? && Decimal.IsDigit(Peek().value)
        invariant Valid() && old(position) <= position
        invariant position + Decimal.DigitRun(Rest()) == old(position) + Decimal.DigitRun(old(Rest()))
        decreases |chars| - position
      {
        Step();
      }
    }

    /** What is left at `position` is a suffix of what was left at `start`. */
    lemma {:induction false} RestFrom(start: nat)
      requires Valid() && start <= position
      ensures Rest() == chars[start..][position - start..]
    {
    }

    method SkipFraction() returns (digits: nat)
      requires Valid()
      modifies this`position
      ensures Valid() && (position - old(position), digits) == Fraction(old(Rest())) && position >= old(position)
    {
      digits := 0;
      if position < |chars| && chars[position] == '.' {
        RestFrom(position);
        position := position + 1;
        var from := position;
        assert Rest() == old(Rest())[1..];
        SkipDigits();
        digits := position - from;
      }
    }

    static lemma {:induction false} MantissaAt(text: string, start: nat)
      requires start <= |text|
      ensures var sign := if start < |text| && text[start] == '-' then 1 else 0;
              var digits := Decimal.DigitRun(text[start + sign..]);
              var fraction := Fraction(text[start + sign + digits..]);
              Mantissa(text[start..]) == (sign + digits + fraction.0, digits + fraction.1)
    {
      hide Decimal.DigitRun, Fraction;
      var s := text[start..];
      var sign := if start < |text| && text[start] == '-' then 1 else 0;
      assert s[sign..] == text[start + sign..];
      var digits := Decimal.DigitRun(s[sign..]);
      assert s[sign + digits..] == text[start + sign + digits..];
    }

    method SkipMantissa() returns (digits: nat)
      requires Valid()
      modifies this`position
      ensures Valid() && (position - old(position), digits) == Mantissa(old(Rest())) && position >= old(position)
    {
      hide Decimal.DigitRun, Fraction, Mantissa;
      MantissaAt(chars, position);
      if position < |chars| && chars[position] == '-' {
        position := position + 1;
      }
      var first := position;
      SkipDigits();
      digits := position - first;
      var more := SkipFraction();
      digits := digits + more;
    }

    method SkipExponent() returns (fits: bool)
      requires Valid()
      modifies this`position
      ensures Valid() && (position - old(position), fits) == Exponent(old(Rest())) && position >= old(position)
    {
      hide Decimal.DigitRun;
      ghost var start := position;
      fits := true;
      if position < |chars| && (chars[position] == 'e' || chars[position] == 'E') {
        position := position + 1;
        if position < |chars| && (chars[position] == '+' || chars[position] == '-') {
          position := position + 1;
        }
        RestFrom(start);
        var from := position;
        SkipDigits();
        fits := position > from;
      }
    }

    method ReadNumber() returns (r: Result<Json, JsonError>)
      requires Valid()
      modifies this`position
      ensures Valid() && position >= old(position) && Agrees(NumberToken(old(Rest())), r, Rest())
    {
      hide Mantissa, Exponent, NumberValue;
      var start := position;
      ghost var s := Rest();
      var digits := SkipMantissa();
      RestFrom(start);
      var exponentFits := SkipExponent();
      RestFrom(start);
      var text := chars[start..position];
      assert text == s[..position - start];
      if !(digits > 0 && exponentFits) {
        return Err(BadNumber(text));
      }
      return Ok(Number(NumberValue(text)));
    }

    method ReadValue() returns (r: Result<Json, JsonError>)
      requires Valid()
      modifies this`position
      ensures Valid() && position >= old(position) && (r.Ok? ==> position > old(position))
      ensures Agrees(Value(old(Rest())), r, Rest())
      decreases |chars| - position, 2
    {
      ghost var s := Rest();
      SkipSpace();
      ghost var t := Rest();
      ValueByFirst(s, t);
      match Peek()
      case None => return Err(UnexpectedEnd);
      case Some(c) =>
        if c == '{' {
          r := ReadObject();
        } else if c == '[' {
          r := ReadArray();
        } else if c == '"' {
          var text := ReadString();
          if text.Err? {
            return Err(text.error);
          }
          return Ok(Str(text.value));
        } else if c == 't' {
          r := ReadLiteral("true", Bool(true));
        } else if c == 'f' {
          r := ReadLiteral("false", Bool(false));
        } else if c == 'n' {
          r := ReadLiteral("null", Null);
        } else if c == '-' || Decimal.IsDigit(c) {
          r := ReadNumber();
        } else {
          return Err(Unexpected(c));
        }
    }

    static lemma {:induction false} ValueByFirst(s: string, t: string)
      requires t == SkipWhitespace(s)
      ensures t != "" && t[0] == '{' ==> Value(s) == ObjectAfter(t)
      ensures t != "" && t[0] == '[' ==> Value(s) == ArrayAfter(t)
    {
    }

    static function ObjectAfter(t: string): Parsed<Json>
      requires t != "" && t[0] == '{'
    {
      var u := SkipWhitespace(t[1..]);
      if u != "" && u[0] == '}' then Ok((Object([]), u[1..])) else Fields(u, [])
    }

    static function ArrayAfter(t: string): Parsed<Json>
      requires t != "" && t[0] == '['
    {
      var u := SkipWhitespace(t[1..]);
      if u != "" && u[0] == ']' then Ok((Array([]), u[1..])) else Items(u, [])
    }

    method ReadArray() returns (r: Result<Json, JsonError>)
      requires Valid() && position < |chars| && chars[position] == '['
      modifies this`position
      ensures Valid() && position >= old(position) && (r.Ok? ==> position > old(position))
      ensures Agrees(ArrayAfter(old(Rest())), r, Rest())
      decreases |chars| - position, 1
    {
      hide Value;
      var bracket := ExpectChar('[');
      assert bracket.Ok?;
      var items: seq<Json> := [];
      SkipSpace();
      if Peek() == Some(']') {
        Step();
        return Ok(Array(items));
      }
      ghost var goal := Items(Rest(), []);
      while true
        invariant Valid() && position > old(position)
        invariant Items(Rest(), items) == goal
        decreases |chars| - position
      {
        var item := ReadValue();
        if item.Err? {
          return Err(item.error);
        }
        items := items + [item.value];
        SkipSpace();
        match Peek()
        case Some(',') => Step();
        case Some(']') =>
          Step();
          return Ok(Array(items));
        case _ => return Err(Expected(']'));
      }
    }

    method ReadObject() returns (r: Result<Json, JsonError>)
      requires Valid() && position < |chars| && chars[position] == '{'
      modifies this`position
      ensures Valid() && position >= old(position) && (r.Ok? ==> position > old(position))
      ensures Agrees(ObjectAfter(old(Rest())), r, Rest())
      decreases |chars| - position, 1
    {
      hide Value, StringLiteral, Insert;
      var bracket := ExpectChar('{');
      assert bracket.Ok?;
      var fields: seq<Field> := [];
      SkipSpace();
      if Peek() == Some('}') {
        Step();
        return Ok(Object(fields));
      }
      ghost var goal := Fields(Rest(), []);
      while true
        invariant Valid() && position > old(position)
        invariant Fields(Rest(), fields) == goal
        decreases |chars| - position
      {
        SkipSpace();
        var key := ReadString();
        if key.Err? {
          return Err(key.error);
        }
        SkipSpace();
        var colon := ExpectChar(':');
        if colon.Err? {
          return Err(colon.error);
        }
        var value := ReadValue();
        if value.Err? {
          return Err(value.error);
        }
        fields := Insert(fields, key.value, value.value);
        SkipSpace();
        match Peek()
        case Some(',') => Step();
        case Some('}') =>
          Step();
          return Ok(Object(fields));
        case _ => return Err(Expected('}'));
      }
    }
  }

  method ParseText(text: string) returns (r: Result<Json, JsonError>)
    ensures r == Parse(text)
  {
    hide Value;
    var parser := new JsonParser(text);
    parser.SkipSpace();
    var value := parser.ReadValue();
    if value.Err? {
      return Err(value.error);
    }
    parser.SkipSpace();
    if parser.position < |parser.chars| {
      return Err(Trailing(parser.chars[parser.position]));
    }
    return value;
  }
}
