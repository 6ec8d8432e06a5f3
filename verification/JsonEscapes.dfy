/** Escapes in JSON strings: every character can be written by its code, and halves of pairs cannot stand alone. */
module JsonEscapes {
  import opened Json
  import opened TextOrder
  import opened Wrappers
  import Decimal

  /** A hexadecimal digit with letters of either case. */
  function HexOf(d: nat, upper: bool): char
    requires d < 16
  {
    if d < 10 then ['0', '1', '2', '3', '4', '5', '6', '7', '8', '9'][d]
    else if upper then ['A', 'B', 'C', 'D', 'E', 'F'][d - 10]
    else ['a', 'b', 'c', 'd', 'e', 'f'][d - 10]
  }

  /** Four digits, the highest first. */
  function HexText(n: nat, upper: bool): string
    requires n < 0x1_0000
  {
    [HexOf(n / 4096, upper), HexOf(n / 256 % 16, upper), HexOf(n / 16 % 16, upper), HexOf(n % 16, upper)]
  }

  lemma {:induction false} HexOfReads(d: nat, upper: bool)
    requires d < 16
    ensures HexValue(HexOf(d, upper)) == Some(d)
  {
  }

  lemma {:induction false} ReadHexStep(c: char, d: nat, rest: string, count: nat, value: nat)
    requires count > 0 && HexValue(c) == Some(d)
    ensures ReadHex([c] + rest, count, value) == ReadHex(rest, count - 1, value * 16 + d)
  {
    hide HexValue;
    assert ([c] + rest)[1..] == rest;
  }

  lemma {:induction false} HexReads(n: nat, upper: bool, rest: string)
    requires n < 0x1_0000
    ensures ReadHex(HexText(n, upper) + rest, 4, 0) == Ok((n, rest))
  {
    hide HexOf, HexValue, ReadHex;
    var a, b, c, d := n / 4096, n / 256 % 16, n / 16 % 16, n % 16;
    var last := [HexOf(d, upper)] + rest;
    var third := [HexOf(c, upper)] + last;
    var second := [HexOf(b, upper)] + third;
    assert HexText(n, upper) + rest == [HexOf(a, upper)] + second;
    OneDigit(a, upper, second, 4, 0, a);
    OneDigit(b, upper, third, 3, a, n / 256);
    OneDigit(c, upper, last, 2, n / 256, n / 16);
    OneDigit(d, upper, rest, 1, n / 16, n);
    NoHexLeft(rest, n);
  }

  lemma {:induction false} OneDigit(d: nat, upper: bool, rest: string, count: nat, value: nat, next: nat)
    requires d < 16 && count > 0 && next == value * 16 + d
    ensures ReadHex([HexOf(d, upper)] + rest, count, value) == ReadHex(rest, count - 1, next)
  {
    hide HexOf, HexValue, ReadHex;
    HexOfReads(d, upper);
    ReadHexStep(HexOf(d, upper), d, rest, count, value);
  }

  lemma {:induction false} NoHexLeft(rest: string, value: nat)
    ensures ReadHex(rest, 0, value) == Ok((value, rest))
  {
  }

  function HighHalf(c: char): (half: nat)
    requires c as int >= 0x1_0000
    ensures 0xd800 <= half < 0xdc00
  {
    0xd800 + (c as int - 0x1_0000) / 0x400
  }

  function LowHalf(c: char): (half: nat)
    requires c as int >= 0x1_0000
    ensures 0xdc00 <= half < 0xe000
  {
    0xdc00 + (c as int - 0x1_0000) % 0x400
  }

  /** A character by its code: one escape, or two halves for one beyond the first plane. */
  function Coded(c: char, upper: bool): string {
    if c as int < 0x1_0000 then "\\u" + HexText(c as int, upper)
    else "\\u" + (HexText(HighHalf(c), upper) + ("\\u" + HexText(LowHalf(c), upper)))
  }

  lemma {:induction false} CodeReads(c: char, upper: bool, rest: string)
    requires c as int < 0x1_0000
    ensures UnicodeEscape(HexText(c as int, upper) + rest) == Ok((c, rest))
  {
    hide ReadHex, HexText;
    HexReads(c as int, upper, rest);
  }

  lemma {:induction false} HalvesRead(c: char, upper: bool, rest: string)
    requires c as int >= 0x1_0000
    ensures UnicodeEscape(HexText(HighHalf(c), upper) + ("\\u" + (HexText(LowHalf(c), upper) + rest))) == Ok((c, rest))
  {
    hide ReadHex, HexText;
    var second := HexText(LowHalf(c), upper) + rest;
    HexReads(HighHalf(c), upper, "\\u" + second);
    HexReads(LowHalf(c), upper, rest);
    assert ("\\u" + second)[2..] == second;
    HalvesMake(c);
  }

  lemma {:induction false} HalvesMake(c: char)
    requires c as int >= 0x1_0000
    ensures CharOf(0x1_0000 + (HighHalf(c) - 0xd800) * 0x400 + (LowHalf(c) - 0xdc00)) == Ok(c)
  {
  }

  /** A character written by its code, with digits of either case, is read as that character. */
  lemma {:induction false} CodedReads(c: char, upper: bool, rest: string, out: string)
    ensures StringBody(Coded(c, upper) + rest, out) == StringBody(rest, out + [c])
  {
    hide UnicodeEscape, HexText, HighHalf, LowHalf;
    if c as int < 0x1_0000 {
      CodeReads(c, upper, rest);
      BodyEscape(HexText(c as int, upper) + rest, out);
      assert Coded(c, upper) + rest == "\\u" + (HexText(c as int, upper) + rest);
    } else {
      var inside := HexText(HighHalf(c), upper) + ("\\u" + (HexText(LowHalf(c), upper) + rest));
      HalvesRead(c, upper, rest);
      BodyEscape(inside, out);
      assert Coded(c, upper) + rest == "\\u" + inside;
    }
  }

  lemma {:induction false} BodyEscape(inside: string, out: string)
    ensures StringBody("\\u" + inside, out)
            == match UnicodeEscape(inside)
               case Err(e) => Err(e)
               case Ok((c, rest)) => StringBody(rest, out + [c])
  {
    hide UnicodeEscape;
    assert ("\\u" + inside)[2..] == inside;
  }

  /** The first half of a pair without a second is an error, and so is a second half alone. */
  lemma {:induction false} LoneHalvesFail(half: nat, upper: bool, rest: string, out: string)
    requires 0xd800 <= half < 0xe000
    requires half < 0xdc00 ==> |rest| < 2 || rest[..2] != "\\u"
    ensures StringBody("\\u" + (HexText(half, upper) + rest), out)
            == Err(if half < 0xdc00 then LoneSurrogate else InvalidCodePoint)
  {
    hide ReadHex, HexText, StringBody;
    HexReads(half, upper, rest);
    BodyEscape(HexText(half, upper) + rest, out);
    assert |rest| >= 2 && rest[0] == '\\' && rest[1] == 'u' ==> rest[..2] == "\\u";
  }

  /** A slash may be escaped. */
  lemma {:induction false} SlashReads(rest: string, out: string)
    ensures StringBody("\\/" + rest, out) == StringBody(rest, out + "/")
  {
    assert ("\\/" + rest)[2..] == rest;
  }

  // ---- the printed forms of small values --------------------------------------------------

  lemma {:induction false} JoinTwo(x: string, y: string, pretty: bool, depth: nat)
    ensures Join([x, y], pretty, depth)
            == Gap(pretty, depth + 1) + x + "," + Gap(pretty, depth + 1) + y + Gap(pretty, depth)
  {
    hide Gap;
    assert [x, y][1..] == [y];
    assert Join([y], pretty, depth) == Gap(pretty, depth + 1) + (y + Gap(pretty, depth));
  }

  lemma {:induction false} Gaps()
    ensures Gap(false, 0) == "" && Gap(false, 1) == "" && Gap(true, 0) == "\n" && Gap(true, 1) == "\n  "
  {
    assert Pad(0) == "" && Pad(1) == "  " + Pad(0) == "  ";
    assert "\n" + Pad(0) == "\n" && "\n" + Pad(1) == "\n  ";
  }

  lemma {:induction false} Scalars(pretty: bool, depth: nat)
    ensures Printable(Number(1.0)) && Printable(Bool(true)) && Quote("a") == "\"a\""
    ensures Render(Number(1.0), pretty, depth) == "1" && Render(Bool(true), pretty, depth) == "true"
  {
    assert 1.0.Floor == 1 && Decimal.Digits(1) == "1" && FormatWhole(1) == "1" && IsShort(1.0);
    assert EscapeAll("a"[1..]) == "" && EscapeAll("a") == "a";
  }

  lemma {:induction false} ArrayShown(pretty: bool)
    ensures Printable(Array([Number(1.0), Bool(true)]))
    ensures Render(Array([Number(1.0), Bool(true)]), pretty, 0) == "[" + Join(["1", "true"], pretty, 0) + "]"
  {
    hide Join;
    var v, w := Number(1.0), Bool(true);
    Scalars(pretty, 1);
    assert [v, w][1..] == [w] && [w][1..] == [];
    assert AllPrintable([]) && AllPrintable([w]) && AllPrintable([v, w]);
    assert RenderItems([], pretty, 1) == [] && RenderItems([w], pretty, 1) == ["true"];
    assert RenderItems([v, w], pretty, 1) == ["1", "true"];
  }

  lemma {:induction false} ObjectShown(pretty: bool)
    ensures Printable(Object([Field("a", Number(1.0))]))
    ensures Render(Object([Field("a", Number(1.0))]), pretty, 0)
            == "{" + Join(["\"a\"" + (Colon(pretty) + "1")], pretty, 0) + "}"
  {
    hide Join, Colon;
    var f := Field("a", Number(1.0));
    Scalars(pretty, 1);
    assert [f][1..] == [];
    assert FieldsPrintable([]) && FieldsPrintable([f]) && RenderFields([], pretty, 1) == [];
    assert RenderFields([f], pretty, 1) == ["\"a\"" + (Colon(pretty) + "1")];
  }

  /** An array of two items and an object of one field, in both forms. */
  lemma {:induction false} SomeRenderings()
    ensures var v, o := Array([Number(1.0), Bool(true)]), Object([Field("a", Number(1.0))]);
            && Printable(v) && Render(v, false, 0) == "[1,true]" && Render(v, true, 0) == "[\n  1,\n  true\n]"
            && Printable(o) && Render(o, false, 0) == "{\"a\":1}" && Render(o, true, 0) == "{\n  \"a\": 1\n}"
  {
    hide Render, Printable, Join, Gap;
    Gaps();
    ArrayShown(false);
    ArrayShown(true);
    ObjectShown(false);
    ObjectShown(true);
    JoinTwo("1", "true", false, 0);
    JoinTwo("1", "true", true, 0);
    JoinOne("\"a\":1", false, 0);
    JoinOne("\"a\": 1", true, 0);
    assert "\"a\"" + (":" + "1") == "\"a\":1" && "\"a\"" + (": " + "1") == "\"a\": 1";
  }

  lemma {:induction false} JoinOne(x: string, pretty: bool, depth: nat)
    ensures Join([x], pretty, depth) == Gap(pretty, depth + 1) + (x + Gap(pretty, depth))
  {
    hide Gap;
  }
}
