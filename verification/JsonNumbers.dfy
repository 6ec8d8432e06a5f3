/** The numerals of JSON: every numeral is read as the decimal number it denotes. */
module JsonNumbers {
  import opened Json
  import opened Wrappers
  import Decimal

  /** A numeral in its parts; `point` and `letter` may be missing, and then so are the digits after them. */
  datatype Numeral = Numeral(
    negative: bool, whole: string, point: bool, decimals: string, letter: string, sign: string, exponent: string)

  predicate WellFormed(n: Numeral) {
    && Decimal.AllDigits(n.whole) && Decimal.AllDigits(n.decimals) && Decimal.AllDigits(n.exponent)
    && n.whole + n.decimals != "" && (!n.point ==> n.decimals == "")
    && if n.letter == "" then n.sign == "" && n.exponent == ""
       else (n.letter == "e" || n.letter == "E") && (n.sign == "" || n.sign == "+" || n.sign == "-") && n.exponent != ""
  }

  function Written(n: Numeral): string {
    (if n.negative then "-" else "") + (n.whole + (PointPart(n) + ExponentPart(n)))
  }

  function PointPart(n: Numeral): string {
    if n.point then "." + n.decimals else ""
  }

  function ExponentPart(n: Numeral): string {
    n.letter + (n.sign + n.exponent)
  }

  function Power(n: Numeral): int
    requires WellFormed(n)
  {
    if n.sign == "-" then -(Decimal.Value(n.exponent) as int) else Decimal.Value(n.exponent)
  }

  /** `value` is the number: its digits as one whole number, moved by the exponent less the digits behind the point. */
  ghost predicate Denotes(n: Numeral, value: real)
    requires WellFormed(n)
  {
    var digits := Decimal.Value(n.whole + n.decimals) as real;
    var size := if n.negative then -value else value;
    var places := Power(n) - |n.decimals|;
    if places >= 0 then size == digits * PowerOfTen(places) else size * PowerOfTen(-places) == digits
  }

  /** Reading two runs of digits as one number: the first counts by the length of the second. */
  lemma {:induction false} ValueOfJoined(x: string, y: string)
    requires Decimal.AllDigits(x) && Decimal.AllDigits(y)
    ensures Decimal.Value(x + y) as real == Decimal.Value(x) as real * PowerOfTen(|y|) + Decimal.Value(y) as real
    decreases |y|
  {
    hide Decimal.Value, PowerOfTen, Decimal.DigitValue;
    if y == "" {
      assert x + y == x;
      NoDigits();
      PowerStep(0);
    } else {
      var n := |y| - 1;
      ValueOfJoined(x, y[..n]);
      assert x + y == (x + y[..n]) + [y[n]] && y == y[..n] + [y[n]];
      OneMoreDigit(x + y[..n], y[n]);
      OneMoreDigit(y[..n], y[n]);
      Tenfold(Decimal.Value(x) as real, Decimal.Value(y[..n]) as real, PowerOfTen(n),
              Decimal.DigitValue(y[n]) as real);
      PowerStep(n);
    }
  }

  lemma {:induction false} OneMoreDigit(s: string, c: char)
    requires Decimal.AllDigits(s) && Decimal.IsDigit(c)
    ensures Decimal.AllDigits(s + [c])
    ensures Decimal.Value(s + [c]) as real == 10.0 * Decimal.Value(s) as real + Decimal.DigitValue(c) as real
  {
    assert (s + [c])[..|s|] == s;
  }

  lemma {:induction false} PowerStep(n: nat)
    ensures PowerOfTen(n + 1) == 10.0 * PowerOfTen(n) && PowerOfTen(0) == 1.0
  {
  }

  lemma {:induction false} Tenfold(a: real, b: real, p: real, d: real)
    ensures 10.0 * (a * p + b) + d == a * (10.0 * p) + (10.0 * b + d)
  {
    assert a * (10.0 * p) == 10.0 * (a * p);
  }

  lemma {:induction false} NoDigits()
    ensures Decimal.Value("") == 0
  {
  }

  /** The parts of the text after the whole part end where they should. */
  lemma {:induction false} ExponentReads(n: Numeral, rest: string)
    requires WellFormed(n) && Stops(rest)
    ensures Exponent(ExponentPart(n) + rest) == (|ExponentPart(n)|, true)
    ensures ExponentValue(ExponentPart(n) + rest) == Power(n)
  {
    hide Decimal.DigitRun, Decimal.Value, Decimal.IsDigit, Decimal.AllDigits, Exponent, ExponentValue;
    var text := ExponentPart(n) + rest;
    StopsDigits(rest);
    if n.letter == "" {
      assert text == rest;
      NoExponent(rest);
    } else {
      assert text == n.letter + (n.sign + (n.exponent + rest));
      ExponentOf(n.letter, n.sign, n.exponent, rest);
    }
  }

  lemma {:induction false} StopsDigits(rest: string)
    requires Stops(rest)
    ensures rest != "" ==> !Decimal.IsDigit(rest[0])
  {
  }

  lemma {:induction false} NoExponent(rest: string)
    requires Stops(rest)
    ensures Exponent(rest) == (0, true) && ExponentValue(rest) == 0 && Decimal.Value("") == 0
  {
  }

  lemma {:induction false} ExponentOf(letter: string, sign: string, digits: string, rest: string)
    requires (letter == "e" || letter == "E") && (sign == "" || sign == "+" || sign == "-")
    requires Decimal.AllDigits(digits) && digits != "" && (rest != "" ==> !Decimal.IsDigit(rest[0]))
    ensures var text := letter + (sign + (digits + rest));
            && Exponent(text) == (1 + |sign| + |digits|, true)
            && ExponentValue(text) == if sign == "-" then -(Decimal.Value(digits) as int) else Decimal.Value(digits)
  {
    hide *;
    var tail := digits + rest;
    DigitRunStops(digits, rest);
    DigitFirst(digits, rest);
    assert tail[..|digits|] == digits;
    SignSkipped(letter, sign, tail);
    ExponentAt(letter + (sign + tail), 1 + |sign|, |digits|);
  }

  lemma {:induction false} DigitFirst(digits: string, rest: string)
    requires Decimal.AllDigits(digits) && digits != ""
    ensures (digits + rest)[0] != '+' && (digits + rest)[0] != '-'
  {
    assert Decimal.IsDigit(digits[0]);
  }

  lemma {:induction false} SignSkipped(letter: string, sign: string, tail: string)
    requires |letter| == 1 && (sign == "" || sign == "+" || sign == "-")
    requires tail != "" && tail[0] != '+' && tail[0] != '-'
    ensures var text := letter + (sign + tail);
            && |text| > 1 && text[0] == letter[0] && text[1 + |sign|..] == tail
            && 1 + |sign| == (if text[1] == '+' || text[1] == '-' then 2 else 1)
            && (text[1] == '-' <==> sign == "-")
  {
    var text := letter + (sign + tail);
    assert text[1] == if sign == "" then tail[0] else sign[0];
  }

  lemma {:induction false} ExponentAt(s: string, signed: nat, digits: nat)
    requires |s| > 1 && (s[0] == 'e' || s[0] == 'E') && digits > 0
    requires signed == (if s[1] == '+' || s[1] == '-' then 2 else 1) && Decimal.DigitRun(s[signed..]) == digits
    ensures signed + digits <= |s| && Exponent(s) == (signed + digits, true)
    ensures var size: int := Decimal.Value(s[signed..][..digits]);
            ExponentValue(s) == if s[1] == '-' then -size else size
  {
    hide Decimal.Value;
  }

  lemma {:induction false} PointReads(n: Numeral, rest: string)
    requires WellFormed(n) && Stops(rest)
    ensures var after := PointPart(n) + (ExponentPart(n) + rest);
            Fraction(after) == (|PointPart(n)|, |n.decimals|) && Decimals(after) == n.decimals
  {
    hide Decimal.DigitRun, Decimal.IsDigit, ExponentPart, Fraction, Decimals;
    var tail := ExponentPart(n) + rest;
    TailStops(n, rest);
    if n.point {
      PointFirst(n.decimals, tail);
      assert PointPart(n) + tail == "." + (n.decimals + tail);
    } else {
      NoPoint(tail);
      assert PointPart(n) + tail == tail;
    }
  }

  lemma {:induction false} TailStops(n: Numeral, rest: string)
    requires WellFormed(n) && Stops(rest)
    ensures var tail := ExponentPart(n) + rest; tail != "" ==> tail[0] != '.' && !Decimal.IsDigit(tail[0])
  {
  }

  lemma {:induction false} PointFirst(digits: string, tail: string)
    requires Decimal.AllDigits(digits) && (tail != "" ==> !Decimal.IsDigit(tail[0]))
    ensures Fraction("." + (digits + tail)) == (1 + |digits|, |digits|) && Decimals("." + (digits + tail)) == digits
  {
    hide Decimal.DigitRun, Decimal.IsDigit;
    DigitRunStops(digits, tail);
    assert ("." + (digits + tail))[1..] == digits + tail && (digits + tail)[..|digits|] == digits;
  }

  lemma {:induction false} NoPoint(tail: string)
    requires tail != "" ==> tail[0] != '.'
    ensures Fraction(tail) == (0, 0) && Decimals(tail) == ""
  {
  }

  lemma {:induction false} WholeStops(n: Numeral, rest: string)
    requires WellFormed(n) && Stops(rest)
    ensures var after := PointPart(n) + (ExponentPart(n) + rest);
            after != "" ==> !Decimal.IsDigit(after[0])
  {
  }

  lemma {:induction false} MagnitudeReads(n: Numeral)
    requires WellFormed(n)
    ensures Magnitude(n.whole + (PointPart(n) + ExponentPart(n)))
            == Scaled(Decimal.Value(n.whole + n.decimals), Power(n) - |n.decimals|)
  {
    hide Decimal.DigitRun, Decimal.Value, Fraction, Decimals, ExponentValue, Scaled,
      ExponentPart, PointPart, WellFormed;
    var after := PointPart(n) + ExponentPart(n);
    assert ExponentPart(n) + "" == ExponentPart(n);
    Digits(n);
    WholeStops(n, "");
    PointReads(n, "");
    ExponentReads(n, "");
    DigitRunStops(n.whole, after);
    var text := n.whole + after;
    assert text[..|n.whole|] == n.whole && text[|n.whole|..] == after;
    assert after[|PointPart(n)|..] == ExponentPart(n);
  }

  lemma {:induction false} Digits(n: Numeral)
    requires WellFormed(n)
    ensures Decimal.AllDigits(n.whole) && Decimal.AllDigits(n.decimals) && Decimal.AllDigits(n.whole + n.decimals)
  {
  }

  /** A numeral of any shape is read whole, as the number it denotes, wherever a numeral can stop. */
  lemma {:induction false} NumeralReads(n: Numeral, rest: string) returns (value: real)
    requires WellFormed(n) && Stops(rest)
    ensures NumberToken(Written(n) + rest) == Ok((Number(value), rest)) && Denotes(n, value)
  {
    hide *;
    ShapeReads(n, rest);
    ShapeIsToken(Written(n), rest);
    MagnitudeReads(n);
    SignReads(n);
    ScaledDenotes(n);
    value := NumberValue(Written(n));
  }

  lemma {:induction false} ShapeIsToken(text: string, rest: string)
    requires ShapeOf(text + rest) == NumberShape(|text|, true)
    ensures NumberToken(text + rest) == Ok((Number(NumberValue(text)), rest))
  {
    hide ShapeOf, NumberValue;
    assert (text + rest)[..|text|] == text && (text + rest)[|text|..] == rest;
  }

  lemma {:induction false} ScaledDenotes(n: Numeral)
    requires WellFormed(n)
    ensures var size := Scaled(Decimal.Value(n.whole + n.decimals), Power(n) - |n.decimals|);
            Denotes(n, if n.negative then -size else size)
  {
    hide Decimal.Value, Power, WellFormed;
  }

  lemma {:induction false} SignReads(n: Numeral)
    requires WellFormed(n)
    ensures var size := n.whole + (PointPart(n) + ExponentPart(n));
            NumberValue(Written(n)) == if n.negative then -Magnitude(size) else Magnitude(size)
  {
    hide Magnitude;
    var size := n.whole + (PointPart(n) + ExponentPart(n));
    assert ("-" + size)[1..] == size;
    assert n.whole != "" ==> Decimal.IsDigit(n.whole[0]) && size[0] == n.whole[0];
    assert "" + size == size;
  }

  lemma {:induction false} ShapeReads(n: Numeral, rest: string)
    requires WellFormed(n) && Stops(rest)
    ensures ShapeOf(Written(n) + rest) == NumberShape(|Written(n)|, true)
  {
    hide Decimal.DigitRun, Fraction, Exponent, PointPart, ExponentPart, Mantissa;
    var minus := if n.negative then "-" else "";
    var tail := ExponentPart(n) + rest;
    var s := Written(n) + rest;
    MantissaReadsPart(n, rest);
    ExponentReads(n, rest);
    assert s[|minus| + |n.whole| + |PointPart(n)|..] == tail;
  }

  lemma {:induction false} MantissaReadsPart(n: Numeral, rest: string)
    requires WellFormed(n) && Stops(rest)
    ensures Mantissa(Written(n) + rest)
            == ((if n.negative then 1 else 0) + |n.whole| + |PointPart(n)|, |n.whole| + |n.decimals|)
  {
    hide Decimal.DigitRun, Fraction, PointPart, ExponentPart, Stops, Mantissa;
    var after := PointPart(n) + (ExponentPart(n) + rest);
    WholeStops(n, rest);
    PointReads(n, rest);
    NoMinus(n, rest);
    MantissaOf(if n.negative then "-" else "", n.whole, after);
    assert Written(n) + rest == (if n.negative then "-" else "") + (n.whole + after);
  }

  lemma {:induction false} MantissaOf(minus: string, whole: string, after: string)
    requires (minus == "" || minus == "-") && Decimal.AllDigits(whole)
    requires whole + after != "" && (whole + after)[0] != '-' && (after != "" ==> !Decimal.IsDigit(after[0]))
    ensures Mantissa(minus + (whole + after))
            == (|minus| + |whole| + Fraction(after).0, |whole| + Fraction(after).1)
  {
    hide *;
    assert (whole + after)[|whole|..] == after;
    DigitRunStops(whole, after);
    SignedMantissa(minus, whole + after, |whole|);
  }

  lemma {:induction false} SignedMantissa(minus: string, tail: string, digits: nat)
    requires (minus == "" || minus == "-") && tail != "" && tail[0] != '-' && Decimal.DigitRun(tail) == digits
    ensures digits <= |tail|
    ensures var fraction := Fraction(tail[digits..]);
            Mantissa(minus + tail) == (|minus| + digits + fraction.0, digits + fraction.1)
  {
    hide *;
    MinusFirst(minus, tail, digits);
    MantissaAt(minus + tail, |minus|, digits);
  }

  lemma {:induction false} MinusFirst(minus: string, tail: string, k: nat)
    requires (minus == "" || minus == "-") && tail != "" && tail[0] != '-' && k <= |tail|
    ensures (minus + tail)[|minus|..] == tail && |minus| == if (minus + tail)[0] == '-' then 1 else 0
    ensures (minus + tail)[|minus| + k..] == tail[k..]
  {
  }

  lemma {:induction false} MantissaAt(s: string, sign: nat, digits: nat)
    requires sign == (if s != "" && s[0] == '-' then 1 else 0) && Decimal.DigitRun(s[sign..]) == digits
    ensures sign + digits <= |s|
    ensures Mantissa(s) == (sign + digits + Fraction(s[sign + digits..]).0, digits + Fraction(s[sign + digits..]).1)
  {
  }

  lemma {:induction false} NoMinus(n: Numeral, rest: string)
    requires WellFormed(n)
    ensures var s := n.whole + (PointPart(n) + (ExponentPart(n) + rest)); s != "" && s[0] != '-'
  {
    assert n.whole != "" ==> Decimal.IsDigit(n.whole[0]);
  }

  lemma {:induction false} OneAndAHalf()
    ensures NumberToken("1.5") == Ok((Number(1.5), ""))
  {
    hide NumberToken, Decimal.Value;
    var n := Numeral(false, "1", true, "5", "", "", "");
    var value := NumeralReads(n, "");
    SomeDigits();
    SomePowers();
    assert "1" + "5" == "15" && "1.5" + "" == "1.5";
    assert Written(n) == "1.5";
  }

  lemma {:induction false} TwoThousand()
    ensures NumberToken("2e3") == Ok((Number(2000.0), ""))
  {
    hide NumberToken, Decimal.Value;
    var n := Numeral(false, "2", false, "", "e", "", "3");
    var value := NumeralReads(n, "");
    SomeDigits();
    SomePowers();
    assert "2" + "" == "2" && "2e3" + "" == "2e3";
    assert Written(n) == "2e3";
  }

  lemma {:induction false} MinusOneHundredth()
    ensures NumberToken("-1E-2") == Ok((Number(-0.01), ""))
  {
    hide NumberToken, Decimal.Value;
    var n := Numeral(true, "1", false, "", "E", "-", "2");
    var value := NumeralReads(n, "");
    SomeDigits();
    SomePowers();
    assert "1" + "" == "1" && "-1E-2" + "" == "-1E-2";
    assert Written(n) == "-1E-2";
  }

  /** Three numerals: a fraction, an exponent, and a negative number with a negative exponent. */
  lemma {:induction false} SomeNumerals()
    ensures NumberToken("1.5") == Ok((Number(1.5), ""))
    ensures NumberToken("2e3") == Ok((Number(2000.0), ""))
    ensures NumberToken("-1E-2") == Ok((Number(-0.01), ""))
  {
    hide NumberToken;
    OneAndAHalf();
    TwoThousand();
    MinusOneHundredth();
  }

  lemma {:induction false} SomePowers()
    ensures PowerOfTen(0) == 1.0 && PowerOfTen(1) == 10.0 && PowerOfTen(2) == 100.0 && PowerOfTen(3) == 1000.0
  {
  }

  lemma {:induction false} SomeDigits()
    ensures Decimal.Value("") == 0 && Decimal.Value("1") == 1 && Decimal.Value("2") == 2 && Decimal.Value("3") == 3
    ensures Decimal.Value("15") == 15
  {
    assert "15"[..1] == "1" && "1"[..0] == "" && "2"[..0] == "" && "3"[..0] == "";
  }
}
