/** Base64 (section 4 of RFC 4648): encoding in groups of three bytes, decoding through a bit accumulator. */
module Base64 {
  import opened Wrappers
  import Utf

  type Byte = n: int | 0 <= n < 256
  type Digit = n: int | 0 <= n < 64

  const TWO_32: nat := 0x1_0000_0000

  // ---- the alphabet ------------------------------------------------------------------------

  function DigitChar(v: Digit): char {
    if v < 26 then 'A' + v as char
    else if v < 52 then 'a' + (v - 26) as char
    else if v < 62 then '0' + (v - 52) as char
    else if v == 62 then '+' else '/'
  }

  /** Where a character stands in the alphabet. */
  function Position(c: char): Option<Digit> {
    if 'A' <= c <= 'Z' then Some(c as int - 'A' as int)
    else if 'a' <= c <= 'z' then Some(c as int - 'a' as int + 26)
    else if '0' <= c <= '9' then Some(c as int - '0' as int + 52)
    else if c == '+' then Some(62)
    else if c == '/' then Some(63)
    else None
  }

  predicate IsSkipped(c: char) {
    c == '=' || Utf.IsWhitespace(c)
  }

  lemma {:induction false} PositionOfDigit(v: Digit)
    ensures Position(DigitChar(v)) == Some(v) && !IsSkipped(DigitChar(v))
  {
  }

  // ---- encoding ------------------------------------------------------------------------------

  /** The four characters of one group; a short group is padded. */
  function Group(chunk: seq<Byte>): (quad: string)
    requires 1 <= |chunk| <= 3
    ensures |quad| == 4
  {
    var b1: int := if |chunk| > 1 then chunk[1] else 0;
    var b2: int := if |chunk| > 2 then chunk[2] else 0;
    var triple: int := chunk[0] * 65536 + b1 * 256 + b2;
    [DigitChar(triple / 262144 % 64), DigitChar(triple / 4096 % 64),
     if |chunk| > 1 then DigitChar(triple / 64 % 64) else '=',
     if |chunk| > 2 then DigitChar(triple % 64) else '=']
  }

  function Encoded(data: seq<Byte>): string {
    if data == [] then ""
    else if |data| <= 3 then Group(data)
    else Group(data[..3]) + Encoded(data[3..])
  }

  method Encode(data: seq<Byte>) returns (out: string)
    ensures out == Encoded(data)
  {
    hide Group;
    out := "";
    var from := 0;
    while from < |data|
      invariant from <= |data|
      invariant out + Encoded(data[from..]) == Encoded(data)
    {
      var upTo := if from + 3 < |data| then from + 3 else |data|;
      var quad := Group(data[from..upTo]);
      assert |data[from..]| > 3 ==> data[from..][..3] == data[from..upTo] && data[from..][3..] == data[upTo..];
      assert |data[from..]| <= 3 ==> data[from..] == data[from..upTo] && data[upTo..] == [];
      assert out + (quad + Encoded(data[upTo..])) == out + quad + Encoded(data[upTo..]);
      out := out + quad;
      from := upTo;
    }
  }

  // ---- decoding ------------------------------------------------------------------------------

  /** Bits carried over between characters: always fewer than a byte. */
  datatype Pending = Pending(value: nat, bits: nat)

  ghost predicate Carries(p: Pending) {
    (p == Pending(0, 0)) || (p.bits == 2 && p.value < 4) || (p.bits == 4 && p.value < 16)
      || (p.bits == 6 && p.value < 64)
  }

  /** The bits of one more digit: a byte when eight have come together. */
  function Take(p: Pending, v: Digit): (r: (seq<Byte>, Pending))
    requires Carries(p)
    ensures Carries(r.1)
  {
    var all := p.value * 64 + v;
    if p.bits == 0 then ([], Pending(all, 6))
    else if p.bits == 2 then ([all], Pending(0, 0))
    else if p.bits == 4 then ([all / 4], Pending(all % 4, 2))
    else ([all / 16], Pending(all % 16, 4))
  }

  datatype DecodeError = NotBase64(c: char)

  /** The bytes of a text whose earlier characters left `p` behind; bits left over at the end are dropped. */
  function DecodedFrom(text: string, p: Pending): Result<seq<Byte>, DecodeError>
    requires Carries(p)
  {
    if text == "" then Ok([])
    else if IsSkipped(text[0]) then DecodedFrom(text[1..], p)
    else
      match Position(text[0])
      case None => Err(NotBase64(text[0]))
      case Some(v) =>
        var step := Take(p, v);
        Prefixed(step.0, DecodedFrom(text[1..], step.1))
  }

  function Decoded(text: string): Result<seq<Byte>, DecodeError> {
    DecodedFrom(text, Pending(0, 0))
  }

  /** The accumulator as the loop keeps it: 32 bits, of which only the low `bits` still matter. */
  method Decode(text: string) returns (result: Result<seq<Byte>, DecodeError>)
    ensures result == Decoded(text)
  {
    hide DecodedFrom, Position, IsSkipped, Take, Low, Shifted, Pushed, Power2;
    var out: seq<Byte> := [];
    var accumulator: nat := 0;
    var bits: nat := 0;
    ghost var p := Pending(0, 0);
    assert text[0..] == text;
    PrefixedNothing(Decoded(text));
    Powers();
    for k := 0 to |text|
      invariant Carries(p)
      invariant p.bits == bits
      invariant p.value == Low(accumulator, bits)
      invariant accumulator < TWO_32
      invariant Decoded(text) == Prefixed(out, DecodedFrom(text[k..], p))
    {
      DecodeStep(text, k, p);
      if !IsSkipped(text[k]) {
        var value := Position(text[k]);
        if value == None {
          return Err(NotBase64(text[k]));
        }
        PrefixedTwice(out, Take(p, value.value).0, DecodedFrom(text[k + 1..], Take(p, value.value).1));
        TakeIsShift(accumulator, p, value.value);
        assert out + [] == out;
        accumulator := Pushed(accumulator, value.value);
        bits := bits + 6;
        if bits >= 8 {
          bits := bits - 8;
          out := out + [Shifted(accumulator, bits) % 256];
        }
        p := Take(p, value.value).1;
      }
    }
    DecodeEnds(text, p);
    assert out + [] == out;
    result := Ok(out);
  }

  function Power2(n: nat): (p: nat)
    ensures p >= 1
  {
    if n == 0 then 1 else 2 * Power2(n - 1)
  }

  function Low(v: nat, bits: nat): nat {
    v % Power2(bits)
  }

  function Shifted(v: nat, bits: nat): int {
    v / Power2(bits)
  }

  function Prefixed(out: seq<Byte>, r: Result<seq<Byte>, DecodeError>): Result<seq<Byte>, DecodeError> {
    match r
    case Err(e) => Err(e)
    case Ok(rest) => Ok(out + rest)
  }

  lemma {:induction false} DecodeStep(text: string, k: nat, p: Pending)
    requires Carries(p) && k < |text|
    ensures DecodedFrom(text[k..], p) ==
            if IsSkipped(text[k]) then DecodedFrom(text[k + 1..], p)
            else if Position(text[k]) == None then Err(NotBase64(text[k]))
            else Prefixed(Take(p, Position(text[k]).value).0,
                 DecodedFrom(text[k + 1..], Take(p, Position(text[k]).value).1))
  {
    hide Take, Position, IsSkipped;
    assert text[k..][0] == text[k] && text[k..][1..] == text[k + 1..];
  }

  lemma {:induction false} DecodeEnds(text: string, p: Pending)
    requires Carries(p)
    ensures DecodedFrom(text[|text|..], p) == Ok([])
  {
  }

  lemma {:induction false} PrefixedNothing(r: Result<seq<Byte>, DecodeError>)
    ensures Prefixed([], r) == r
  {
    if r.Ok? {
      assert [] + r.value == r.value;
    }
  }

  lemma {:induction false} PrefixedTwice(x: seq<Byte>, y: seq<Byte>, r: Result<seq<Byte>, DecodeError>)
    ensures Prefixed(x, Prefixed(y, r)) == Prefixed(x + y, r)
  {
    if r.Ok? {
      assert x + (y + r.value) == x + y + r.value;
    }
  }

  lemma {:induction false} TakeIsShift(accumulator: nat, p: Pending, v: Digit)
    requires Carries(p) && p.value == Low(accumulator, p.bits)
    ensures Pushed(accumulator, v) < TWO_32
    ensures var next := Pushed(accumulator, v);
            var bits := p.bits + 6;
            if bits < 8 then Take(p, v) == ([], Pending(Low(next, bits), bits))
            else Take(p, v) == ([Shifted(next, bits - 8) % 256], Pending(Low(next, bits - 8), bits - 8))
  {
    hide Pushed;
    Powers();
    var next, all := Pushed(accumulator, v), p.value * 64 + v;
    if p.bits == 0 {
      PushedNone(accumulator, v);
    } else if p.bits == 2 {
      PushedTwo(accumulator, v);
      DigitsOf(next, 1);
    } else if p.bits == 4 {
      PushedFour(accumulator, v);
      DigitsOf(next, 4);
    } else {
      PushedSix(accumulator, v);
      DigitsOf(next, 16);
    }
  }

  lemma {:induction false} Powers()
    ensures Low(0, 0) == 0 && Power2(0) == 1 && Power2(2) == 4 && Power2(4) == 16 && Power2(6) == 64
  {
  }

  /** `(accumulator << 6) | value`, the high bits falling off. */
  function Pushed(accumulator: nat, v: Digit): (next: nat)
    ensures next < TWO_32
  {
    accumulator * 64 % TWO_32 + v
  }

  // Where the high bits fall off does not matter to the bits still pending.

  lemma {:induction false} PushedNone(a: nat, v: Digit)
    ensures Pushed(a, v) % 64 == v
  {
    var q := a * 64 / TWO_32;
    assert Pushed(a, v) == 64 * (a - q * 0x400_0000) + v;
  }

  lemma {:induction false} PushedTwo(a: nat, v: Digit)
    ensures Pushed(a, v) % 256 == a % 4 * 64 + v
  {
    var q, h, l := a * 64 / TWO_32, a / 4, a % 4;
    assert a == 4 * h + l;
    assert Pushed(a, v) == 256 * (h - q * 0x100_0000) + (l * 64 + v);
  }

  lemma {:induction false} PushedFour(a: nat, v: Digit)
    ensures Pushed(a, v) % 1024 == a % 16 * 64 + v
  {
    var q, h, l := a * 64 / TWO_32, a / 16, a % 16;
    assert a == 16 * h + l;
    assert Pushed(a, v) == 1024 * (h - q * 0x40_0000) + (l * 64 + v);
  }

  lemma {:induction false} PushedSix(a: nat, v: Digit)
    ensures Pushed(a, v) % 4096 == a % 64 * 64 + v
  {
    var q, h, l := a * 64 / TWO_32, a / 64, a % 64;
    assert a == 64 * h + l;
    assert Pushed(a, v) == 4096 * (h - q * 0x10_0000) + (l * 64 + v);
  }

  lemma {:induction false} DigitsOf(x: nat, c: nat)
    requires c == 1 || c == 4 || c == 16
    ensures x / c % 256 == x % (256 * c) / c && x % (256 * c) % c == x % c
  {
    if c == 4 {
      DigitsOfFour(x);
    } else if c == 16 {
      DigitsOfSixteen(x);
    }
  }

  lemma {:induction false} DigitsOfFour(x: nat)
    ensures x / 4 % 256 == x % 1024 / 4 && x % 1024 % 4 == x % 4
  {
    var h, l := x / 1024, x % 1024;
    assert x == 1024 * h + l;
    assert x / 4 == 256 * h + l / 4;
  }

  lemma {:induction false} DigitsOfSixteen(x: nat)
    ensures x / 16 % 256 == x % 4096 / 16 && x % 4096 % 16 == x % 16
  {
    var h, l := x / 4096, x % 4096;
    assert x == 4096 * h + l;
    assert x / 16 == 256 * h + l / 16;
  }

  // ---- the round trip ---------------------------------------------------------------------------

  lemma {:induction false} DecodeDigit(v: Digit, rest: string, p: Pending)
    requires Carries(p)
    ensures DecodedFrom([DigitChar(v)] + rest, p) == Prefixed(Take(p, v).0, DecodedFrom(rest, Take(p, v).1))
  {
    hide Take, IsSkipped, DigitChar, Position;
    PositionOfDigit(v);
    var text := [DigitChar(v)] + rest;
    assert text[0] == DigitChar(v) && text[1..] == rest;
  }

  lemma {:induction false} DecodePadding(rest: string, p: Pending)
    requires Carries(p)
    ensures DecodedFrom("=" + rest, p) == DecodedFrom(rest, p)
  {
    assert ("=" + rest)[1..] == rest;
  }

  lemma {:induction false} TripleQuotients(b0: Byte, b1: Byte, b2: Byte)
    ensures var t := b0 * 65536 + b1 * 256 + b2;
            t / 262144 == b0 / 4 && t / 4096 == b0 * 16 + b1 / 16 && t / 64 == b0 * 1024 + b1 * 4 + b2 / 64
  {
  }

  /** What four digits hold together. */
  lemma {:induction false} TripleDigits(b0: Byte, b1: Byte, b2: Byte)
    ensures var t := b0 * 65536 + b1 * 256 + b2;
            t / 262144 % 64 == b0 / 4 && t / 4096 % 64 == b0 % 4 * 16 + b1 / 16 &&
            t / 64 % 64 == b1 % 16 * 4 + b2 / 64 && t % 64 == b2 % 64
  {
    var t := b0 * 65536 + b1 * 256 + b2;
    TripleQuotients(b0, b1, b2);
    assert (b0 * 1024 + b1 * 4 + b2 / 64) % 64 == b1 % 16 * 4 + b2 / 64;
  }

  lemma {:induction false} GroupDigits(chunk: seq<Byte>)
    requires 1 <= |chunk| <= 3
    ensures var b1 := if |chunk| > 1 then chunk[1] else 0;
            var b2 := if |chunk| > 2 then chunk[2] else 0;
            Group(chunk) == [DigitChar(chunk[0] / 4), DigitChar(chunk[0] % 4 * 16 + b1 / 16),
                             if |chunk| > 1 then DigitChar(b1 % 16 * 4 + b2 / 64) else '=',
                             if |chunk| > 2 then DigitChar(b2 % 64) else '=']
  {
    hide DigitChar;
    TripleDigits(chunk[0], if |chunk| > 1 then chunk[1] else 0, if |chunk| > 2 then chunk[2] else 0);
  }

  lemma {:induction false} FullGroup(chunk: seq<Byte>, rest: string)
    requires |chunk| == 3
    ensures DecodedFrom(Group(chunk) + rest, Pending(0, 0)) == Prefixed(chunk, DecodedFrom(rest, Pending(0, 0)))
  {
    hide Group, DigitChar, DecodedFrom;
    GroupDigits(chunk);
    var b0, b1, b2 := chunk[0], chunk[1], chunk[2];
    var v0: Digit, v1: Digit, v2: Digit, v3: Digit := b0 / 4, b0 % 4 * 16 + b1 / 16, b1 % 16 * 4 + b2 / 64, b2 % 64;
    var p1, p2, p3 := Pending(v0, 6), Pending(b1 / 16, 4), Pending(b2 / 64, 2);
    var t3 := [DigitChar(v3)] + rest;
    var t2 := [DigitChar(v2)] + t3;
    var t1 := [DigitChar(v1)] + t2;
    assert Group(chunk) + rest == [DigitChar(v0)] + t1;
    DecodeDigit(v0, t1, Pending(0, 0));
    DecodeDigit(v1, t2, p1);
    DecodeDigit(v2, t3, p2);
    DecodeDigit(v3, rest, p3);
    assert Take(Pending(0, 0), v0) == ([], p1);
    assert Take(p1, v1) == ([b0], p2);
    assert Take(p2, v2) == ([b1], p3);
    assert Take(p3, v3) == ([b2], Pending(0, 0));
    var end := DecodedFrom(rest, Pending(0, 0));
    PrefixedTwice([b1], [b2], end);
    PrefixedTwice([b0], [b1] + [b2], end);
    PrefixedNothing(DecodedFrom(t1, p1));
    assert [b0] + ([b1] + [b2]) == chunk;
  }

  lemma {:induction false} OneByteGroup(b0: Byte)
    ensures DecodedFrom(Group([b0]), Pending(0, 0)) == Ok([b0])
  {
    hide Group, DigitChar, DecodedFrom;
    GroupDigits([b0]);
    var v0: Digit, v1: Digit := b0 / 4, b0 % 4 * 16;
    var p1, p2 := Pending(v0, 6), Pending(0, 4);
    var t1 := [DigitChar(v1)] + ("=" + ("=" + ""));
    assert Group([b0]) == [DigitChar(v0)] + t1;
    DecodeDigit(v0, t1, Pending(0, 0));
    DecodeDigit(v1, "=" + ("=" + ""), p1);
    assert Take(p1, v1) == ([b0], p2);
    PrefixedNothing(DecodedFrom(t1, p1));
    DecodePadding("=" + "", p2);
    DecodePadding("", p2);
    DecodeEnds("", p2);
    assert [b0] + [] == [b0];
  }

  lemma {:induction false} TwoByteGroup(b0: Byte, b1: Byte)
    ensures DecodedFrom(Group([b0, b1]), Pending(0, 0)) == Ok([b0, b1])
  {
    hide Group, DigitChar, DecodedFrom;
    GroupDigits([b0, b1]);
    var v0: Digit, v1: Digit, v2: Digit := b0 / 4, b0 % 4 * 16 + b1 / 16, b1 % 16 * 4;
    var p1, p2, p3 := Pending(v0, 6), Pending(b1 / 16, 4), Pending(0, 2);
    var t2 := [DigitChar(v2)] + ("=" + "");
    var t1 := [DigitChar(v1)] + t2;
    assert Group([b0, b1]) == [DigitChar(v0)] + t1;
    DecodeDigit(v0, t1, Pending(0, 0));
    DecodeDigit(v1, t2, p1);
    DecodeDigit(v2, "=" + "", p2);
    assert Take(p1, v1) == ([b0], p2);
    assert Take(p2, v2) == ([b1], p3);
    PrefixedNothing(DecodedFrom(t1, p1));
    DecodePadding("", p3);
    DecodeEnds("", p3);
    assert [b0] + ([b1] + []) == [b0, b1];
  }

  /** Decoding undoes encoding, for every byte sequence. */
  lemma {:induction false} RoundTrip(data: seq<Byte>)
    ensures Decoded(Encoded(data)) == Ok(data)
  {
    hide Group, DecodedFrom;
    DecodeEnds("", Pending(0, 0));
    assert ""[|""|..] == "";
    if data == [] {
    } else if |data| == 1 {
      OneByteGroup(data[0]);
      assert data == [data[0]];
    } else if |data| == 2 {
      TwoByteGroup(data[0], data[1]);
      assert data == [data[0], data[1]];
    } else if |data| == 3 {
      FullGroup(data, "");
      assert Group(data) + "" == Group(data);
      assert data + [] == data;
    } else {
      FullGroup(data[..3], Encoded(data[3..]));
      RoundTrip(data[3..]);
      assert data[..3] + data[3..] == data;
    }
  }

  // ---- what else decodes ---------------------------------------------------------------------------

  /** The characters that carry bits. */
  function Stripped(text: string): string {
    if text == "" then "" else (if IsSkipped(text[0]) then "" else [text[0]]) + Stripped(text[1..])
  }

  /** Padding and white space make no difference, wherever they stand. */
  lemma {:induction false} SkippingIsHarmless(text: string, p: Pending)
    requires Carries(p)
    ensures DecodedFrom(text, p) == DecodedFrom(Stripped(text), p)
  {
    hide Take, Position;
    if text != "" {
      if IsSkipped(text[0]) {
        assert "" + Stripped(text[1..]) == Stripped(text[1..]);
        SkippingIsHarmless(text[1..], p);
      } else {
        assert Stripped(text)[0] == text[0] && Stripped(text)[1..] == Stripped(text[1..]);
        if Position(text[0]).Some? {
          SkippingIsHarmless(text[1..], Take(p, Position(text[0]).value).1);
        }
      }
    }
  }

  /** Line breaks put into an encoding, or padding left off it, still decode to the data. */
  lemma {:induction false} RewrappedRoundTrip(data: seq<Byte>, text: string)
    requires Stripped(text) == Stripped(Encoded(data))
    ensures Decoded(text) == Ok(data)
  {
    SkippingIsHarmless(text, Pending(0, 0));
    SkippingIsHarmless(Encoded(data), Pending(0, 0));
    RoundTrip(data);
  }

  /** A text is refused exactly when some character is neither skipped nor in the alphabet. */
  lemma {:induction false} RefusedIff(text: string, p: Pending)
    requires Carries(p)
    ensures DecodedFrom(text, p).Ok? <==> forall k :: 0 <= k < |text| ==> IsSkipped(text[k]) || Position(text[k]).Some?
  {
    hide Take, Position, IsSkipped;
    if text != "" {
      assert forall k :: 0 < k < |text| ==> text[k] == text[1..][k - 1];
      if IsSkipped(text[0]) {
        RefusedIff(text[1..], p);
      } else if Position(text[0]).Some? {
        RefusedIff(text[1..], Take(p, Position(text[0]).value).1);
      }
    }
  }
}