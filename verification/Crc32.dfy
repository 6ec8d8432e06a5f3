/** CRC-32 by table, and the bit-at-a-time register it must equal (section 8 of RFC 1952). */
module Crc32 {
  type Byte = bv8
  type Word = bv32

  const POLYNOMIAL: Word := 0xedb88320

  function Xor(x: Word, y: Word): Word {
    x ^ y
  }

  function Widen(b: Byte): Word {
    b as Word
  }

  function Half(v: Word): Word {
    v >> 1
  }

  predicate Odd(v: Word) {
    v & 1 != 0
  }

  /** One step of the reflected register: the low bit falls out and may bring the polynomial in. */
  function Step(v: Word): Word {
    if Odd(v) then Xor(POLYNOMIAL, Half(v)) else Half(v)
  }

  function Steps(v: Word, n: nat): Word {
    if n == 0 then v else Step(Steps(v, n - 1))
  }

  // ---- the reference: message bits, low bit first, fed in one at a time ---------------------

  function Drop(v: Word, k: nat): Word {
    if k == 0 then v else Half(Drop(v, k - 1))
  }

  function BitsOf(b: Byte): (bits: seq<bool>)
    ensures |bits| == 8
  {
    seq(8, k requires 0 <= k < 8 => Odd(Drop(Widen(b), k)))
  }

  function BitWord(bit: bool): Word {
    if bit then 1 else 0
  }

  function FeedBits(crc: Word, bits: seq<bool>): Word {
    if bits == [] then crc else Step(Xor(FeedBits(crc, bits[..|bits| - 1]), BitWord(bits[|bits| - 1])))
  }

  /** The register after a message. */
  function Register(crc: Word, data: seq<Byte>): Word {
    if data == [] then crc else FeedBits(Register(crc, data[..|data| - 1]), BitsOf(data[|data| - 1]))
  }

  function Crc(data: seq<Byte>): Word {
    Xor(Register(0xffff_ffff, data), 0xffff_ffff)
  }

  // ---- the step is linear over exclusive or -------------------------------------------------

  lemma {:induction false} HalfLinear(x: Word, y: Word)
    ensures Half(Xor(x, y)) == Xor(Half(x), Half(y))
  {
  }

  lemma {:induction false} OddLinear(x: Word, y: Word)
    ensures Odd(Xor(x, y)) == (Odd(x) != Odd(y))
  {
  }

  lemma {:induction false} XorLaws(x: Word, y: Word, z: Word)
    ensures (x ^ y) ^ z == x ^ (y ^ z) && x ^ y == y ^ x && x ^ (x ^ y) == y && x ^ 0 == x
  {
  }

  lemma {:induction false} XorAssociates(x: Word, y: Word, z: Word)
    ensures Xor(Xor(x, y), z) == Xor(x, Xor(y, z))
  {
    XorLaws(x, y, z);
  }

  lemma {:induction false} XorCommutes(x: Word, y: Word)
    ensures Xor(x, y) == Xor(y, x)
  {
    XorLaws(x, y, 0);
  }

  lemma {:induction false} XorCancels(x: Word, y: Word)
    ensures Xor(x, Xor(x, y)) == y && Xor(x, 0) == x && Xor(0, x) == x
  {
    XorLaws(x, y, 0);
    XorLaws(0, x, 0);
  }

  lemma {:induction false} XorPairs(p: Word, x: Word, y: Word)
    ensures Xor(Xor(p, x), Xor(p, y)) == Xor(x, y)
    ensures Xor(Xor(p, x), y) == Xor(p, Xor(x, y)) == Xor(x, Xor(p, y))
  {
    hide Xor;
    XorAssociates(p, x, y);
    XorAssociates(x, p, y);
    XorCommutes(p, x);
    XorAssociates(p, x, Xor(p, y));
    XorCancels(p, Xor(x, y));
  }

  lemma {:induction false} StepLinear(x: Word, y: Word)
    ensures Step(Xor(x, y)) == Xor(Step(x), Step(y))
  {
    hide Half, Odd, Xor;
    HalfLinear(x, y);
    OddLinear(x, y);
    XorPairs(POLYNOMIAL, Half(x), Half(y));
  }

  lemma {:induction false} StepsLinear(x: Word, y: Word, n: nat)
    ensures Steps(Xor(x, y), n) == Xor(Steps(x, n), Steps(y, n))
  {
    hide Step, Xor;
    if n > 0 {
      StepsLinear(x, y, n - 1);
      StepLinear(Steps(x, n - 1), Steps(y, n - 1));
    }
  }

  // ---- a byte at a time -----------------------------------------------------------------------

  function ClearLow(d: Word): Word {
    d & 0xffff_fffe
  }

  /** A word is its low bit over the rest, and the rest only moves right. */
  lemma {:induction false} LowBit(d: Word)
    ensures d == Xor(BitWord(Odd(d)), ClearLow(d)) && Step(ClearLow(d)) == Half(d)
  {
  }

  /** After `k` bits of a word, what is still to come can be mixed in at once. */
  lemma {:induction false} FeedingWord(crc: Word, d: Word, bits: seq<bool>)
    requires forall k :: 0 <= k < |bits| ==> bits[k] == Odd(Drop(d, k))
    ensures Xor(FeedBits(crc, bits), Drop(d, |bits|)) == Steps(Xor(crc, d), |bits|)
  {
    hide Xor, Half, Odd, BitWord, ClearLow, Step;
    if bits != [] {
      var n := |bits| - 1;
      var before, rest, bit := FeedBits(crc, bits[..n]), Drop(d, n), BitWord(bits[n]);
      FeedingWord(crc, d, bits[..n]);
      LowBit(rest);
      XorAssociates(before, bit, ClearLow(rest));
      StepLinear(Xor(before, bit), ClearLow(rest));
    }
  }

  lemma {:induction false} DropIsShift(v: Word)
    ensures Drop(v, 4) == v >> 4 && Drop(v, 8) == v >> 8
  {
    assert Drop(v, 1) == v >> 1;
    assert Drop(v, 2) == v >> 2;
    assert Drop(v, 3) == v >> 3;
    assert Drop(v, 4) == v >> 4;
    assert Drop(v, 5) == v >> 5;
    assert Drop(v, 6) == v >> 6;
    assert Drop(v, 7) == v >> 7;
  }

  lemma {:induction false} ByteFallsOut(b: Byte)
    ensures Drop(Widen(b), 8) == 0
  {
    DropIsShift(Widen(b));
  }

  lemma {:induction false} FeedingByte(crc: Word, b: Byte)
    ensures FeedBits(crc, BitsOf(b)) == Steps(Xor(crc, Widen(b)), 8)
  {
    hide Xor, FeedBits, Steps;
    FeedingWord(crc, Widen(b), BitsOf(b));
    ByteFallsOut(b);
    XorCancels(FeedBits(crc, BitsOf(b)), 0);
  }

  // ---- a table at a time ------------------------------------------------------------------------

  function LowByte(v: Word): Word {
    v & 0xff
  }

  function DropByte(v: Word): Word {
    v >> 8
  }

  function HighBytes(v: Word): Word {
    v & 0xffff_ff00
  }

  /** A register whose low byte is clear only moves right. */
  lemma {:induction false} HighBitsShift(v: Word, n: nat)
    requires LowByte(v) == 0 && n <= 8
    ensures Steps(v, n) == Drop(v, n)
  {
    if n > 0 {
      HighBitsShift(v, n - 1);
      LowBitsClear(v, n - 1);
    }
  }

  lemma {:induction false} LowBitsClear(v: Word, n: nat)
    requires LowByte(v) == 0 && n < 8
    ensures !Odd(Drop(v, n))
  {
    assert Drop(v, 1) == v >> 1;
    assert Drop(v, 2) == v >> 2;
    assert Drop(v, 3) == v >> 3;
    assert Drop(v, 4) == v >> 4;
    assert Drop(v, 5) == v >> 5;
    assert Drop(v, 6) == v >> 6;
    assert Drop(v, 7) == v >> 7;
    assert n == 0 || n == 1 || n == 2 || n == 3 || n == 4 || n == 5 || n == 6 || n == 7;
  }

  lemma {:induction false} MaskLaws(x: Word, w: Word)
    requires w <= 0xff
    ensures (x & 0xff) ^ (x & 0xffff_ff00) == x && (x & 0xffff_ff00) & 0xff == 0
    ensures ((x ^ w) & 0xffff_ff00) >> 8 == x >> 8
  {
  }

  lemma {:induction false} SplitWord(x: Word)
    ensures x == Xor(LowByte(x), HighBytes(x)) && LowByte(HighBytes(x)) == 0
  {
    MaskLaws(x, 0);
  }

  lemma {:induction false} SplitByte(crc: Word, b: Byte)
    ensures DropByte(HighBytes(Xor(crc, Widen(b)))) == DropByte(crc)
  {
    MaskLaws(crc, Widen(b));
  }

  /** Eight steps at once: the table holds them for the low byte, and the rest only moves right. */
  lemma {:induction false} TableStep(crc: Word, b: Byte)
    ensures FeedBits(crc, BitsOf(b)) == Xor(Steps(LowByte(Xor(crc, Widen(b))), 8), DropByte(crc))
  {
    hide Xor, LowByte, HighBytes, Widen, FeedBits, Steps, BitsOf;
    var x := Xor(crc, Widen(b));
    FeedingByte(crc, b);
    SplitWord(x);
    SplitByte(crc, b);
    StepsLinear(LowByte(x), HighBytes(x), 8);
    HighBitsShift(HighBytes(x), 8);
    DropIsShift(HighBytes(x));
  }

  function Entry(index: nat): Word
    requires index < 256
  {
    Steps(index as Word, 8)
  }

  method CrcTable() returns (table: array<Word>)
    ensures fresh(table) && table.Length == 256 && forall k :: 0 <= k < 256 ==> table[k] == Entry(k)
  {
    hide Step;
    table := new Word[256](_ => 0);
    for index := 0 to 256
      invariant forall k :: 0 <= k < index ==> table[k] == Entry(k)
    {
      var value := index as Word;
      for bit := 0 to 8
        invariant value == Steps(index as Word, bit)
      {
        value := Step(value);
      }
      table[index] := value;
    }
  }

  lemma {:induction false} RegisterGrows(crc: Word, data: seq<Byte>, k: nat)
    requires k < |data|
    ensures Register(crc, data[..k + 1]) == FeedBits(Register(crc, data[..k]), BitsOf(data[k]))
  {
    assert data[..k + 1][..k] == data[..k];
  }

  /** The table loop gives the checksum of the bit-at-a-time register. */
  method Crc32(data: seq<Byte>) returns (checksum: Word)
    ensures checksum == Crc(data)
  {
    hide Xor, LowByte, DropByte, Widen, Steps, Entry, FeedBits, BitsOf;
    var table := CrcTable();
    var crc: Word := 0xffff_ffff;
    for k := 0 to |data|
      invariant crc == Register(0xffff_ffff, data[..k])
      invariant forall i :: 0 <= i < 256 ==> table[i] == Entry(i)
    {
      RegisterGrows(0xffff_ffff, data, k);
      TableStep(crc, data[k]);
      LookUp(crc, data[k]);
      crc := Xor(table[LowByte(Xor(crc, Widen(data[k]))) as int], DropByte(crc));
    }
    assert data[..|data|] == data;
    checksum := Xor(crc, 0xffff_ffff);
  }

  lemma {:induction false} LookUp(crc: Word, b: Byte)
    ensures var i := LowByte(Xor(crc, Widen(b))) as int; i < 256 && Entry(i) == Steps(LowByte(Xor(crc, Widen(b))), 8)
  {
  }

  // ---- what the checksum catches ------------------------------------------------------------------

  /** The polynomial's top bit says whether the bit that fell out was set. */
  lemma {:induction false} TopBit(x: Word)
    ensures (Step(x) >= 0x8000_0000) == Odd(x)
  {
  }

  lemma {:induction false} StepInjective(x: Word, y: Word)
    requires Step(x) == Step(y)
    ensures x == y
  {
    TopBit(x);
    TopBit(y);
  }

  lemma {:induction false} StepsInjective(x: Word, y: Word, n: nat)
    requires Steps(x, n) == Steps(y, n)
    ensures x == y
  {
    hide Step;
    if n > 0 {
      StepInjective(Steps(x, n - 1), Steps(y, n - 1));
      StepsInjective(x, y, n - 1);
    }
  }

  lemma {:induction false} XorInjective(p: Word, x: Word, y: Word)
    requires Xor(p, x) == Xor(p, y) || Xor(x, p) == Xor(y, p)
    ensures x == y
  {
    hide Xor;
    XorCommutes(p, x);
    XorCommutes(p, y);
    XorCancels(p, x);
    XorCancels(p, y);
  }

  /** Two registers never meet on the same bytes. */
  lemma {:induction false} RegistersStayApart(p: Word, q: Word, data: seq<Byte>)
    requires Register(p, data) == Register(q, data)
    ensures p == q
  {
    hide Xor, Steps, FeedBits, BitsOf, Widen;
    if data != [] {
      var n := |data| - 1;
      var x, y := Register(p, data[..n]), Register(q, data[..n]);
      FeedingByte(x, data[n]);
      FeedingByte(y, data[n]);
      StepsInjective(Xor(x, Widen(data[n])), Xor(y, Widen(data[n])), 8);
      XorInjective(Widen(data[n]), x, y);
      RegistersStayApart(p, q, data[..n]);
    }
  }

  lemma {:induction false} RegisterConcat(crc: Word, x: seq<Byte>, y: seq<Byte>)
    ensures Register(crc, x + y) == Register(Register(crc, x), y)
  {
    hide FeedBits, BitsOf;
    if y == [] {
      assert x + y == x;
    } else {
      var n := |y| - 1;
      RegisterConcat(crc, x, y[..n]);
      assert (x + y)[..|x| + n] == x + y[..n];
    }
  }

  function RaiseByte(v: Word): Word {
    v << 8
  }

  /** At most four bytes as one word, the first byte lowest. */
  function Window(x: seq<Byte>): Word
    requires |x| <= 4
  {
    if x == [] then 0 else Xor(Widen(x[0]), RaiseByte(Window(x[1..])))
  }

  lemma {:induction false} RaiseLaws(w: Word, v: Word)
    requires w <= 0xff && v <= 0x00ff_ffff
    ensures (w ^ (v << 8)) & 0xff == w && (w ^ (v << 8)) >> 8 == v && (v << 8) & 0xff == 0 && (v << 8) >> 8 == v
  {
    RaiseLow(w, v);
    RaiseHigh(w, v);
    RaiseLow(0, v);
    RaiseHigh(0, v);
    XorLaws(v << 8, 0, 0);
  }

  lemma {:induction false} RaiseLow(w: Word, v: Word)
    requires w <= 0xff
    ensures (w ^ (v << 8)) & 0xff == w
  {
  }

  lemma {:induction false} RaiseHigh(w: Word, v: Word)
    requires w <= 0xff && v <= 0x00ff_ffff
    ensures (w ^ (v << 8)) >> 8 == v
  {
  }

  lemma {:induction false} RaiseBounds(w: Word, v: Word)
    requires w <= 0xff && v <= 0x00ff_ffff
    ensures v <= 0xffff ==> w ^ (v << 8) <= 0x00ff_ffff
    ensures v <= 0xff ==> w ^ (v << 8) <= 0xffff
    ensures v == 0 ==> w ^ (v << 8) <= 0xff
  {
  }

  lemma {:induction false} WindowFits(x: seq<Byte>)
    requires |x| <= 3
    ensures Window(x) <= 0x00ff_ffff && (|x| <= 2 ==> Window(x) <= 0xffff) && (|x| <= 1 ==> Window(x) <= 0xff)
  {
    if x != [] {
      WindowFits(x[1..]);
      RaiseBounds(Widen(x[0]), Window(x[1..]));
    }
  }

  lemma {:induction false} RaiseParts(w: Word, v: Word)
    requires w <= 0xff && v <= 0x00ff_ffff
    ensures LowByte(Xor(w, RaiseByte(v))) == w && DropByte(Xor(w, RaiseByte(v))) == v
    ensures LowByte(RaiseByte(v)) == 0 && DropByte(RaiseByte(v)) == v
  {
    RaiseLaws(w, v);
  }

  lemma {:induction false} WidenFits(b: Byte)
    ensures Widen(b) <= 0xff
  {
  }

  lemma {:induction false} WindowParts(x: seq<Byte>)
    requires 0 < |x| <= 4
    ensures LowByte(Window(x)) == Widen(x[0]) && DropByte(Window(x)) == Window(x[1..])
    ensures Steps(RaiseByte(Window(x[1..])), 8) == Window(x[1..])
  {
    hide Steps, Step, Xor, LowByte, RaiseByte, Widen, Drop;
    var v := Window(x[1..]);
    WindowFits(x[1..]);
    WidenFits(x[0]);
    RaiseParts(Widen(x[0]), v);
    HighBitsShift(RaiseByte(v), 8);
    DropIsShift(RaiseByte(v));
  }

  lemma {:induction false} WidenInjective(a: Byte, b: Byte)
    requires Widen(a) == Widen(b)
    ensures a == b
  {
  }

  lemma {:induction false} WindowInjective(x: seq<Byte>, y: seq<Byte>)
    requires |x| == |y| <= 4 && Window(x) == Window(y)
    ensures x == y
  {
    hide Window, Steps, LowByte, DropByte, Widen;
    if x != [] {
      WindowParts(x);
      WindowParts(y);
      WidenInjective(x[0], y[0]);
      WindowInjective(x[1..], y[1..]);
      assert x == [x[0]] + x[1..] && y == [y[0]] + y[1..];
    }
  }

  lemma {:induction false} StepsAdd(v: Word, m: nat, n: nat)
    ensures Steps(Steps(v, m), n) == Steps(v, m + n)
  {
    hide Step;
    if n > 0 {
      StepsAdd(v, m, n - 1);
    }
  }

  /** Up to four bytes go in as one word, followed by their steps. */
  lemma {:induction false} FeedingWindow(crc: Word, x: seq<Byte>)
    requires |x| <= 4
    ensures Register(crc, x) == Steps(Xor(crc, Window(x)), 8 * |x|)
    decreases |x|
  {
    hide Xor, Steps, FeedBits, BitsOf, Widen, RaiseByte, Step, Register;
    if x == [] {
      EmptyWindow(crc);
    } else {
      var first, rest := x[..1], x[1..];
      assert x == first + rest;
      RegisterConcat(crc, first, rest);
      RegisterOne(crc, x[0]);
      assert first == [x[0]];
      var a := Xor(crc, Widen(x[0]));
      FeedingWindow(Steps(a, 8), rest);
      WindowParts(x);
      StepsLinear(a, RaiseByte(Window(rest)), 8);
      StepsAdd(Xor(a, RaiseByte(Window(rest))), 8, 8 * |rest|);
      XorAssociates(crc, Widen(x[0]), RaiseByte(Window(rest)));
    }
  }

  lemma {:induction false} EmptyWindow(crc: Word)
    ensures Register(crc, []) == crc == Steps(Xor(crc, Window([])), 0)
  {
    XorCancels(crc, 0);
  }

  lemma {:induction false} RegisterOne(crc: Word, b: Byte)
    ensures Register(crc, [b]) == Steps(Xor(crc, Widen(b)), 8)
  {
    hide Xor, Steps, FeedBits, BitsOf, Widen;
    FeedingByte(crc, b);
    assert [b][..0] == [];
  }

  /** A change confined to four neighbouring bytes always changes the checksum. */
  lemma {:induction false} BurstChangesCrc(before: seq<Byte>, x: seq<Byte>, y: seq<Byte>, after: seq<Byte>)
    requires |x| == |y| <= 4 && x != y
    ensures Crc(before + x + after) != Crc(before + y + after)
  {
    hide Xor, Steps, Register, Window;
    if Crc(before + x + after) == Crc(before + y + after) {
      XorInjective(0xffff_ffff, Register(0xffff_ffff, before + x + after), Register(0xffff_ffff, before + y + after));
      var crc := Register(0xffff_ffff, before);
      RegisterConcat(0xffff_ffff, before + x, after);
      RegisterConcat(0xffff_ffff, before + y, after);
      RegistersStayApart(Register(0xffff_ffff, before + x), Register(0xffff_ffff, before + y), after);
      RegisterConcat(0xffff_ffff, before, x);
      RegisterConcat(0xffff_ffff, before, y);
      FeedingWindow(crc, x);
      FeedingWindow(crc, y);
      StepsInjective(Xor(crc, Window(x)), Xor(crc, Window(y)), 8 * |x|);
      XorInjective(crc, Window(x), Window(y));
      WindowInjective(x, y);
    }
  }
}
