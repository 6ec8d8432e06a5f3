/** The check value of CRC-32: what the register gives for the digits 1 to 9. */
module Crc32Answer {
  import opened Crc32

  lemma {:induction false} EightSteps(
    v0: Word, v1: Word, v2: Word, v3: Word, v4: Word, v5: Word, v6: Word, v7: Word, v8: Word)
    requires Step(v0) == v1 && Step(v1) == v2 && Step(v2) == v3 && Step(v3) == v4
    requires Step(v4) == v5 && Step(v5) == v6 && Step(v6) == v7 && Step(v7) == v8
    ensures Steps(v0, 8) == v8
  {
    hide Step;
    assert Steps(v0, 0) == v0 && Steps(v0, 1) == v1 && Steps(v0, 2) == v2 && Steps(v0, 3) == v3;
    assert Steps(v0, 4) == v4 && Steps(v0, 5) == v5 && Steps(v0, 6) == v6 && Steps(v0, 7) == v7;
  }

  const DIGITS: seq<Byte> := [0x31, 0x32, 0x33, 0x34, 0x35, 0x36, 0x37, 0x38, 0x39]

  /** One more byte, when the register and what eight steps make of the low byte are known. */
  lemma {:induction false} OneByte(k: nat, b: Byte, crc: Word, low: Word, stepped: Word, next: Word)
    requires k < |DIGITS| && DIGITS[k] == b
    requires Register(0xffff_ffff, DIGITS[..k]) == crc && LowByte(Xor(crc, Widen(b))) == low && Steps(low, 8) == stepped
    requires Xor(stepped, DropByte(crc)) == next
    ensures Register(0xffff_ffff, DIGITS[..k + 1]) == next
  {
    hide Xor, LowByte, Widen, Steps, DropByte, FeedBits, BitsOf;
    assert DIGITS[..k + 1][..k] == DIGITS[..k];
    TableStep(crc, b);
  }

  lemma {:induction false} Fed3()
    ensures Register(0xffff_ffff, DIGITS[..3]) == 0x77b79c2d
  {
    hide Register, Steps;
    NothingFed();
    EightSteps(0x000000ce, 0x00000067, 0xedb88313, 0x9b64c2a9,
      0xa00ae274, 0x5005713a, 0x2802b89d, 0xf9b9df6e, 0x7cdcefb7);
    OneByte(0, 0x31, 0xffffffff, 0x000000ce, 0x7cdcefb7, 0x7c231048);
    EightSteps(0x0000007a, 0x0000003d, 0xedb8833e, 0x76dc419f,
      0xd6d6a3ef, 0x86d3d2d7, 0xaed16a4b, 0xbad03605, 0xb0d09822);
    OneByte(1, 0x32, 0x7c231048, 0x0000007a, 0xb0d09822, 0xb0acbb32);
    EightSteps(0x00000001, 0xedb88320, 0x76dc4190, 0x3b6e20c8,
      0x1db71064, 0x0edb8832, 0x076dc419, 0xee0e612c, 0x77073096);
    OneByte(2, 0x33, 0xb0acbb32, 0x00000001, 0x77073096, 0x77b79c2d);
  }

  lemma {:induction false} Fed6()
    ensures Register(0xffff_ffff, DIGITS[..6]) == 0xf68d2c9e
  {
    hide Register, Steps;
    Fed3();
    EightSteps(0x00000019, 0xedb8832c, 0x76dc4196, 0x3b6e20cb,
      0xf00f9345, 0x95bf4a82, 0x4adfa541, 0xc8d75180, 0x646ba8c0);
    OneByte(3, 0x34, 0x77b79c2d, 0x00000019, 0x646ba8c0, 0x641c1f5c);
    EightSteps(0x00000069, 0xedb88314, 0x76dc418a, 0x3b6e20c5,
      0xf00f9342, 0x7807c9a1, 0xd1bb67f0, 0x68ddb3f8, 0x346ed9fc);
    OneByte(4, 0x35, 0x641c1f5c, 0x00000069, 0x346ed9fc, 0x340ac5e3);
    EightSteps(0x000000d5, 0xedb8834a, 0x76dc41a5, 0xd6d6a3f2,
      0x6b6b51f9, 0xd80d2bdc, 0x6c0695ee, 0x36034af7, 0xf6b9265b);
    OneByte(5, 0x36, 0x340ac5e3, 0x000000d5, 0xf6b9265b, 0xf68d2c9e);
  }

  lemma {:induction false} Fed9()
    ensures Register(0xffff_ffff, DIGITS[..9]) == 0x340bc6d9
  {
    hide Register, Steps;
    Fed6();
    EightSteps(0x000000a9, 0xedb88374, 0x76dc41ba, 0x3b6e20dd,
      0xf00f934e, 0x7807c9a7, 0xd1bb67f3, 0x856530d9, 0xaf0a1b4c);
    OneByte(6, 0x37, 0xf68d2c9e, 0x000000a9, 0xaf0a1b4c, 0xaffc9660);
    EightSteps(0x00000058, 0x0000002c, 0x00000016, 0x0000000b,
      0xedb88325, 0x9b64c2b2, 0x4db26159, 0xcb61b38c, 0x65b0d9c6);
    OneByte(7, 0x38, 0xaffc9660, 0x00000058, 0x65b0d9c6, 0x651f2550);
    EightSteps(0x00000069, 0xedb88314, 0x76dc418a, 0x3b6e20c5,
      0xf00f9342, 0x7807c9a1, 0xd1bb67f0, 0x68ddb3f8, 0x346ed9fc);
    OneByte(8, 0x39, 0x651f2550, 0x00000069, 0x346ed9fc, 0x340bc6d9);
  }

  lemma {:induction false} NothingFed()
    ensures Register(0xffff_ffff, DIGITS[..0]) == 0xffff_ffff
  {
  }

  /** The check value. */
  lemma {:induction false} CheckValue()
    ensures Crc(DIGITS) == 0xcbf43926
  {
    hide Register;
    Fed9();
    assert DIGITS[..9] == DIGITS;
  }
}
