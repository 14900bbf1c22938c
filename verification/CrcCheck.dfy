/** The checksum of the digits 1 to 9, by the register as a word of 32 bits. */
module CrcCheck {
  import opened Bits
  import opened Crc32s

  type word = bv32

  function Half(x: word): word { x >> 1 }

  function Bit(x: word): nat { if x & 1 == 1 then 1 else 0 }

  function Both(x: word, y: word): word { x ^ y }

  /** The number that the lowest `n` bits of a word stand for. */
  function Low(x: word, n: nat): nat
    decreases n
  {
    if n == 0 then 0 else Bit(x) + 2 * Low(Half(x), n - 1)
  }

  lemma HalfBoth(x: word, y: word)
    ensures Half(Both(x, y)) == Both(Half(x), Half(y)) && Bit(Both(x, y)) == if Bit(x) == Bit(y) then 0 else 1
  {
  }

  lemma {:induction false} LowBoth(x: word, y: word, n: nat)
    ensures Xor(Low(x, n), Low(y, n)) == Low(Both(x, y), n)
    decreases n
  {
    hide Half, Both;
    if n > 0 {
      LowBoth(Half(x), Half(y), n - 1);
      HalfBoth(x, y);
      LowParts(x, n);
      LowParts(y, n);
      LowParts(Both(x, y), n);
      hide Low, Bit;
      XorStep(Low(x, n), Low(y, n));
      hide Xor;
    }
  }

  lemma LowParts(x: word, n: nat)
    requires n > 0
    ensures Low(x, n) == Bit(x) + 2 * Low(Half(x), n - 1) && Bit(x) <= 1
    ensures Low(x, n) % 2 == Bit(x) && Low(x, n) / 2 == Low(Half(x), n - 1)
  {
    hide Half;
  }

  function Halves(x: word, n: nat): word
    decreases n
  {
    if n == 0 then x else Halves(Half(x), n - 1)
  }

  lemma {:induction false} HalvesMore(x: word, n: nat, m: nat)
    ensures Halves(x, n + m) == Halves(Halves(x, n), m)
    decreases n
  {
    hide Half;
    if n > 0 {
      HalvesMore(Half(x), n - 1, m);
    }
  }

  lemma EightHalves(x: word)
    ensures Halves(x, 8) == x >> 8
  {
  }

  lemma AllShiftedOut(x: word)
    ensures Halves(x, 32) == 0
  {
    HalvesMore(x, 8, 24);
    HalvesMore(Halves(x, 8), 8, 16);
    HalvesMore(Halves(x, 16), 8, 8);
    HalvesMore(x, 8, 8);
    EightHalves(x);
    EightHalves(Halves(x, 8));
    EightHalves(Halves(x, 16));
    HalvesMore(x, 16, 16);
    HalvesMore(Halves(x, 16), 8, 8);
    EightHalves(Halves(Halves(x, 16), 8));
    hide Halves;
    assert (((x >> 8) >> 8) >> 8) >> 8 == 0;
  }

  lemma {:induction false} NoHighBit(x: word, n: nat)
    requires Halves(x, n) == 0
    ensures Low(x, n + 1) == Low(x, n)
    decreases n
  {
    hide Half;
    if n > 0 {
      NoHighBit(Half(x), n - 1);
    } else {
      assert Bit(0) == 0;
    }
  }

  /** The number that a word stands for. */
  function Number(x: word): nat
  {
    Low(x, 32)
  }

  lemma HalfNumber(x: word)
    ensures Number(x) / 2 == Number(Half(x)) && Number(x) % 2 == Bit(x)
  {
    hide Half, Low;
    LowParts(x, 32);
    AllShiftedOut(x);
    assert Halves(Half(x), 31) == Halves(x, 32);
    NoHighBit(Half(x), 31);
  }

  lemma NumberBoth(x: word, y: word)
    ensures Xor(Number(x), Number(y)) == Number(Both(x, y))
  {
    LowBoth(x, y, 32);
  }

  lemma {:induction false} LowBound(x: word, n: nat)
    ensures Low(x, n) < Pow2(n)
    decreases n
  {
    hide Half;
    if n > 0 {
      LowBound(Half(x), n - 1);
    }
  }

  lemma NumberBound(x: word)
    ensures Number(x) < WORDS
  {
    hide Low;
    LowBound(x, 32);
    assert Pow2(32) == WORDS by {
      Pow2Values();
      assert Pow2(20) == 16 * Pow2(16);
      assert Pow2(24) == 16 * Pow2(20);
      assert Pow2(28) == 16 * Pow2(24);
      assert Pow2(32) == 16 * Pow2(28);
    }
  }

  function ShiftWord(x: word): word
  {
    if Bit(x) == 1 then Both(Half(x), 0xEDB8_8320) else Half(x)
  }

  lemma LowIs(x: word, n: nat)
    requires n > 0
    ensures Low(x, n) == Bit(x) + 2 * Low(Half(x), n - 1)
  {
  }

  /** Four more bits. */
  lemma Nibble(x: word, n: nat, d: nat, y: word, v: nat)
    requires y == x >> 4 && Low(y, n) == v && d == Bit(x) + 2 * Bit(x >> 1) + 4 * Bit(x >> 2) + 8 * Bit(x >> 3)
    ensures Low(x, n + 4) == d + 16 * v
  {
    hide Bit, Low;
    LowIs(x, n + 4);
    LowIs(x >> 1, n + 3);
    LowIs(x >> 2, n + 2);
    LowIs(x >> 3, n + 1);
    assert Half(x) == x >> 1 && Half(x >> 1) == x >> 2 && Half(x >> 2) == x >> 3 && Half(x >> 3) == y;
  }

  lemma PolynomialIs()
    ensures Number(0xEDB8_8320) == POLYNOMIAL
  {
    hide Low;
    NoBits(0);
    Nibble(0xE, 0, 0xE, 0x0, 0x0);
    Nibble(0xED, 4, 0xD, 0xE, 0xE);
    Nibble(0xEDB, 8, 0xB, 0xED, 0xED);
    Nibble(0xEDB8, 12, 0x8, 0xEDB, 0xEDB);
    Nibble(0xEDB88, 16, 0x8, 0xEDB8, 0xEDB8);
    Nibble(0xEDB883, 20, 0x3, 0xEDB88, 0xEDB88);
    Nibble(0xEDB8832, 24, 0x2, 0xEDB883, 0xEDB883);
    Nibble(0xEDB88320, 28, 0x0, 0xEDB8832, 0xEDB8832);
  }

  lemma {:induction false} NoBits(n: nat)
    ensures Low(0, n) == 0
  {
    if n > 0 {
      NoBits(n - 1);
    }
  }

  lemma ShiftsWord(x: word)
    ensures Number(x) < WORDS && Shift(Number(x)) == Number(ShiftWord(x))
  {
    hide Number, Xor, Half, Both, Bit;
    NumberBound(x);
    HalfNumber(x);
    PolynomialIs();
    NumberBoth(Half(x), 0xEDB8_8320);
  }

  function ShiftWords(x: word, n: nat): word
    decreases n
  {
    if n == 0 then x else ShiftWords(ShiftWord(x), n - 1)
  }

  lemma {:induction false} ShiftsWords(x: word, n: nat)
    ensures Number(x) < WORDS && Shifts(Number(x), n) == Number(ShiftWords(x, n))
    decreases n
  {
    hide Number, Shift, ShiftWord;
    NumberBound(x);
    if n > 0 {
      ShiftsWord(x);
      ShiftsWords(ShiftWord(x), n - 1);
    }
  }

  /** One byte enters the register. */
  lemma Enters(s: seq<byte>, c: word, b: word)
    requires Number(b) < 256 && Register(ONES, s) == Number(c)
    ensures Register(ONES, s + [Number(b)]) == Number(ShiftWords(Both(c, b), 8))
  {
    hide Number, Xor, Shifts, ShiftWords, Both;
    assert (s + [Number(b)])[..|s|] == s;
    NumberBoth(c, b);
    ShiftsWords(Both(c, b), 8);
  }

  lemma SmallNumber(b: word, n: nat, h: word, d: nat)
    requires b >> 4 == h && h >> 4 == 0 && n == Bit(b) + 2 * Bit(b >> 1) + 4 * Bit(b >> 2) + 8 * Bit(b >> 3)
    requires d == Bit(h) + 2 * Bit(h >> 1) + 4 * Bit(h >> 2) + 8 * Bit(h >> 3)
    ensures Number(b) == n + 16 * d
  {
    hide Low, Bit;
    NoBits(24);
    Nibble(h, 24, d, 0, 0);
    Nibble(b, 28, n, h, d);
  }

  /** One of the digits enters. */
  lemma DigitEnters(s: seq<byte>, c: word, b: word, d: nat, r: word)
    requires d < 16 && b >> 4 == 3 && d == Bit(b) + 2 * Bit(b >> 1) + 4 * Bit(b >> 2) + 8 * Bit(b >> 3)
    requires Register(ONES, s) == Number(c) && ShiftWords(Both(c, b), 8) == r
    ensures Register(ONES, s + [0x30 + d]) == Number(r)
  {
    hide Bit, Number, ShiftWords, Both, Register;
    assert Bit(3) == 1 && Bit(3 >> 1) == 1 && Bit(3 >> 2) == 0 && Bit(3 >> 3) == 0 by { BitsOfThree(); }
    SmallNumber(b, d, 3, 3);
    Enters(s, c, b);
  }

  lemma BitsOfThree()
    ensures Bit(3) == 1 && Bit(3 >> 1) == 1 && Bit(3 >> 2) == 0 && Bit(3 >> 3) == 0
  {
  }

  lemma StartsFull()
    ensures Number(0xFFFF_FFFF) == ONES
  {
    hide Low;
    NoBits(0);
    Nibble(0xF, 0, 0xF, 0x0, 0x0);
    Nibble(0xFF, 4, 0xF, 0xF, 0xF);
    Nibble(0xFFF, 8, 0xF, 0xFF, 0xFF);
    Nibble(0xFFFF, 12, 0xF, 0xFFF, 0xFFF);
    Nibble(0xFFFFF, 16, 0xF, 0xFFFF, 0xFFFF);
    Nibble(0xFFFFFF, 20, 0xF, 0xFFFFF, 0xFFFFF);
    Nibble(0xFFFFFFF, 24, 0xF, 0xFFFFFF, 0xFFFFFF);
    Nibble(0xFFFFFFFF, 28, 0xF, 0xFFFFFFF, 0xFFFFFFF);
  }

  lemma Nothing()
    ensures Register(ONES, []) == ONES
  {
  }

  lemma EightShifts(x0: word, x1: word, x2: word, x3: word, x4: word, x5: word, x6: word, x7: word, x8: word)
    requires ShiftWord(x0) == x1 && ShiftWord(x1) == x2 && ShiftWord(x2) == x3 && ShiftWord(x3) == x4
    requires ShiftWord(x4) == x5 && ShiftWord(x5) == x6 && ShiftWord(x6) == x7 && ShiftWord(x7) == x8
    ensures ShiftWords(x0, 8) == x8
  {
    hide ShiftWord;
  }

  lemma Digit1(s: seq<byte>)
    requires Register(ONES, s) == Number(0xFFFFFFFF)
    ensures Register(ONES, s + [0x31]) == Number(0x7C231048)
  {
    hide Number, Register, ShiftWords;
    EightShifts(0xFFFFFFCE, 0x7FFFFFE7, 0xD2477CD3, 0x849B3D49, 0xAFF51D84,
                0x57FA8EC2, 0x2BFD4761, 0xF8462090, 0x7C231048);
    DigitEnters(s, 0xFFFFFFFF, 0x31, 1, 0x7C231048);
  }

  lemma Digit2(s: seq<byte>)
    requires Register(ONES, s) == Number(0x7C231048)
    ensures Register(ONES, s + [0x32]) == Number(0xB0ACBB32)
  {
    hide Number, Register, ShiftWords;
    EightShifts(0x7C23107A, 0x3E11883D, 0xF2B0473E, 0x7958239F, 0xD11492EF,
                0x8532CA57, 0xAF21E60B, 0xBA287025, 0xB0ACBB32);
    DigitEnters(s, 0x7C231048, 0x32, 2, 0xB0ACBB32);
  }

  lemma Digit3(s: seq<byte>)
    requires Register(ONES, s) == Number(0xB0ACBB32)
    ensures Register(ONES, s + [0x33]) == Number(0x77B79C2D)
  {
    hide Number, Register, ShiftWords;
    EightShifts(0xB0ACBB01, 0xB5EEDEA0, 0x5AF76F50, 0x2D7BB7A8, 0x16BDDBD4,
                0x0B5EEDEA, 0x05AF76F5, 0xEF6F385A, 0x77B79C2D);
    DigitEnters(s, 0xB0ACBB32, 0x33, 3, 0x77B79C2D);
  }

  lemma Digit4(s: seq<byte>)
    requires Register(ONES, s) == Number(0x77B79C2D)
    ensures Register(ONES, s + [0x34]) == Number(0x641C1F5C)
  {
    hide Number, Register, ShiftWords;
    EightShifts(0x77B79C19, 0xD6634D2C, 0x6B31A696, 0x3598D34B, 0xF774EA85,
                0x9602F662, 0x4B017B31, 0xC8383EB8, 0x641C1F5C);
    DigitEnters(s, 0x77B79C2D, 0x34, 4, 0x641C1F5C);
  }

  lemma Digit5(s: seq<byte>)
    requires Register(ONES, s) == Number(0x641C1F5C)
    ensures Register(ONES, s + [0x35]) == Number(0x340AC5E3)
  {
    hide Number, Register, ShiftWords;
    EightShifts(0x641C1F69, 0xDFB68C94, 0x6FDB464A, 0x37EDA325, 0xF64E52B2,
                0x7B272959, 0xD02B178C, 0x68158BC6, 0x340AC5E3);
    DigitEnters(s, 0x641C1F5C, 0x35, 5, 0x340AC5E3);
  }

  lemma Digit6(s: seq<byte>)
    requires Register(ONES, s) == Number(0x340AC5E3)
    ensures Register(ONES, s + [0x36]) == Number(0xF68D2C9E)
  {
    hide Number, Register, ShiftWords;
    EightShifts(0x340AC5D5, 0xF7BDE1CA, 0x7BDEF0E5, 0xD057FB52, 0x682BFDA9,
                0xD9AD7DF4, 0x6CD6BEFA, 0x366B5F7D, 0xF68D2C9E);
    DigitEnters(s, 0x340AC5E3, 0x36, 6, 0xF68D2C9E);
  }

  lemma Digit7(s: seq<byte>)
    requires Register(ONES, s) == Number(0xF68D2C9E)
    ensures Register(ONES, s + [0x37]) == Number(0xAFFC9660)
  {
    hide Number, Register, ShiftWords;
    EightShifts(0xF68D2CA9, 0x96FE1574, 0x4B7F0ABA, 0x25BF855D, 0xFF67418E,
                0x7FB3A0C7, 0xD2615343, 0x84882A81, 0xAFFC9660);
    DigitEnters(s, 0xF68D2C9E, 0x37, 7, 0xAFFC9660);
  }

  lemma Digit8(s: seq<byte>)
    requires Register(ONES, s) == Number(0xAFFC9660)
    ensures Register(ONES, s + [0x38]) == Number(0x651F2550)
  {
    hide Number, Register, ShiftWords;
    EightShifts(0xAFFC9658, 0x57FE4B2C, 0x2BFF2596, 0x15FF92CB, 0xE7474A45,
                0x9E1B2602, 0x4F0D9301, 0xCA3E4AA0, 0x651F2550);
    DigitEnters(s, 0xAFFC9660, 0x38, 8, 0x651F2550);
  }

  lemma Digit9(s: seq<byte>)
    requires Register(ONES, s) == Number(0x651F2550)
    ensures Register(ONES, s + [0x39]) == Number(0x340BC6D9)
  {
    hide Number, Register, ShiftWords;
    EightShifts(0x651F2569, 0xDF371194, 0x6F9B88CA, 0x37CDC465, 0xF65E6112,
                0x7B2F3089, 0xD02F1B64, 0x68178DB2, 0x340BC6D9);
    DigitEnters(s, 0x651F2550, 0x39, 9, 0x340BC6D9);
  }

  /** The check value of CRC-32: of the message "123456789". */
  lemma CheckValue()
    ensures Crc([0x31, 0x32, 0x33, 0x34, 0x35, 0x36, 0x37, 0x38, 0x39]) == 0xCBF4_3926
  {
    hide Number, Register, Xor;
    StartsFull();
    assert Register(ONES, []) == Number(0xFFFF_FFFF) by { Nothing(); }
    Digit1([]);
    assert [] + [0x31] == [0x31];
    Digit2([0x31]);
    assert [0x31] + [0x32] == [0x31, 0x32];
    Digit3([0x31, 0x32]);
    assert [0x31, 0x32] + [0x33] == [0x31, 0x32, 0x33];
    Digit4([0x31, 0x32, 0x33]);
    assert [0x31, 0x32, 0x33] + [0x34] == [0x31, 0x32, 0x33, 0x34];
    Digit5([0x31, 0x32, 0x33, 0x34]);
    assert [0x31, 0x32, 0x33, 0x34] + [0x35] == [0x31, 0x32, 0x33, 0x34, 0x35];
    Digit6([0x31, 0x32, 0x33, 0x34, 0x35]);
    assert [0x31, 0x32, 0x33, 0x34, 0x35] + [0x36] == [0x31, 0x32, 0x33, 0x34, 0x35, 0x36];
    Digit7([0x31, 0x32, 0x33, 0x34, 0x35, 0x36]);
    assert [0x31, 0x32, 0x33, 0x34, 0x35, 0x36] + [0x37] == [0x31, 0x32, 0x33, 0x34, 0x35, 0x36, 0x37];
    Digit8([0x31, 0x32, 0x33, 0x34, 0x35, 0x36, 0x37]);
    assert [0x31, 0x32, 0x33, 0x34, 0x35, 0x36, 0x37] + [0x38] == [0x31, 0x32, 0x33, 0x34, 0x35, 0x36, 0x37, 0x38];
    Digit9([0x31, 0x32, 0x33, 0x34, 0x35, 0x36, 0x37, 0x38]);
    assert [0x31, 0x32, 0x33, 0x34, 0x35, 0x36, 0x37, 0x38] + [0x39] == [0x31, 0x32, 0x33, 0x34, 0x35, 0x36, 0x37, 0x38, 0x39];
    Finish();
  }

  lemma Finish()
    ensures Xor(Number(0x340BC6D9), ONES) == 0xCBF4_3926
  {
    hide Low, Xor;
    StartsFull();
    NumberBoth(0x340BC6D9, 0xFFFF_FFFF);
    assert Both(0x340BC6D9, 0xFFFF_FFFF) == 0xCBF4_3926;
    hide Both;
    NoBits(0);
    Nibble(0xC, 0, 0xC, 0x0, 0x0);
    Nibble(0xCB, 4, 0xB, 0xC, 0xC);
    Nibble(0xCBF, 8, 0xF, 0xCB, 0xCB);
    Nibble(0xCBF4, 12, 0x4, 0xCBF, 0xCBF);
    Nibble(0xCBF43, 16, 0x3, 0xCBF4, 0xCBF4);
    Nibble(0xCBF439, 20, 0x9, 0xCBF43, 0xCBF43);
    Nibble(0xCBF4392, 24, 0x2, 0xCBF439, 0xCBF439);
    Nibble(0xCBF43926, 28, 0x6, 0xCBF4392, 0xCBF4392);
  }
}
