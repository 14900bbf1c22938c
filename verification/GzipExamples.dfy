/** Files of literal bytes and what they mean. */
module GzipExamples {
  import opened Bits
  import opened Options
  import opened Rfc1951
  import opened Rfc1951Laws
  import opened LittleEndian
  import opened Crc32s
  import CrcCheck
  import opened Rfc1952
  import opened Blocks
  import opened Streams
  import opened Progress

  function N(b: bool): nat { if b then 1 else 0 }

  lemma ValPush(b: bool, s: seq<bool>)
    ensures Val([b] + s) == N(b) + 2 * Val(s)
  {
    assert ([b] + s)[1..] == s;
  }

  lemma Val4(a: bool, b: bool, c: bool, d: bool, s: seq<bool>)
    ensures Val([a, b, c, d] + s) == N(a) + 2 * (N(b) + 2 * (N(c) + 2 * (N(d) + 2 * Val(s))))
  {
    hide Val;
    ValPush(d, s);
    ValPush(c, [d] + s);
    ValPush(b, [c] + ([d] + s));
    ValPush(a, [b] + ([c] + ([d] + s)));
    assert [a, b, c, d] + s == [a] + ([b] + ([c] + ([d] + s)));
  }

  /** The bits of a byte, the least significant one first. */
  lemma OctetIs(v: byte, a: bool, b: bool, c: bool, d: bool, e: bool, f: bool, g: bool, h: bool)
    requires v == N(a) + 2 * (N(b) + 2 * (N(c) + 2 * (N(d) + 2 * (N(e) + 2 * (N(f) + 2 * (N(g) + 2 * N(h)))))))
    ensures Octet(v) == [a, b, c, d, e, f, g, h]
  {
    hide Lsb, N;
    Val8(v, a, b, c, d, e, f, g, h);
    LsbVal([a, b, c, d, e, f, g, h]);
  }

  lemma Val8(v: nat, a: bool, b: bool, c: bool, d: bool, e: bool, f: bool, g: bool, h: bool)
    requires v == N(a) + 2 * (N(b) + 2 * (N(c) + 2 * (N(d) + 2 * (N(e) + 2 * (N(f) + 2 * (N(g) + 2 * N(h)))))))
    ensures Val([a, b, c, d, e, f, g, h]) == v
  {
    hide N;
    assert Val([]) == 0;
    hide Val;
    Val4(e, f, g, h, []);
    Val4(a, b, c, d, [e, f, g, h] + []);
    FourAndFour(a, b, c, d, e, f, g, h);
  }

  lemma FourAndFour(a: bool, b: bool, c: bool, d: bool, e: bool, f: bool, g: bool, h: bool)
    ensures [a, b, c, d] + ([e, f, g, h] + []) == [a, b, c, d, e, f, g, h]
  {
  }

  /** A number below 2^n from its bits, the most significant one first. */
  function MsbVal(s: seq<bool>): nat
  {
    if s == [] then 0 else 2 * MsbVal(s[..|s| - 1]) + N(s[|s| - 1])
  }

  lemma {:induction false} MsbOfVal(s: seq<bool>)
    ensures Msb(MsbVal(s), |s|) == s
  {
    if s != [] {
      var h := s[..|s| - 1];
      MsbOfVal(h);
      MsbStep(MsbVal(s), |s|);
      HalfOf(MsbVal(h), N(s[|s| - 1]));
    }
  }

  lemma MsbPush(s: seq<bool>, b: bool)
    ensures MsbVal(s + [b]) == 2 * MsbVal(s) + N(b)
  {
    assert (s + [b])[..|s|] == s;
  }

  lemma Msb5(v: nat, a: bool, b: bool, c: bool, d: bool, e: bool)
    requires v == N(e) + 2 * (N(d) + 2 * (N(c) + 2 * (N(b) + 2 * N(a))))
    ensures Msb(v, 5) == [a, b, c, d, e] && MsbVal([a, b, c, d, e]) == v
  {
    hide MsbVal, Msb;
    assert MsbVal([]) == 0 by { NoValue(); }
    MsbPush([], a);
    MsbPush([a], b);
    MsbPush([a, b], c);
    MsbPush([a, b, c], d);
    MsbPush([a, b, c, d], e);
    assert [] + [a] == [a] && [a] + [b] == [a, b] && [a, b] + [c] == [a, b, c] && [a, b, c] + [d] == [a, b, c, d];
    assert [a, b, c, d] + [e] == [a, b, c, d, e];
    MsbOfVal([a, b, c, d, e]);
  }

  lemma NoValue()
    ensures MsbVal([]) == 0
  {
  }

  lemma Msb7(v: nat, a: bool, b: bool, c: bool, d: bool, e: bool, f: bool, g: bool)
    requires v == N(g) + 2 * (N(f) + 2 * (N(e) + 2 * (N(d) + 2 * (N(c) + 2 * (N(b) + 2 * N(a))))))
    ensures Msb(v, 7) == [a, b, c, d, e, f, g] && MsbVal([a, b, c, d, e, f, g]) == v
  {
    hide MsbVal, Msb;
    Msb5(v / 4, a, b, c, d, e);
    MsbPush([a, b, c, d, e], f);
    MsbPush([a, b, c, d, e, f], g);
    assert [a, b, c, d, e] + [f] == [a, b, c, d, e, f] && [a, b, c, d, e, f] + [g] == [a, b, c, d, e, f, g];
    MsbOfVal([a, b, c, d, e, f, g]);
  }

  lemma Msb8(v: nat, a: bool, b: bool, c: bool, d: bool, e: bool, f: bool, g: bool, h: bool)
    requires v == N(h) + 2 * (N(g) + 2 * (N(f) + 2 * (N(e) + 2 * (N(d) + 2 * (N(c) + 2 * (N(b) + 2 * N(a)))))))
    ensures Msb(v, 8) == [a, b, c, d, e, f, g, h]
  {
    hide MsbVal, Msb;
    Msb7(v / 2, a, b, c, d, e, f, g);
    MsbPush([a, b, c, d, e, f, g], h);
    assert [a, b, c, d, e, f, g] + [h] == [a, b, c, d, e, f, g, h];
    MsbOfVal([a, b, c, d, e, f, g, h]);
  }

  // ---------- A fixed block ----------

  /** Final, fixed, six literals, a match of length 12 at distance 6, and the end of the block. */
  const BYTES: seq<byte> := [0x4B, 0x4C, 0x4A, 0x4E, 0x49, 0x4D, 0x43, 0x26, 0x01]

  lemma {:induction false} BitsOf(s: seq<byte>, i: nat)
    requires i < |s|
    ensures ByteBits(s)[8 * i..8 * i + 8] == Octet(s[i])
  {
    hide Octet;
    var h := s[..|s| - 1];
    if i < |h| {
      BitsOf(h, i);
      assert ByteBits(s)[8 * i..8 * i + 8] == ByteBits(h)[8 * i..8 * i + 8];
    }
  }

  /** The bits of one byte in their places. */
  predicate HasByte(bits: seq<bool>, i: nat, a: bool, b: bool, c: bool, d: bool, e: bool, f: bool, g: bool, h: bool)
  {
    && 8 * i + 8 <= |bits| && bits[8 * i] == a && bits[8 * i + 1] == b && bits[8 * i + 2] == c && bits[8 * i + 3] == d
    && bits[8 * i + 4] == e && bits[8 * i + 5] == f && bits[8 * i + 6] == g && bits[8 * i + 7] == h
  }

  lemma ByteIs(s: seq<byte>, i: nat, a: bool, b: bool, c: bool, d: bool, e: bool, f: bool, g: bool, h: bool)
    requires i < |s| && s[i] == N(a) + 2 * (N(b) + 2 * (N(c) + 2 * (N(d) + 2 * (N(e) + 2 * (N(f) + 2 * (N(g) + 2 * N(h)))))))
    ensures HasByte(ByteBits(s), i, a, b, c, d, e, f, g, h)
  {
    hide Octet, ByteBits, N;
    BitsOf(s, i);
    OctetIs(s[i], a, b, c, d, e, f, g, h);
    EightBits(ByteBits(s), i, a, b, c, d, e, f, g, h);
  }

  lemma EightBits(bits: seq<bool>, i: nat, a: bool, b: bool, c: bool, d: bool, e: bool, f: bool, g: bool, h: bool)
    requires 8 * i + 8 <= |bits| && bits[8 * i..8 * i + 8] == [a, b, c, d, e, f, g, h]
    ensures HasByte(bits, i, a, b, c, d, e, f, g, h)
  {
    var s := bits[8 * i..8 * i + 8];
    assert s[0] == a && s[1] == b && s[2] == c && s[3] == d && s[4] == e && s[5] == f && s[6] == g && s[7] == h;
  }

  predicate AllBits(bits: seq<bool>)
  {
    && |bits| == 72
    && HasByte(bits, 0, true, true, false, true, false, false, true, false)
    && HasByte(bits, 1, false, false, true, true, false, false, true, false)
    && HasByte(bits, 2, false, true, false, true, false, false, true, false)
    && HasByte(bits, 3, false, true, true, true, false, false, true, false)
    && HasByte(bits, 4, true, false, false, true, false, false, true, false)
    && HasByte(bits, 5, true, false, true, true, false, false, true, false)
    && HasByte(bits, 6, true, true, false, false, false, false, true, false)
    && HasByte(bits, 7, false, true, true, false, false, true, false, false)
    && HasByte(bits, 8, true, false, false, false, false, false, false, false)
  }

  lemma BitsOfBytes()
    ensures AllBits(ByteBits(BYTES))
  {
    hide ByteBits, HasByte;
    ByteIs(BYTES, 0, true, true, false, true, false, false, true, false);
    ByteIs(BYTES, 1, false, false, true, true, false, false, true, false);
    ByteIs(BYTES, 2, false, true, false, true, false, false, true, false);
    ByteIs(BYTES, 3, false, true, true, true, false, false, true, false);
    ByteIs(BYTES, 4, true, false, false, true, false, false, true, false);
    ByteIs(BYTES, 5, true, false, true, true, false, false, true, false);
    ByteIs(BYTES, 6, true, true, false, false, false, false, true, false);
    ByteIs(BYTES, 7, false, true, true, false, false, true, false, false);
    ByteIs(BYTES, 8, true, false, false, false, false, false, false, false);
  }

  lemma Literal0(bits: seq<bool>)
    requires AllBits(bits)
    ensures At(bits, 3, Msb(0x30 + 0x61, 8))
  {
    hide Msb;
    Msb8(0x91, true, false, false, true, false, false, false, true);
    assert bits[3..11] == [true, false, false, true, false, false, false, true];
  }

  lemma Literal1(bits: seq<bool>)
    requires AllBits(bits)
    ensures At(bits, 11, Msb(0x30 + 0x62, 8))
  {
    hide Msb;
    Msb8(0x92, true, false, false, true, false, false, true, false);
    assert bits[11..19] == [true, false, false, true, false, false, true, false];
  }

  lemma Literal2(bits: seq<bool>)
    requires AllBits(bits)
    ensures At(bits, 19, Msb(0x30 + 0x63, 8))
  {
    hide Msb;
    Msb8(0x93, true, false, false, true, false, false, true, true);
    assert bits[19..27] == [true, false, false, true, false, false, true, true];
  }

  lemma Literal3(bits: seq<bool>)
    requires AllBits(bits)
    ensures At(bits, 27, Msb(0x30 + 0x64, 8))
  {
    hide Msb;
    Msb8(0x94, true, false, false, true, false, true, false, false);
    assert bits[27..35] == [true, false, false, true, false, true, false, false];
  }

  lemma Literal4(bits: seq<bool>)
    requires AllBits(bits)
    ensures At(bits, 35, Msb(0x30 + 0x65, 8))
  {
    hide Msb;
    Msb8(0x95, true, false, false, true, false, true, false, true);
    assert bits[35..43] == [true, false, false, true, false, true, false, true];
  }

  lemma Literal5(bits: seq<bool>)
    requires AllBits(bits)
    ensures At(bits, 43, Msb(0x30 + 0x66, 8))
  {
    hide Msb;
    Msb8(0x96, true, false, false, true, false, true, true, false);
    assert bits[43..51] == [true, false, false, true, false, true, true, false];
  }

  lemma HeadIs(bits: seq<bool>)
    requires AllBits(bits)
    ensures ReadField(bits, 0, 1) == Some((1, 1)) && ReadField(bits, 1, 2) == Some((1, 3))
  {
    Pow2Values();
    assert Lsb(1, 1) == [true] && Lsb(1, 2) == [true, false];
    assert bits[0..1] == [true] && bits[1..3] == [true, false];
    hide ReadField, Lsb;
    FieldAt(bits, 0, 1, 1);
    FieldAt(bits, 1, 1, 2);
  }

  lemma MatchIs(bits: seq<bool>)
    requires AllBits(bits)
    ensures At(bits, 51, Msb(9, 7) + Lsb(1, 1) + Msb(4, 5) + Lsb(1, 1))
  {
    assert Lsb(1, 1) == [true];
    hide Msb, Lsb;
    Msb7(9, false, false, false, true, false, false, true);
    Msb5(4, false, false, true, false, false);
    assert bits[51..65] == [false, false, false, true, false, false, true] + [true] + [false, false, true, false, false] + [true];
  }

  lemma EndIs(bits: seq<bool>)
    requires AllBits(bits)
    ensures At(bits, 65, Msb(0, 7))
  {
    hide Msb;
    Msb7(0, false, false, false, false, false, false, false);
    assert bits[65..72] == [false, false, false, false, false, false, false];
  }

  /** The six letters from a to f. */
  const LETTERS: seq<byte> := [0x61, 0x62, 0x63, 0x64, 0x65, 0x66]

  lemma LettersRepeat()
    ensures CopyBack(LETTERS, 12, 6) == LETTERS + LETTERS + LETTERS
  {
    hide CopyBack;
    var text := LETTERS + LETTERS + LETTERS;
    forall i | 0 <= i < 12
      ensures Repeats(text, 6, 6, i)
    {
    }
    assert text[..6 + 0] == LETTERS && text[..18] == text;
    CopyBackRepeats(text, 6, 12, 6, 0);
  }

  lemma TokensAre(bits: seq<bool>)
    requires AllBits(bits)
    ensures ReadTokens(FixedLiteralLengths(), FixedDistanceLengths(), bits, 3, []) == Some((LETTERS + LETTERS + LETTERS, 72))
  {
    hide AllBits, ReadTokens, FixedLiteralLengths, FixedDistanceLengths, Msb, Lsb, At, CopyBack;
    Literal0(bits);
    ReadsLiteral(bits, 3, [], 0x61);
    assert [] + [0x61] == [0x61];
    Literal1(bits);
    ReadsLiteral(bits, 11, [0x61], 0x62);
    assert [0x61] + [0x62] == [0x61, 0x62];
    Literal2(bits);
    ReadsLiteral(bits, 19, [0x61, 0x62], 0x63);
    assert [0x61, 0x62] + [0x63] == [0x61, 0x62, 0x63];
    Literal3(bits);
    ReadsLiteral(bits, 27, [0x61, 0x62, 0x63], 0x64);
    assert [0x61, 0x62, 0x63] + [0x64] == [0x61, 0x62, 0x63, 0x64];
    Literal4(bits);
    ReadsLiteral(bits, 35, [0x61, 0x62, 0x63, 0x64], 0x65);
    assert [0x61, 0x62, 0x63, 0x64] + [0x65] == [0x61, 0x62, 0x63, 0x64, 0x65];
    Literal5(bits);
    ReadsLiteral(bits, 43, [0x61, 0x62, 0x63, 0x64, 0x65], 0x66);
    assert [0x61, 0x62, 0x63, 0x64, 0x65] + [0x66] == [0x61, 0x62, 0x63, 0x64, 0x65, 0x66];
    MatchIs(bits);
    ReadsCopy(bits, 51, LETTERS, 12, 6);
    LettersRepeat();
    EndIs(bits);
    ReadsEnd(bits, 65, LETTERS + LETTERS + LETTERS);
  }

  /** A block with fixed codes: six literals, and a match of length 12 at distance 6. */
  lemma FixedBlock()
    ensures InflateFrom(ByteBits(BYTES), 0, []) == Some((LETTERS + LETTERS + LETTERS, 72))
  {
    BitsOfBytes();
    var bits := ByteBits(BYTES);
    HeadIs(bits);
    TokensAre(bits);
    hide ByteBits, AllBits, ReadField, ReadTokens, FixedLiteralLengths, FixedDistanceLengths;
  }

  // ---------- A file with a stored block ----------

  /** The least significant byte first, two or four bytes. */
  function Low2(v: nat): (s: seq<byte>)
    requires v <= 0xffff
    ensures |s| == 2
  {
    [v % 256, v / 256]
  }

  function Low4(v: nat): (s: seq<byte>)
    requires v <= 0xffff_ffff
    ensures |s| == 4
  {
    [v % 256, v / 256 % 256, v / 0x1_0000 % 256, v / 0x100_0000]
  }

  /** A file with one stored block that has `data`: the head with six bytes that do not matter, a final block without
      compression, its length and the complement, and the checksum and the length again. */
  function StoredFile(info: seq<byte>, data: seq<byte>): (file: seq<byte>)
    requires |info| == 6 && |data| <= 0xffff
  {
    [0x1f, 0x8b, 8, 0] + info + ([1] + Low2(|data|) + Low2(0xffff - |data|) + data + Low4(Crc(data)) + Low4(|data|))
  }

  lemma Low2Bits(v: nat)
    requires v <= 0xffff
    ensures ByteBits(Low2(v)) == Lsb(v, 16)
  {
    var a, b := v % 256, v / 256;
    assert Low2(v)[..1] == [a] && [a][..0] == [];
    assert ByteBits([a]) == Octet(a);
    hide Lsb, Shl;
    EightShifted(b);
    assert Pow2(8) == 256;
    LsbConcat(a, b, 8, 8);
  }

  lemma EightShifted(b: nat)
    ensures Shl(b, 8) == 256 * b
  {
    assert Shl(b, 1) == 2 * b && Shl(b, 2) == 4 * b;
    assert Shl(b, 3) == 8 * b && Shl(b, 4) == 16 * b;
    assert Shl(b, 5) == 32 * b && Shl(b, 6) == 64 * b;
  }

  lemma OneBits()
    ensures ByteBits([1]) == Lsb(1, 1) + Lsb(0, 2) + Lsb(0, 5)
  {
    assert [1][..0] == [];
    assert ByteBits([1]) == Octet(1);
    LsbSplit(1, 1, 7);
    LsbSplit(0, 2, 5);
    assert Shr(1, 1) == 0 && Shr(0, 2) == 0;
  }

  lemma StoredRead(data: seq<byte>, tail: seq<byte>)
    requires |data| <= 0xffff
    ensures InflateFrom(ByteBits([1] + Low2(|data|) + Low2(0xffff - |data|) + data + tail), 0, [])
         == Some((data, 40 + 8 * |data|))
  {
    hide Lsb, Low2, ByteBits, ReadField, ReadBytes, At;
    var n := |data|;
    var bits := StoredBytes(data, tail);
    Pow2Values();
    FieldAt(bits, 0, 1, 1);
    FieldAt(bits, 1, 0, 2);
    FieldAt(bits, 8, n, 16);
    FieldAt(bits, 24, 0xffff - n, 16);
    ReadsBytes(bits, 40, data);
    assert [] + data == data;
  }

  lemma StoredBytes(data: seq<byte>, tail: seq<byte>) returns (bits: seq<bool>)
    requires |data| <= 0xffff
    ensures bits == ByteBits([1] + Low2(|data|) + Low2(0xffff - |data|) + data + tail)
    ensures At(bits, 0, Lsb(1, 1)) && At(bits, 1, Lsb(0, 2)) && At(bits, 8, Lsb(|data|, 16))
    ensures At(bits, 24, Lsb(0xffff - |data|, 16)) && At(bits, 40, ByteBits(data))
  {
    hide Lsb, Low2, ByteBits;
    var n := |data|;
    var a, b, c := [1], Low2(n), Low2(0xffff - n);
    ByteBitsAppend(a + b + c + data, tail);
    ByteBitsAppend(a + b + c, data);
    ByteBitsAppend(a + b, c);
    ByteBitsAppend(a, b);
    Low2Bits(n);
    Low2Bits(0xffff - n);
    OneBits();
    bits := ByteBits(a + b + c + data + tail);
  }

  lemma Get32Is(s: seq<byte>, i: nat, v: nat)
    requires v <= 0xffff_ffff && i + 4 <= |s| && s[i..i + 4] == Low4(v)
    ensures Get32(s, i) == v
  {
    assert s[i] == s[i..i + 4][0] && s[i + 1] == s[i..i + 4][1] && s[i + 2] == s[i..i + 4][2] && s[i + 3] == s[i..i + 4][3];
  }

  /** Such a file means the data. */
  lemma StoredFileMeans(info: seq<byte>, data: seq<byte>)
    requires |info| == 6 && |data| <= 0xffff
    ensures Gunzip(StoredFile(info, data)) == Some(data)
  {
    hide Low2, Low4, Crc, ByteBits, InflateFrom;
    var file := StoredFile(info, data);
    var head := [0x1f, 0x8b, 8, 0] + info;
    var tail := Low4(Crc(data)) + Low4(|data|);
    var body := [1] + Low2(|data|) + Low2(0xffff - |data|) + data + Low4(Crc(data)) + Low4(|data|);
    assert file == head + body && file[10..] == body;
    assert body == [1] + Low2(|data|) + Low2(0xffff - |data|) + data + tail;
    StoredRead(data, tail);
    var at := 15 + |data|;
    assert file[at..at + 4] == Low4(Crc(data)) && file[at + 4..at + 8] == Low4(|data|);
    hide Get32;
    Get32Is(file, at, Crc(data));
    Get32Is(file, at + 4, |data|);
    assert TrailerAt(40 + 8 * |data|) == at;
  }

  const DIGITS: seq<byte> := [0x31, 0x32, 0x33, 0x34, 0x35, 0x36, 0x37, 0x38, 0x39]

  /** The head, the block and the trailer of the file of the digits 1 to 9 that was not compressed. */
  lemma FileOfDigits()
    ensures Gunzip([0x1f, 0x8b, 0x08, 0x00, 0x00, 0x00, 0x00, 0x00, 0x00, 0x03] + ([0x01, 0x09, 0x00, 0xf6, 0xff] + DIGITS)
                   + [0x26, 0x39, 0xf4, 0xcb, 0x09, 0x00, 0x00, 0x00])
         == Some(DIGITS)
  {
    hide Gunzip, Crc, StoredFile;
    CrcCheck.CheckValue();
    StoredFileMeans([0, 0, 0, 0, 0, 3], DIGITS);
    DigitsStored();
  }

  lemma DigitsStored()
    requires Crc(DIGITS) == 0xCBF4_3926
    ensures StoredFile([0, 0, 0, 0, 0, 3], DIGITS)
         == [0x1f, 0x8b, 0x08, 0x00, 0x00, 0x00, 0x00, 0x00, 0x00, 0x03] + ([0x01, 0x09, 0x00, 0xf6, 0xff] + DIGITS)
            + [0x26, 0x39, 0xf4, 0xcb, 0x09, 0x00, 0x00, 0x00]
  {
    hide Crc;
    assert Low2(9) == [9, 0] && Low2(0xfff6) == [0xf6, 0xff];
    assert Low4(0xCBF4_3926) == [0x26, 0x39, 0xf4, 0xcb] && Low4(9) == [9, 0, 0, 0];
    hide Low2, Low4, DIGITS;
    var d := DIGITS;
    assert [1] + [9, 0] + [0xf6, 0xff] == [0x01, 0x09, 0x00, 0xf6, 0xff];
    assert [0x26, 0x39, 0xf4, 0xcb] + [9, 0, 0, 0] == [0x26, 0x39, 0xf4, 0xcb, 0x09, 0x00, 0x00, 0x00];
  }
}
