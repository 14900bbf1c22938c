/** Tables, codes and examples of RFC 1951, by which its definitions can be checked. */
module Rfc1951Laws {
  import opened Bits
  import opened Options
  import opened Rfc1951
  import opened PrefixCodes
  import opened StaticTrees
  import opened Streams

  // ---------- Section 3.2.5: the tables ----------

  /** Each length symbol begins where the values of the one before end, and every fourth one has one more extra bit. */
  lemma LengthTable(i: nat)
    requires i < 28
    ensures |LENGTH_BASE| == |LENGTH_EXTRA| == 29 && LENGTH_BASE[0] == 3 && LENGTH_BASE[28] == 258 && LENGTH_EXTRA[28] == 0
    ensures LENGTH_EXTRA[i] == if i < 8 then 0 else i / 4 - 1
    ensures i < 27 ==> LENGTH_BASE[i + 1] == LENGTH_BASE[i] + Pow2(LENGTH_EXTRA[i])
  {
    Pow2Values();
    assert Pow2(0) == 1;
  }

  /** Each distance symbol begins where the values of the one before end, and every second one has one more extra bit. */
  lemma DistanceTable(i: nat)
    requires i < 30
    ensures |DISTANCE_BASE| == |DISTANCE_EXTRA| == 30 && DISTANCE_BASE[0] == 1
    ensures DISTANCE_EXTRA[i] == if i < 4 then 0 else i / 2 - 1
    ensures i < 29 ==> DISTANCE_BASE[i + 1] == DISTANCE_BASE[i] + Pow2(DISTANCE_EXTRA[i])
    ensures i == 29 ==> DISTANCE_BASE[i] + Pow2(DISTANCE_EXTRA[i]) == 0x8001
  {
    Pow2Values();
    assert Pow2(0) == 1;
  }

  // ---------- Section 3.2.7: code lengths ----------

  /** The repeat codes, zero, and then the lengths from 8 on, up and down in turn. */
  lemma CodeLengthOrder(i: nat)
    requires i < 8
    ensures |CODE_LENGTH_ORDER| == 19 && CODE_LENGTH_ORDER[..4] == [16, 17, 18, 0]
    ensures CODE_LENGTH_ORDER[4 + 2 * i] == 8 + i && (i < 7 ==> CODE_LENGTH_ORDER[5 + 2 * i] == 7 - i)
  {
  }

  /** Each length of the code length alphabet has three bits. */
  lemma ThreeBitLength(bits: seq<bool>, pos: nat, k: nat, n: nat, acc: seq<nat>, v: nat)
    requires k < n <= 19 && |acc| == 19 && v <= 7 && At(bits, pos, Lsb(v, 3))
    ensures ReadCodeLengthLengths(bits, pos, k, n, acc)
         == ReadCodeLengthLengths(bits, pos + 3, k + 1, n, acc[CODE_LENGTH_ORDER[k] := v])
  {
    hide ReadField, Lsb;
    Pow2Values();
    FieldAt(bits, pos, v, 3);
  }

  /** Five bits for 257 to 288 literal and length codes, five for 1 to 32 distance codes, four for 4 to 19 lengths of the
      code length alphabet, the others of which are zero; the lengths of both alphabets follow as one sequence. */
  lemma HeaderCounts(bits: seq<bool>, pos: nat, lits: nat, dists: nat, n: nat, codeLens: seq<nat>, q: nat,
                     lens: seq<nat>, p: nat)
    requires 257 <= lits <= 288 && 1 <= dists <= 32 && 4 <= n <= 19
    requires At(bits, pos, Lsb(lits - 257, 5) + Lsb(dists - 1, 5) + Lsb(n - 4, 4))
    requires ReadCodeLengthLengths(bits, pos + 14, 0, n, seq(19, _ => 0)) == Some((codeLens, q))
    requires ReadLengths(codeLens, bits, q, lits + dists, []) == Some((lens, p)) && |lens| == lits + dists
    ensures ReadCodes(bits, pos) == Some((lens[..lits], lens[lits..], p))
  {
    hide ReadField, Lsb, ReadCodeLengthLengths, ReadLengths;
    Pow2Values();
    AtSplit(bits, pos, Lsb(lits - 257, 5) + Lsb(dists - 1, 5), Lsb(n - 4, 4));
    AtSplit(bits, pos, Lsb(lits - 257, 5), Lsb(dists - 1, 5));
    FieldAt(bits, pos, lits - 257, 5);
    FieldAt(bits, pos + 5, dists - 1, 5);
    FieldAt(bits, pos + 10, n - 4, 4);
    assert Repeat(0, 19) == seq(19, _ => 0);
  }

  /** The codes 0 to 15 are lengths. */
  lemma OneLength(lens: seq<nat>, limit: nat, bits: seq<bool>, pos: nat, n: nat, total: nat, acc: seq<nat>)
    requires Decodable(lens, limit) && n < 16 && n < |lens| && lens[n] > 0 && |acc| < total && At(bits, pos, CodeBits(lens, n))
    ensures ReadLengths(lens, bits, pos, total, acc) == ReadLengths(lens, bits, pos + lens[n], total, acc + [n])
  {
    hide ReadSymbol, CodeBits;
    SymbolRoundTrip(lens, limit, bits, pos, n);
  }

  /** The code 16 repeats the length before 3 to 6 times. */
  lemma RepeatsLast(lens: seq<nat>, limit: nat, bits: seq<bool>, pos: nat, n: nat, total: nat, acc: seq<nat>)
    requires Decodable(lens, limit) && |lens| > 16 && lens[16] > 0 && 3 <= n <= 6 && acc != [] && |acc| < total
    requires At(bits, pos, CodeBits(lens, 16) + Lsb(n - 3, 2))
    ensures ReadLengths(lens, bits, pos, total, acc)
         == ReadLengths(lens, bits, pos + lens[16] + 2, total, acc + seq(n, _ => acc[|acc| - 1]))
  {
    hide ReadSymbol, ReadField, CodeBits;
    Pow2Values();
    AtSplit(bits, pos, CodeBits(lens, 16), Lsb(n - 3, 2));
    SymbolRoundTrip(lens, limit, bits, pos, 16);
    FieldAt(bits, pos + lens[16], n - 3, 2);
  }

  /** The code 17 stands for 3 to 10 zeros. */
  lemma RepeatsZero(lens: seq<nat>, limit: nat, bits: seq<bool>, pos: nat, n: nat, total: nat, acc: seq<nat>)
    requires Decodable(lens, limit) && |lens| > 17 && lens[17] > 0 && 3 <= n <= 10 && |acc| < total
    requires At(bits, pos, CodeBits(lens, 17) + Lsb(n - 3, 3))
    ensures ReadLengths(lens, bits, pos, total, acc)
         == ReadLengths(lens, bits, pos + lens[17] + 3, total, acc + seq(n, _ => 0))
  {
    hide ReadSymbol, ReadField, CodeBits;
    Pow2Values();
    AtSplit(bits, pos, CodeBits(lens, 17), Lsb(n - 3, 3));
    SymbolRoundTrip(lens, limit, bits, pos, 17);
    FieldAt(bits, pos + lens[17], n - 3, 3);
  }

  /** The code 18 stands for 11 to 138 zeros. */
  lemma RepeatsZeroLong(lens: seq<nat>, limit: nat, bits: seq<bool>, pos: nat, n: nat, total: nat, acc: seq<nat>)
    requires Decodable(lens, limit) && |lens| > 18 && lens[18] > 0 && 11 <= n <= 138 && |acc| < total
    requires At(bits, pos, CodeBits(lens, 18) + Lsb(n - 11, 7))
    ensures ReadLengths(lens, bits, pos, total, acc)
         == ReadLengths(lens, bits, pos + lens[18] + 7, total, acc + seq(n, _ => 0))
  {
    hide ReadSymbol, ReadField, CodeBits;
    Pow2Values();
    AtSplit(bits, pos, CodeBits(lens, 18), Lsb(n - 11, 7));
    SymbolRoundTrip(lens, limit, bits, pos, 18);
    FieldAt(bits, pos + lens[18], n - 11, 7);
  }

  // ---------- Section 3.2.6: the fixed codes ----------

  lemma {:induction false} FixedCounts(n: nat)
    requires n <= 288
    ensures var s := FixedLiteralLengths()[..n];
            && Count(s, 7) == (if n <= 256 then 0 else if n <= 280 then n - 256 else 24)
            && Count(s, 8) == (if n <= 144 then n else if n <= 280 then 144 else n - 136)
            && Count(s, 9) == (if n <= 144 then 0 else if n <= 256 then n - 144 else 112)
            && forall b :: 1 <= b < 7 ==> Count(s, b) == 0
  {
    if n > 0 {
      FixedCounts(n - 1);
      assert FixedLiteralLengths()[..n][..n - 1] == FixedLiteralLengths()[..n - 1];
    }
  }

  lemma FixedFirst()
    ensures FirstCode(FixedLiteralLengths(), 7) == 0 && FirstCode(FixedLiteralLengths(), 8) == 48
         && FirstCode(FixedLiteralLengths(), 9) == 400
  {
    var s := FixedLiteralLengths();
    FixedCounts(288);
    assert s[..288] == s;
    hide FixedLiteralLengths, Count;
    assert FirstCode(s, 0) == 0;
    assert FirstCode(s, 1) == 0;
    assert FirstCode(s, 2) == 0;
    assert FirstCode(s, 3) == 0;
    assert FirstCode(s, 4) == 0;
    assert FirstCode(s, 5) == 0;
    assert FirstCode(s, 6) == 0;
    assert FirstCode(s, 7) == 0;
    assert FirstCode(s, 8) == 48;
  }

  /** The codes of literals and lengths, in four ranges. */
  function FixedCode(n: nat): (bs: seq<bool>)
    requires n < 288
    ensures |bs| == FixedLiteralLength(n)
  {
    if n <= 143 then Msb(0x30 + n, 8)
    else if n <= 255 then Msb(0x190 + (n - 144), 9)
    else if n <= 279 then Msb(n - 256, 7)
    else Msb(0xC0 + (n - 280), 8)
  }

  lemma FixedCodes(n: nat)
    requires n < 288
    ensures CodeBits(FixedLiteralLengths(), n) == FixedCode(n)
  {
    FixedFirst();
    FixedCounts(n);
    hide Count, FirstCode, Msb;
  }

  lemma FixedLengths(n: nat)
    requires n < 288
    ensures FixedLiteralLengths()[n] == FixedLiteralLength(n) > 0
  {
  }

  lemma ReadsFixed(bits: seq<bool>, pos: nat, n: nat)
    requires n < 288 && At(bits, pos, FixedCode(n))
    ensures ReadSymbol(FixedLiteralLengths(), bits, pos) == Some((n, pos + |FixedCode(n)|))
  {
    hide CodeBits, FixedCode, ReadSymbol, Decodable, FixedLiteralLengths, FixedLiteralLength, At;
    FixedCodes(n);
    FixedLiteralDecodable();
    FixedLengths(n);
    SymbolRoundTrip(FixedLiteralLengths(), 15, bits, pos, n);
  }

  lemma ReadsFixedDistance(bits: seq<bool>, pos: nat, d: nat)
    requires d < 32 && At(bits, pos, Msb(d, 5))
    ensures ReadSymbol(FixedDistanceLengths(), bits, pos) == Some((d, pos + 5))
  {
    FixedDistanceCode(d);
    FixedDistanceDecodable();
    assert FixedDistanceLengths()[d] == 5;
    hide ReadSymbol, Decodable, FixedDistanceLengths, CodeOf;
    SymbolRoundTrip(FixedDistanceLengths(), 15, bits, pos, d);
  }

  // ---------- Section 3.2.3: the tokens of a fixed block ----------

  /** The code of a literal below 144 is 0x30 more in eight bits. */
  lemma ReadsLiteral(bits: seq<bool>, pos: nat, out: seq<byte>, b: byte)
    requires b <= 143 && At(bits, pos, Msb(0x30 + b, 8))
    ensures ReadTokens(FixedLiteralLengths(), FixedDistanceLengths(), bits, pos, out)
         == ReadTokens(FixedLiteralLengths(), FixedDistanceLengths(), bits, pos + 8, out + [b])
  {
    ReadsFixed(bits, pos, b);
    hide FixedLiteralLengths, FixedDistanceLengths, Msb, ReadSymbol, At;
  }

  /** Seven zeros end the block. */
  lemma ReadsEnd(bits: seq<bool>, pos: nat, out: seq<byte>)
    requires At(bits, pos, Msb(0, 7))
    ensures ReadTokens(FixedLiteralLengths(), FixedDistanceLengths(), bits, pos, out) == Some((out, pos + 7))
  {
    hide FixedLiteralLengths, FixedDistanceLengths, Msb, ReadSymbol, At;
    ReadsFixed(bits, pos, 256);
  }

  /** A length of 11 or 12 and a distance of 5 or 6, with their extra bits. */
  lemma ReadsCopy(bits: seq<bool>, pos: nat, out: seq<byte>, length: nat, distance: nat)
    requires 11 <= length <= 12 && 5 <= distance <= 6 && distance <= |out|
    requires At(bits, pos, Msb(9, 7) + Lsb(length - 11, 1) + Msb(4, 5) + Lsb(distance - 5, 1))
    ensures ReadTokens(FixedLiteralLengths(), FixedDistanceLengths(), bits, pos, out)
         == ReadTokens(FixedLiteralLengths(), FixedDistanceLengths(), bits, pos + 14, CopyBack(out, length, distance))
  {
    CopyIs(bits, pos, length, distance);
    hide ReadToken, FixedLiteralLengths, FixedDistanceLengths, At;
  }

  lemma CopyIs(bits: seq<bool>, pos: nat, length: nat, distance: nat)
    requires 11 <= length <= 12 && 5 <= distance <= 6
    requires At(bits, pos, Msb(9, 7) + Lsb(length - 11, 1) + Msb(4, 5) + Lsb(distance - 5, 1))
    ensures ReadToken(FixedLiteralLengths(), FixedDistanceLengths(), bits, pos) == Some((Some(Copy(length, distance)), pos + 14))
  {
    hide Msb, Lsb, ReadSymbol, ReadField, At, CodeBits, FixedLiteralLengths, FixedDistanceLengths, Decodable;
    CopyParts(bits, pos, length, distance);
  }

  lemma CopyParts(bits: seq<bool>, pos: nat, length: nat, distance: nat)
    requires 11 <= length <= 12 && 5 <= distance <= 6
    requires At(bits, pos, Msb(9, 7) + Lsb(length - 11, 1) + Msb(4, 5) + Lsb(distance - 5, 1))
    ensures ReadSymbol(FixedLiteralLengths(), bits, pos) == Some((265, pos + 7))
    ensures ReadField(bits, pos + 7, 1) == Some((length - 11, pos + 8))
    ensures ReadSymbol(FixedDistanceLengths(), bits, pos + 8) == Some((4, pos + 13))
    ensures ReadField(bits, pos + 13, 1) == Some((distance - 5, pos + 14))
  {
    hide FixedLiteralLengths, FixedDistanceLengths, FixedCode, Msb, Lsb, ReadSymbol, ReadField, At, Pow2;
    FourParts(bits, pos, Msb(9, 7), Lsb(length - 11, 1), Msb(4, 5), Lsb(distance - 5, 1));
    CodeOf265();
    ReadsFixed(bits, pos, 265);
    OneBit(bits, pos + 7, length - 11);
    ReadsFixedDistance(bits, pos + 8, 4);
    OneBit(bits, pos + 13, distance - 5);
  }

  lemma FourParts(bits: seq<bool>, pos: nat, a: seq<bool>, b: seq<bool>, c: seq<bool>, d: seq<bool>)
    requires At(bits, pos, a + b + c + d)
    ensures At(bits, pos, a) && At(bits, pos + |a|, b) && At(bits, pos + |a| + |b|, c) && At(bits, pos + |a| + |b| + |c|, d)
  {
    hide At;
    AtSplit(bits, pos, a + b + c, d);
    AtSplit(bits, pos, a + b, c);
    AtSplit(bits, pos, a, b);
  }

  lemma CodeOf265()
    ensures FixedCode(265) == Msb(9, 7)
  {
    hide Msb;
  }

  lemma OneBit(bits: seq<bool>, pos: nat, v: nat)
    requires v <= 1 && At(bits, pos, Lsb(v, 1))
    ensures ReadField(bits, pos, 1) == Some((v, pos + 1))
  {
    assert Pow2(1) == 2;
    hide Lsb, ReadField, At, Pow2;
    FieldAt(bits, pos, v, 1);
  }

  // ---------- Section 3.2.3: blocks ----------

  function WithFinal(final: bool, r: Option<(seq<byte>, nat)>): Option<(bool, seq<byte>, nat)>
  {
    var (text, p) :- r;
    Some((final, text, p))
  }

  /** A bit for the last block, and two for its type, which are 01 for fixed codes and 10 for dynamic ones. */
  lemma BlockTypes(bits: seq<bool>, pos: nat, final: bool, high: bool, low: bool, out: seq<byte>)
    requires At(bits, pos, [final] + [low, high]) && (high || low)
    ensures high && low ==> ReadBlock(bits, pos, out) == None
    ensures !high && low
            ==> ReadBlock(bits, pos, out) == WithFinal(final, ReadTokens(FixedLiteralLengths(), FixedDistanceLengths(), bits, pos + 3, out))
    ensures high && !low && ReadCodes(bits, pos + 3).None? ==> ReadBlock(bits, pos, out) == None
    ensures high && !low && ReadCodes(bits, pos + 3).Some?
            ==> (var (lits, dists, q) := ReadCodes(bits, pos + 3).value;
                 ReadBlock(bits, pos, out) == WithFinal(final, ReadTokens(lits, dists, bits, q, out)))
  {
    var f, k := if final then 1 else 0, (if low then 1 else 0) + if high then 2 else 0;
    assert Lsb(f, 1) == [final] && Lsb(k, 2) == [low, high];
    Pow2Values();
    hide Lsb, ReadField, ReadTokens, ReadCodes, FixedLiteralLengths, FixedDistanceLengths;
    AtSplit(bits, pos, [final], [low, high]);
    FieldAt(bits, pos, f, 1);
    FieldAt(bits, pos + 1, k, 2);
  }
}
