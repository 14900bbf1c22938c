/** The construction of one Huffman tree, fifth part: the codes themselves. */
module CodeAssignment {
  import opened Bits
  import opened Rfc1951
  import opened PrefixCodes
  import opened LengthCounts
  import opened BitLengths
  import opened Optimality

  lemma {:induction false} BitShr(v: nat, i: nat)
    ensures Bit(v, i) <==> Shr(v, i) % 2 == 1
    ensures Shr(v, i + 1) == Shr(v, i) / 2
  {
    if i > 0 {
      BitShr(v / 2, i - 1);
    }
  }

  lemma MsbExtend(v: nat, n: nat)
    ensures Msb(v, n + 1) == [Bit(v, n)] + Msb(v, n)
  {
  }

  /** Reverses the first `len` bits of a code. */
  method BiReverse(code0: nat, len0: nat) returns (res: nat)
    requires 1 <= len0
    ensures res < Pow2(len0) && Lsb(res, len0) == Msb(code0, len0)
  {
    var code, len := code0, len0;
    res := 0;
    ghost var done := 0;
    while true
      invariant 1 <= len <= len0 && done == len0 - len && code == Shr(code0, done)
      invariant res % 2 == 0 && res / 2 < Pow2(done) && Lsb(res / 2, done) == Msb(code0, done)
      decreases len
    {
      ghost var half := res / 2;
      BitShr(code0, done);
      MsbExtend(code0, done);
      OrBit(res, code % 2);
      res := Or(res, code % 2);
      LsbStep(res, done + 1);
      len := len - 1;
      done := done + 1;
      if len <= 0 {
        return;
      }
      code := code / 2;
      res := res * 2;
    }
  }

  lemma OrBit(a: nat, b: nat)
    requires a % 2 == 0 && b < 2
    ensures Or(a, b) == a + b
  {
    if a > 0 && b > 0 {
      assert Or(a / 2, 0) == a / 2;
    }
  }

  lemma {:induction false} KraftScale(lens: seq<nat>, limit: nat, more: nat)
    requires forall i :: 0 <= i < |lens| ==> lens[i] <= limit
    requires Kraft(lens, limit) == Pow2(limit)
    ensures Kraft(lens, limit + more) == Pow2(limit + more)
  {
    if more > 0 {
      var m := more - 1;
      assert limit + more == limit + m + 1;
      KraftScale(lens, limit, m);
      SumHalf(Weights(lens, limit + m), Weights(lens, limit + m + 1));
    }
  }

  /** The code values stay within 16 bits. */
  lemma NextFits(lens: seq<nat>, b: nat)
    requires Decodable(lens, 15) && 1 <= b <= 15
    ensures FirstCode(lens, b) < 0x1_0000
  {
    CodesFit(lens, b, 15);
    Pow2Mono(b, 15);
    Pow2Values();
  }

  /** The codes of the symbols below `n` are set: reversed, so that they are sent first bit first. */
  ghost predicate Coded(fc: seq<nat>, lens: seq<nat>, n: nat)
  {
    && n <= |lens| <= |fc|
    && (forall k :: 0 <= k < n && lens[k] > 0 ==> CodedAt(fc[k], lens, k))
  }

  ghost predicate CodedAt(code: nat, lens: seq<nat>, k: nat)
    requires k < |lens|
  {
    code < Pow2(lens[k]) && Lsb(code, lens[k]) == CodeBits(lens, k)
  }

  ghost predicate Next(next: seq<nat>, lens: seq<nat>, n: nat)
    requires n <= |lens|
  {
    |next| == 16 && forall b :: 1 <= b < 16 ==> next[b] == FirstCode(lens, b) + Count(lens[..n], b)
  }

  lemma NextStep(next: seq<nat>, lens: seq<nat>, n: nat, len: nat)
    requires n < |lens| && lens[n] == len < 16 && Next(next, lens, n)
    ensures len > 0 ==> next[len] == CodeOf(lens, n)
    ensures Next(if len > 0 then next[len := next[len] + 1] else next, lens, n + 1)
  {
    assert lens[..n + 1][..n] == lens[..n];
  }

  method StartCodes(blCount: array<nat>, ghost lens: seq<nat>) returns (nextCode: array<nat>)
    requires Counted(blCount[..], lens) && Decodable(lens, 15)
    ensures fresh(nextCode) && Next(nextCode[..], lens, 0)
  {
    hide Count, Decodable, Counts, FirstCode, Counted;
    FirstIsZero(lens);
    CountedSize(blCount[..], lens);
    nextCode := new nat[16](_ => 0);
    var code := 0;
    var bits := 1;
    while bits <= 15
      invariant 1 <= bits <= 16 && code == FirstCode(lens, bits - 1)
      invariant forall b :: 1 <= b < bits ==> nextCode[b] == FirstCode(lens, b)
    {
      StartCode(blCount[..], lens, bits);
      code := (code + blCount[bits - 1]) * 2 % 0x1_0000;
      nextCode[bits] := code;
      bits := bits + 1;
    }
    assert lens[..0] == [];
    forall b | 1 <= b < 16
      ensures Count(lens[..0], b) == 0
    {
      NoCount(lens[..0], b);
    }
  }

  lemma FirstIsZero(lens: seq<nat>)
    ensures FirstCode(lens, 0) == 0
  {
  }

  lemma CountedSize(c: seq<nat>, lens: seq<nat>)
    requires Counted(c, lens)
    ensures |c| == 16
  {
  }

  /** The first code of the next length, which fits 16 bits. */
  lemma StartCode(c: seq<nat>, lens: seq<nat>, bits: nat)
    requires Counted(c, lens) && Decodable(lens, 15) && 1 <= bits <= 15
    ensures |c| == 16 && (FirstCode(lens, bits - 1) + c[bits - 1]) * 2 % 0x1_0000 == FirstCode(lens, bits)
  {
    hide Count, Decodable, Counts;
    NextFits(lens, bits);
    CountOf(c, lens, bits - 1);
  }

  lemma CountOf(c: seq<nat>, lens: seq<nat>, b: nat)
    requires Counted(c, lens) && b < 16
    ensures c[b] == if b == 0 then 0 else Count(lens, b)
  {
  }

  /** Assigns the codes: consecutive values within each length. */
  method GenCodes(fc: array<nat>, dl: array<nat>, blCount: array<nat>, maxCode: nat)
    requires fc != dl && fc != blCount && maxCode < dl.Length && maxCode < fc.Length
    requires Counted(blCount[..], dl[..maxCode + 1]) && Decodable(dl[..maxCode + 1], 15)
    modifies fc
    ensures Coded(fc[..], dl[..maxCode + 1], maxCode + 1)
    ensures forall k :: maxCode < k < fc.Length ==> fc[k] == old(fc[k])
  {
    hide Count, Counts, FirstCode, CodedAt, Next;
    ghost var lens := dl[..maxCode + 1];
    var nextCode := StartCodes(blCount, lens);
    ghost var next := nextCode[..];
    var n := 0;
    while n <= maxCode
      invariant 0 <= n <= maxCode + 1 && nextCode[..] == next && fresh(nextCode)
      invariant dl[..maxCode + 1] == lens
      invariant Next(next, lens, n) && Coded(fc[..], lens, n)
      invariant forall k :: maxCode < k < fc.Length ==> fc[k] == old(fc[k])
    {
      var len := dl[n];
      assert len == lens[n];
      ghost var before := fc[..];
      NextLength16(next, lens, n);
      NextStep(next, lens, n, len);
      if len != 0 {
        var code := BiReverse(nextCode[len], len);
        CodedIs(code, lens, n);
        fc[n] := code;
        nextCode[len] := nextCode[len] + 1;
        next := next[len := next[len] + 1];
        CodedPush(before, fc[..], lens, n);
      }
      n := n + 1;
    }
  }

  lemma NextLength16(next: seq<nat>, lens: seq<nat>, n: nat)
    requires n < |lens| && Decodable(lens, 15) && Next(next, lens, n)
    ensures lens[n] < 16 == |next|
  {
  }

  lemma CodedIs(code: nat, lens: seq<nat>, n: nat)
    requires n < |lens| && code < Pow2(lens[n]) && Lsb(code, lens[n]) == Msb(CodeOf(lens, n), lens[n])
    ensures CodedAt(code, lens, n)
  {
  }

  lemma CodedPush(fc: seq<nat>, fc': seq<nat>, lens: seq<nat>, n: nat)
    requires Coded(fc, lens, n) && n < |lens| && |fc'| == |fc| && CodedAt(fc'[n], lens, n)
    requires forall k :: 0 <= k < n ==> fc'[k] == fc[k]
    ensures Coded(fc', lens, n + 1)
  {
  }
}
