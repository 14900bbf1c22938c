/** The static trees: the fixed codes of section 3.2.6 of RFC 1951. */
module StaticTrees {
  import opened Bits
  import opened Rfc1951
  import opened Sums
  import opened PrefixCodes
  import opened BitLengths
  import opened CodeAssignment

  /** Every symbol of the fixed alphabets that the tree has, has its code. */
  ghost predicate Encodes(codes: seq<nat>, lens: seq<nat>, spec: seq<nat>)
  {
    && |codes| == |lens|
    && (forall k :: 0 <= k < |codes| && k < |spec| && spec[k] > 0 ==> lens[k] == spec[k] <= 15 && CodedAt(codes[k], spec, k))
  }

  function FixedBelow(n: nat): (s: seq<nat>)
    ensures |s| == 288
  {
    seq(288, i requires 0 <= i < 288 => if i < n then FixedLiteralLength(i) else 0)
  }

  /** Gives the symbols from `start` to `last` the length `len`. */
  method FillLengths(lens: array<nat>, blCount: array<nat>, start: nat, last: nat, len: nat) returns (n: nat)
    requires lens != blCount && blCount.Length == 16 && start <= last < 288 && 1 <= len <= 15
    requires lens[..] == FixedBelow(start) && Counted(blCount[..], lens[..])
    requires forall i :: start <= i <= last ==> FixedLiteralLength(i) == len
    modifies lens, blCount
    ensures n == last + 1 && lens[..] == FixedBelow(n) && Counted(blCount[..], lens[..])
  {
    hide Counted;
    n := start;
    while n <= last
      invariant start <= n <= last + 1
      invariant lens[..] == FixedBelow(n) && blCount.Length == 16 && Counted(blCount[..], lens[..])
    {
      CountedStep(blCount[..], lens[..], n, len);
      ghost var l, c := lens[..], blCount[..];
      lens[n] := len;
      blCount[len] := blCount[len] + 1;
      assert lens[..] == l[n := len] && blCount[..] == c[len := c[len] + 1];
      n := n + 1;
    }
  }

  method InitStaticLit(blCount: array<nat>) returns (codes: array<nat>, lens: array<nat>)
    requires blCount.Length == 16 && forall b :: 0 <= b < 16 ==> blCount[b] == 0
    modifies blCount
    ensures fresh(codes) && fresh(lens) && codes != lens && codes.Length == 288
    ensures lens[..] == FixedLiteralLengths() && Encodes(codes[..], lens[..], FixedLiteralLengths())
  {
    hide Counted, Decodable, CodedAt;
    codes, lens := new nat[288](_ => 0), new nat[288](_ => 0);
    NothingCounted(blCount[..], lens[..]);
    var n: nat := 0;
    n := FillLengths(lens, blCount, n, 143, 8);
    n := FillLengths(lens, blCount, n, 255, 9);
    n := FillLengths(lens, blCount, n, 279, 7);
    n := FillLengths(lens, blCount, n, 287, 8);
    assert lens[..] == FixedLiteralLengths() == lens[..288];
    FixedLiteralDecodable();
    GenCodes(codes, lens, blCount, 287);
  }

  lemma NothingCounted(c: seq<nat>, lens: seq<nat>)
    requires |c| == 16 && forall b :: 0 <= b < 16 ==> c[b] == 0
    requires forall i :: 0 <= i < |lens| ==> lens[i] == 0
    ensures Counted(c, lens) && (|lens| == 288 ==> lens == FixedBelow(0))
  {
    forall b | 1 <= b < 16
      ensures c[b] == Count(lens, b)
    {
      NoCount(lens, b);
    }
  }

  // ---------- The fixed codes exhaust the code space ----------

  lemma ConstantWeights(len: nat, n: nat, limit: nat, w: nat)
    requires w == Weight(len, limit)
    ensures Kraft(Repeat(len, n), limit) == n * w
  {
    SumConstant(Weights(Repeat(len, n), limit), w);
  }

  lemma KraftConcat(a: seq<nat>, b: seq<nat>, limit: nat)
    ensures Kraft(a + b, limit) == Kraft(a, limit) + Kraft(b, limit)
  {
    assert Weights(a + b, limit) == Weights(a, limit) + Weights(b, limit);
    SumConcat(Weights(a, limit), Weights(b, limit));
  }

  lemma FixedLiteralDecodable()
    ensures Decodable(FixedLiteralLengths(), 15)
  {
    hide Kraft;
    var a, b, c, d := Repeat(8, 144), Repeat(9, 112), Repeat(7, 24), Repeat(8, 8);
    assert FixedLiteralLengths() == a + b + c + d;
    assert Pow2(0) == 1 && Pow2(1) == 2 && Pow2(2) == 4;
    ConstantWeights(8, 144, 9, 2);
    ConstantWeights(9, 112, 9, 1);
    ConstantWeights(7, 24, 9, 4);
    ConstantWeights(8, 8, 9, 2);
    KraftConcat(a, b, 9);
    KraftConcat(a + b, c, 9);
    KraftConcat(a + b + c, d, 9);
    Pow2Values();
    KraftScale(FixedLiteralLengths(), 9, 6);
  }

  lemma FixedDistanceDecodable()
    ensures Decodable(FixedDistanceLengths(), 15)
  {
    hide Kraft;
    assert FixedDistanceLengths() == Repeat(5, 32);
    assert Pow2(0) == 1;
    ConstantWeights(5, 32, 5, 1);
    Pow2Values();
    KraftScale(FixedDistanceLengths(), 5, 10);
  }

  // ---------- Distances ----------

  lemma {:induction false} CountFives(n: nat)
    ensures Count(Repeat(5, n), 5) == n
  {
    if n > 0 {
      CountFives(n - 1);
      assert Repeat(5, n)[..n - 1] == Repeat(5, n - 1);
    }
  }

  lemma {:induction false} NoFirst(b: nat)
    requires b <= 5
    ensures FirstCode(FixedDistanceLengths(), b) == 0
  {
    if b > 0 {
      NoFirst(b - 1);
      NoCount(FixedDistanceLengths(), b - 1);
    }
  }

  lemma FixedDistanceCode(n: nat)
    requires n < 32
    ensures CodeOf(FixedDistanceLengths(), n) == n
  {
    NoFirst(5);
    CountFives(n);
    assert FixedDistanceLengths()[..n] == Repeat(5, n);
  }

  method InitStaticDist() returns (codes: array<nat>, lens: array<nat>)
    ensures fresh(codes) && fresh(lens) && codes != lens && codes.Length == lens.Length == 30
    ensures lens[..] == FixedDistanceLengths()[..30] && Encodes(codes[..], lens[..], FixedDistanceLengths())
  {
    hide CodedAt;
    codes, lens := new nat[30](_ => 0), new nat[30](_ => 0);
    var n := 0;
    while n < 30
      invariant 0 <= n <= 30
      invariant forall k :: 0 <= k < n ==> lens[k] == 5 && CodedAt(codes[k], FixedDistanceLengths(), k)
    {
      lens[n] := 5;
      var code := BiReverse(n, 5);
      FixedDistanceCode(n);
      CodedIs(code, FixedDistanceLengths(), n);
      codes[n] := code;
      n := n + 1;
    }
  }
}
