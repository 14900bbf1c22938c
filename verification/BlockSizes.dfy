/** Predicted sizes, and why a stored block never exceeds its 16-bit length. */
module BlockSizes {
  import opened Bits
  import opened Rfc1951
  import opened Sums
  import opened PrefixCodes
  import opened BitLengths
  import opened Huffman
  import opened CodeLengthCoding
  import opened TokenCodes
  import opened TokenCosts
  import opened StaticTrees
  import opened Blocks

  // ---------- The trees for the tokens of a block ----------

  /** The two trees have been built for the frequencies of `ts`. */
  ghost predicate Trees(lfc: seq<nat>, ldl: seq<nat>, lmax: int, dfc: seq<nat>, ddl: seq<nat>, dmax: int, ts: seq<Token>)
  {
    TreeBuilt(LitFreq(ts), lfc, ldl, 15, lmax) && TreeBuilt(DistFreq(ts), dfc, ddl, 15, dmax) && AllSane(ts)
  }

  lemma TreeEncodes(f0: seq<nat>, fc: seq<nat>, dl: seq<nat>, maxCode: int, dl': seq<nat>)
    requires TreeBuilt(f0, fc, dl, 15, maxCode) && maxCode + 1 < |dl| && dl' == dl[maxCode + 1 := GUARD]
    ensures dl'[..maxCode + 1] == dl[..maxCode + 1] && Encodes(fc, dl', dl[..maxCode + 1])
    ensures Decodable(dl[..maxCode + 1], 15) && forall i :: 0 <= i <= maxCode ==> dl[i] < 16
  {
    hide Kraft, CodeAssignment.CodedAt;
    var lens := dl[..maxCode + 1];
    assert forall i :: 0 <= i <= maxCode ==> dl[i] == lens[i];
  }

  /** The trees give every token its codes. */
  lemma TreesCover(lfc: seq<nat>, ldl: seq<nat>, lmax: int, dfc: seq<nat>, ddl: seq<nat>, dmax: int, ts: seq<Token>)
    requires Trees(lfc, ldl, lmax, dfc, ddl, dmax, ts)
    ensures var (ll, dl) := (ldl[..lmax + 1], ddl[..dmax + 1]);
      && 257 <= |ll| <= 286 && 1 <= |dl| <= 30 && ll[END_OF_BLOCK] > 0
      && AllTokensCoded(ll, dl, ts) && Charging(|ll|, |dl|, ts)
  {
    hide LitSymbol, DistSymbol, Kraft, Sum, CodeAssignment.Coded;
    AllCounted(ts);
    FreqTotals(ts);
    var ll, dl := ldl[..lmax + 1], ddl[..dmax + 1];
    forall i | 0 <= i < |ts|
      ensures TokenCoded(ll, dl, ts[i]) && LitSymbol(ts[i]) < |ll| && (ts[i].Copy? ==> DistSymbol(ts[i]) < |dl|)
    {
      assert CountedIn(LitFreq(ts), DistFreq(ts), ts[i]);
    }
  }

  /** What the two trees were charged, in bits. */
  ghost function DynCharge(ts: seq<Token>, ll: seq<nat>, dl: seq<nat>): int
    requires |ll| <= 286 && |dl| <= 30
  {
    Sum(Charges(LitFreq(ts), ll, LitExtras(|ll|))) + Sum(Charges(DistFreq(ts), dl, DistExtras(|dl|)))
  }

  /** The prediction for a dynamic block is exact. */
  lemma DynamicSize(ts: seq<Token>, ll: seq<nat>, dl: seq<nat>)
    requires AllTokensCoded(ll, dl, ts) && Charging(|ll|, |dl|, ts)
    ensures DynCharge(ts, ll, dl) == |DataBits(ll, dl, ts)|
  {
    hide Sum, DataBits, Charges;
    assert ll[..|ll|] == ll && dl[..|dl|] == dl;
    TokensCost(ts, ll, dl, |ll|, |dl|);
  }

  /** The prediction for a static block is exact. */
  lemma StaticSize(ts: seq<Token>, m: nat, md: nat)
    requires AllSane(ts) && Charging(m, md, ts)
    ensures DynCharge(ts, FixedLiteralLengths()[..m], FixedDistanceLengths()[..md]) == |StaticBits(ts)|
  {
    hide Sum, DataBits, Charges, FixedLiteralLengths, FixedDistanceLengths;
    StaticCodes(ts);
    TokensCost(ts, FixedLiteralLengths(), FixedDistanceLengths(), m, md);
  }

  // ---------- Stored blocks are short ----------

  const TOO_FAR: nat := 4096

  /** Matches of length 3 are not far away. */
  predicate Near(t: Token)
  {
    t.Copy? && t.length == 3 ==> t.distance <= TOO_FAR
  }

  ghost predicate AllNear(ts: seq<Token>)
  {
    forall i :: 0 <= i < |ts| ==> Near(ts[i])
  }

  function OutputLength(t: Token): nat
  {
    match t
    case Literal(_) => 1
    case Copy(length, _) => length
  }

  lemma ExtraBounds(c: nat)
    ensures |LENGTH_EXTRA| == 29 && (c < 29 ==> LENGTH_EXTRA[c] <= 5) && LENGTH_EXTRA[0] == 0
    ensures |DISTANCE_EXTRA| == 30 && (c < 30 ==> DISTANCE_EXTRA[c] <= 13) && (c < 24 ==> DISTANCE_EXTRA[c] <= 10)
    ensures |LENGTH_BASE| == 29 && (23 <= c < 29 ==> LENGTH_BASE[c] >= 115) && (1 <= c < 29 ==> LENGTH_BASE[c] >= 4)
    ensures |DISTANCE_BASE| == 30 && (24 <= c < 30 ==> DISTANCE_BASE[c] > TOO_FAR)
  {
  }

  /** Under the static codes a token takes at most 7 bits for each byte and 2 more. */
  lemma TokenBound(t: Token)
    requires Sane(t) && Near(t) && TokenCoded(FixedLiteralLengths(), FixedDistanceLengths(), t)
    ensures |TokenBits(FixedLiteralLengths(), FixedDistanceLengths(), t)| <= 7 * OutputLength(t) + 2
  {
    hide LENGTH_BASE, DISTANCE_BASE, LENGTH_EXTRA, DISTANCE_EXTRA, LengthCode, DistanceCode, Lsb, CodeBits;
    if t.Copy? {
      var c, more, ex, d, far, fx := CopyParts(FixedLiteralLengths(), FixedDistanceLengths(), t.length, t.distance);
      ExtraBounds(c);
      ExtraBounds(d);
      assert FixedLiteralLengths()[257 + c] <= if c < 23 then 7 else 8;
      if t.length == 3 {
        assert c == 0 && d < 24;
      } else if c < 23 {
        assert ex <= 4 by { SmallExtra(c); }
      }
    }
  }

  lemma SmallExtra(c: nat)
    requires c < 23
    ensures |LENGTH_EXTRA| == 29 && LENGTH_EXTRA[c] <= 4
  {
  }

  lemma {:induction false} CopyBackLength(history: seq<byte>, t: Token)
    requires Apply(history, t).Some?
    ensures |Apply(history, t).value| == |history| + OutputLength(t)
  {
  }

  lemma {:induction false} TokensBound(history: seq<byte>, ts: seq<Token>)
    requires AllSane(ts) && AllNear(ts) && Expand(history, ts).Some?
    requires AllTokensCoded(FixedLiteralLengths(), FixedDistanceLengths(), ts)
    ensures |Expand(history, ts).value| >= |history|
    ensures |TokensBits(FixedLiteralLengths(), FixedDistanceLengths(), ts)|
         <= 7 * (|Expand(history, ts).value| - |history|) + 2 * |ts|
  {
    hide TokenBits, TokenCoded, Apply;
    if ts != [] {
      var init, t := ts[..|ts| - 1], ts[|ts| - 1];
      TokensBound(history, init);
      TokenBound(t);
      CopyBackLength(Expand(history, init).value, t);
    }
  }

  /** A block for which storing looks cheaper than the static codes fits a stored block. */
  lemma StoredFits(history: seq<byte>, ts: seq<Token>, storedLen: nat)
    requires AllSane(ts) && AllNear(ts) && Expand(history, ts).Some? && |ts| <= 32767
    requires storedLen == |Expand(history, ts).value| - |history|
    requires storedLen + 4 <= (|StaticBits(ts)| + 3 + 7) / 8
    ensures storedLen <= 0xffff
  {
    hide TokenBits, TokenCoded, Apply, Expand;
    StaticCodes(ts);
    TokensBound(history, ts);
    assert |StaticBits(ts)| <= 7 * storedLen + 2 * |ts| + 7;
  }
}
