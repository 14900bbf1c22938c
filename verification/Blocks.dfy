/** The three kinds of block, and how the decoder reads them. */
module Blocks {
  import opened Bits
  import opened BitWriters
  import opened Options
  import opened Rfc1951
  import opened PrefixCodes
  import opened Streams
  import opened TokenCodes
  import opened TokenCosts
  import opened TreeHeaders
  import opened StaticTrees

  const STORED_BLOCK: nat := 0
  const STATIC_TREES: nat := 1
  const DYN_TREES: nat := 2

  /** Whatever follows `after`, the decoder reads one block from the end of `before` to
      the end of `after`, which turns the output `history` into `out`. */
  ghost predicate Decodes(before: seq<bool>, after: seq<bool>, history: seq<byte>, eof: bool, out: seq<byte>)
  {
    && |before| <= |after| && after[..|before|] == before
    && (forall rest: seq<bool> :: ReadBlock(after + rest, |before|, history) == Some((eof, out, |after|)))
  }

  function TypeBits(kind: nat, eof: bool): (bs: seq<bool>)
    ensures |bs| == 3
  {
    Lsb(kind * 2 + (if eof then 1 else 0), 3)
  }

  lemma ReadsType(bits: seq<bool>, pos: nat, kind: nat, eof: bool)
    requires kind < 3 && At(bits, pos, TypeBits(kind, eof))
    ensures ReadField(bits, pos, 1) == Some((if eof then 1 else 0, pos + 1))
    ensures ReadField(bits, pos + 1, 2) == Some((kind, pos + 3))
  {
    hide At, Lsb, ReadField;
    var last := if eof then 1 else 0;
    assert Pow2(1) == 2 && Pow2(2) == 4;
    assert Shl(kind, 1) == 2 * kind;
    LsbConcat(last, kind, 1, 2);
    AtSplit(bits, pos, Lsb(last, 1), Lsb(kind, 2));
    FieldAt(bits, pos, last, 1);
    FieldAt(bits, pos + 1, kind, 2);
  }

  lemma BlockIs(bits: seq<bool>, pos: nat, kind: nat, eof: bool, history: seq<byte>, out: seq<byte>, end: nat)
    requires kind < 3 && At(bits, pos, TypeBits(kind, eof))
    requires ReadBody(kind, bits, pos + 3, history) == Some((out, end))
    ensures ReadBlock(bits, pos, history) == Some((eof, out, end))
  {
    hide ReadBody, ReadField, At;
    ReadsType(bits, pos, kind, eof);
  }

  // ---------- Stored blocks ----------

  lemma {:induction false} ReadsBytes(bits: seq<bool>, pos: nat, s: seq<byte>)
    requires At(bits, pos, ByteBits(s))
    ensures ReadBytes(bits, pos, |s|) == Some((s, pos + 8 * |s|))
    decreases |s|
  {
    hide At, Lsb, ReadField, ByteBits;
    if s != [] {
      assert [s[0]] + s[1..] == s;
      ByteBitsAppend([s[0]], s[1..]);
      OneByte(s[0]);
      AtSplit(bits, pos, Octet(s[0]), ByteBits(s[1..]));
      assert Pow2(8) == 256;
      FieldAt(bits, pos, s[0], 8);
      ReadsBytes(bits, pos + 8, s[1..]);
    }
  }

  lemma OneByte(b: byte)
    ensures ByteBits([b]) == Octet(b)
  {
    assert [b][..0] == [];
    assert [] + Octet(b) == Octet(b);
  }

  /** A stored block after its type: padding, length, complement and data. */
  ghost function StoredBits(pos: nat, data: seq<byte>): (bs: seq<bool>)
    requires |data| <= 0xffff
    ensures |bs| == Padding(pos) + 32 + 8 * |data|
  {
    Zeros(Padding(pos)) + (Word(|data|) + (Word(0xffff - |data|) + ByteBits(data)))
  }

  lemma ReadsStored(bits: seq<bool>, pos: nat, history: seq<byte>, data: seq<byte>)
    requires |data| <= 0xffff && At(bits, pos, StoredBits(pos, data))
    ensures ReadBody(STORED_BLOCK, bits, pos, history) == Some((history + data, pos + |StoredBits(pos, data)|))
  {
    hide At, Lsb, ReadField, ReadBytes, ByteBits;
    var n := |data|;
    var p := pos + Padding(pos);
    assert p == AlignUp(pos);
    AtSplit(bits, pos, Zeros(Padding(pos)), Word(n) + (Word(0xffff - n) + ByteBits(data)));
    AtSplit(bits, p, Word(n), Word(0xffff - n) + ByteBits(data));
    AtSplit(bits, p + 16, Word(0xffff - n), ByteBits(data));
    Pow2Values();
    FieldAt(bits, p, n, 16);
    FieldAt(bits, p + 16, 0xffff - n, 16);
    ReadsBytes(bits, p + 32, data);
  }

  lemma StoredDecodes(before: seq<bool>, history: seq<byte>, eof: bool, data: seq<byte>)
    requires |data| <= 0xffff
    ensures Decodes(before, before + (TypeBits(STORED_BLOCK, eof) + StoredBits(|before| + 3, data)), history, eof, history + data)
  {
    hide At, ReadBlock, Lsb, ReadBody;
    var t, e := TypeBits(STORED_BLOCK, eof), StoredBits(|before| + 3, data);
    forall rest: seq<bool>
      ensures ReadBlock(before + (t + e) + rest, |before|, history) == Some((eof, history + data, |before + (t + e)|))
    {
      var bits := before + (t + e) + rest;
      SentIsThere(before, t + e, rest);
      AtSplit(bits, |before|, t, e);
      ReadsStored(bits, |before| + 3, history, data);
      BlockIs(bits, |before|, STORED_BLOCK, eof, history, history + data, |before + (t + e)|);
    }
  }

  // ---------- Static blocks ----------

  lemma StaticCodes(ts: seq<Token>)
    requires AllSane(ts)
    ensures AllTokensCoded(FixedLiteralLengths(), FixedDistanceLengths(), ts)
  {
    hide LitSymbol, DistSymbol;
  }

  ghost function StaticBits(ts: seq<Token>): seq<bool>
    requires AllSane(ts)
  {
    StaticCodes(ts);
    DataBits(FixedLiteralLengths(), FixedDistanceLengths(), ts)
  }

  lemma StaticDecodes(before: seq<bool>, history: seq<byte>, eof: bool, ts: seq<Token>)
    requires AllSane(ts) && Expand(history, ts).Some?
    ensures Decodes(before, before + (TypeBits(STATIC_TREES, eof) + StaticBits(ts)), history, eof, Expand(history, ts).value)
  {
    hide At, ReadBlock, Lsb, ReadTokens, DataBits, Decodable, AllTokensCoded, Expand;
    var t, e, out := TypeBits(STATIC_TREES, eof), StaticBits(ts), Expand(history, ts).value;
    StaticCodes(ts);
    FixedLiteralDecodable();
    FixedDistanceDecodable();
    forall rest: seq<bool>
      ensures ReadBlock(before + (t + e) + rest, |before|, history) == Some((eof, out, |before + (t + e)|))
    {
      var bits := before + (t + e) + rest;
      SentIsThere(before, t + e, rest);
      AtSplit(bits, |before|, t, e);
      DataRoundTrip(FixedLiteralLengths(), FixedDistanceLengths(), 15, bits, |before| + 3, history, ts);
      BlockIs(bits, |before|, STATIC_TREES, eof, history, out, |before + (t + e)|);
    }
  }

  // ---------- Dynamic blocks ----------

  ghost predicate Complete(ll: seq<nat>, dl: seq<nat>, cl: seq<nat>, n: nat, ts: seq<Token>)
  {
    && Describable(ll, dl, cl, n) && Decodable(ll, 15) && Decodable(dl, 15) && AllTokensCoded(ll, dl, ts)
    && ll[END_OF_BLOCK] > 0
  }

  ghost function DynamicBits(ll: seq<nat>, dl: seq<nat>, cl: seq<nat>, n: nat, ts: seq<Token>): (bs: seq<bool>)
    requires Complete(ll, dl, cl, n, ts)
  {
    HeaderBits(ll, dl, cl, n) + DataBits(ll, dl, ts)
  }

  lemma DynamicBody(bits: seq<bool>, pos: nat, history: seq<byte>, ll: seq<nat>, dl: seq<nat>, cl: seq<nat>, n: nat, ts: seq<Token>)
    requires Complete(ll, dl, cl, n, ts) && Expand(history, ts).Some? && At(bits, pos, DynamicBits(ll, dl, cl, n, ts))
    ensures ReadBody(DYN_TREES, bits, pos, history)
         == Some((Expand(history, ts).value, pos + |DynamicBits(ll, dl, cl, n, ts)|))
  {
    hide At, ReadTokens, ReadCodes, HeaderBits, DataBits, Decodable, AllTokensCoded, Expand, Describable;
    LitsThere(ll, dl, cl, n);
    var h, d := HeaderBits(ll, dl, cl, n), DataBits(ll, dl, ts);
    AtSplit(bits, pos, h, d);
    ReadsHeader(bits, pos, ll, dl, cl, n);
    DataRoundTrip(ll, dl, 15, bits, pos + |h|, history, ts);
  }

  lemma DynamicDecodes(before: seq<bool>, history: seq<byte>, eof: bool, ll: seq<nat>, dl: seq<nat>, cl: seq<nat>, n: nat, ts: seq<Token>)
    requires Complete(ll, dl, cl, n, ts) && Expand(history, ts).Some?
    ensures Decodes(before, before + (TypeBits(DYN_TREES, eof) + DynamicBits(ll, dl, cl, n, ts)), history, eof, Expand(history, ts).value)
  {
    hide At, ReadBlock, Lsb, ReadBody, DynamicBits, Expand, Complete;
    var t, e := TypeBits(DYN_TREES, eof), DynamicBits(ll, dl, cl, n, ts);
    var out := Expand(history, ts).value;
    forall rest: seq<bool>
      ensures ReadBlock(before + (t + e) + rest, |before|, history) == Some((eof, out, |before + (t + e)|))
    {
      var bits := before + (t + e) + rest;
      SentIsThere(before, t + e, rest);
      AtSplit(bits, |before|, t, e);
      DynamicBody(bits, |before| + 3, history, ll, dl, cl, n, ts);
      BlockIs(bits, |before|, DYN_TREES, eof, history, out, |before + (t + e)|);
    }
  }

  lemma LitsThere(ll: seq<nat>, dl: seq<nat>, cl: seq<nat>, n: nat)
    requires Describable(ll, dl, cl, n)
    ensures END_OF_BLOCK < |ll|
  {
  }
}
