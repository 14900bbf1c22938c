/** Tallying tokens and flushing them as a block. */
module BlockCoders {
  import opened Bits
  import opened BitWriters
  import opened Options
  import opened Rfc1951
  import opened Sums
  import opened PrefixCodes
  import opened TreeBuilders
  import opened BitLengths
  import opened Huffman
  import opened CodeLengthCoding
  import opened TokenCodes
  import opened TokenCosts
  import opened CodeTables
  import opened StaticTrees
  import opened TokenBuffers
  import opened BlockData
  import opened TreeHeaders
  import opened CodeLengthTree
  import opened HeaderSending
  import opened Blocks
  import opened BlockSizes

  ghost predicate LitDesc(l: TreeDesc)
    reads l.staticLen
  {
    && l.Valid() && l.elems == 286 && l.maxLength == 15 && l.extraBits == EXTRA_LBITS && l.extraBase == 257
    && l.staticLen != null && l.staticLen[..286] == FixedLiteralLengths()[..286]
  }

  ghost predicate DistDesc(d: TreeDesc)
    reads d.staticLen
  {
    && d.Valid() && d.elems == 30 && d.maxLength == 15 && d.extraBits == EXTRA_DBITS && d.extraBase == 0
    && d.staticLen != null && d.staticLen[..30] == FixedDistanceLengths()[..30]
  }

  lemma LitCharge(l: TreeDesc, m: nat)
    requires LitDesc(l) && m <= 286
    ensures Extras(l, m) == LitExtras(m) && StaticLens(l, m) == FixedLiteralLengths()[..m]
  {
    ExtraTables();
    forall i | 0 <= i < m
      ensures StaticLens(l, m)[i] == FixedLiteralLengths()[i]
    {
      assert l.staticLen[..286][i] == FixedLiteralLengths()[..286][i];
    }
  }

  lemma DistCharge(d: TreeDesc, m: nat)
    requires DistDesc(d) && m <= 30
    ensures Extras(d, m) == DistExtras(m) && StaticLens(d, m) == FixedDistanceLengths()[..m]
  {
    ExtraTables();
    forall i | 0 <= i < m
      ensures StaticLens(d, m)[i] == FixedDistanceLengths()[i]
    {
      assert d.staticLen[..30][i] == FixedDistanceLengths()[..30][i];
    }
  }

  /** The arrays of two trees are different. */
  ghost predicate Apart(l: TreeDesc, d: TreeDesc)
  {
    l != d && l.fc != d.fc && l.fc != d.dl && l.dl != d.fc && l.dl != d.dl
  }

  /** No tree array is the static code of another tree. */
  ghost predicate StaticApart(l: TreeDesc, d: TreeDesc)
  {
    l.staticLen != null ==> l.staticLen != d.fc && l.staticLen != d.dl
  }

  /** The trees are separate objects. */
  ghost predicate AllApart(l: TreeDesc, d: TreeDesc, bl: TreeDesc)
  {
    && Apart(l, d) && Apart(l, bl) && Apart(d, bl) && StaticApart(l, d) && StaticApart(l, bl) && StaticApart(d, l) && StaticApart(d, bl)
  }

  /** The symbols of `ts` have been counted, and nothing has been charged yet. */
  ghost predicate Tallied(b: TreeBuilder, l: TreeDesc, d: TreeDesc, bl: TreeDesc, ts: seq<Token>)
    requires LitDesc(l) && DistDesc(d) && CodeLengthDesc(bl)
    reads b, l.staticLen, d.staticLen, l.fc, d.fc, bl.fc
  {
    && l.fc[..286] == LitFreq(ts) && d.fc[..30] == DistFreq(ts) && bl.fc[..19] == NoFreq()
    && b.optLen == 0 == b.staticLen
  }

  /** Builds the literal tree and the distance tree. */
  method BuildTrees(b: TreeBuilder, l: TreeDesc, d: TreeDesc, bl: TreeDesc, ghost ts: seq<Token>)
    returns (ghost growthL: Growth, ghost growthD: Growth)
    requires b.Ready(l) && b.Ready(d) && LitDesc(l) && DistDesc(d) && CodeLengthDesc(bl) && AllApart(l, d, bl)
    requires bl.fc != b.q.heap && bl.fc != b.q.depth && bl.fc != b.blCount
    requires Tallied(b, l, d, bl, ts) && AllSane(ts) && |ts| <= 0x7fff
    modifies b, b.q`heapLen, b.q.heap, b.q.depth, b.blCount, l.fc, l.dl, l`maxCode, d.fc, d.dl, d`maxCode
    ensures Trees(l.fc[..], l.dl[..], l.maxCode, d.fc[..], d.dl[..], d.maxCode, ts)
    ensures LitDesc(l) && DistDesc(d) && bl.fc[..19] == NoFreq()
    ensures 0 <= l.maxCode < 286 && 0 <= d.maxCode < 30
    ensures b.optLen == DynCharge(ts, l.dl[..l.maxCode + 1], d.dl[..d.maxCode + 1])
    ensures b.staticLen == DynCharge(ts, FixedLiteralLengths()[..l.maxCode + 1], FixedDistanceLengths()[..d.maxCode + 1])
    ensures Good(LitFreq(ts), l.dl[..l.maxCode + 1], 15, growthL) && Good(DistFreq(ts), d.dl[..d.maxCode + 1], 15, growthD)
  {
    hide Sum, Charges, TreeBuilt, Monotone, Cheapest, FixedLiteralLengths, FixedDistanceLengths, LitExtras, DistExtras,
         Extras, StaticLens, LitFreq, DistFreq;
    FreqTotals(ts);
    growthL := BuildTree(b, l);
    BuiltSize(LitFreq(ts), l.fc[..], l.dl[..], 15, l.maxCode);
    LitCharge(l, l.maxCode + 1);
    growthD := BuildTree(b, d);
    BuiltSize(DistFreq(ts), d.fc[..], d.dl[..], 15, d.maxCode);
    DistCharge(d, d.maxCode + 1);
  }

  /** The arrays hold the trees `ll` and `dl`, each followed by the guard, and the tree of `n` code length codes. */
  ghost predicate Planned(l: TreeDesc, d: TreeDesc, bl: TreeDesc, ts: seq<Token>, ll: seq<nat>, dl: seq<nat>, n: nat)
    reads l, l.fc, l.dl, d, d.fc, d.dl, bl.fc, bl.dl
  {
    && Encodes(l.fc[..], l.dl[..], ll) && Encodes(d.fc[..], d.dl[..], dl)
    && |ll| == l.maxCode + 1 < l.dl.Length && ll == l.dl[..|ll|] && l.dl[|ll|] == GUARD
    && |dl| == d.maxCode + 1 < d.dl.Length && dl == d.dl[..|dl|] && d.dl[|dl|] == GUARD
    && Prepared(bl.fc[..], bl.dl[..], ll, dl, n) && Complete(ll, dl, bl.dl[..19], n, ts)
  }

  /** What follows once the three trees are built. */
  lemma PlanIs(lfc: seq<nat>, ldl: seq<nat>, lmax: int, dfc: seq<nat>, ddl: seq<nat>, dmax: int, ts: seq<Token>)
    requires Trees(lfc, ldl, lmax, dfc, ddl, dmax, ts) && 0 <= lmax && 0 <= dmax && lmax + 1 < |ldl| && dmax + 1 < |ddl|
    ensures var (ll, dl) := (ldl[..lmax + 1], ddl[..dmax + 1]);
      && Encodes(lfc, ldl[lmax + 1 := GUARD], ll) && Encodes(dfc, ddl[dmax + 1 := GUARD], dl)
      && Decodable(ll, 15) && Decodable(dl, 15) && AllTokensCoded(ll, dl, ts)
      && 257 <= |ll| <= 286 && 1 <= |dl| <= 30 && ll[END_OF_BLOCK] > 0
      && (forall i :: 0 <= i <= lmax ==> ldl[i] < 16) && (forall i :: 0 <= i <= dmax ==> ddl[i] < 16)
      && DynCharge(ts, ll, dl) == |DataBits(ll, dl, ts)|
      && DynCharge(ts, FixedLiteralLengths()[..lmax + 1], FixedDistanceLengths()[..dmax + 1]) == |StaticBits(ts)|
  {
    hide Encodes, Decodable, AllTokensCoded, DataBits, StaticBits, DynCharge, TreeBuilt, Charging, FixedLiteralLengths,
         FixedDistanceLengths, LitFreq, DistFreq, AllSane;
    TreesCover(lfc, ldl, lmax, dfc, ddl, dmax, ts);
    TreeEncodes(LitFreq(ts), lfc, ldl, lmax, ldl[lmax + 1 := GUARD]);
    TreeEncodes(DistFreq(ts), dfc, ddl, dmax, ddl[dmax + 1 := GUARD]);
    DynamicSize(ts, ldl[..lmax + 1], ddl[..dmax + 1]);
    StaticSize(ts, lmax + 1, dmax + 1);
  }

  /** The guard does not disturb the lengths before it. */
  lemma Guarded(dl: seq<nat>, dl': seq<nat>, n: nat)
    requires n < |dl| && dl' == dl[n := GUARD]
    ensures dl'[..n] == dl[..n] && dl'[n] == GUARD && |dl'| == |dl|
  {
  }

  /** Builds all trees and predicts the sizes of the block. */
  method PlanBlock(b: TreeBuilder, l: TreeDesc, d: TreeDesc, bl: TreeDesc, ghost ts: seq<Token>)
    returns (maxBlindex: int, ghost ll: seq<nat>, ghost dl: seq<nat>, ghost growthL: Growth, ghost growthD: Growth, ghost growthB: Growth)
    requires b.Ready(l) && b.Ready(d) && b.Ready(bl) && LitDesc(l) && DistDesc(d) && CodeLengthDesc(bl) && AllApart(l, d, bl)
    requires Tallied(b, l, d, bl, ts) && AllSane(ts) && |ts| <= 0x7fff
    modifies b, b.q`heapLen, b.q.heap, b.q.depth, b.blCount
    modifies l.fc, l.dl, l`maxCode, d.fc, d.dl, d`maxCode, bl.fc, bl.dl, bl`maxCode
    ensures LitDesc(l) && DistDesc(d)
    ensures maxBlindex >= 0 && Planned(l, d, bl, ts, ll, dl, maxBlindex + 1)
    ensures b.optLen == |DynamicBits(ll, dl, bl.dl[..19], maxBlindex + 1, ts)|
    ensures b.staticLen == |StaticBits(ts)|
    ensures Good(LitFreq(ts), ll, 15, growthL) && Good(DistFreq(ts), dl, 15, growthD)
    ensures GoodCodeLengths(ll, dl, bl.dl[..], bl.maxCode + 1, growthB)
  {
    hide Good, GoodCodeLengths, Encodes, Decodable, AllTokensCoded, DataBits, StaticBits, DynCharge, Trees, FixedLiteralLengths,
         FixedDistanceLengths, LitFreq, DistFreq, AllSane, HeaderBits, EndsAt, Sum, Planned, Prepared, DynamicBits;
    growthL, growthD := BuildTrees(b, l, d, bl, ts);
    ghost var ldl, ddl := l.dl[..], d.dl[..];
    PlanIs(l.fc[..], ldl, l.maxCode, d.fc[..], ddl, d.maxCode, ts);
    ll, dl := ldl[..l.maxCode + 1], ddl[..d.maxCode + 1];
    assert l.dl[..l.maxCode + 1] == ll && d.dl[..d.maxCode + 1] == dl;
    maxBlindex, growthB := BuildBlTree(b, l, d, bl);
    Guarded(ldl, l.dl[..], l.maxCode + 1);
    Guarded(ddl, d.dl[..], d.maxCode + 1);
    IsPlanned(l, d, bl, ts, ll, dl, maxBlindex + 1);
  }

  lemma IsPlanned(l: TreeDesc, d: TreeDesc, bl: TreeDesc, ts: seq<Token>, ll: seq<nat>, dl: seq<nat>, n: nat)
    requires Encodes(l.fc[..], l.dl[..], ll) && Encodes(d.fc[..], d.dl[..], dl)
    requires |ll| == l.maxCode + 1 < l.dl.Length && ll == l.dl[..|ll|] && l.dl[|ll|] == GUARD
    requires |dl| == d.maxCode + 1 < d.dl.Length && dl == d.dl[..|dl|] && d.dl[|dl|] == GUARD
    requires Prepared(bl.fc[..], bl.dl[..], ll, dl, n)
    requires Decodable(ll, 15) && Decodable(dl, 15) && AllTokensCoded(ll, dl, ts) && END_OF_BLOCK < |ll| && ll[END_OF_BLOCK] > 0
    ensures Planned(l, d, bl, ts, ll, dl, n) && bl.dl.Length >= 19 && Complete(ll, dl, bl.dl[..19], n, ts)
    ensures |DynamicBits(ll, dl, bl.dl[..19], n, ts)| == |HeaderBits(ll, dl, bl.dl[..19], n)| + |DataBits(ll, dl, ts)|
  {
    hide Encodes, Decodable, AllTokensCoded, DataBits, HeaderBits, Describable;
  }

  // ---------- Emitting one block ----------

  lemma JoinStored(before: seq<bool>, z: seq<bool>, x: seq<bool>, y: seq<bool>, e: seq<bool>)
    ensures before + z + (x + y) + e == before + (z + (x + (y + e)))
  {
    Associate(before + z, x + y, e);
    Associate(before, z, x + y + e);
    Associate(x, y, e);
  }

  /** Sends a stored block after its type. */
  method SendStored(w: BitWriter, window: array<byte>, start: nat, len: nat, ghost data: seq<byte>)
    requires w.Valid() && window != w.outbuf && start + len <= window.Length && len <= 0xffff
    requires data == window[start..start + len]
    modifies w, w.outbuf
    ensures w.Valid() && w.Bits() == old(w.Bits()) + StoredBits(|old(w.Bits())|, data)
  {
    hide ByteBits, Zeros, Word, w.Bits, Padding;
    ghost var before := w.Bits();
    w.CopyBlock(window, start, len, true);
    JoinStored(before, Zeros(Padding(|before|)), Word(len), Word(0xffff - len), ByteBits(data));
  }

  lemma AlignSize(n: nat)
    ensures (n + 3 + 7) / 8 * 8 == n + 3 + Padding(n + 3)
  {
  }

  lemma AlignEnd(n: nat)
    ensures 8 * ((n + 7) / 8) == n + Padding(n)
  {
  }

  /** The predicted size of a block in bytes. */
  function Bytes(bits: nat): nat
  {
    (bits + 3 + 7) / 8
  }

  /** Which kind of block is sent: storing must save something, then static codes win over equal dynamic ones. */
  function Kind(storedLen: nat, hasData: bool, fixed: nat, dynamic: nat): nat
  {
    var best := if Bytes(fixed) <= Bytes(dynamic) then Bytes(fixed) else Bytes(dynamic);
    if storedLen + 4 <= best && hasData then STORED_BLOCK
    else if Bytes(fixed) == best then STATIC_TREES
    else DYN_TREES
  }

  /** How a block was sent: its kind, the predicted sizes, and the trees it could have been sent with. */
  datatype Report = Report(kind: nat, fixed: nat, dynamic: nat, ll: seq<nat>, dl: seq<nat>, cl: seq<nat>, n: nat,
                           codes: int, growthL: Growth, growthD: Growth, growthB: Growth)

  /** The size of a block of the given kind, its type included. */
  function BlockSize(kind: nat, pos: nat, storedLen: nat, fixed: nat, dynamic: nat): nat
  {
    if kind == STORED_BLOCK then 3 + Padding(pos + 3) + 32 + 8 * storedLen
    else if kind == STATIC_TREES then 3 + fixed
    else 3 + dynamic
  }

  /** The trees are complete codes for the tokens, and as good as they can be, and the predictions are the sizes of the
      two encodings. */
  ghost predicate Foreseen(r: Report, ts: seq<Token>)
  {
    && AllSane(ts) && Complete(r.ll, r.dl, r.cl, r.n, ts)
    && Good(LitFreq(ts), r.ll, 15, r.growthL) && Good(DistFreq(ts), r.dl, 15, r.growthD)
    && GoodCodeLengths(r.ll, r.dl, r.cl, r.codes, r.growthB)
    && r.fixed == |StaticBits(ts)| && r.dynamic == |DynamicBits(r.ll, r.dl, r.cl, r.n, ts)|
  }

  /** The kind follows from the predictions, and the block from `before` to `sent` has the size of its kind. */
  ghost predicate Reported(r: Report, ts: seq<Token>, before: seq<bool>, sent: seq<bool>, storedLen: nat, hasData: bool)
  {
    && Foreseen(r, ts) && r.kind == Kind(storedLen, hasData, r.fixed, r.dynamic)
    && |sent| == |before| + BlockSize(r.kind, |before|, storedLen, r.fixed, r.dynamic)
  }

  /** The bits sent: the type, and the data as they are, or the tokens under the fixed codes or under the trees. */
  ghost predicate Encoded(r: Report, ts: seq<Token>, before: seq<bool>, sent: seq<bool>, data: seq<byte>, eof: bool)
  {
    && AllSane(ts) && Complete(r.ll, r.dl, r.cl, r.n, ts)
    && (if r.kind == STORED_BLOCK then
          |data| <= 0xffff && sent == before + (TypeBits(STORED_BLOCK, eof) + StoredBits(|before| + 3, data))
        else if r.kind == STATIC_TREES then sent == before + (TypeBits(STATIC_TREES, eof) + StaticBits(ts))
        else sent == before + (TypeBits(DYN_TREES, eof) + DynamicBits(r.ll, r.dl, r.cl, r.n, ts)))
  }

  /** The best encoding is sent: as it is exactly if that is possible and its bytes with four more are at most those of both
      other encodings; otherwise under the fixed codes if their bytes are at most those with trees of its own. What is sent
      never takes more bytes than any of them. */
  lemma BestEncoding(r: Report, ts: seq<Token>, before: seq<bool>, sent: seq<bool>, data: seq<byte>, hasData: bool, eof: bool)
    requires Reported(r, ts, before, sent, |data|, hasData) && Encoded(r, ts, before, sent, data, eof)
    ensures var fixed, dynamic := (3 + |StaticBits(ts)| + 7) / 8, (3 + |DynamicBits(r.ll, r.dl, r.cl, r.n, ts)| + 7) / 8;
      var store := hasData && |data| + 4 <= fixed && |data| + 4 <= dynamic;
      && (store ==> |data| <= 0xffff && sent == before + (TypeBits(0, eof) + StoredBits(|before| + 3, data)))
      && (!store && fixed <= dynamic ==> sent == before + (TypeBits(1, eof) + StaticBits(ts)))
      && (!store && fixed > dynamic ==> sent == before + (TypeBits(2, eof) + DynamicBits(r.ll, r.dl, r.cl, r.n, ts)))
      && (!store ==> (|sent| - |before| + 7) / 8 <= fixed && (|sent| - |before| + 7) / 8 <= dynamic)
      && (!store && hasData ==> (|sent| - |before| + 7) / 8 < |data| + 4)
  {
    hide StaticBits, DynamicBits, StoredBits, Complete, Good, GoodCodeLengths, TypeBits, AllSane;
  }

  /** The three bits of a type: whether the block is the last, and its kind. */
  lemma TypeBitsAre(eof: bool)
    ensures TypeBits(0, eof) == [eof, false, false] && TypeBits(1, eof) == [eof, true, false] && TypeBits(2, eof) == [eof, false, true]
  {
    if eof {
      ThreeBits(1);
      ThreeBits(3);
      ThreeBits(5);
    } else {
      ThreeBits(0);
      ThreeBits(2);
      ThreeBits(4);
    }
  }

  lemma ThreeBits(v: nat)
    ensures Lsb(v, 3) == [v % 2 == 1, v / 2 % 2 == 1, v / 2 / 2 % 2 == 1]
  {
    assert Bit(v, 1) == Bit(v / 2, 0) && Bit(v, 2) == Bit(v / 2, 1) == Bit(v / 2 / 2, 0);
  }

  class BlockCoder {
    const w: BitWriter
    const b: TreeBuilder
    const l: TreeDesc
    const d: TreeDesc
    const bl: TreeDesc
    const tb: TokenBuffer
    const tables: Tables
    const staticLit: CodeTree
    const staticDist: CodeTree
    var compressedLen: nat
    /** All tokens saved so far, in this block and in those before. */
    ghost var all: seq<Token>

    constructor (w: BitWriter, b: TreeBuilder, l: TreeDesc, d: TreeDesc, bl: TreeDesc, tb: TokenBuffer,
                 tables: Tables, staticLit: CodeTree, staticDist: CodeTree)
      ensures this.w == w && this.b == b && this.l == l && this.d == d && this.bl == bl && this.tb == tb
      ensures this.tables == tables && this.staticLit == staticLit && this.staticDist == staticDist && compressedLen == 0 && all == []
    {
      this.w, this.b, this.l, this.d, this.bl, this.tb := w, b, l, d, bl, tb;
      this.tables, this.staticLit, this.staticDist := tables, staticLit, staticDist;
      compressedLen, all := 0, [];
    }

    ghost function Footprint(): set<object>
    {
      {this} + w.Own() + b.Own() + l.Own() + d.Own() + bl.Own() + tb.Own()
    }

    /** The tokens `ts` are waiting. */
    ghost predicate Ready(ts: seq<Token>)
      requires Shape()
      reads tb, tb.lBuf, tb.dBuf, tb.flagBuf, b, l.staticLen, d.staticLen, l.fc, d.fc, bl.fc
    {
      tb.Holds(ts) && Tallied(b, l, d, bl, ts)
    }

    /** The parts fit together and the static trees are right. */
    ghost predicate Shape()
      reads l.staticLen, d.staticLen
    {
      && b.Ready(l) && b.Ready(d) && b.Ready(bl) && LitDesc(l) && DistDesc(d) && CodeLengthDesc(bl) && AllApart(l, d, bl)
      && tables.Right() && StaticRight() && tb.Sized() && tb.lBuf != w.outbuf && BuffersApart()
    }

    ghost predicate StaticRight()
    {
      && Encodes(staticLit.codes, staticLit.lens, FixedLiteralLengths()) && |staticLit.codes| == 288
      && Encodes(staticDist.codes, staticDist.lens, FixedDistanceLengths()) && |staticDist.codes| == 30
    }

    ghost predicate BuffersApart()
    {
      && NotOf(tb.dBuf, l) && NotOf(tb.dBuf, d) && NotOf(tb.dBuf, bl)
      && NotOf(tb.flagBuf, l) && NotOf(tb.flagBuf, d) && NotOf(tb.flagBuf, bl)
      && tb.dBuf != b.q.heap && tb.dBuf != b.q.depth && tb.dBuf != b.blCount
      && tb.flagBuf != b.q.heap && tb.flagBuf != b.q.depth && tb.flagBuf != b.blCount
    }

    /** The tokens `ts` are waiting, and the size of the output is known. */
    ghost predicate Open(ts: seq<Token>)
      reads this, l.staticLen, d.staticLen, w, w.outbuf, tb, tb.lBuf, tb.dBuf, tb.flagBuf, b, l.fc, d.fc, bl.fc
    {
      Shape() && w.Valid() && Ready(ts) && compressedLen == |w.Bits()| && AllNear(ts)
    }

    /** Saves a token and counts its symbols; tells whether the block must be flushed. */
    method CtTally(dist: nat, lc: byte, strstart: nat, blockStart: int, ghost t: Token) returns (flush: bool)
      requires Open(tb.tokens) && tb.HasRoom() && Sane(t) && Near(t)
      requires lc == LitByte(t) && dist == if t.Copy? then t.distance else 0
      modifies `all, tb, tb.lBuf, tb.dBuf, tb.flagBuf, l.fc, d.fc
      ensures Open(old(tb.tokens) + [t]) && tb.tokens == old(tb.tokens) + [t] && all == old(all) + [t]
      ensures flush == (SeemsProfitable(tb.tokens, strstart, blockStart) || !tb.HasRoom())
    {
      hide w.Bits, w.Valid, LitFreq, DistFreq, LitDesc, DistDesc, tables.Right, StaticRight, CodeLengthDesc, Symbols,
           Pointers, Flagged, LitByte, Sane, SeemsProfitable, AllNear;
      SaveToken(dist, lc, t);
      DescsValid();
      PointersFit(tb.dBuf[..], tb.lastDist, tb.tokens);
      var stop := Profitable(tb, d, strstart, blockStart, tb.tokens);
      flush := stop || tb.lastLit == tb.litBufSize - 1 || tb.lastDist == tb.distBufSize;
      all := all + [t];
    }

    /** Counts a token and puts it into the buffers. */
    method SaveToken(dist: nat, lc: byte, ghost t: Token)
      requires Open(tb.tokens) && tb.HasRoom() && Sane(t) && Near(t)
      requires lc == LitByte(t) && dist == if t.Copy? then t.distance else 0
      modifies tb, tb.lBuf, tb.dBuf, tb.flagBuf, l.fc, d.fc
      ensures Open(old(tb.tokens) + [t]) && tb.tokens == old(tb.tokens) + [t]
    {
      hide w.Bits, w.Valid, LitFreq, DistFreq, LitDesc, DistDesc, tables.Right, StaticRight, CodeLengthDesc, Symbols,
           Pointers, Flagged, LitByte, Sane, SeemsProfitable, AllNear;
      NearPush(tb.tokens, t);
      DescsValid();
      CountToken(l, d, tables, dist, lc, tb.tokens, t);
      tb.Save(dist, lc, t);
    }

    /** Starts a new block. */
    method InitBlock()
      requires Shape()
      modifies tb, b, l.fc, d.fc, bl.fc
      ensures Shape() && Ready([]) && tb.tokens == []
    {
      hide LitFreq, DistFreq, FixedLiteralLengths, FixedDistanceLengths, tables.Right, StaticRight;
      ClearFreqs(l, d, bl);
      b.optLen, b.staticLen := 0, 0;
      tb.Clear();
    }

    /** The trees are built as planned, and both sizes are known. */
    ghost predicate Ahead(plan: Report, ts: seq<Token>, n: nat)
      reads b, l, l.fc, l.dl, d, d.fc, d.dl, bl.fc, bl.dl
    {
      && Foreseen(plan, ts) && plan.kind == STORED_BLOCK && Planned(l, d, bl, ts, plan.ll, plan.dl, n)
      && bl.dl.Length >= 19 && plan.cl == bl.dl[..19] && plan.n == n && b.staticLen == plan.fixed && b.optLen == plan.dynamic
    }

    /** Completes the buffers and builds the trees for the waiting tokens; nothing is sent. */
    method Plan(ghost history: seq<byte>, ghost data: seq<byte>, storedLen: nat, hasData: bool)
      returns (maxBlindex: int, ghost plan: Report)
      requires Shape() && tb.Holds(tb.tokens) && Tallied(b, l, d, bl, tb.tokens) && AllNear(tb.tokens)
      requires Expand(history, tb.tokens) == Some(history + data) && |data| == storedLen
      modifies tb.flagBuf, b, b.q`heapLen, b.q.heap, b.q.depth, b.blCount
      modifies l.fc, l.dl, l`maxCode, d.fc, d.dl, d`maxCode, bl.fc, bl.dl, bl`maxCode
      ensures Shape() && tb.lBuf != w.outbuf && Buffered(tb.tokens) && maxBlindex >= 0 && Ahead(plan, tb.tokens, maxBlindex + 1)
      ensures Foreseen(plan, tb.tokens) && plan.kind == STORED_BLOCK
      ensures Kind(storedLen, hasData, plan.fixed, plan.dynamic) == STORED_BLOCK ==> storedLen <= 0xffff
    {
      hide Good, GoodCodeLengths, Complete, Planned, Foreseen, w.Bits, StaticBits, DynamicBits, Expand, AllNear, tables.Right,
           StaticRight, LitDesc, DistDesc, CodeLengthDesc, LitFreq, DistFreq, Symbols, Pointers, AllFlagged, Flagged, Kind;
      ghost var ts := tb.tokens;
      tb.SaveLastFlags();
      SaneSymbols(tb.lBuf[..], ts);
      ghost var ll, dl, growthL, growthD, growthB;
      maxBlindex, ll, dl, growthL, growthD, growthB := PlanBlock(b, l, d, bl, ts);
      StoredKind(history, ts, data, storedLen, hasData, b.optLen);
      plan := Foresee(b, l, d, bl, ts, ll, dl, maxBlindex + 1, growthL, growthD, growthB);
    }

    /** Builds the trees for the waiting tokens and sends them as one block. */
    method CodeBlock(window: array<byte>, blockStart: int, storedLen: nat, eof: bool, ghost history: seq<byte>, ghost data: seq<byte>)
      returns (ghost report: Report)
      requires Open(tb.tokens) && window != w.outbuf && Expand(history, tb.tokens) == Some(history + data) && |data| == storedLen
      requires blockStart >= 0 ==> blockStart + storedLen <= window.Length && window[blockStart..blockStart + storedLen] == data
      modifies Footprint()
      ensures Shape() && w.Valid() && compressedLen == |w.Bits()| && all == old(all)
      ensures Decodes(old(w.Bits()), w.Bits(), history, eof, history + data)
      ensures Reported(report, old(tb.tokens), old(w.Bits()), w.Bits(), storedLen, blockStart >= 0)
      ensures Encoded(report, old(tb.tokens), old(w.Bits()), w.Bits(), data, eof)
    {
      hide Foreseen, Reported, Encoded, Ahead, w.Bits, w.Valid, Decodes, StaticBits, DynamicBits, Expand, AllNear, Shape, Buffered, Kind, Padding,
           AllSane;
      ghost var ts, before := tb.tokens, w.Bits();
      var maxBlindex;
      ghost var plan;
      maxBlindex, plan := Plan(history, data, storedLen, blockStart >= 0);
      var kind := EmitBlock(window, blockStart, storedLen, eof, maxBlindex, history, ts, plan, data);
      report := plan.(kind := kind);
      IsReported(report, ts, before, w.Bits(), storedLen, blockStart >= 0);
    }

    /** Sends the waiting tokens as one block; after the last block the output ends on a byte boundary.
        Returns the total length of the output in bytes. */
    method FlushBlock(window: array<byte>, blockStart: int, storedLen: nat, eof: bool, ghost history: seq<byte>, ghost data: seq<byte>)
      returns (bytes: nat, ghost sent: seq<bool>, ghost report: Report)
      requires Open(tb.tokens) && window != w.outbuf && Expand(history, tb.tokens) == Some(history + data) && |data| == storedLen
      requires blockStart >= 0 ==> blockStart + storedLen <= window.Length && window[blockStart..blockStart + storedLen] == data
      modifies Footprint()
      ensures Shape() && w.Valid() && Ready([]) && tb.tokens == [] && all == old(all)
      ensures Decodes(old(w.Bits()), sent, history, eof, history + data)
      ensures Reported(report, old(tb.tokens), old(w.Bits()), sent, storedLen, blockStart >= 0)
      ensures Encoded(report, old(tb.tokens), old(w.Bits()), sent, data, eof)
      ensures !eof ==> w.Bits() == sent && Open([]) && bytes == |sent| / 8
      ensures eof ==> w.Bits() == sent + Zeros(Padding(|sent|)) && 8 * bytes == |w.Bits()| && w.Bits() == ByteBits(w.Out())
    {
      hide w.Bits, Decodes, Expand, Shape, Ready, Open, ByteBits, Padding, Reported, Encoded;
      report := CodeBlock(window, blockStart, storedLen, eof, history, data);
      sent := w.Bits();
      bytes := EndBlock(eof);
    }

    /** Gets ready for the next block, or completes the last byte. */
    method EndBlock(eof: bool) returns (bytes: nat)
      requires Shape() && w.Valid() && compressedLen == |w.Bits()|
      modifies Footprint()
      ensures Shape() && w.Valid() && Ready([]) && tb.tokens == [] && all == old(all)
      ensures !eof ==> w.Bits() == old(w.Bits()) && Open([]) && bytes == |w.Bits()| / 8
      ensures eof ==> w.Bits() == old(w.Bits()) + Zeros(Padding(|old(w.Bits())|)) == ByteBits(w.Out()) && 8 * bytes == |w.Bits()|
    {
      hide w.Bits, Expand, tables.Right, StaticRight, LitDesc, DistDesc, CodeLengthDesc, LitFreq, DistFreq,
           Symbols, Pointers, Flagged, ByteBits, tb.Holds, Padding, Tallied;
      InitBlock();
      if eof {
        EndOutput();
      }
      bytes := compressedLen / 8;
    }

    /** Completes the last byte. */
    method EndOutput()
      requires w.Valid() && compressedLen == |w.Bits()|
      modifies w, w.outbuf, `compressedLen
      ensures w.Valid() && w.Bits() == old(w.Bits()) + Zeros(Padding(|old(w.Bits())|)) == ByteBits(w.Out())
      ensures 8 * (compressedLen / 8) == |w.Bits()|
    {
      hide w.Bits, w.Valid, Padding, ByteBits;
      AlignEnd(|w.Bits()|);
      w.Windup();
      compressedLen := compressedLen + 7;
    }

    lemma DescsValid()
      requires Shape()
      ensures l.Valid() && d.Valid() && l.elems == 286 && d.elems == 30
    {
    }

    /** The tokens `ts` are complete in the buffers. */
    ghost predicate Buffered(ts: seq<Token>)
      reads tb, tb.lBuf, tb.dBuf, tb.flagBuf
    {
      tb.lastLit == |ts| && Symbols(tb.lBuf[..], ts) && Pointers(tb.dBuf[..], tb.lastDist, ts) && AllFlagged(tb.flagBuf[..], ts)
    }

    method EmitStored(window: array<byte>, start: nat, len: nat, eof: bool, ghost history: seq<byte>, ghost data: seq<byte>)
      requires w.Valid() && window != w.outbuf && start + len <= window.Length && len <= 0xffff
      requires data == window[start..start + len] && compressedLen == |w.Bits()|
      modifies w, w.outbuf, `compressedLen
      ensures w.Valid() && compressedLen == |w.Bits()| == |old(w.Bits())| + 3 + Padding(|old(w.Bits())| + 3) + 32 + 8 * len
      ensures Decodes(old(w.Bits()), w.Bits(), history, eof, history + data)
      ensures w.Bits() == old(w.Bits()) + (TypeBits(STORED_BLOCK, eof) + StoredBits(|old(w.Bits())| + 3, data))
    {
      hide w.Bits, w.Valid, Padding, Decodes, TypeBits, StoredBits;
      ghost var before := w.Bits();
      AlignSize(|before|);
      StoredDecodes(before, history, eof, data);
      SendType(w, STORED_BLOCK, eof);
      compressedLen := (compressedLen + 3 + 7) / 8 * 8;
      compressedLen := compressedLen + (len + 4) * 8;
      SendStored(w, window, start, len, data);
      Associate(before, TypeBits(STORED_BLOCK, eof), StoredBits(|before| + 3, data));
    }

    method EmitStatic(eof: bool, ghost history: seq<byte>, ghost ts: seq<Token>)
      requires Shape() && tb.lBuf != w.outbuf && w.Valid() && Buffered(ts) && AllSane(ts) && Expand(history, ts).Some?
      requires b.staticLen == |StaticBits(ts)| && compressedLen == |w.Bits()|
      modifies w, w.outbuf, `compressedLen
      ensures w.Valid() && compressedLen == |w.Bits()| == |old(w.Bits())| + 3 + b.staticLen
      ensures Decodes(old(w.Bits()), w.Bits(), history, eof, Expand(history, ts).value)
      ensures w.Bits() == old(w.Bits()) + (TypeBits(STATIC_TREES, eof) + StaticBits(ts))
    {
      hide w.Bits, Decodes, StaticBits, TypeBits, Expand, Shape, Buffered, AllSane;
      ghost var before := w.Bits();
      StaticDecodes(before, history, eof, ts);
      SendType(w, STATIC_TREES, eof);
      SendStatic(ts);
      Associate(before, TypeBits(STATIC_TREES, eof), StaticBits(ts));
      compressedLen := compressedLen + 3 + b.staticLen;
    }

    method EmitDynamic(eof: bool, maxBlindex: nat, ghost history: seq<byte>, ghost ts: seq<Token>, ghost ll: seq<nat>, ghost dl: seq<nat>)
      requires Shape() && tb.lBuf != w.outbuf && w.Valid() && Buffered(ts) && Expand(history, ts).Some?
      requires Planned(l, d, bl, ts, ll, dl, maxBlindex + 1)
      requires b.optLen == |DynamicBits(ll, dl, bl.dl[..19], maxBlindex + 1, ts)| && compressedLen == |w.Bits()|
      modifies w, w.outbuf, `compressedLen
      ensures w.Valid() && compressedLen == |w.Bits()| == |old(w.Bits())| + 3 + b.optLen
      ensures Decodes(old(w.Bits()), w.Bits(), history, eof, Expand(history, ts).value)
      ensures w.Bits() == old(w.Bits())
                        + (TypeBits(DYN_TREES, eof) + DynamicBits(ll, dl, old(bl.dl[..19]), maxBlindex + 1, ts))
    {
      hide w.Bits, Decodes, DynamicBits, TypeBits, Expand, Shape, Buffered, Describable, Encodes, Complete;
      ghost var before, cl := w.Bits(), bl.dl[..19];
      DynamicDecodes(before, history, eof, ll, dl, cl, maxBlindex + 1, ts);
      SendType(w, DYN_TREES, eof);
      SendDynamic(maxBlindex, ts, ll, dl);
      Associate(before, TypeBits(DYN_TREES, eof), DynamicBits(ll, dl, cl, maxBlindex + 1, ts));
      compressedLen := compressedLen + 3 + b.optLen;
    }

    /** Sends the tokens with the chosen kind of block. */
    method EmitBlock(window: array<byte>, blockStart: int, storedLen: nat, eof: bool, maxBlindex: nat,
                     ghost history: seq<byte>, ghost ts: seq<Token>, ghost plan: Report, ghost data: seq<byte>)
      returns (kind: nat)
      requires Shape() && tb.lBuf != w.outbuf && w.Valid() && window != w.outbuf
      requires Buffered(ts) && Expand(history, ts) == Some(history + data) && Ahead(plan, ts, maxBlindex + 1)
      requires |data| == storedLen
      requires blockStart >= 0 ==> blockStart + storedLen <= window.Length && window[blockStart..blockStart + storedLen] == data
      requires Kind(storedLen, blockStart >= 0, plan.fixed, plan.dynamic) == STORED_BLOCK ==> storedLen <= 0xffff
      requires compressedLen == |w.Bits()|
      modifies w, w.outbuf, `compressedLen
      ensures w.Valid() && Decodes(old(w.Bits()), w.Bits(), history, eof, history + data)
      ensures kind == Kind(storedLen, blockStart >= 0, plan.fixed, plan.dynamic)
      ensures Encoded(plan.(kind := kind), ts, old(w.Bits()), w.Bits(), data, eof)
      ensures compressedLen == |w.Bits()| == |old(w.Bits())| + BlockSize(kind, |old(w.Bits())|, storedLen, plan.fixed, plan.dynamic)
    {
      hide w.Bits, Decodes, StaticBits, DynamicBits, StoredBits, TypeBits, Expand, Shape, Buffered, Planned, AllSane, w.Valid, Padding,
           Good, GoodCodeLengths, Complete;
      var optLenb, staticLenb := Bytes(b.optLen), Bytes(b.staticLen);
      if staticLenb <= optLenb {
        optLenb := staticLenb;
      }
      if storedLen + 4 <= optLenb && blockStart >= 0 {
        kind := STORED_BLOCK;
        EmitStored(window, blockStart, storedLen, eof, history, data);
      } else if staticLenb == optLenb {
        kind := STATIC_TREES;
        EmitStatic(eof, history, ts);
      } else {
        kind := DYN_TREES;
        EmitDynamic(eof, maxBlindex, history, ts, plan.ll, plan.dl);
      }
    }

    method SendStatic(ghost ts: seq<Token>)
      requires Shape() && tb.lBuf != w.outbuf && w.Valid() && Buffered(ts) && AllSane(ts)
      modifies w, w.outbuf
      ensures w.Valid() && w.Bits() == old(w.Bits()) + StaticBits(ts)
    {
      hide Encodes, Symbols, Pointers, AllFlagged, DataBits, AllTokensCoded, tables.Right;
      StaticCodes(ts);
      CompressBlock(w, tb, tables, staticLit, staticDist, ts, FixedLiteralLengths(), FixedDistanceLengths());
    }

    method SendDynamic(maxBlindex: nat, ghost ts: seq<Token>, ghost ll: seq<nat>, ghost dl: seq<nat>)
      requires Shape() && tb.lBuf != w.outbuf && w.Valid() && Buffered(ts)
      requires Planned(l, d, bl, ts, ll, dl, maxBlindex + 1)
      modifies w, w.outbuf
      ensures w.Valid() && w.Bits() == old(w.Bits()) + DynamicBits(ll, dl, bl.dl[..19], maxBlindex + 1, ts)
    {
      hide Encodes, Symbols, Pointers, AllFlagged, DataBits, AllTokensCoded, HeaderBits, Prepared, Describable, Decodable, tables.Right;
      ghost var before, cl := w.Bits(), bl.dl[..19];
      SendAllTrees(w, l.dl, d.dl, bl.fc, bl.dl, l.maxCode + 1, d.maxCode + 1, maxBlindex + 1, ll, dl);
      LitsThere(ll, dl, cl, maxBlindex + 1);
      CompressBlock(w, tb, tables, CodeTree(l.fc[..], l.dl[..]), CodeTree(d.fc[..], d.dl[..]), ts, ll, dl);
      Associate(before, HeaderBits(ll, dl, cl, maxBlindex + 1), DataBits(ll, dl, ts));
    }
  }

  /** An empty output, an empty token buffer and a tree builder. */
  method NewBuffers(head: seq<byte>, outBufSize: nat, lBufSize: nat, litBufSize: nat, distBufSize: nat)
    returns (w: BitWriter, tb: TokenBuffer, b: TreeBuilder)
    requires outBufSize >= 3 && litBufSize <= lBufSize && litBufSize % 8 == 0 && 0 < litBufSize <= 0x8000 && 0 < distBufSize
    ensures fresh(w) && fresh(w.outbuf) && fresh(tb) && fresh(tb.lBuf) && fresh(tb.dBuf) && fresh(tb.flagBuf)
    ensures fresh(b) && fresh(b.q) && fresh(b.q.heap) && fresh(b.q.depth) && fresh(b.blCount) && w.outbuf != tb.lBuf
    ensures tb.dBuf != b.q.heap && tb.dBuf != b.q.depth && tb.dBuf != b.blCount
    ensures tb.flagBuf != b.q.heap && tb.flagBuf != b.q.depth && tb.flagBuf != b.blCount
    ensures w.Valid() && w.Bits() == [] && w.head == head && tb.Sized() && tb.Holds([]) && b.Valid() && b.optLen == 0 == b.staticLen
    ensures forall i :: 0 <= i < b.blCount.Length ==> b.blCount[i] == 0
    ensures tb.litBufSize == litBufSize && tb.distBufSize == distBufSize
  {
    w := new BitWriter(outBufSize, head);
    tb := new TokenBuffer(lBufSize, litBufSize, distBufSize);
    b := new TreeBuilder();
  }

  /** Parts that fit together make a coder with an empty block. */
  lemma Assembled(c: BlockCoder)
    requires c.b.Ready(c.l) && c.b.Ready(c.d) && c.b.Ready(c.bl) && LitDesc(c.l) && DistDesc(c.d) && CodeLengthDesc(c.bl)
    requires AllApart(c.l, c.d, c.bl) && c.tables.Right() && c.StaticRight() && c.tb.Sized() && c.tb.lBuf != c.w.outbuf && c.BuffersApart()
    requires c.tb.Holds([]) && c.l.fc[..286] == LitFreq([]) && c.d.fc[..30] == DistFreq([]) && c.bl.fc[..19] == NoFreq()
    requires c.b.optLen == 0 == c.b.staticLen
    ensures c.Shape() && c.Ready([])
  {
  }

  /** An empty block and an empty output. */
  method NewBlockCoder(head: seq<byte>, outBufSize: nat, lBufSize: nat, litBufSize: nat, distBufSize: nat)
    returns (c: BlockCoder)
    requires outBufSize >= 3 && litBufSize <= lBufSize && litBufSize % 8 == 0 && 0 < litBufSize <= 0x8000 && 0 < distBufSize
    ensures c.Shape() && c.w.Valid() && c.w.Bits() == [] && c.Ready([]) && c.compressedLen == 0 && c.all == []
    ensures c.w.head == head
    ensures c.tb.litBufSize == litBufSize && c.tb.distBufSize == distBufSize
    ensures fresh(c.Footprint())
  {
    hide c.tables.Right, LitDesc, DistDesc, Encodes, FixedLiteralLengths, FixedDistanceLengths, CodeLengthDesc, LitFreq, DistFreq,
         Symbols, Pointers, Flagged, c.w.Bits, c.w.Valid, c.b.Ready, c.b.Valid, AllApart, c.Shape, c.Ready, c.tb.Holds, c.tb.Sized, c.Footprint;
    var w, tb, b := NewBuffers(head, outBufSize, lBufSize, litBufSize, distBufSize);
    var tables := NewTables();
    var l, d, bl, staticLit, staticDist := NewTrees(b);
    c := new BlockCoder(w, b, l, d, bl, tb, tables, staticLit, staticDist);
    Assembled(c);
    AllNew(c);
  }

  /** A coder made of new parts is new. */
  twostate lemma AllNew(new c: BlockCoder)
    requires fresh(c) && fresh(c.w) && fresh(c.w.outbuf) && fresh(c.tb) && fresh(c.tb.lBuf) && fresh(c.tb.dBuf) && fresh(c.tb.flagBuf)
    requires fresh(c.b) && fresh(c.b.q) && fresh(c.b.q.heap) && fresh(c.b.q.depth) && fresh(c.b.blCount)
    requires fresh(c.l) && fresh(c.l.fc) && fresh(c.l.dl) && fresh(c.d) && fresh(c.d.fc) && fresh(c.d.dl)
    requires fresh(c.bl) && fresh(c.bl.fc) && fresh(c.bl.dl)
    ensures fresh(c.Footprint())
  {
  }

  // ---------- Tallying ----------

  lemma PlannedTree(l: TreeDesc, d: TreeDesc, bl: TreeDesc, ts: seq<Token>, ll: seq<nat>, dl: seq<nat>, n: nat) returns (cl: seq<nat>)
    requires Planned(l, d, bl, ts, ll, dl, n)
    ensures bl.dl.Length >= 19 && cl == bl.dl[..19] && Complete(ll, dl, cl, n, ts)
  {
    hide Complete, Encodes;
    cl := bl.dl[..19];
  }

  lemma SameCodeLengths(ll: seq<nat>, dl: seq<nat>, all: seq<nat>, cl: seq<nat>, codes: int, growth: Growth)
    requires GoodCodeLengths(ll, dl, all, codes, growth) && |all| >= 19 && cl == all[..19]
    ensures GoodCodeLengths(ll, dl, cl, codes, growth)
  {
    hide Good;
    assert cl[..codes] == all[..codes];
  }

  lemma IsReported(r: Report, ts: seq<Token>, before: seq<bool>, sent: seq<bool>, storedLen: nat, hasData: bool)
    requires Foreseen(r.(kind := STORED_BLOCK), ts) && r.kind == Kind(storedLen, hasData, r.fixed, r.dynamic)
    requires |sent| == |before| + BlockSize(r.kind, |before|, storedLen, r.fixed, r.dynamic)
    ensures Reported(r, ts, before, sent, storedLen, hasData)
  {
    hide Good, GoodCodeLengths, Complete, StaticBits, DynamicBits, AllSane, LitFreq, DistFreq;
  }

  /** What is known about a block before it is sent. */
  lemma Foresee(b: TreeBuilder, l: TreeDesc, d: TreeDesc, bl: TreeDesc, ts: seq<Token>, ll: seq<nat>, dl: seq<nat>, n: nat,
                growthL: Growth, growthD: Growth, growthB: Growth) returns (r: Report)
    requires Planned(l, d, bl, ts, ll, dl, n) && AllSane(ts)
    requires b.optLen == |DynamicBits(ll, dl, bl.dl[..19], n, ts)| && b.staticLen == |StaticBits(ts)|
    requires Good(LitFreq(ts), ll, 15, growthL) && Good(DistFreq(ts), dl, 15, growthD)
    requires GoodCodeLengths(ll, dl, bl.dl[..], bl.maxCode + 1, growthB)
    ensures r.kind == STORED_BLOCK && r.fixed == b.staticLen && r.dynamic == b.optLen && r.ll == ll && r.dl == dl && Foreseen(r, ts)
    ensures bl.dl.Length >= 19 && r.cl == bl.dl[..19] && r.n == n
  {
    hide Good, GoodCodeLengths, Planned, Complete, StaticBits, DynamicBits, AllSane, LitFreq, DistFreq;
    var cl := PlannedTree(l, d, bl, ts, ll, dl, n);
    SameCodeLengths(ll, dl, bl.dl[..], cl, bl.maxCode + 1, growthB);
    r := Report(STORED_BLOCK, b.staticLen, b.optLen, ll, dl, cl, n, bl.maxCode + 1, growthL, growthD, growthB);
  }

  lemma SaneSymbols(lBuf: seq<byte>, ts: seq<Token>)
    requires Symbols(lBuf, ts)
    ensures AllSane(ts)
  {
  }

  /** Storing is chosen only for blocks that fit. */
  lemma StoredKind(history: seq<byte>, ts: seq<Token>, data: seq<byte>, storedLen: nat, hasData: bool, dynamic: nat)
    requires AllSane(ts) && AllNear(ts) && Expand(history, ts) == Some(history + data) && |ts| <= 32767 && |data| == storedLen
    ensures Kind(storedLen, hasData, |StaticBits(ts)|, dynamic) == STORED_BLOCK ==> storedLen <= 0xffff
  {
    hide Expand, StaticBits, AllNear, AllSane;
    if Kind(storedLen, hasData, |StaticBits(ts)|, dynamic) == STORED_BLOCK {
      StoredFits(history, ts, storedLen);
    }
  }

  lemma PointersFit(dBuf: seq<nat>, lastDist: nat, ts: seq<Token>)
    requires Pointers(dBuf, lastDist, ts)
    ensures lastDist == |Distances(ts)| <= |dBuf|
  {
  }

  lemma FreqsPush(ts: seq<Token>, t: Token)
    requires Sane(t)
    ensures LitFreq(ts + [t]) == LitFreq(ts)[LitSymbol(t) := LitFreq(ts)[LitSymbol(t)] + 1]
    ensures DistFreq(ts + [t]) == if t.Copy? then DistFreq(ts)[DistSymbol(t) := DistFreq(ts)[DistSymbol(t)] + 1] else DistFreq(ts)
  {
    LitPush(ts, t);
    DistPush(ts, t);
  }

  lemma LitPush(ts: seq<Token>, t: Token)
    requires Sane(t)
    ensures LitFreq(ts + [t]) == LitFreq(ts)[LitSymbol(t) := LitFreq(ts)[LitSymbol(t)] + 1]
  {
    hide LitSymbol, DistSymbol, Sane;
    var all := ts + [t];
    assert all[..|all| - 1] == ts && all[|all| - 1] == t;
  }

  lemma DistPush(ts: seq<Token>, t: Token)
    requires Sane(t)
    ensures DistFreq(ts + [t]) == if t.Copy? then DistFreq(ts)[DistSymbol(t) := DistFreq(ts)[DistSymbol(t)] + 1] else DistFreq(ts)
  {
    hide LitSymbol, DistSymbol, Sane;
    var all := ts + [t];
    assert all[..|all| - 1] == ts && all[|all| - 1] == t;
  }

  /** One more occurrence of a symbol. */
  method CountSymbol(fc: array<nat>, n: nat, s: nat)
    requires s < n <= fc.Length
    modifies fc
    ensures fc[..n] == old(fc[..n])[s := old(fc[..n])[s] + 1]
  {
    fc[s] := fc[s] + 1;
  }

  lemma NearPush(ts: seq<Token>, t: Token)
    requires AllNear(ts) && Near(t)
    ensures AllNear(ts + [t])
  {
  }

  /** Counts the symbols of a token. */
  method CountToken(l: TreeDesc, d: TreeDesc, tables: Tables, dist: nat, lc: byte, ghost ts: seq<Token>, ghost t: Token)
    requires l.Valid() && d.Valid() && l.elems == 286 && d.elems == 30 && l.fc != d.fc && tables.Right()
    requires l.fc[..286] == LitFreq(ts) && d.fc[..30] == DistFreq(ts)
    requires Sane(t) && lc == LitByte(t) && dist == if t.Copy? then t.distance else 0
    modifies l.fc, d.fc
    ensures l.fc[..286] == LitFreq(ts + [t]) && d.fc[..30] == DistFreq(ts + [t])
  {
    hide LitFreq, DistFreq, LengthCode, DistanceCode, LengthBases, DistanceBases, DCode;
    FreqsPush(ts, t);
    if dist == 0 {
      CountSymbol(l.fc, 286, lc);
    } else {
      assert tables.lengthCode[t.length - 3] == LengthCode(t.length);
      assert DCode(tables.distCode, t.distance - 1) == DistanceCode(t.distance);
      CountSymbol(l.fc, 286, tables.lengthCode[lc] + 256 + 1);
      CountSymbol(d.fc, 30, DCode(tables.distCode, dist - 1));
    }
  }

  function DistanceCosts(df: seq<nat>): (s: seq<int>)
    requires |df| == 30
    ensures |s| == 30
  {
    ExtraTables();
    seq(30, i requires 0 <= i < 30 => df[i] * (5 + EXTRA_DBITS[i]))
  }

  /** An upper bound of the compressed length in bytes: 8 bits for each symbol, 5 and the extra bits for each distance. */
  function Estimate(ts: seq<Token>): int
  {
    (|ts| * 8 + Sum(DistanceCosts(DistFreq(ts)))) / 8
  }

  /** Every 4096 tokens: it seems profitable to end the block here. */
  predicate SeemsProfitable(ts: seq<Token>, strstart: nat, blockStart: int)
  {
    && |ts| % 0x1000 == 0 && |Distances(ts)| < |ts| / 2
    && Estimate(ts) < (strstart - blockStart) % 0x1_0000_0000 / 2
  }

  method Profitable(tb: TokenBuffer, d: TreeDesc, strstart: nat, blockStart: int, ghost ts: seq<Token>) returns (stop: bool)
    requires d.Valid() && d.elems == 30 && d.fc[..30] == DistFreq(ts) && tb.lastLit == |ts| && tb.lastDist == |Distances(ts)|
    ensures stop == SeemsProfitable(ts, strstart, blockStart)
  {
    hide EXTRA_DBITS, DistFreq, Distances;
    stop := false;
    if tb.lastLit % 0x1000 == 0 {
      ghost var costs := DistanceCosts(DistFreq(ts));
      ExtraTables();
      var outLength, inLength := tb.lastLit * 8, (strstart - blockStart) % 0x1_0000_0000;
      var dcode := 0;
      assert costs[..0] == [];
      while dcode < 30
        invariant 0 <= dcode <= 30 && outLength == |ts| * 8 + Sum(costs[..dcode])
      {
        assert d.fc[dcode] == d.fc[..30][dcode];
        assert costs[..dcode + 1][..dcode] == costs[..dcode];
        outLength := outLength + d.fc[dcode] * (5 + EXTRA_DBITS[dcode]);
        dcode := dcode + 1;
      }
      assert costs[..30] == costs;
      outLength := outLength / 8;
      stop := tb.lastDist < tb.lastLit / 2 && outLength < inLength / 2;
    }
  }

  method NewTables() returns (tables: Tables)
    ensures tables.Right()
  {
    hide LengthTables, DistanceTables;
    var lengthCode, baseLength := InitLengths();
    var distCode, baseDist := InitDistances();
    tables := Tables(lengthCode[..], baseLength[..], distCode[..], baseDist[..]);
  }

  /** The trees of an empty block. */
  method NewTrees(b: TreeBuilder) returns (l: TreeDesc, d: TreeDesc, bl: TreeDesc, staticLit: CodeTree, staticDist: CodeTree)
    requires b.Valid() && forall i :: 0 <= i < 16 ==> b.blCount[i] == 0
    modifies b.blCount
    ensures fresh(l) && fresh(l.fc) && fresh(l.dl) && fresh(d) && fresh(d.fc) && fresh(d.dl) && fresh(bl) && fresh(bl.fc) && fresh(bl.dl)
    ensures l.staticLen != null && d.staticLen != null && bl.staticLen == null && fresh(l.staticLen) && fresh(d.staticLen)
    ensures LitDesc(l) && DistDesc(d) && CodeLengthDesc(bl) && AllApart(l, d, bl)
    ensures b.Ready(l) && b.Ready(d) && b.Ready(bl)
    ensures l.fc[..286] == LitFreq([]) && d.fc[..30] == DistFreq([]) && bl.fc[..19] == NoFreq()
    ensures Encodes(staticLit.codes, staticLit.lens, FixedLiteralLengths()) && |staticLit.codes| == 288
    ensures Encodes(staticDist.codes, staticDist.lens, FixedDistanceLengths()) && |staticDist.codes| == 30
  {
    hide Encodes, FixedLiteralLengths, FixedDistanceLengths, EXTRA_LBITS, EXTRA_DBITS, EXTRA_BLBITS;
    var litCodes, litLens := InitStaticLit(b.blCount);
    var distCodes, distLens := InitStaticDist();
    staticLit, staticDist := CodeTree(litCodes[..], litLens[..]), CodeTree(distCodes[..], distLens[..]);
    DescSizes();
    l := new TreeDesc(286, 15, EXTRA_LBITS, 257, litLens);
    d := new TreeDesc(30, 15, EXTRA_DBITS, 0, distLens);
    bl := new TreeDesc(19, 7, EXTRA_BLBITS, 0, null);
    ClearFreqs(l, d, bl);
  }

  /** Zero frequencies, except that the end-of-block symbol is sent once. */
  method ClearFreqs(l: TreeDesc, d: TreeDesc, bl: TreeDesc)
    requires l.Valid() && d.Valid() && bl.Valid() && l.elems == 286 && d.elems == 30 && bl.elems == 19 && AllApart(l, d, bl)
    modifies l.fc, d.fc, bl.fc
    ensures l.fc[..286] == LitFreq([]) && d.fc[..30] == DistFreq([]) && bl.fc[..19] == NoFreq()
  {
    ClearFreq(l.fc, 286);
    ClearFreq(d.fc, 30);
    ClearFreq(bl.fc, 19);
    l.fc[END_OF_BLOCK] := 1;
  }

  method ClearFreq(fc: array<nat>, elems: nat)
    requires elems <= fc.Length
    modifies fc
    ensures forall n :: 0 <= n < elems ==> fc[n] == 0
  {
    var n := 0;
    while n < elems
      invariant 0 <= n <= elems && forall k :: 0 <= k < n ==> fc[k] == 0
    {
      fc[n] := 0;
      n := n + 1;
    }
  }

  lemma DescSizes()
    ensures |EXTRA_LBITS| == 29 && |EXTRA_DBITS| == 30 && |EXTRA_BLBITS| == 19
    ensures 286 <= Pow2(15) && 30 <= Pow2(15) && 19 <= Pow2(7)
    ensures forall n :: 0 <= n < 3 ==>
      ExtraOf(EXTRA_LBITS, 257, n) == 0 && ExtraOf(EXTRA_DBITS, 0, n) == 0 && ExtraOf(EXTRA_BLBITS, 0, n) == 0
  {
    Pow2Values();
  }

  method SendType(w: BitWriter, kind: nat, eof: bool)
    requires w.Valid() && kind < 3
    modifies w, w.outbuf
    ensures w.Valid() && w.Bits() == old(w.Bits()) + TypeBits(kind, eof)
  {
    assert Pow2(3) == 8;
    w.SendBits(kind * 2 + (if eof then 1 else 0), 3);
  }

  ghost predicate NotOf(a: array<nat>, t: TreeDesc)
  {
    a != t.fc && a != t.dl && a != t.staticLen
  }
}
