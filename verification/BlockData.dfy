/** Sending the tokens of a block with a pair of code trees. */
module BlockData {
  import opened Bits
  import opened BitWriters
  import opened Rfc1951
  import opened TokenCodes
  import opened TokenCosts
  import opened CodeTables
  import opened StaticTrees
  import opened TokenBuffers

  /** A code tree that is only read: the code and the code length of each symbol. */
  datatype CodeTree = CodeTree(codes: seq<nat>, lens: seq<nat>)

  /** The tables from lengths and distances to codes, which never change. */
  datatype Tables = Tables(lengthCode: seq<nat>, baseLength: seq<nat>, distCode: seq<nat>, baseDist: seq<nat>) {
    ghost predicate Right()
    {
      LengthTables(lengthCode, baseLength) && DistanceTables(distCode, baseDist)
    }
  }

  method SendSymbol(w: BitWriter, tree: CodeTree, c: nat, ghost lens: seq<nat>)
    requires w.Valid() && Encodes(tree.codes, tree.lens, lens) && c < |tree.codes| && c < |lens| && lens[c] > 0
    modifies w, w.outbuf
    ensures w.Valid() && w.Bits() == old(w.Bits()) + CodeBits(lens, c)
  {
    hide CodeBits;
    assert CodeAssignment.CodedAt(tree.codes[c], lens, c);
    w.SendBits(tree.codes[c], tree.lens[c]);
  }

  /** Sends the extra bits of a code, if it has any. */
  method SendExtra(w: BitWriter, value: nat, base: nat, extra: nat)
    requires w.Valid() && extra <= 13 && base <= value < base + Pow2(extra)
    modifies w, w.outbuf
    ensures w.Valid() && w.Bits() == old(w.Bits()) + Lsb(value - base, extra)
  {
    if extra != 0 {
      w.SendBits(value - base, extra);
    } else {
      assert Lsb(value - base, 0) == [];
      assert w.Bits() + [] == w.Bits();
    }
  }

  /** What the tables say about a match. */
  lemma TablesRight(tables: Tables, length: nat, distance: nat, c: nat, more: nat, ex: nat, d: nat, far: nat, fx: nat)
    requires tables.Right() && 3 <= length <= 258 && 1 <= distance <= 32768
    requires c == LengthCode(length) && d == DistanceCode(distance) && IsPart(c, more, ex, d, far, fx, length, distance)
    ensures |tables.lengthCode| == 256 && |tables.baseLength| == 29 && |tables.distCode| == 512 && |tables.baseDist| == 30
    ensures tables.lengthCode[length - 3] == c && DCode(tables.distCode, distance - 1) == d
    ensures |EXTRA_LBITS| == 29 && |EXTRA_DBITS| == 30 && EXTRA_LBITS[c] == ex <= 5 && EXTRA_DBITS[d] == fx <= 13
    ensures ex != 0 ==> length - 3 - tables.baseLength[c] == more
    ensures distance - 1 - tables.baseDist[d] == far
  {
    hide LengthCode, DistanceCode, LENGTH_BASE, DISTANCE_BASE;
    ExtraTables();
  }

  method SendLength(w: BitWriter, tables: Tables, ltree: CodeTree, lc: nat, ghost c: nat, ghost more: nat, ghost ex: nat, ghost ll: seq<nat>)
    requires w.Valid() && Encodes(ltree.codes, ltree.lens, ll) && 257 + c < |ll| && 257 + c < |ltree.codes| && ll[257 + c] > 0
    requires lc < |tables.lengthCode| && tables.lengthCode[lc] == c < |EXTRA_LBITS| && c < |tables.baseLength|
    requires EXTRA_LBITS[c] == ex <= 13 && more < Pow2(ex) && (ex != 0 ==> lc - tables.baseLength[c] == more)
    modifies w, w.outbuf
    ensures w.Valid() && w.Bits() == old(w.Bits()) + (CodeBits(ll, 257 + c) + Lsb(more, ex))
  {
    hide CodeBits, Encodes, EXTRA_LBITS, Lsb;
    ghost var before := w.Bits();
    var code := tables.lengthCode[lc];
    SendSymbol(w, ltree, code + 257, ll);
    var extra := EXTRA_LBITS[code];
    if extra != 0 {
      SendExtra(w, lc, tables.baseLength[code], extra);
    } else {
      NoBit(more);
      assert w.Bits() + [] == w.Bits();
    }
    Associate(before, CodeBits(ll, 257 + c), Lsb(more, ex));
  }

  lemma NoBit(v: nat)
    ensures Lsb(v, 0) == []
  {
  }

  method SendDistance(w: BitWriter, tables: Tables, dtree: CodeTree, dist: nat, ghost d: nat, ghost far: nat, ghost fx: nat, ghost dl: seq<nat>)
    requires w.Valid() && Encodes(dtree.codes, dtree.lens, dl) && d < |dl| && d < |dtree.codes| && dl[d] > 0
    requires |tables.distCode| == 512 && dist < 32768 && DCode(tables.distCode, dist) == d < |EXTRA_DBITS| && d < |tables.baseDist|
    requires EXTRA_DBITS[d] == fx <= 13 && far < Pow2(fx) && dist - tables.baseDist[d] == far
    modifies w, w.outbuf
    ensures w.Valid() && w.Bits() == old(w.Bits()) + (CodeBits(dl, d) + Lsb(far, fx))
  {
    hide CodeBits, Encodes, EXTRA_DBITS, Lsb;
    ghost var before := w.Bits();
    var code := DCode(tables.distCode, dist);
    SendSymbol(w, dtree, code, dl);
    var extra := EXTRA_DBITS[code];
    SendExtra(w, dist, tables.baseDist[code], extra);
    Associate(before, CodeBits(dl, d), Lsb(far, fx));
  }

  method SendMatch(w: BitWriter, tables: Tables, ltree: CodeTree, dtree: CodeTree, lc: nat, dist: nat,
                   ghost ll: seq<nat>, ghost dl: seq<nat>)
    requires w.Valid() && tables.Right() && lc <= 255 && dist < 32768
    requires Encodes(ltree.codes, ltree.lens, ll) && Encodes(dtree.codes, dtree.lens, dl)
    requires |ltree.codes| >= 286 && |dtree.codes| >= 30 && TokenCoded(ll, dl, Copy(lc + 3, dist + 1))
    modifies w, w.outbuf
    ensures w.Valid() && w.Bits() == old(w.Bits()) + TokenBits(ll, dl, Copy(lc + 3, dist + 1))
  {
    hide CodeBits, Encodes, EXTRA_LBITS, EXTRA_DBITS, TokenBits, TokenCoded, Lsb, IsPart, LengthCode, DistanceCode;
    ghost var before := w.Bits();
    ghost var c, more, ex, d, far, fx := CopyParts(ll, dl, lc + 3, dist + 1);
    PartIn(c, more, ex, d, far, fx, lc + 3, dist + 1);
    TablesRight(tables, lc + 3, dist + 1, c, more, ex, d, far, fx);
    SendLength(w, tables, ltree, lc, c, more, ex, ll);
    SendDistance(w, tables, dtree, dist, d, far, fx, dl);
    ghost var first, second, third := CodeBits(ll, 257 + c), Lsb(more, ex), CodeBits(dl, d) + Lsb(far, fx);
    Associate(before, first + second, third);
    Associate(first, second, third);
  }

  lemma PartIn(c: nat, more: nat, ex: nat, d: nat, far: nat, fx: nat, length: nat, distance: nat)
    requires IsPart(c, more, ex, d, far, fx, length, distance)
    ensures c < 29 && d < 30
  {
  }

  /** What the loop over the buffers knows: the tokens before `lx` have been sent. */
  ghost predicate Reading(ts: seq<Token>, lx: nat, dx: nat, fx: nat, flag: nat)
  {
    && lx <= |ts| && dx == |Distances(ts[..lx])| && 8 * fx < lx + 8 <= 8 * fx + 8
    && (lx < 8 * fx ==> 8 * fx - 8 <= |ts| && flag == Val(Marks(Group(ts, fx - 1)[lx - (8 * fx - 8)..])))
  }

  lemma ReadStart(ts: seq<Token>)
    ensures Reading(ts, 0, 0, 0, 0)
  {
    assert ts[..0] == [];
  }

  lemma ValStep(m: seq<bool>)
    requires m != []
    ensures Val(m) % 2 == (if m[0] then 1 else 0) && Val(m) / 2 == Val(m[1..])
  {
  }

  /** The flag in force at token `lx`, from the byte before or from a new one. */
  lemma FlagAt(ts: seq<Token>, lx: nat, fx: nat, flag: nat)
    requires lx < |ts| && 8 * fx - 8 <= lx < 8 * fx && flag == Val(Marks(Group(ts, fx - 1)[lx - (8 * fx - 8)..]))
    ensures flag % 2 == (if ts[lx].Copy? then 1 else 0)
    ensures lx + 1 < 8 * fx ==> flag / 2 == Val(Marks(Group(ts, fx - 1)[lx + 1 - (8 * fx - 8)..]))
  {
    hide Val;
    var at, g := lx - (8 * fx - 8), Group(ts, fx - 1);
    assert g[at..][0] == ts[lx];
    assert g[at..][1..] == g[at + 1..];
    assert Marks(g[at..])[1..] == Marks(g[at + 1..]);
    ValStep(Marks(g[at..]));
  }

  lemma ReadFlag(ts: seq<Token>, lx: nat, dx: nat, fx: nat, flag: nat, flagBuf: seq<nat>, dx': nat)
    requires Reading(ts, lx, dx, fx, flag) && lx < |ts| && AllFlagged(flagBuf, ts) && dx' == |Distances(ts[..lx + 1])|
    ensures lx % 8 == 0 <==> lx == 8 * fx
    ensures lx == 8 * fx ==> fx < |flagBuf|
    ensures var (flag', fx') := if lx == 8 * fx then (flagBuf[fx], fx + 1) else (flag, fx);
      flag' % 2 == (if ts[lx].Copy? then 1 else 0) && Reading(ts, lx + 1, dx', fx', flag' / 2)
  {
    hide Val, Distances, Marks;
    if lx == 8 * fx {
      assert Group(ts, fx)[0..] == Group(ts, fx);
      FlagAt(ts, lx, fx + 1, flagBuf[fx]);
    } else {
      FlagAt(ts, lx, fx, flag);
    }
  }

  /** The distance of the match at `lx`. */
  lemma ReadDistance(dBuf: seq<nat>, lastDist: nat, ts: seq<Token>, lx: nat)
    requires Pointers(dBuf, lastDist, ts) && AllSane(ts) && lx < |ts|
    ensures |Distances(ts[..lx + 1])| == |Distances(ts[..lx])| + if ts[lx].Copy? then 1 else 0
    ensures ts[lx].Copy? ==> |Distances(ts[..lx])| < |dBuf| && dBuf[|Distances(ts[..lx])|] == ts[lx].distance - 1
  {
    assert ts[..lx + 1] == ts[..lx] + [ts[lx]];
    DistancesPush(ts[..lx], ts[lx]);
    DistancesPrefix(ts, lx + 1);
    if ts[lx].Copy? {
      var n := |Distances(ts[..lx])|;
      assert Distances(ts[..lx + 1])[n] == ts[lx].distance - 1;
      assert Distances(ts)[n] == Distances(ts)[..n + 1][n];
    }
  }

  /** What the trees and the buffers of a block need for its tokens. */
  ghost predicate Sendable(tb: TokenBuffer, tables: Tables, ltree: CodeTree, dtree: CodeTree, ts: seq<Token>, ll: seq<nat>, dl: seq<nat>)
    reads tb, tb.lBuf, tb.dBuf, tb.flagBuf
  {
    && tables.Right() && tb.lastLit == |ts|
    && Symbols(tb.lBuf[..], ts) && Pointers(tb.dBuf[..], tb.lastDist, ts) && AllFlagged(tb.flagBuf[..], ts)
    && Encodes(ltree.codes, ltree.lens, ll) && Encodes(dtree.codes, dtree.lens, dl)
    && |ltree.codes| >= 286 && |dtree.codes| >= 30 && AllTokensCoded(ll, dl, ts)
  }

  /** Reads one token back from the buffers and sends it. */
  method SendNext(w: BitWriter, tb: TokenBuffer, tables: Tables, ltree: CodeTree, dtree: CodeTree,
                  lx: nat, dx0: nat, fx0: nat, flag0: nat, ghost ts: seq<Token>, ghost ll: seq<nat>, ghost dl: seq<nat>)
    returns (dx: nat, fx: nat, flag: nat)
    requires w.Valid() && tb.lBuf != w.outbuf && Sendable(tb, tables, ltree, dtree, ts, ll, dl)
    requires lx < |ts| && Reading(ts, lx, dx0, fx0, flag0)
    modifies w, w.outbuf
    ensures w.Valid() && Sendable(tb, tables, ltree, dtree, ts, ll, dl) && Reading(ts, lx + 1, dx, fx, flag)
    ensures TokenCoded(ll, dl, ts[lx]) && w.Bits() == old(w.Bits()) + TokenBits(ll, dl, ts[lx])
  {
    hide CodeBits, Encodes, TokenBits, TokenCoded, TokensBits, Reading, AllFlagged, Pointers, Distances, tables.Right;
    ghost var dists, marks := tb.dBuf[..], tb.flagBuf[..];
    dx, fx, flag := dx0, fx0, flag0;
    ReadFlag(ts, lx, dx, fx, flag, marks, |Distances(ts[..lx + 1])|);
    ReadDistance(dists, tb.lastDist, ts, lx);
    ReadingDx(ts, lx, dx, fx, flag);
    TokensBitsPush(ll, dl, ts, lx);
    if lx % 8 == 0 {
      flag := tb.flagBuf[fx];
      fx := fx + 1;
    }
    var lc := tb.lBuf[lx];
    if flag % 2 == 0 {
      LiteralBits(ll, dl, ts[lx]);
      SendSymbol(w, ltree, lc, ll);
    } else {
      var dist := tb.dBuf[dx];
      dx := dx + 1;
      MatchIs(ts[lx], lc, dist);
      SendMatch(w, tables, ltree, dtree, lc, dist, ll, dl);
    }
    flag := flag / 2;
  }

  /** Sends the tokens of the block and the end-of-block symbol. */
  method CompressBlock(w: BitWriter, tb: TokenBuffer, tables: Tables, ltree: CodeTree, dtree: CodeTree,
                       ghost ts: seq<Token>, ghost ll: seq<nat>, ghost dl: seq<nat>)
    requires w.Valid() && tb.lBuf != w.outbuf && Sendable(tb, tables, ltree, dtree, ts, ll, dl)
    requires END_OF_BLOCK < |ll| && ll[END_OF_BLOCK] > 0
    modifies w, w.outbuf
    ensures w.Valid() && w.Bits() == old(w.Bits()) + DataBits(ll, dl, ts)
  {
    hide CodeBits, Encodes, TokenBits, TokenCoded, TokensBits, Reading, AllFlagged, Pointers, Distances, tables.Right;
    ghost var start := w.Bits();
    var lx, dx, fx, flag := 0, 0, 0, 0;
    ReadStart(ts);
    NoneSent(ll, dl, ts);
    assert start + [] == start;
    while lx < tb.lastLit
      invariant 0 <= lx <= |ts| && dx >= 0 && fx >= 0 && flag >= 0
      invariant Reading(ts, lx, dx, fx, flag) && Sendable(tb, tables, ltree, dtree, ts, ll, dl)
      invariant w.Valid() && w.Bits() == start + TokensBits(ll, dl, ts[..lx])
    {
      TokensBitsPush(ll, dl, ts, lx);
      Associate(start, TokensBits(ll, dl, ts[..lx]), TokenBits(ll, dl, ts[lx]));
      dx, fx, flag := SendNext(w, tb, tables, ltree, dtree, lx, dx, fx, flag, ts, ll, dl);
      lx := lx + 1;
    }
    assert ts[..lx] == ts;
    SendSymbol(w, ltree, END_OF_BLOCK, ll);
    Associate(start, TokensBits(ll, dl, ts), CodeBits(ll, END_OF_BLOCK));
  }

  lemma NoneSent(ll: seq<nat>, dl: seq<nat>, ts: seq<Token>)
    requires AllTokensCoded(ll, dl, ts)
    ensures AllTokensCoded(ll, dl, ts[..0]) && TokensBits(ll, dl, ts[..0]) == []
  {
    assert ts[..0] == [];
  }

  lemma ReadingDx(ts: seq<Token>, lx: nat, dx: nat, fx: nat, flag: nat)
    requires Reading(ts, lx, dx, fx, flag)
    ensures dx == |Distances(ts[..lx])|
  {
  }

  lemma LiteralBits(ll: seq<nat>, dl: seq<nat>, t: Token)
    requires TokenCoded(ll, dl, t) && t.Literal?
    ensures t.value < |ll| && ll[t.value] > 0 && TokenBits(ll, dl, t) == CodeBits(ll, t.value)
  {
  }

  lemma MatchIs(t: Token, lc: byte, dist: nat)
    requires Sane(t) && t.Copy? && lc == LitByte(t) && dist == t.distance - 1
    ensures t == Copy(lc + 3, dist + 1) && dist < 32768
  {
  }
}
