/** Sending the description of the code trees. */
module HeaderSending {
  import opened Bits
  import opened BitWriters
  import opened Rfc1951
  import opened PrefixCodes
  import opened CodeLengthCoding
  import opened TreeTransmission
  import opened TreeHeaders
  import opened CodeLengthTree

  /** Sends the three counts. */
  method SendCounts(w: BitWriter, lcodes: nat, dcodes: nat, blcodes: nat, ghost ll: seq<nat>, ghost dl: seq<nat>)
    requires w.Valid() && lcodes == |ll| && dcodes == |dl| && 257 <= lcodes <= 286 && 1 <= dcodes <= 30 && 4 <= blcodes <= 19
    modifies w, w.outbuf
    ensures w.Valid() && w.Bits() == old(w.Bits()) + CountBits(ll, dl, blcodes)
  {
    hide w.Bits, w.Valid, Lsb;
    ghost var start := w.Bits();
    assert Pow2(5) == 32 && Pow2(4) == 16;
    w.SendBits(lcodes - 257, 5);
    w.SendBits(dcodes - 1, 5);
    w.SendBits(blcodes - 4, 4);
    ghost var x, y, z := Lsb(|ll| - 257, 5), Lsb(|dl| - 1, 5), Lsb(blcodes - 4, 4);
    Associate(start + x, y, z);
    Associate(start, x, y + z);
  }

  /** Sends the code lengths of the code length code in their order. */
  method SendRanks(w: BitWriter, tree: array<nat>, blcodes: nat)
    requires w.Valid() && tree.Length >= 19 && blcodes <= 19 && forall s :: 0 <= s < 19 ==> tree[s] <= 7
    modifies w, w.outbuf
    ensures w.Valid() && w.Bits() == old(w.Bits()) + OrderBits(tree[..19], blcodes)
  {
    hide CODE_LENGTH_ORDER, RANK, Lsb;
    ghost var start, cl := w.Bits(), tree[..19];
    Ranks();
    assert Pow2(3) == 8;
    assert start + [] == start;
    var rank := 0;
    while rank < blcodes
      invariant 0 <= rank <= blcodes
      invariant w.Valid() && w.Bits() == start + OrderBits(cl, rank)
    {
      Associate(start, OrderBits(cl, rank), Lsb(cl[CODE_LENGTH_ORDER[rank]], 3));
      w.SendBits(tree[CODE_LENGTH_ORDER[rank]], 3);
      rank := rank + 1;
    }
  }

  lemma PreparedMeans(fc: seq<nat>, dls: seq<nat>, ll: seq<nat>, dl: seq<nat>, n: nat)
    requires Prepared(fc, dls, ll, dl, n)
    ensures 257 <= |ll| <= 286 && 1 <= |dl| <= 30 && 4 <= n <= 19 && |dls| >= 19
    ensures forall s :: 0 <= s < 19 ==> dls[s] <= 7
    ensures (forall i :: 0 <= i < |ll| ==> ll[i] < 16) && (forall i :: 0 <= i < |dl| ==> dl[i] < 16)
    ensures AllCoded(dls[..19], AllRuns(ll)) && AllCoded(dls[..19], AllRuns(dl))
    ensures CodeAssignment.Coded(fc, dls[..19], 19) && Describable(ll, dl, dls[..19], n)
  {
    hide Decodable, AllRuns, AllCoded, CodeAssignment.Coded, EndsAt;
    assert forall s :: 0 <= s < 19 ==> dls[s] == dls[..19][s];
  }

  /** Sends the header of a dynamic block: the counts, the code length code and both trees. */
  method SendAllTrees(w: BitWriter, ltree: array<nat>, dtree: array<nat>, blfc: array<nat>, bldl: array<nat>,
                      lcodes: nat, dcodes: nat, blcodes: nat, ghost ll: seq<nat>, ghost dl: seq<nat>)
    requires w.Valid() && blfc != bldl && 19 <= blfc.Length == bldl.Length
    requires lcodes < ltree.Length && ltree[lcodes] == GUARD && ll == ltree[..lcodes]
    requires dcodes < dtree.Length && dtree[dcodes] == GUARD && dl == dtree[..dcodes]
    requires Prepared(blfc[..], bldl[..], ll, dl, blcodes)
    modifies w, w.outbuf
    ensures w.Valid() && Describable(ll, dl, bldl[..19], blcodes)
    ensures w.Bits() == old(w.Bits()) + HeaderBits(ll, dl, bldl[..19], blcodes)
  {
    hide AllRuns, AllCoded, RunsBits, Describable, OrderBits, CountBits, CodeAssignment.Coded, Prepared;
    ghost var start, cl := w.Bits(), bldl[..19];
    PreparedMeans(blfc[..], bldl[..], ll, dl, blcodes);
    SendCounts(w, lcodes, dcodes, blcodes, ll, dl);
    SendRanks(w, bldl, blcodes);
    SendTree(w, ltree, lcodes - 1, blfc, bldl, ll, cl);
    SendTree(w, dtree, dcodes - 1, blfc, bldl, dl, cl);
    JoinHeader(start, CountBits(ll, dl, blcodes), OrderBits(cl, blcodes), RunsBits(cl, AllRuns(ll)), RunsBits(cl, AllRuns(dl)));
  }

  lemma JoinHeader(start: seq<bool>, counts: seq<bool>, order: seq<bool>, lits: seq<bool>, dists: seq<bool>)
    ensures start + counts + order + lits + dists == start + (counts + (order + (lits + dists)))
  {
    Associate(start + counts + order, lits, dists);
    Associate(start + counts, order, lits + dists);
    Associate(start, counts, order + (lits + dists));
  }
}
