/** The Huffman tree for the code lengths of the two other trees. */
module CodeLengthTree {
  import opened Rfc1951
  import opened Sums
  import opened PrefixCodes
  import opened TreeBuilders
  import opened BitLengths
  import opened Huffman
  import opened CodeLengthCoding
  import opened CodeLengthReading
  import opened TreeTransmission
  import opened TreeHeaders
  import opened CodeTables

  // ---------- Symbols without a code do not change the codes of the others ----------

  /** `b` is `a` followed by zeros. */
  ghost predicate Extends(a: seq<nat>, b: seq<nat>)
  {
    |a| <= |b| && b[..|a|] == a && forall i :: |a| <= i < |b| ==> b[i] == 0
  }

  lemma {:induction false} CountExtends(a: seq<nat>, b: seq<nat>, len: nat)
    requires Extends(a, b) && len > 0
    ensures Count(b, len) == Count(a, len)
  {
    if |b| > |a| {
      CountExtends(a, b[..|b| - 1], len);
    } else {
      assert b == a;
    }
  }

  lemma {:induction false} FirstCodeExtends(a: seq<nat>, b: seq<nat>, len: nat)
    requires Extends(a, b)
    ensures FirstCode(b, len) == FirstCode(a, len)
  {
    if len > 0 {
      FirstCodeExtends(a, b, len - 1);
      if len > 1 {
        CountExtends(a, b, len - 1);
      }
    }
  }

  lemma CodeExtends(a: seq<nat>, b: seq<nat>, k: nat)
    requires Extends(a, b) && k < |a|
    ensures CodeBits(b, k) == CodeBits(a, k)
  {
    assert b[k] == b[..|a|][k];
    FirstCodeExtends(a, b, a[k]);
    assert b[..k] == b[..|a|][..k] == a[..k];
  }

  lemma CodedExtends(fc: seq<nat>, a: seq<nat>, b: seq<nat>)
    requires Extends(a, b) && CodeAssignment.Coded(fc, a, |a|) && |b| <= |fc|
    ensures CodeAssignment.Coded(fc, b, |b|)
  {
    hide CodeBits;
    forall k | 0 <= k < |b| && b[k] > 0
      ensures CodeAssignment.CodedAt(fc[k], b, k)
    {
      assert k < |a| && b[k] == b[..|a|][k] == a[k];
      assert CodeAssignment.CodedAt(fc[k], a, k);
      CodeExtends(a, b, k);
    }
  }

  lemma KraftExtends(a: seq<nat>, b: seq<nat>, limit: nat)
    requires Extends(a, b)
    ensures Kraft(b, limit) == Kraft(a, limit)
  {
    var z := Weights(b[|a|..], limit);
    assert Weights(b, limit) == Weights(a, limit) + z;
    SumConcat(Weights(a, limit), z);
    SumConstant(z, 0);
  }

  lemma {:induction false} RunsBitsExtends(a: seq<nat>, b: seq<nat>, rs: seq<Run>)
    requires Extends(a, b) && AllCoded(a, rs)
    ensures AllCoded(b, rs) && |RunsBits(b, rs)| == |RunsBits(a, rs)|
    decreases |rs|
  {
    hide CodeBits;
    forall i | 0 <= i < |rs|
      ensures rs[i].Proper() && Coded(b, rs[i])
    {
      assert b[rs[i].Symbol()] == b[..|a|][rs[i].Symbol()];
    }
    if rs != [] {
      RunsBitsExtends(a, b, rs[..|rs| - 1]);
      assert b[rs[|rs| - 1].Symbol()] == b[..|a|][rs[|rs| - 1].Symbol()];
    }
  }

  // ---------- What the tree for the counted symbols provides ----------

  lemma {:induction false} RunsProper(acc: seq<nat>, rs: seq<Run>, result: seq<nat>)
    requires Undoes(acc, rs, result)
    ensures forall i :: 0 <= i < |rs| ==> rs[i].Proper()
    decreases |rs|
  {
    if rs != [] {
      RunsProper(Undo(acc, rs[0]), rs[1..], result);
      forall i | 0 <= i < |rs|
        ensures rs[i].Proper()
      {
        if i > 0 {
          assert rs[i] == rs[1..][i - 1];
        }
      }
    }
  }

  /** The runs of two trees. */
  ghost function BothRuns(ll: seq<nat>, dl: seq<nat>): seq<Run>
  {
    AllRuns(ll) + AllRuns(dl)
  }

  ghost function NoFreq(): (f: seq<nat>)
    ensures |f| == 19
  {
    seq(19, _ => 0)
  }

  lemma RunsKnown(lens: seq<nat>)
    requires forall i :: 0 <= i < |lens| ==> lens[i] < 16
    ensures |AllRuns(lens)| <= |lens| && forall i :: 0 <= i < |AllRuns(lens)| ==> AllRuns(lens)[i].Proper()
  {
    AllRunsUndo([], lens);
    assert [] + lens == lens;
    UndoGrows([], AllRuns(lens), lens);
    RunsProper([], AllRuns(lens), lens);
  }

  lemma BothRunsKnown(ll: seq<nat>, dl: seq<nat>)
    requires (forall i :: 0 <= i < |ll| ==> ll[i] < 16) && (forall i :: 0 <= i < |dl| ==> dl[i] < 16)
    ensures forall i :: 0 <= i < |BothRuns(ll, dl)| ==> BothRuns(ll, dl)[i].Proper()
    ensures Sum(Tally(NoFreq(), BothRuns(ll, dl))) <= |ll| + |dl|
    ensures Tally(NoFreq(), BothRuns(ll, dl)) == Tally(Tally(NoFreq(), AllRuns(ll)), AllRuns(dl))
  {
    hide AllRuns, Sum, Tally;
    RunsKnown(ll);
    RunsKnown(dl);
    TallyConcat(NoFreq(), AllRuns(ll), AllRuns(dl));
    TallyGrows(NoFreq(), BothRuns(ll, dl));
    SumConstant(NoFreq(), 0);
  }

  /** The tree for the counted symbols gives each symbol sent a code, and the charges are the bits sent. */
  lemma TreeCovers(fc: seq<nat>, dl: seq<nat>, maxCode: int, rs: seq<Run>)
    requires TreeBuilt(Tally(NoFreq(), rs), fc, dl, 7, maxCode) && forall i :: 0 <= i < |rs| ==> rs[i].Proper()
    ensures var (lens, cl) := (dl[..maxCode + 1], dl[..19]);
      && Extends(lens, cl) && AllCoded(lens, rs) && AllCoded(cl, rs)
      && (forall s :: 0 <= s < 19 ==> cl[s] <= 7)
      && Decodable(cl, 7) && CodeAssignment.Coded(fc, cl, 19)
      && Sum(Charges(Tally(NoFreq(), rs), lens, EXTRA_BLBITS[..|lens|])) == |RunsBits(cl, rs)|
  {
    hide Sum, Tally, Kraft, CodeAssignment.Coded, Charges, RunsBits, AllRuns;
    var f0, lens, cl := Tally(NoFreq(), rs), dl[..maxCode + 1], dl[..19];
    assert cl[..|lens|] == lens;
    TallyGrows(NoFreq(), rs);
    AllFound(f0, lens, maxCode, rs);
    RunsBitsExtends(lens, cl, rs);
    KraftExtends(lens, cl, 7);
    CodedExtends(fc, lens, cl);
    TallyCost(NoFreq(), rs, lens, EXTRA_BLBITS[..|lens|], EXTRA_BLBITS);
    NoCharge(lens, EXTRA_BLBITS[..|lens|]);
  }

  lemma AllFound(f0: seq<nat>, lens: seq<nat>, maxCode: int, rs: seq<Run>)
    requires |f0| == 19 && 0 <= maxCode < 19 && |lens| == maxCode + 1
    requires forall i :: 0 <= i < |rs| ==> rs[i].Proper() && rs[i].Symbol() < 19 && f0[rs[i].Symbol()] > 0
    requires forall n :: 0 <= n < |lens| && f0[n] > 0 ==> lens[n] > 0
    requires forall n :: maxCode < n < 19 ==> f0[n] == 0
    ensures AllCoded(lens, rs)
  {
  }

  lemma NoCharge(lens: seq<nat>, extra: seq<nat>)
    requires |lens| <= 19 && |extra| == |lens|
    ensures Sum(Charges(NoFreq(), lens, extra)) == 0
  {
    SumConstant(Charges(NoFreq(), lens, extra), 0);
  }

  /** The descriptor of the code length tree. */
  ghost predicate CodeLengthDesc(bl: TreeDesc)
  {
    bl.Valid() && bl.elems == 19 && bl.maxLength == 7 && bl.extraBits == EXTRA_BLBITS && bl.extraBase == 0 && bl.staticLen == null
  }

  /** A tree of code lengths below 16, with room for the guard after them. */
  ghost predicate Scannable(dl: array<nat>, maxCode: int)
    reads dl
  {
    0 <= maxCode && maxCode + 1 < dl.Length && forall i :: 0 <= i <= maxCode ==> dl[i] < 16
  }

  /** Counts the code length symbols of both trees. */
  method ScanBoth(ldl: array<nat>, lmax: nat, ddl: array<nat>, dmax: nat, freq: array<nat>)
    requires Scannable(ldl, lmax) && Scannable(ddl, dmax) && ldl != ddl && freq != ldl && freq != ddl
    requires freq.Length >= 19 && freq[..19] == NoFreq()
    modifies ldl, ddl, freq
    ensures ldl[..] == old(ldl[..])[lmax + 1 := GUARD] && ddl[..] == old(ddl[..])[dmax + 1 := GUARD]
    ensures freq[..19] == Tally(NoFreq(), BothRuns(old(ldl[..lmax + 1]), old(ddl[..dmax + 1])))
  {
    hide AllRuns, Tally;
    BothRunsKnown(ldl[..lmax + 1], ddl[..dmax + 1]);
    ScanTree(ldl, lmax, freq);
    ScanTree(ddl, dmax, freq);
  }

  /** The length of rank `k` is not zero, unless only the first three are left. */
  ghost predicate LastIs(cl: seq<nat>, k: int)
    requires |cl| == 19 && 0 <= k < 19
  {
    Ranks();
    k >= 3 ==> cl[CODE_LENGTH_ORDER[k]] != 0
  }

  /** The rank of the last length that is not zero, but at least 2. */
  method LastRank(dl: array<nat>) returns (maxBlindex: int)
    requires dl.Length >= 19
    ensures 2 <= maxBlindex < 19 && EndsAt(dl[..19], maxBlindex + 1)
    ensures LastIs(dl[..19], maxBlindex)
  {
    hide RANK, CODE_LENGTH_ORDER;
    Ranks();
    maxBlindex := 18;
    while maxBlindex >= 3
      invariant 2 <= maxBlindex < 19 && EndsAt(dl[..19], maxBlindex + 1)
    {
      if dl[CODE_LENGTH_ORDER[maxBlindex]] != 0 {
        break;
      }
      maxBlindex := maxBlindex - 1;
    }
  }

  /** What has been decided about the two trees `ll` and `dl` and the code length code `cl`. */
  ghost predicate Prepared(fc: seq<nat>, dls: seq<nat>, ll: seq<nat>, dl: seq<nat>, n: nat)
  {
    |dls| >= 19 && CodeAssignment.Coded(fc, dls[..19], 19) && Describable(ll, dl, dls[..19], n)
  }

  lemma IsPrepared(fc: seq<nat>, dls: seq<nat>, maxCode: int, ll: seq<nat>, dl: seq<nat>, n: nat)
    requires TreeBuilt(Tally(NoFreq(), BothRuns(ll, dl)), fc, dls, 7, maxCode)
    requires 257 <= |ll| <= 286 && 1 <= |dl| <= 30 && ll[256] > 0
    requires (forall i :: 0 <= i < |ll| ==> ll[i] < 16) && (forall i :: 0 <= i < |dl| ==> dl[i] < 16)
    requires 2 < n <= 19 && |dls| >= 19 && EndsAt(dls[..19], n)
    ensures Prepared(fc, dls, ll, dl, n) && maxCode < 19
    ensures Sum(Charges(Tally(NoFreq(), BothRuns(ll, dl)), dls[..maxCode + 1], EXTRA_BLBITS[..maxCode + 1])) + 14 + 3 * n
         == |HeaderBits(ll, dl, dls[..19], n)|
  {
    hide AllRuns, Sum, Tally, Charges, RunsBits, AllCoded, Decodable, CodeAssignment.Coded, EndsAt;
    BothRunsKnown(ll, dl);
    TreeCovers(fc, dls, maxCode, BothRuns(ll, dl));
    AllCodedConcat(dls[..19], AllRuns(ll), AllRuns(dl));
    RunsBitsConcat(dls[..19], AllRuns(ll), AllRuns(dl));
    FourAtLeast(ll, dls[..19], 256, n);
  }

  /** The first `codes` lengths in `cl` are a good code for the symbols of the runs of both trees. */
  ghost predicate GoodCodeLengths(ll: seq<nat>, dl: seq<nat>, cl: seq<nat>, codes: int, growth: Growth)
  {
    0 <= codes <= 19 && codes <= |cl| && Good(Tally(NoFreq(), BothRuns(ll, dl)), cl[..codes], 7, growth)
  }

  /** Builds the code length tree; returns the rank of the last length to send. */
  method BuildBlTree(b: TreeBuilder, l: TreeDesc, d: TreeDesc, bl: TreeDesc) returns (maxBlindex: int, ghost growth: Growth)
    requires b.Ready(bl) && CodeLengthDesc(bl) && bl.fc[..19] == NoFreq()
    requires Scannable(l.dl, l.maxCode) && Scannable(d.dl, d.maxCode) && 256 <= l.maxCode < 286 && d.maxCode < 30
    requires l.dl[256] > 0 && l != bl && d != bl
    requires l.dl != d.dl && l.dl != bl.fc && l.dl != bl.dl && d.dl != bl.fc && d.dl != bl.dl
    requires l.dl != b.q.heap && l.dl != b.q.depth && l.dl != b.blCount && d.dl != b.q.heap && d.dl != b.q.depth && d.dl != b.blCount
    modifies l.dl, d.dl, b, b.q`heapLen, b.q.heap, b.q.depth, b.blCount, bl.fc, bl.dl, bl`maxCode
    ensures l.dl[..] == old(l.dl[..])[l.maxCode + 1 := GUARD] && d.dl[..] == old(d.dl[..])[d.maxCode + 1 := GUARD]
    ensures 0 <= maxBlindex < 19
    ensures Prepared(bl.fc[..], bl.dl[..], old(l.dl[..l.maxCode + 1]), old(d.dl[..d.maxCode + 1]), maxBlindex + 1)
    ensures GoodCodeLengths(old(l.dl[..l.maxCode + 1]), old(d.dl[..d.maxCode + 1]), bl.dl[..], bl.maxCode + 1, growth)
    ensures bl.dl.Length >= 19 && LastIs(bl.dl[..19], maxBlindex)
    ensures b.staticLen == old(b.staticLen)
    ensures b.optLen == old(b.optLen) + |HeaderBits(old(l.dl[..l.maxCode + 1]), old(d.dl[..d.maxCode + 1]), bl.dl[..19], maxBlindex + 1)|
  {
    hide AllRuns, Sum, Tally, Charges, RunsBits, HeaderBits, Prepared, TreeBuilt, Monotone, Cheapest, EndsAt, LastIs, Good;
    ghost var ll, dl := l.dl[..l.maxCode + 1], d.dl[..d.maxCode + 1];
    BothRunsKnown(ll, dl);
    ScanBoth(l.dl, l.maxCode, d.dl, d.maxCode, bl.fc);
    growth := BuildTree(b, bl);
    BuiltSize(Tally(NoFreq(), BothRuns(ll, dl)), bl.fc[..], bl.dl[..], 7, bl.maxCode);
    BlExtras(bl, bl.maxCode + 1);
    maxBlindex := LastRank(bl.dl);
    b.optLen := b.optLen + 3 * (maxBlindex + 1) + 5 + 5 + 4;
    IsPrepared(bl.fc[..], bl.dl[..], bl.maxCode, ll, dl, maxBlindex + 1);
  }

  lemma BuiltSize(f0: seq<nat>, fc: seq<nat>, dl: seq<nat>, limit: nat, maxCode: int)
    requires TreeBuilt(f0, fc, dl, limit, maxCode)
    ensures 0 <= maxCode < |f0| <= |dl|
  {
  }

  lemma BlExtras(bl: TreeDesc, n: nat)
    requires CodeLengthDesc(bl) && n <= 19
    ensures Extras(bl, n) == EXTRA_BLBITS[..n]
  {
  }
}
