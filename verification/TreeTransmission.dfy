/** Counting and sending the code lengths of a literal or distance tree. */
module TreeTransmission {
  import opened Bits
  import opened BitWriters
  import opened Rfc1951
  import CodeAssignment
  import opened CodeLengthCoding
  import opened CodeLengthReading

  /** The runs before the current one have been dealt with. */
  ghost predicate Progress(lens: seq<nat>, n: nat, prev: int, count: nat, next: nat, limits: (nat, nat), sent: seq<Run>)
  {
    && n <= |lens| && next == LengthAt(lens, n) && (n < |lens| ==> limits == Limits(next, prev))
    && sent + Runs(lens, n, prev, count) == AllRuns(lens)
  }

  lemma Start(lens: seq<nat>)
    requires lens != []
    ensures Progress(lens, 0, -1, 0, lens[0], if lens[0] == 0 then (138, 3) else (7, 4), [])
  {
    assert [] + AllRuns(lens) == AllRuns(lens);
  }

  lemma Step(lens: seq<nat>, n: nat, prev: int, count: nat, next: nat, limits: (nat, nat), sent: seq<Run>)
    requires Progress(lens, n, prev, count, next, limits, sent) && n < |lens|
    requires forall i :: 0 <= i < |lens| ==> lens[i] < 16
    ensures var next' := LengthAt(lens, n + 1);
      if count + 1 < limits.0 && next == next' then Progress(lens, n + 1, prev, count + 1, next', limits, sent)
      else
        var emitted := Emit(next, prev, count + 1, limits.1);
        && Progress(lens, n + 1, next, 0, next', Limits(next', next), sent + emitted)
        && sent + emitted + Runs(lens, n + 1, next, 0) == AllRuns(lens)
  {
    hide Emit, Limits;
    var next' := LengthAt(lens, n + 1);
    if !(count + 1 < limits.0 && next == next') {
      var emitted := Emit(next, prev, count + 1, limits.1);
      Associate(sent, emitted, Runs(lens, n + 1, next, 0));
    }
  }

  lemma Finish(lens: seq<nat>, prev: int, count: nat, next: nat, limits: (nat, nat), sent: seq<Run>)
    requires Progress(lens, |lens|, prev, count, next, limits, sent)
    ensures sent == AllRuns(lens)
  {
    assert sent + [] == sent;
  }

  /** Counts the symbols emitted for one run. */
  method CountRun(freq: array<nat>, curlen: nat, prevlen: int, count: nat, minCount: nat)
    requires curlen < 16 && 1 <= count && minCount <= 4 && freq.Length >= 19
    modifies freq
    ensures freq[..19] == Tally(old(freq[..19]), Emit(curlen, prevlen, count, minCount))
    ensures freq[19..] == old(freq[19..])
  {
    ghost var f := freq[..19];
    if count < minCount {
      TallyCopies(f, curlen, count);
      freq[curlen] := freq[curlen] + count;
    } else if curlen != 0 {
      if curlen != prevlen {
        TallyTwo(f, Plain(curlen), Again(count - 1), f[curlen := f[curlen] + 1]);
        freq[curlen] := freq[curlen] + 1;
      } else {
        TallyOne(f, Again(count));
      }
      freq[16] := freq[16] + 1;
    } else if count <= 10 {
      TallyOne(f, Few(count));
      freq[17] := freq[17] + 1;
    } else {
      TallyOne(f, Many(count));
      freq[18] := freq[18] + 1;
    }
  }

  lemma TallyTwo(f: seq<nat>, r: Run, t: Run, g: seq<nat>)
    requires r.Symbol() < |f| && t.Symbol() < |f| && g == f[r.Symbol() := f[r.Symbol()] + 1]
    ensures Tally(f, [r, t]) == g[t.Symbol() := g[t.Symbol()] + 1]
  {
    hide Tally, r.Symbol;
    var rs, ts := [r], [t];
    assert rs + ts == [r, t];
    TallyConcat(f, rs, ts);
    TallyOne(f, r);
    TallyOne(g, t);
  }

  /** Determines the frequencies of the code length symbols for one tree. */
  method ScanTree(dl: array<nat>, maxCode: nat, freq: array<nat>)
    requires dl != freq && maxCode + 1 < dl.Length && freq.Length >= 19
    requires forall i :: 0 <= i <= maxCode ==> dl[i] < 16
    modifies dl, freq
    ensures dl[..] == old(dl[..])[maxCode + 1 := GUARD]
    ensures freq[..19] == Tally(old(freq[..19]), AllRuns(old(dl[..maxCode + 1])))
    ensures freq[19..] == old(freq[19..])
  {
    hide Tally, Emit, Limits, Progress, Runs;
    ghost var lens, f0, sent: seq<Run> := dl[..maxCode + 1], freq[..19], [];
    var prevlen: int := -1;
    var nextlen, count, maxCount, minCount := dl[0], 0, 7, 4;
    if nextlen == 0 {
      maxCount, minCount := 138, 3;
    }
    dl[maxCode + 1] := GUARD;
    Start(lens);
    NoTally(f0);
    var n := 0;
    while n <= maxCode
      invariant 0 <= n <= maxCode + 1 && count >= 0 && minCount <= 4
      invariant dl[..] == old(dl[..])[maxCode + 1 := GUARD]
      invariant Progress(lens, n, prevlen, count, nextlen, (maxCount, minCount), sent)
      invariant freq[..19] == Tally(f0, sent) && freq[19..] == old(freq[19..])
    {
      Step(lens, n, prevlen, count, nextlen, (maxCount, minCount), sent);
      var curlen := nextlen;
      assert curlen == lens[n] by { CurrentLength(lens, n, prevlen, count, nextlen, (maxCount, minCount), sent); }
      nextlen := dl[n + 1];
      assert nextlen == LengthAt(lens, n + 1);
      n := n + 1;
      count := count + 1;
      if count < maxCount && curlen == nextlen {
        continue;
      }
      CountRun(freq, curlen, prevlen, count, minCount);
      TallyConcat(f0, sent, Emit(curlen, prevlen, count, minCount));
      sent := sent + Emit(curlen, prevlen, count, minCount);
      count, prevlen := 0, curlen;
      maxCount, minCount := NextLimits(curlen, nextlen);
    }
    Finish(lens, prevlen, count, nextlen, (maxCount, minCount), sent);
  }

  lemma NoTally(f: seq<nat>)
    ensures Tally(f, []) == f
  {
  }

  lemma CurrentLength(lens: seq<nat>, n: nat, prev: int, count: nat, next: nat, limits: (nat, nat), sent: seq<Run>)
    requires Progress(lens, n, prev, count, next, limits, sent) && n < |lens|
    ensures next == lens[n]
  {
  }

  method NextLimits(curlen: nat, nextlen: nat) returns (maxCount: nat, minCount: nat)
    ensures (maxCount, minCount) == Limits(nextlen, curlen) && minCount <= 4
  {
    if nextlen == 0 {
      maxCount, minCount := 138, 3;
    } else if curlen == nextlen {
      maxCount, minCount := 6, 3;
    } else {
      maxCount, minCount := 7, 4;
    }
  }

  // ---------- Sending ----------

  /** Sends the code of symbol `c`, whose code and length are in the two arrays. */
  method SendCode(w: BitWriter, fc: array<nat>, dl: array<nat>, c: nat, ghost lens: seq<nat>)
    requires w.Valid() && fc != dl
    requires c < |lens| && c < fc.Length && c < dl.Length && dl[c] == lens[c] && 0 < lens[c] <= 15
    requires CodeAssignment.CodedAt(fc[c], lens, c)
    modifies w, w.outbuf
    ensures w.Valid() && w.Bits() == old(w.Bits()) + CodeBits(lens, c)
  {
    w.SendBits(fc[c], dl[c]);
  }

  /** The arrays of a tree whose codes can be sent, and are not the output buffer. */
  ghost predicate Sendable(w: BitWriter, fc: array<nat>, dl: array<nat>, lens: seq<nat>)
    reads fc, dl
  {
    && fc != dl && |lens| <= fc.Length == dl.Length && dl[..|lens|] == lens
    && CodeAssignment.Coded(fc[..], lens, |lens|) && (forall i :: 0 <= i < |lens| ==> lens[i] <= 15)
  }

  lemma SendableAt(w: BitWriter, fc: array<nat>, dl: array<nat>, lens: seq<nat>, c: nat)
    requires Sendable(w, fc, dl, lens) && c < |lens| && lens[c] > 0
    ensures dl[c] == lens[c] <= 15 && CodeAssignment.CodedAt(fc[c], lens, c)
  {
    assert dl[c] == dl[..|lens|][c];
    assert CodeAssignment.CodedAt(fc[..][c], lens, c);
  }

  /** Sends a symbol of the code length alphabet with its repeat count. */
  method SendRun(w: BitWriter, fc: array<nat>, dl: array<nat>, c: nat, extra: nat, extraBits: nat, ghost r: Run, ghost lens: seq<nat>)
    requires w.Valid() && Sendable(w, fc, dl, lens) && Coded(lens, r) && r.Proper() && !r.Plain?
    requires c == r.Symbol() && extra == r.ExtraValue() && extraBits == r.ExtraBits()
    modifies w, w.outbuf
    ensures w.Valid() && w.Bits() == old(w.Bits()) + RunBits(lens, r)
  {
    ghost var before := w.Bits();
    SendableAt(w, fc, dl, lens, c);
    SendCode(w, fc, dl, c, lens);
    ExtraFits(r);
    w.SendBits(extra, extraBits);
    Associate(before, CodeBits(lens, c), Lsb(extra, extraBits));
  }

  lemma PlainBits(lens: seq<nat>, len: nat)
    requires len < 16 && len < |lens|
    ensures RunBits(lens, Plain(len)) == CodeBits(lens, len)
  {
    assert Lsb(0, 0) == [];
  }

  /** Sends the length `curlen` `count` times. */
  method SendCopies(w: BitWriter, fc: array<nat>, dl: array<nat>, curlen: nat, count0: nat, ghost lens: seq<nat>)
    requires w.Valid() && Sendable(w, fc, dl, lens) && count0 > 0 && AllCoded(lens, Copies(curlen, count0))
    modifies w, w.outbuf
    ensures w.Valid() && w.Bits() == old(w.Bits()) + RunsBits(lens, Copies(curlen, count0))
  {
    hide RunBits, RunsBits, AllCoded, CodeBits;
    var count := count0;
    ghost var start, sent := w.Bits(), 0;
    SomeCopy(lens, curlen, count0);
    SendableAt(w, fc, dl, lens, curlen);
    CopiesBits(lens, curlen, 0);
    assert start + [] == start;
    while count != 0
      invariant 0 <= count <= count0 && sent == count0 - count
      invariant w.Valid() && AllCoded(lens, Copies(curlen, sent))
      invariant w.Bits() == start + RunsBits(lens, Copies(curlen, sent))
    {
      CopiesBits(lens, curlen, sent);
      Associate(start, RunsBits(lens, Copies(curlen, sent)), CodeBits(lens, curlen));
      SendCode(w, fc, dl, curlen, lens);
      count := count - 1;
      sent := sent + 1;
    }
  }

  lemma SomeCopy(lens: seq<nat>, len: nat, count: nat)
    requires count > 0 && AllCoded(lens, Copies(len, count))
    ensures len < 16 && len < |lens| && lens[len] > 0
  {
    assert Copies(len, count)[0] == Plain(len);
  }

  lemma CopiesBits(lens: seq<nat>, len: nat, count: nat)
    requires len < 16 && len < |lens| && lens[len] > 0
    ensures AllCoded(lens, Copies(len, count)) && AllCoded(lens, Copies(len, count + 1))
    ensures RunsBits(lens, Copies(len, 0)) == []
    ensures RunsBits(lens, Copies(len, count + 1)) == RunsBits(lens, Copies(len, count)) + CodeBits(lens, len)
  {
    assert Copies(len, count + 1) == Copies(len, count) + [Plain(len)];
    RunsBitsPush(lens, Copies(len, count), Plain(len));
    PlainBits(lens, len);
  }

  lemma EmitTwo(lens: seq<nat>, cur: nat, count: nat)
    requires AllCoded(lens, [Plain(cur), Again(count)])
    ensures cur < 16 && Coded(lens, Plain(cur)) && Again(count).Proper() && Coded(lens, Again(count))
    ensures RunsBits(lens, [Plain(cur), Again(count)]) == CodeBits(lens, cur) + RunBits(lens, Again(count))
  {
    assert [Plain(cur), Again(count)] == [Plain(cur)] + [Again(count)];
    AllCodedConcat(lens, [Plain(cur)], [Again(count)]);
    RunsBitsConcat(lens, [Plain(cur)], [Again(count)]);
    RunsBitsOne(lens, Plain(cur));
    RunsBitsOne(lens, Again(count));
    PlainBits(lens, cur);
  }

  /** Sends the symbols for one run. */
  method SendEmitted(w: BitWriter, fc: array<nat>, dl: array<nat>, curlen: nat, prevlen: int, count0: nat, minCount: nat, ghost lens: seq<nat>)
    requires w.Valid() && Sendable(w, fc, dl, lens) && count0 > 0
    requires AllCoded(lens, Emit(curlen, prevlen, count0, minCount))
    modifies w, w.outbuf
    ensures w.Valid() && w.Bits() == old(w.Bits()) + RunsBits(lens, Emit(curlen, prevlen, count0, minCount))
  {
    hide RunBits, AllCoded, RunsBits, CodeBits, Sendable;
    var count := count0;
    ghost var start := w.Bits();
    if count < minCount {
      SendCopies(w, fc, dl, curlen, count, lens);
    } else if curlen != 0 {
      if curlen != prevlen {
        EmitTwo(lens, curlen, count - 1);
        Associate(start, CodeBits(lens, curlen), RunBits(lens, Again(count - 1)));
        SendableAt(w, fc, dl, lens, curlen);
        SendableDistinct(w, fc, dl, lens);
        SendCode(w, fc, dl, curlen, lens);
        count := count - 1;
      } else {
        RunsBitsOne(lens, Again(count));
      }
      SendRun(w, fc, dl, 16, count - 3, 2, Again(count), lens);
    } else if count <= 10 {
      RunsBitsOne(lens, Few(count));
      SendRun(w, fc, dl, 17, count - 3, 3, Few(count), lens);
    } else {
      RunsBitsOne(lens, Many(count));
      SendRun(w, fc, dl, 18, count - 11, 7, Many(count), lens);
    }
  }

  lemma SendableDistinct(w: BitWriter, fc: array<nat>, dl: array<nat>, lens: seq<nat>)
    requires Sendable(w, fc, dl, lens)
    ensures fc != dl && |lens| <= fc.Length == dl.Length
  {
  }

  /** Sends the code lengths of a tree; the guard after them is already set. */
  method SendTree(w: BitWriter, tree: array<nat>, maxCode: nat, fc: array<nat>, dl: array<nat>, ghost lens: seq<nat>, ghost codeLens: seq<nat>)
    requires w.Valid() && maxCode + 1 < tree.Length && tree[maxCode + 1] == GUARD && lens == tree[..maxCode + 1]
    requires forall i :: 0 <= i < |lens| ==> lens[i] < 16
    requires Sendable(w, fc, dl, codeLens) && AllCoded(codeLens, AllRuns(lens))
    modifies w, w.outbuf
    ensures w.Valid() && w.Bits() == old(w.Bits()) + RunsBits(codeLens, AllRuns(lens))
  {
    hide Emit, Limits, Progress, Runs, AllCoded, RunsBits, Sendable;
    ghost var start, sent: seq<Run> := w.Bits(), [];
    var prevlen: int := -1;
    var nextlen, count, maxCount, minCount := tree[0], 0, 7, 4;
    if nextlen == 0 {
      maxCount, minCount := 138, 3;
    }
    Start(lens);
    NothingSent(codeLens);
    assert start + [] == start;
    var n := 0;
    while n <= maxCode
      invariant 0 <= n <= maxCode + 1 && count >= 0 && minCount <= 4
      invariant Progress(lens, n, prevlen, count, nextlen, (maxCount, minCount), sent)
      invariant w.Valid() && AllCoded(codeLens, sent) && w.Bits() == start + RunsBits(codeLens, sent)
    {
      Step(lens, n, prevlen, count, nextlen, (maxCount, minCount), sent);
      CurrentLength(lens, n, prevlen, count, nextlen, (maxCount, minCount), sent);
      var curlen := nextlen;
      nextlen := tree[n + 1];
      assert nextlen == LengthAt(lens, n + 1);
      n := n + 1;
      count := count + 1;
      if count < maxCount && curlen == nextlen {
        continue;
      }
      ghost var emitted := Emit(curlen, prevlen, count, minCount);
      AllCodedConcat(codeLens, sent + emitted, Runs(lens, n, curlen, 0));
      AllCodedConcat(codeLens, sent, emitted);
      RunsBitsConcat(codeLens, sent, emitted);
      Associate(start, RunsBits(codeLens, sent), RunsBits(codeLens, emitted));
      SendEmitted(w, fc, dl, curlen, prevlen, count, minCount, codeLens);
      sent := sent + emitted;
      count, prevlen := 0, curlen;
      maxCount, minCount := NextLimits(curlen, nextlen);
    }
    Finish(lens, prevlen, count, nextlen, (maxCount, minCount), sent);
  }

  lemma NothingSent(codeLens: seq<nat>)
    ensures AllCoded(codeLens, []) && RunsBits(codeLens, []) == []
  {
  }
}
