/** Run-length coded code lengths are read back as they were, and cost what was predicted. */
module CodeLengthReading {
  import opened Bits
  import opened Options
  import opened Rfc1951
  import opened Sums
  import opened PrefixCodes
  import opened BitLengths
  import opened CodeLengthCoding
  import opened Streams

  lemma {:induction false} UndoGrows(acc: seq<nat>, rs: seq<Run>, result: seq<nat>)
    requires Undoes(acc, rs, result)
    ensures |acc| + |rs| <= |result|
    decreases |rs|
  {
    if rs != [] {
      UndoGrows(Undo(acc, rs[0]), rs[1..], result);
    }
  }

  lemma RunsBitsOne(lens: seq<nat>, r: Run)
    requires AllCoded(lens, [r])
    ensures r.Proper() && Coded(lens, r) && RunsBits(lens, [r]) == RunBits(lens, r)
  {
    RunsBitsPush(lens, [], r);
    assert [] + [r] == [r];
    assert [] + RunBits(lens, r) == RunBits(lens, r);
  }

  lemma FirstRun(codeLens: seq<nat>, rs: seq<Run>)
    requires AllCoded(codeLens, rs) && rs != []
    ensures AllCoded(codeLens, rs[1..]) && rs[0].Proper() && Coded(codeLens, rs[0])
    ensures RunsBits(codeLens, rs) == RunBits(codeLens, rs[0]) + RunsBits(codeLens, rs[1..])
  {
    hide RunBits, AllCoded;
    var first, rest := [rs[0]], rs[1..];
    assert rs == first + rest;
    AllCodedConcat(codeLens, first, rest);
    RunsBitsOne(codeLens, rs[0]);
    RunsBitsConcat(codeLens, first, rest);
  }

  /** Reading one symbol with its repeat count has the effect of undoing it. */
  lemma ReadRun(codeLens: seq<nat>, limit: nat, bits: seq<bool>, pos: nat, total: nat, acc: seq<nat>, r: Run)
    requires Decodable(codeLens, limit) && r.Proper() && Coded(codeLens, r) && (r.Again? ==> acc != [])
    requires At(bits, pos, RunBits(codeLens, r)) && |acc| < total
    ensures pos + |RunBits(codeLens, r)| <= |bits|
    ensures ReadLengths(codeLens, bits, pos, total, acc)
         == ReadLengths(codeLens, bits, pos + |RunBits(codeLens, r)|, total, Undo(acc, r))
  {
    hide CodeBits, Decodable, Lsb, At, ReadSymbol, ReadField;
    var s := r.Symbol();
    RunStands(codeLens, limit, bits, pos, r);
    if r.Plain? {
      assert ReadSymbol(codeLens, bits, pos) == Some((r.len, pos + codeLens[s]));
    }
  }

  /** The symbol and its repeat count as the decoder sees them. */
  lemma RunStands(codeLens: seq<nat>, limit: nat, bits: seq<bool>, pos: nat, r: Run)
    requires Decodable(codeLens, limit) && r.Proper() && Coded(codeLens, r)
    requires At(bits, pos, RunBits(codeLens, r))
    ensures pos + |RunBits(codeLens, r)| <= |bits|
    ensures ReadSymbol(codeLens, bits, pos) == Some((r.Symbol(), pos + codeLens[r.Symbol()]))
    ensures ReadField(bits, pos + codeLens[r.Symbol()], r.ExtraBits())
         == Some((r.ExtraValue(), pos + codeLens[r.Symbol()] + r.ExtraBits()))
  {
    hide Decodable, Lsb;
    var s := r.Symbol();
    AtSplit(bits, pos, CodeBits(codeLens, s), Lsb(r.ExtraValue(), r.ExtraBits()));
    SymbolRoundTrip(codeLens, limit, bits, pos, s);
    ExtraFits(r);
    FieldAt(bits, pos + codeLens[s], r.ExtraValue(), r.ExtraBits());
  }

  lemma ExtraFits(r: Run)
    requires r.Proper()
    ensures r.ExtraValue() < Pow2(r.ExtraBits())
  {
    assert Pow2(2) == 4 && Pow2(3) == 8 && Pow2(7) == 128;
  }

  /** The decoder recovers the code lengths from the bits of their runs. */
  lemma {:induction false} ReadRuns(codeLens: seq<nat>, limit: nat, bits: seq<bool>, pos: nat, total: nat,
                                    acc: seq<nat>, rs: seq<Run>, result: seq<nat>)
    requires Decodable(codeLens, limit) && AllCoded(codeLens, rs)
    requires Undoes(acc, rs, result) && |result| == total
    requires At(bits, pos, RunsBits(codeLens, rs))
    ensures ReadLengths(codeLens, bits, pos, total, acc) == Some((result, pos + |RunsBits(codeLens, rs)|))
    decreases |rs|
  {
    hide RunBits, Decodable, Undo, At;
    if rs == [] {
      assert RunsBits(codeLens, rs) == [];
      NoBits(bits, pos);
    } else {
      UndoGrows(acc, rs, result);
      FirstRun(codeLens, rs);
      AtSplit(bits, pos, RunBits(codeLens, rs[0]), RunsBits(codeLens, rs[1..]));
      ReadRun(codeLens, limit, bits, pos, total, acc, rs[0]);
      ReadRuns(codeLens, limit, bits, pos + |RunBits(codeLens, rs[0])|, total, Undo(acc, rs[0]), rs[1..], result);
    }
  }

  lemma NoBits(bits: seq<bool>, pos: nat)
    ensures At(bits, pos, []) ==> pos <= |bits|
  {
  }

  // ---------- Counting the symbols ----------

  /** The frequencies `f` after counting the symbols of `rs`. */
  function Tally(f: seq<nat>, rs: seq<Run>): (g: seq<nat>)
    ensures |g| == |f|
  {
    if rs == [] then f
    else
      var g := Tally(f, rs[..|rs| - 1]);
      var s := rs[|rs| - 1].Symbol();
      if s < |g| then g[s := g[s] + 1] else g
  }

  lemma {:induction false} TallyConcat(f: seq<nat>, rs: seq<Run>, ts: seq<Run>)
    ensures Tally(f, rs + ts) == Tally(Tally(f, rs), ts)
    decreases |ts|
  {
    if ts == [] {
      assert rs + ts == rs;
    } else {
      TallyConcat(f, rs, ts[..|ts| - 1]);
      assert (rs + ts)[..|rs + ts| - 1] == rs + ts[..|ts| - 1];
    }
  }

  lemma TallyOne(f: seq<nat>, r: Run)
    requires r.Symbol() < |f|
    ensures Tally(f, [r]) == f[r.Symbol() := f[r.Symbol()] + 1]
  {
    assert [r][..0] == [];
  }

  lemma {:induction false} TallyCopies(f: seq<nat>, len: nat, count: nat)
    requires len < |f|
    ensures Tally(f, Copies(len, count)) == f[len := f[len] + count]
  {
    if count > 0 {
      TallyCopies(f, len, count - 1);
      assert Copies(len, count)[..count - 1] == Copies(len, count - 1);
    } else {
      assert f[len := f[len] + 0] == f;
    }
  }

  lemma {:induction false} TallyGrows(f: seq<nat>, rs: seq<Run>)
    ensures forall s :: 0 <= s < |f| ==> Tally(f, rs)[s] >= f[s]
    ensures forall i :: 0 <= i < |rs| && rs[i].Symbol() < |f| ==> Tally(f, rs)[rs[i].Symbol()] > 0
    ensures Sum(Tally(f, rs)) <= Sum(f) + |rs|
  {
    if rs != [] {
      var init, last := rs[..|rs| - 1], rs[|rs| - 1];
      TallyGrows(f, init);
      forall i | 0 <= i < |rs| && rs[i].Symbol() < |f|
        ensures Tally(f, rs)[rs[i].Symbol()] > 0
      {
        if i < |init| {
          assert rs[i] == init[i];
        }
      }
      if last.Symbol() < |f| {
        var g := Tally(f, init);
        SumUpdate(g, last.Symbol(), g[last.Symbol()] + 1);
      }
    }
  }

  /** Extra bits of the code length alphabet. */
  ghost predicate RunExtras(extra: seq<nat>)
  {
    |extra| == 19 && (forall s :: 0 <= s < 16 ==> extra[s] == 0) && extra[16] == 2 && extra[17] == 3 && extra[18] == 7
  }

  lemma OneMoreCharge(g: seq<nat>, lens: seq<nat>, extra: seq<nat>, s: nat)
    requires s < |lens| == |extra| <= |g|
    ensures Sum(Charges(g[s := g[s] + 1], lens, extra)) == Sum(Charges(g, lens, extra)) + lens[s] + extra[s]
  {
    SumChange(Charges(g, lens, extra), Charges(g[s := g[s] + 1], lens, extra), s);
    assert (g[s] + 1) * (lens[s] + extra[s]) == g[s] * (lens[s] + extra[s]) + lens[s] + extra[s];
  }

  /** The bits charged for the counted symbols are the bits of the runs. */
  lemma {:induction false} TallyCost(f: seq<nat>, rs: seq<Run>, codeLens: seq<nat>, extra: seq<nat>, full: seq<nat>)
    requires |f| == 19 == |full| && |codeLens| <= 19 && |extra| == |codeLens|
    requires RunExtras(full) && extra == full[..|codeLens|] && AllCoded(codeLens, rs)
    ensures Sum(Charges(Tally(f, rs), codeLens, extra)) == Sum(Charges(f, codeLens, extra)) + |RunsBits(codeLens, rs)|
    decreases |rs|
  {
    hide Sum, Charges, CodeBits;
    if rs != [] {
      var init, last := rs[..|rs| - 1], rs[|rs| - 1];
      assert rs == init + [last];
      RunsBitsPush(codeLens, init, last);
      TallyCost(f, init, codeLens, extra, full);
      assert extra[last.Symbol()] == full[last.Symbol()] == last.ExtraBits();
      OneMoreCharge(Tally(f, init), codeLens, extra, last.Symbol());
    }
  }
}
