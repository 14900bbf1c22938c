/** Run-length coding of code lengths, as values (sections 3.2.7 of RFC 1951). */
module CodeLengthCoding {
  import opened Bits
  import opened Rfc1951

  /** A symbol of the code length alphabet with its repeat count. */
  datatype Run =
    | Plain(len: nat)    // 0-15: a code length
    | Again(count: nat)  // 16: the previous length, 3 to 6 times
    | Few(count: nat)    // 17: zero, 3 to 10 times
    | Many(count: nat)   // 18: zero, 11 to 138 times
  {
    function Symbol(): nat
    {
      match this
      case Plain(len) => len
      case Again(_) => 16
      case Few(_) => 17
      case Many(_) => 18
    }

    /** The repeat count fits its field. */
    predicate Proper()
    {
      match this
      case Plain(len) => len < 16
      case Again(count) => 3 <= count <= 6
      case Few(count) => 3 <= count <= 10
      case Many(count) => 11 <= count <= 138
    }

    function ExtraBits(): nat
    {
      match this
      case Plain(_) => 0
      case Again(_) => 2
      case Few(_) => 3
      case Many(_) => 7
    }

    function ExtraValue(): nat
      requires Proper()
    {
      match this
      case Plain(_) => 0
      case Again(count) => count - 3
      case Few(count) => count - 3
      case Many(count) => count - 11
    }
  }

  // ---------- What a run means ----------

  function Undo(acc: seq<nat>, r: Run): seq<nat>
    requires r.Again? ==> acc != []
  {
    match r
    case Plain(len) => acc + [len]
    case Again(count) => acc + Repeat(acc[|acc| - 1], count)
    case Few(count) => acc + Repeat(0, count)
    case Many(count) => acc + Repeat(0, count)
  }

  /** `rs` turns `acc` into `result`. */
  ghost predicate Undoes(acc: seq<nat>, rs: seq<Run>, result: seq<nat>)
    decreases |rs|
  {
    if rs == [] then acc == result
    else rs[0].Proper() && (rs[0].Again? ==> acc != []) && Undoes(Undo(acc, rs[0]), rs[1..], result)
  }

  lemma {:induction false} UndoesConcat(acc: seq<nat>, rs: seq<Run>, mid: seq<nat>, ts: seq<Run>, result: seq<nat>)
    requires Undoes(acc, rs, mid) && Undoes(mid, ts, result)
    ensures Undoes(acc, rs + ts, result)
    decreases |rs|
  {
    if rs == [] {
      assert rs + ts == ts;
    } else {
      UndoesConcat(Undo(acc, rs[0]), rs[1..], mid, ts, result);
      assert (rs + ts)[1..] == rs[1..] + ts;
    }
  }

  // ---------- How lengths are cut into runs ----------

  const GUARD: nat := 0xffff

  function LengthAt(lens: seq<nat>, n: nat): nat
  {
    if n < |lens| then lens[n] else GUARD
  }

  /** The greatest and least repeat counts for a run of `cur` after a run of `prev`. */
  function Limits(cur: nat, prev: int): (r: (nat, nat))
    ensures r.0 >= 6
  {
    if cur == 0 then (138, 3) else if cur == prev then (6, 3) else (7, 4)
  }

  function Copies(len: nat, count: nat): (rs: seq<Run>)
    ensures |rs| == count
  {
    seq(count, _ => Plain(len))
  }

  /** The symbols for `count` lengths `cur` after a run of `prev`. */
  function Emit(cur: nat, prev: int, count: nat, minCount: nat): seq<Run>
  {
    if count < minCount then Copies(cur, count)
    else if cur != 0 then
      if cur != prev then [Plain(cur), Again(if count > 0 then count - 1 else 0)] else [Again(count)]
    else if count <= 10 then [Few(count)]
    else [Many(count)]
  }

  /** The symbols for the lengths from `n` on, when `count` of the current run have been passed. */
  function Runs(lens: seq<nat>, n: nat, prev: int, count: nat): seq<Run>
    requires n <= |lens|
    decreases |lens| - n
  {
    if n == |lens| then []
    else
      var (cur, next) := (lens[n], LengthAt(lens, n + 1));
      var (maxCount, minCount) := Limits(cur, prev);
      if count + 1 < maxCount && cur == next then Runs(lens, n + 1, prev, count + 1)
      else Emit(cur, prev, count + 1, minCount) + Runs(lens, n + 1, cur, 0)
  }

  lemma {:induction false} CopiesUndo(acc: seq<nat>, len: nat, count: nat)
    requires len < 16
    ensures Undoes(acc, Copies(len, count), acc + Repeat(len, count))
    decreases count
  {
    if count == 0 {
      assert acc + Repeat(len, 0) == acc;
    } else {
      CopiesUndo(acc + [len], len, count - 1);
      assert Copies(len, count)[1..] == Copies(len, count - 1);
      assert acc + [len] + Repeat(len, count - 1) == acc + Repeat(len, count);
    }
  }

  lemma OneUndo(acc: seq<nat>, r: Run)
    requires r.Proper() && (r.Again? ==> acc != [])
    ensures Undoes(acc, [r], Undo(acc, r))
  {
    assert [r][1..] == [];
  }

  /** The symbols emitted for a run give the run back. */
  lemma EmitUndo(acc: seq<nat>, cur: nat, prev: int, count: nat)
    requires cur < 16 && 1 <= count <= Limits(cur, prev).0
    requires prev >= 0 ==> acc != [] && acc[|acc| - 1] == prev
    ensures Undoes(acc, Emit(cur, prev, count, Limits(cur, prev).1), acc + Repeat(cur, count))
  {
    var minCount := Limits(cur, prev).1;
    if count < minCount {
      CopiesUndo(acc, cur, count);
    } else if cur != 0 {
      if cur != prev {
        OneUndo(acc + [cur], Again(count - 1));
        assert [Plain(cur), Again(count - 1)][1..] == [Again(count - 1)];
        assert acc + [cur] + Repeat(cur, count - 1) == acc + Repeat(cur, count);
      } else {
        OneUndo(acc, Again(count));
      }
    } else if count <= 10 {
      OneUndo(acc, Few(count));
    } else {
      OneUndo(acc, Many(count));
    }
  }

  /** Run-length coding of code lengths loses nothing, and every repeat count fits its field. */
  lemma {:induction false} RunsUndo(acc: seq<nat>, lens: seq<nat>, n: nat, prev: int, count: nat)
    requires n <= |lens| && (count > 0 ==> n < |lens|) && forall i :: 0 <= i < |lens| ==> lens[i] < 16
    requires n < |lens| ==> count < Limits(lens[n], prev).0
    requires prev >= 0 ==> acc != [] && acc[|acc| - 1] == prev
    ensures Undoes(acc, Runs(lens, n, prev, count), acc + Repeat(LengthAt(lens, n), count) + lens[n..])
    decreases |lens| - n
  {
    hide Undoes, Emit, Limits;
    if n == |lens| {
      assert acc + Repeat(LengthAt(lens, n), count) + lens[n..] == acc;
      NothingUndone(acc);
    } else {
      var (cur, next) := (lens[n], LengthAt(lens, n + 1));
      JoinRun(acc, lens, n, count);
      var mid := acc + Repeat(cur, count + 1);
      if count + 1 < Limits(cur, prev).0 && cur == next {
        RunsUndo(acc, lens, n + 1, prev, count + 1);
      } else {
        EmitUndo(acc, cur, prev, count + 1);
        RunsUndo(mid, lens, n + 1, cur, 0);
        assert mid + Repeat(next, 0) == mid;
        UndoesConcat(acc, Emit(cur, prev, count + 1, Limits(cur, prev).1), mid, Runs(lens, n + 1, cur, 0), mid + lens[n + 1..]);
      }
    }
  }

  lemma NothingUndone(acc: seq<nat>)
    ensures Undoes(acc, [], acc)
  {
  }

  lemma JoinRun(acc: seq<nat>, lens: seq<nat>, n: nat, count: nat)
    requires n < |lens|
    ensures acc + Repeat(lens[n], count) + lens[n..] == acc + Repeat(lens[n], count + 1) + lens[n + 1..]
  {
    assert lens[n..] == [lens[n]] + lens[n + 1..];
    assert Repeat(lens[n], count) + [lens[n]] == Repeat(lens[n], count + 1);
  }

  /** All the symbols for a sequence of code lengths. */
  function AllRuns(lens: seq<nat>): seq<Run>
  {
    Runs(lens, 0, -1, 0)
  }

  lemma AllRunsUndo(acc: seq<nat>, lens: seq<nat>)
    requires forall i :: 0 <= i < |lens| ==> lens[i] < 16
    ensures Undoes(acc, AllRuns(lens), acc + lens)
  {
    RunsUndo(acc, lens, 0, -1, 0);
    assert acc + Repeat(LengthAt(lens, 0), 0) + lens[0..] == acc + lens;
  }

  // ---------- The bits of runs, and how they are read ----------

  /** The symbol has a code. */
  ghost predicate Coded(codeLens: seq<nat>, r: Run)
  {
    r.Symbol() < |codeLens| && codeLens[r.Symbol()] > 0
  }

  ghost function RunBits(codeLens: seq<nat>, r: Run): (bs: seq<bool>)
    requires r.Proper() && r.Symbol() < |codeLens|
    ensures |bs| == codeLens[r.Symbol()] + r.ExtraBits()
  {
    CodeBits(codeLens, r.Symbol()) + Lsb(r.ExtraValue(), r.ExtraBits())
  }

  ghost predicate AllCoded(codeLens: seq<nat>, rs: seq<Run>)
  {
    forall i :: 0 <= i < |rs| ==> rs[i].Proper() && Coded(codeLens, rs[i])
  }

  ghost function RunsBits(codeLens: seq<nat>, rs: seq<Run>): seq<bool>
    requires AllCoded(codeLens, rs)
  {
    if rs == [] then [] else RunsBits(codeLens, rs[..|rs| - 1]) + RunBits(codeLens, rs[|rs| - 1])
  }

  lemma RunsBitsPush(codeLens: seq<nat>, rs: seq<Run>, r: Run)
    requires AllCoded(codeLens, rs + [r])
    ensures AllCoded(codeLens, rs) && r.Proper() && Coded(codeLens, r)
    ensures RunsBits(codeLens, rs + [r]) == RunsBits(codeLens, rs) + RunBits(codeLens, r)
  {
    assert (rs + [r])[|rs|] == r;
    assert (rs + [r])[..|rs|] == rs;
    forall i | 0 <= i < |rs|
      ensures rs[i].Proper() && Coded(codeLens, rs[i])
    {
      assert (rs + [r])[i] == rs[i];
    }
  }

  lemma {:induction false} RunsBitsConcat(codeLens: seq<nat>, rs: seq<Run>, ts: seq<Run>)
    requires AllCoded(codeLens, rs) && AllCoded(codeLens, ts)
    ensures AllCoded(codeLens, rs + ts)
    ensures RunsBits(codeLens, rs + ts) == RunsBits(codeLens, rs) + RunsBits(codeLens, ts)
    decreases |ts|
  {
    hide RunBits;
    AllCodedConcat(codeLens, rs, ts);
    if ts == [] {
      assert rs + ts == rs;
    } else {
      var t, last := ts[..|ts| - 1], ts[|ts| - 1];
      RunsBitsConcat(codeLens, rs, t);
      assert (rs + ts)[..|rs + ts| - 1] == rs + t;
      Associate(RunsBits(codeLens, rs), RunsBits(codeLens, t), RunBits(codeLens, last));
    }
  }

  lemma AllCodedConcat(codeLens: seq<nat>, rs: seq<Run>, ts: seq<Run>)
    ensures AllCoded(codeLens, rs + ts) <==> AllCoded(codeLens, rs) && AllCoded(codeLens, ts)
  {
    if AllCoded(codeLens, rs + ts) {
      forall i | 0 <= i < |rs|
        ensures rs[i].Proper() && Coded(codeLens, rs[i])
      {
        assert (rs + ts)[i] == rs[i];
      }
      forall i | 0 <= i < |ts|
        ensures ts[i].Proper() && Coded(codeLens, ts[i])
      {
        assert (rs + ts)[|rs| + i] == ts[i];
      }
    }
  }
}
