/** The description of the code trees at the head of a dynamic block, and how it is read back. */
module TreeHeaders {
  import opened Bits
  import opened Options
  import opened Rfc1951
  import opened PrefixCodes
  import opened CodeLengthCoding
  import opened CodeLengthReading
  import opened Streams

  /** The rank of each code length symbol in the order of transmission. */
  const RANK: seq<nat> := [3, 17, 15, 13, 11, 9, 7, 5, 4, 6, 8, 10, 12, 14, 16, 18, 0, 1, 2]

  lemma Ranks()
    ensures |RANK| == |CODE_LENGTH_ORDER| == 19
    ensures forall s :: 0 <= s < 19 ==> RANK[s] < 19 && CODE_LENGTH_ORDER[RANK[s]] == s
    ensures forall k :: 0 <= k < 19 ==> CODE_LENGTH_ORDER[k] < 19 && RANK[CODE_LENGTH_ORDER[k]] == k
    ensures forall s :: 0 <= s < 16 ==> RANK[s] >= 3 && (s > 0 ==> RANK[s] >= 4)
  {
  }

  /** The lengths of the first `k` symbols in the order of transmission. */
  function Known(cl: seq<nat>, k: nat): (r: seq<nat>)
    requires |cl| == 19
    ensures |r| == 19
  {
    Ranks();
    seq(19, s requires 0 <= s < 19 => if RANK[s] < k then cl[s] else 0)
  }

  ghost function OrderBits(cl: seq<nat>, n: nat): (bs: seq<bool>)
    requires |cl| == 19 && n <= 19
    ensures |bs| == 3 * n
  {
    Ranks();
    if n == 0 then [] else OrderBits(cl, n - 1) + Lsb(cl[CODE_LENGTH_ORDER[n - 1]], 3)
  }

  lemma KnownStep(cl: seq<nat>, k: nat)
    requires |cl| == 19 && k < 19
    ensures |CODE_LENGTH_ORDER| == 19 && CODE_LENGTH_ORDER[k] < 19
    ensures Known(cl, k + 1) == Known(cl, k)[CODE_LENGTH_ORDER[k] := cl[CODE_LENGTH_ORDER[k]]]
  {
    hide RANK, CODE_LENGTH_ORDER;
    Ranks();
    var t := Known(cl, k)[CODE_LENGTH_ORDER[k] := cl[CODE_LENGTH_ORDER[k]]];
    forall s | 0 <= s < 19
      ensures Known(cl, k + 1)[s] == t[s]
    {
      if RANK[s] == k {
        assert CODE_LENGTH_ORDER[k] == s;
      }
    }
  }

  lemma {:induction false} OrderAt(bits: seq<bool>, pos: nat, cl: seq<nat>, n: nat, k: nat)
    requires |cl| == 19 && k < n <= 19 && At(bits, pos, OrderBits(cl, n))
    ensures |CODE_LENGTH_ORDER| == 19 && CODE_LENGTH_ORDER[k] < 19
    ensures At(bits, pos + 3 * k, Lsb(cl[CODE_LENGTH_ORDER[k]], 3))
    decreases n
  {
    hide At, Lsb, CODE_LENGTH_ORDER, RANK;
    Ranks();
    AtSplit(bits, pos, OrderBits(cl, n - 1), Lsb(cl[CODE_LENGTH_ORDER[n - 1]], 3));
    if k < n - 1 {
      OrderAt(bits, pos, cl, n - 1, k);
    }
  }

  lemma {:induction false} ReadsCodeLengthLengths(bits: seq<bool>, pos: nat, cl: seq<nat>, n: nat, k: nat)
    requires |cl| == 19 && k <= n <= 19 && At(bits, pos, OrderBits(cl, n))
    requires forall s :: 0 <= s < 19 ==> cl[s] <= 7
    ensures ReadCodeLengthLengths(bits, pos + 3 * k, k, n, Known(cl, k)) == Some((Known(cl, n), pos + 3 * n))
    decreases n - k
  {
    hide At, Lsb, Known, CODE_LENGTH_ORDER, RANK, OrderBits, ReadField;
    if k < n {
      OrderAt(bits, pos, cl, n, k);
      assert Pow2(3) == 8;
      FieldAt(bits, pos + 3 * k, cl[CODE_LENGTH_ORDER[k]], 3);
      KnownStep(cl, k);
      ReadsCodeLengthLengths(bits, pos, cl, n, k + 1);
    }
  }

  /** All lengths from rank `n` on are zero. */
  ghost predicate EndsAt(cl: seq<nat>, n: nat)
    requires |cl| == 19
  {
    Ranks();
    forall k :: n <= k < 19 ==> cl[CODE_LENGTH_ORDER[k]] == 0
  }

  lemma KnownAll(cl: seq<nat>, n: nat)
    requires |cl| == 19 && n <= 19 && EndsAt(cl, n)
    ensures Known(cl, n) == cl && Known(cl, 0) == Repeat(0, 19)
  {
    hide RANK, CODE_LENGTH_ORDER;
    Ranks();
    forall s | 0 <= s < 19
      ensures Known(cl, n)[s] == cl[s]
    {
      if RANK[s] >= n {
        assert CODE_LENGTH_ORDER[RANK[s]] == s;
      }
    }
  }

  // ---------- The three counts, the code length code and the two trees ----------

  ghost predicate Describable(ll: seq<nat>, dl: seq<nat>, cl: seq<nat>, n: nat)
  {
    && 257 <= |ll| <= 286 && 1 <= |dl| <= 30 && |cl| == 19 && 4 <= n <= 19 && EndsAt(cl, n)
    && (forall s :: 0 <= s < 19 ==> cl[s] <= 7) && Decodable(cl, 7)
    && (forall i :: 0 <= i < |ll| ==> ll[i] < 16) && (forall i :: 0 <= i < |dl| ==> dl[i] < 16)
    && AllCoded(cl, AllRuns(ll)) && AllCoded(cl, AllRuns(dl))
  }

  ghost function CountBits(ll: seq<nat>, dl: seq<nat>, n: nat): (bs: seq<bool>)
    requires 257 <= |ll| && 1 <= |dl| && 4 <= n
    ensures |bs| == 14
  {
    Lsb(|ll| - 257, 5) + (Lsb(|dl| - 1, 5) + Lsb(n - 4, 4))
  }

  ghost function TreeBits(ll: seq<nat>, dl: seq<nat>, cl: seq<nat>): seq<bool>
    requires AllCoded(cl, AllRuns(ll)) && AllCoded(cl, AllRuns(dl))
  {
    RunsBits(cl, AllRuns(ll)) + RunsBits(cl, AllRuns(dl))
  }

  ghost function HeaderBits(ll: seq<nat>, dl: seq<nat>, cl: seq<nat>, n: nat): (bs: seq<bool>)
    requires Describable(ll, dl, cl, n)
    ensures |bs| == 14 + 3 * n + |TreeBits(ll, dl, cl)|
  {
    CountBits(ll, dl, n) + (OrderBits(cl, n) + TreeBits(ll, dl, cl))
  }

  lemma ReadsCounts(bits: seq<bool>, pos: nat, ll: seq<nat>, dl: seq<nat>, n: nat)
    requires 257 <= |ll| <= 286 && 1 <= |dl| <= 30 && 4 <= n <= 19 && At(bits, pos, CountBits(ll, dl, n))
    ensures ReadField(bits, pos, 5) == Some((|ll| - 257, pos + 5))
    ensures ReadField(bits, pos + 5, 5) == Some((|dl| - 1, pos + 10))
    ensures ReadField(bits, pos + 10, 4) == Some((n - 4, pos + 14))
  {
    hide At, Lsb, ReadField;
    assert Pow2(5) == 32 && Pow2(4) == 16;
    AtSplit(bits, pos, Lsb(|ll| - 257, 5), Lsb(|dl| - 1, 5) + Lsb(n - 4, 4));
    AtSplit(bits, pos + 5, Lsb(|dl| - 1, 5), Lsb(n - 4, 4));
    FieldAt(bits, pos, |ll| - 257, 5);
    FieldAt(bits, pos + 5, |dl| - 1, 5);
    FieldAt(bits, pos + 10, n - 4, 4);
  }

  /** Runs may not cross from the literal to the distance lengths, but the decoder reads one sequence. */
  lemma ReadsTrees(bits: seq<bool>, pos: nat, ll: seq<nat>, dl: seq<nat>, cl: seq<nat>)
    requires Decodable(cl, 7) && (forall i :: 0 <= i < |ll| ==> ll[i] < 16) && (forall i :: 0 <= i < |dl| ==> dl[i] < 16)
    requires AllCoded(cl, AllRuns(ll)) && AllCoded(cl, AllRuns(dl)) && At(bits, pos, TreeBits(ll, dl, cl))
    ensures ReadLengths(cl, bits, pos, |ll| + |dl|, []) == Some((ll + dl, pos + |TreeBits(ll, dl, cl)|))
  {
    hide At, RunsBits, AllCoded, Decodable, Undoes, AllRuns;
    AllRunsUndo([], ll);
    assert [] + ll == ll;
    AllRunsUndo(ll, dl);
    UndoesConcat([], AllRuns(ll), ll, AllRuns(dl), ll + dl);
    RunsBitsConcat(cl, AllRuns(ll), AllRuns(dl));
    ReadRuns(cl, 7, bits, pos, |ll| + |dl|, [], AllRuns(ll) + AllRuns(dl), ll + dl);
  }

  /** The decoder reads back both trees. */
  lemma ReadsHeader(bits: seq<bool>, pos: nat, ll: seq<nat>, dl: seq<nat>, cl: seq<nat>, n: nat)
    requires Describable(ll, dl, cl, n) && At(bits, pos, HeaderBits(ll, dl, cl, n))
    ensures ReadCodes(bits, pos) == Some((ll, dl, pos + |HeaderBits(ll, dl, cl, n)|))
  {
    hide At, RunsBits, AllCoded, Decodable, AllRuns, OrderBits, CountBits, TreeBits, Known, EndsAt, ReadField,
         ReadLengths, ReadCodeLengthLengths, ReadCodes;
    AtSplit(bits, pos, CountBits(ll, dl, n), OrderBits(cl, n) + TreeBits(ll, dl, cl));
    AtSplit(bits, pos + 14, OrderBits(cl, n), TreeBits(ll, dl, cl));
    ReadsCounts(bits, pos, ll, dl, n);
    KnownAll(cl, n);
    ReadsCodeLengthLengths(bits, pos + 14, cl, n, 0);
    ReadsTrees(bits, pos + 14 + 3 * n, ll, dl, cl);
    CodesAre(bits, pos, ll, dl, cl, n, pos + 14 + 3 * n + |TreeBits(ll, dl, cl)|);
  }

  lemma CodesAre(bits: seq<bool>, pos: nat, ll: seq<nat>, dl: seq<nat>, cl: seq<nat>, n: nat, end: nat)
    requires |ll| >= 257 && |dl| >= 1 && 4 <= n <= 19 && |cl| == 19
    requires ReadField(bits, pos, 5) == Some((|ll| - 257, pos + 5)) && ReadField(bits, pos + 5, 5) == Some((|dl| - 1, pos + 10))
    requires ReadField(bits, pos + 10, 4) == Some((n - 4, pos + 14))
    requires ReadCodeLengthLengths(bits, pos + 14, 0, n, Repeat(0, 19)) == Some((cl, pos + 14 + 3 * n))
    requires ReadLengths(cl, bits, pos + 14 + 3 * n, |ll| + |dl|, []) == Some((ll + dl, end))
    ensures ReadCodes(bits, pos) == Some((ll, dl, end))
  {
    hide ReadField, ReadLengths, ReadCodeLengthLengths;
    assert (ll + dl)[..|ll|] == ll && (ll + dl)[|ll|..] == dl;
  }

  // ---------- At least four code length codes are sent ----------

  lemma {:induction false} ZerosUndo(acc: seq<nat>, rs: seq<Run>, result: seq<nat>)
    requires Undoes(acc, rs, result) && forall i :: 0 <= i < |acc| ==> acc[i] == 0
    requires forall i :: 0 <= i < |rs| ==> !(rs[i].Plain? && rs[i].len > 0)
    ensures forall i :: 0 <= i < |result| ==> result[i] == 0
    decreases |rs|
  {
    if rs != [] {
      ZerosUndo(Undo(acc, rs[0]), rs[1..], result);
    }
  }

  /** Some length above zero is sent as itself. */
  lemma SomePlain(lens: seq<nat>, k: nat) returns (i: nat)
    requires (forall i :: 0 <= i < |lens| ==> lens[i] < 16) && k < |lens| && lens[k] > 0
    ensures i < |AllRuns(lens)| && AllRuns(lens)[i].Plain? && AllRuns(lens)[i].len > 0
  {
    AllRunsUndo([], lens);
    assert [] + lens == lens;
    if forall i :: 0 <= i < |AllRuns(lens)| ==> !(AllRuns(lens)[i].Plain? && AllRuns(lens)[i].len > 0) {
      ZerosUndo([], AllRuns(lens), lens);
    }
    i :| 0 <= i < |AllRuns(lens)| && AllRuns(lens)[i].Plain? && AllRuns(lens)[i].len > 0;
  }

  /** So the last nonzero code length length has rank 4 or more. */
  lemma FourAtLeast(lens: seq<nat>, cl: seq<nat>, k: nat, n: nat)
    requires (forall i :: 0 <= i < |lens| ==> lens[i] < 16) && k < |lens| && lens[k] > 0
    requires |cl| == 19 && AllCoded(cl, AllRuns(lens)) && EndsAt(cl, n)
    ensures n > 4
  {
    hide RANK, CODE_LENGTH_ORDER;
    var i := SomePlain(lens, k);
    var s := AllRuns(lens)[i].len;
    Ranks();
    assert cl[s] > 0;
    assert CODE_LENGTH_ORDER[RANK[s]] == s;
  }
}
