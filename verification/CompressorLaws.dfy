/** What the compressor decides, in numbers. */
module CompressorLaws {
  import opened Sums
  import opened Rfc1951
  import opened CodeLengthCoding
  import opened CodeTables
  import opened TokenCodes
  import opened TokenCosts
  import opened TokenBuffers
  import opened BlockCoders
  import opened HashChains
  import opened LongestMatches
  import opened Deflating

  // ---------- Limits of the search ----------

  /** A chain is followed for 4096 positions, or for 1024 after a match of at least 32 bytes, up to 32506 bytes back; no
      search is begun after a match of 258 bytes. */
  lemma SearchLimits(q: nat, hashHead: nat, previous: nat)
    ensures ChainLength(previous) == if previous < 32 then 4096 else 1024
    ensures Limit(q) == if q <= 32506 then 0 else q - 32506
    ensures Searchable(q, hashHead, previous) <==> hashHead > 0 && previous <= 257 && q <= hashHead + 32506
  {
  }

  /** The length is cut at the end of the text, and 3 bytes at more than 4096 count as 2. */
  lemma LengthKept(best: nat, lookahead: nat, q: nat, at: nat)
    requires at < q < 0x1_0000
    ensures Clipped(best, lookahead, q, at)
         == if 3 == (if best <= lookahead then best else lookahead) && q > at + 4096 then 2
            else if best <= lookahead then best else lookahead
  {
  }

  /** The positions visited: each one follows from the link of the one before, and the last one has no link to a position
      above the limit, unless the chain has been followed as far as allowed. */
  lemma {:induction false} ChainVisited(prev: seq<Pos>, cur: nat, limit: nat, chain: nat)
    requires |prev| == 32768 && chain > 0
    ensures var s := Candidates(prev, cur, limit, chain);
            && 1 <= |s| <= chain && s[0] == cur
            && (forall k :: 0 <= k < |s| - 1 ==> s[k + 1] == prev[s[k] % 32768] > limit)
            && (|s| < chain ==> prev[s[|s| - 1] % 32768] <= limit)
    decreases chain
  {
    var s, next := Candidates(prev, cur, limit, chain), prev[cur % 32768];
    if next > limit && chain > 1 {
      ChainVisited(prev, next, limit, chain - 1);
      var t := Candidates(prev, next, limit, chain - 1);
      assert s == [cur] + t;
      forall k | 0 <= k < |s| - 1
        ensures s[k + 1] == prev[s[k] % 32768] > limit
      {
        if k > 0 {
          assert s[k] == t[k - 1] && s[k + 1] == t[k];
        }
      }
    }
  }

  // ---------- Runs of code lengths ----------

  /** The lengths from `n` to `n + c` are equal. */
  predicate Equal(lens: seq<nat>, n: nat, c: nat)
    requires n + c <= |lens|
  {
    forall i :: n <= i < n + c ==> lens[i] == lens[n]
  }

  /** The longest run that is sent at once: 138 zeros, 6 more of the length before, or 7 of another length. */
  function Longest(v: nat, prev: int): nat
  {
    if v == 0 then 138 else if v == prev then 6 else 7
  }

  lemma {:induction false} PassesRun(lens: seq<nat>, n: nat, prev: int, c: nat, k: nat)
    requires 1 <= c && n + c <= |lens| && k < c && Equal(lens, n, c) && c <= Longest(lens[n], prev)
    requires c == Longest(lens[n], prev) || n + c == |lens| || lens[n + c] != lens[n]
    requires forall i :: 0 <= i < |lens| ==> lens[i] < 16
    ensures Runs(lens, n + k, prev, k)
         == Emit(lens[n], prev, c, Limits(lens[n], prev).1) + Runs(lens, n + c, lens[n], 0)
    decreases c - k
  {
    hide Emit;
    assert lens[n + k] == lens[n];
    if k + 1 < c {
      assert lens[n + k + 1] == lens[n];
      PassesRun(lens, n, prev, c, k + 1);
    }
  }

  /** How a run of equal lengths is sent: short ones one by one, otherwise with a repeat code, which is preceded by the
      length itself if that is not the length before. */
  lemma RunIsSent(lens: seq<nat>, n: nat, prev: int, c: nat)
    requires 1 <= c && n + c <= |lens| && Equal(lens, n, c) && forall i :: 0 <= i < |lens| ==> lens[i] < 16
    requires c <= Longest(lens[n], prev)
    requires c == Longest(lens[n], prev) || n + c == |lens| || lens[n + c] != lens[n]
    ensures var v := lens[n];
            Runs(lens, n, prev, 0)
            == (if v == 0 && c >= 11 then [Many(c)]
                else if v == 0 && c >= 3 then [Few(c)]
                else if v != 0 && v == prev && c >= 3 then [Again(c)]
                else if v != 0 && v != prev && c >= 4 then [Plain(v), Again(c - 1)]
                else seq(c, _ => Plain(v)))
             + Runs(lens, n + c, v, 0)
  {
    PassesRun(lens, n, prev, c, 0);
    hide Runs;
  }

  // ---------- The estimate at which a block is ended ----------

  /** 8 bits for each token, and 5 bits and the extra bits for each distance. */
  function EstimatedBits(ts: seq<Token>): nat
    requires AllSane(ts)
  {
    if ts == [] then 0
    else
      var t := ts[|ts| - 1];
      EstimatedBits(ts[..|ts| - 1]) + if t.Copy? then 13 + DISTANCE_EXTRA[DistanceCode(t.distance)] else 8
  }

  lemma OneCost(df: seq<nat>, k: nat)
    requires |df| == 30 && k < 30
    ensures |DISTANCE_EXTRA| == 30 && Sum(DistanceCosts(df[k := df[k] + 1])) == Sum(DistanceCosts(df)) + 5 + DISTANCE_EXTRA[k]
  {
    ExtraTables();
    hide EXTRA_DBITS, DISTANCE_EXTRA;
    var a, b := DistanceCosts(df), DistanceCosts(df[k := df[k] + 1]);
    SumChange(a, b, k);
    assert b[k] == a[k] + 5 + DISTANCE_EXTRA[k] by {
      OneMore(df[k], 5 + DISTANCE_EXTRA[k]);
    }
  }

  lemma OneMore(n: nat, c: nat)
    ensures (n + 1) * c == n * c + c
  {
  }

  lemma {:induction false} EstimateSum(ts: seq<Token>)
    requires AllSane(ts)
    ensures 8 * |ts| + Sum(DistanceCosts(DistFreq(ts))) == EstimatedBits(ts)
  {
    hide DistanceCosts, Sum, DISTANCE_EXTRA, DistanceCode;
    if ts == [] {
      NoCosts();
    } else {
      var s, t := ts[..|ts| - 1], ts[|ts| - 1];
      EstimateSum(s);
      if t.Copy? {
        OneCost(DistFreq(s), DistSymbol(t));
      }
    }
  }

  lemma NoCosts()
    ensures Sum(DistanceCosts(DistFreq([]))) == 0
  {
    ExtraTables();
    SumConstant(DistanceCosts(DistFreq([])), 0);
  }

  /** The end seems profitable after each 4096 tokens of which less than half are matches and whose estimate is less than
      half of the bytes of the block. */
  lemma Profit(ts: seq<Token>, strstart: nat, blockStart: int)
    requires AllSane(ts) && 0 <= strstart - blockStart < 0x1_0000_0000
    ensures SeemsProfitable(ts, strstart, blockStart)
       <==> |ts| % 4096 == 0 && Matches(ts) < |ts| / 2 && EstimatedBits(ts) / 8 < (strstart - blockStart) / 2
  {
    hide DistanceCosts, Sum, EstimatedBits, DistFreq, Distances, Matches, AllSane;
    EstimateSum(ts);
    MatchCount(ts);
    SmallMod(strstart - blockStart);
    assert Estimate(ts) == EstimatedBits(ts) / 8;
  }

  lemma SmallMod(n: int)
    requires 0 <= n < 0x1_0000_0000
    ensures n % 0x1_0000_0000 == n
  {
  }

  function Matches(ts: seq<Token>): nat
  {
    if ts == [] then 0 else Matches(ts[..|ts| - 1]) + if ts[|ts| - 1].Copy? then 1 else 0
  }

  lemma {:induction false} MatchCount(ts: seq<Token>)
    requires AllSane(ts)
    ensures |Distances(ts)| == Matches(ts)
  {
    if ts != [] {
      MatchCount(ts[..|ts| - 1]);
    }
  }
}
