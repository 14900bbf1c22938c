/** Building one Huffman tree: from frequencies to decodable, sendable codes. */
module Huffman {
  import opened Bits
  import opened Sums
  import opened PrefixCodes
  import opened Heaps
  import opened Merges
  import opened Optimality
  import opened MergeLoop
  import opened TreeOrder
  import opened TreeBuilders
  import opened Merging
  import opened BitLengths
  import opened LengthLimit
  import opened CodeAssignment
  import opened TreeDepth

  // ---------- Entering the merging loop ----------

  lemma NodesFromContent(h: seq<nat>, len: nat, leaves: set<nat>, f: seq<nat>, d: seq<nat>)
    requires len < |h| && Content(h, len) == multiset(leaves)
    requires forall v :: v in leaves ==> v < |f| && v < |d|
    ensures Nodes(h, len, f, d)
  {
    forall j | 1 <= j <= len
      ensures h[j] < |f| && h[j] < |d|
    {
      assert h[j] == h[1..len + 1][j - 1];
      assert h[j] in Content(h, len);
    }
  }

  lemma OverPrefix(s: set<nat>, f: seq<nat>, n: nat)
    requires n <= |f| && forall v :: v in s ==> v < n
    ensures Over(s, f) == Over(s, f[..n])
  {
    SumPadded(Masked(s, f[..n]), Masked(s, f));
  }

  lemma StartMerging(heap: seq<nat>, len: nat, f: seq<nat>, d: seq<nat>, dl: seq<nat>, elems: nat, leaves: set<nat>)
    requires elems <= L_CODES && len <= elems && |f| == |dl| == 2 * elems + 1 && |d| == |heap| == HEAP_SIZE
    requires leaves == Leaves(f, elems)
    requires Nodes(heap, len, f, d) && HeapFrom(heap, len, 1, f, d) && Content(heap, len) == multiset(leaves)
    requires forall n :: 0 <= n < elems && f[n] == 0 ==> dl[n] == 0
    ensures Built(heap, len, f, d, dl, f[..elems], leaves, [])
  {
    hide Content, HeapFrom;
    OverPrefix(leaves, f, elems);
    assert Recorded(heap, []);
  }

  lemma TotalFrequency(f: seq<nat>, f0: seq<nat>, elems: nat, forced: set<nat>)
    requires elems <= |f| && Forced(f, f0, forced)
    ensures Over(Leaves(f, elems), f[..elems]) <= Sum(f0[..elems]) + 3
  {
    assert Masked(Leaves(f, elems), f[..elems]) == f[..elems];
    var three := seq(elems, i requires 0 <= i < elems => if i < 3 then 1 else 0);
    var sum := seq(elems, i requires 0 <= i < elems => f0[i] + three[i]);
    SumPlus(f0[..elems], three, sum);
    SumMono(f[..elems], sum);
    FirstThree(three);
  }

  lemma FirstThree(s: seq<int>)
    requires forall i :: 0 <= i < |s| ==> s[i] == if i < 3 then 1 else 0
    ensures Sum(s) <= 3
  {
    if |s| <= 3 {
      SumConstant(s, 1);
    } else {
      SumConstant(s[..3], 1);
      SumPadded(s[..3], s);
    }
  }

  // ---------- What forcing symbols costs ----------

  /** A forced symbol occurs once; its bits were discounted in advance. */
  lemma ForcedCharges(f0: seq<nat>, f1: seq<nat>, forced: set<nat>, x: seq<nat>, extra: seq<nat>, g: seq<int>)
    requires |x| == |extra| <= |f0| == |f1| && |x| <= |g|
    requires Forced(f1, f0, forced)
    requires forall n :: n in forced ==> n < |x| && x[n] + extra[n] == g[n]
    ensures Sum(Charges(f1, x, extra)) == Sum(Charges(f0, x, extra)) + Over(forced, g)
  {
    var size := |x|;
    SumPadded(Masked(forced, g)[..size], Masked(forced, g));
    SumPlus(Charges(f0, x, extra), Masked(forced, g)[..size], Charges(f1, x, extra));
  }

  lemma ChargesSame(f: seq<nat>, f': seq<nat>, x: seq<nat>, extra: seq<nat>)
    requires |x| <= |extra| && |x| <= |f| && |x| <= |f'| && f[..|x|] == f'[..|x|]
    ensures Charges(f, x, extra) == Charges(f', x, extra)
  {
    forall i | 0 <= i < |x|
      ensures f[i] == f'[i]
    {
      assert f[i] == f[..|x|][i];
    }
  }

  lemma TwoEntries(h: seq<nat>, leaves: set<nat>)
    requires 2 < |h| && Content(h, 2) == multiset(leaves)
    ensures h[1] != h[2] && leaves == {h[1], h[2]}
  {
    assert h[1..3] == [h[1], h[2]];
    assert multiset(leaves) == multiset{h[1], h[2]};
    forall v
      ensures v in leaves <==> v == h[1] || v == h[2]
    {
      assert v in leaves <==> v in multiset(leaves);
    }
    assert multiset(leaves)[h[1]] == 1;
  }

  /** A full code with two symbols gives each of them one bit. */
  lemma TwoLeaves(lens: seq<nat>, limit: nat, leaves: set<nat>, u: nat, v: nat)
    requires FullCode(lens, limit, leaves) && leaves == {u, v} && u != v && limit > 0
    requires u < |lens| && v < |lens|
    ensures lens[u] == 1 && lens[v] == 1
  {
    var a := lens[u := 0];
    KraftUpdate(lens, limit, u, 0);
    KraftUpdate(a, limit, v, 0);
    SumConstant(Weights(a[v := 0], limit), 0);
    assert Weight(lens[u], limit) + Weight(lens[v], limit) == Pow2(limit);
    HalfSpace(lens[u], limit);
    HalfSpace(lens[v], limit);
  }

  lemma HalfSpace(len: nat, limit: nat)
    requires 0 < len <= limit
    ensures 2 * Weight(len, limit) <= Pow2(limit)
    ensures len > 1 ==> 2 * Weight(len, limit) < Pow2(limit)
  {
    Pow2Mono(limit - len, limit - 1);
    if len > 1 {
      Pow2Mono(limit - len, limit - 2);
    }
  }

  // ---------- Optimality and order, in terms of the symbols ----------

  /** The bits all occurrences of the symbols take with code lengths `l`. */
  ghost function CodeCost(f: seq<nat>, l: seq<nat>): int
    requires |l| <= |f|
  {
    Sum(CostTerms(f, l))
  }

  ghost function CostTerms(f: seq<nat>, l: seq<nat>): (r: seq<int>)
    requires |l| <= |f|
    ensures |r| == |l|
  {
    seq(|l|, i requires 0 <= i < |l| => f[i] * l[i])
  }

  /** `l` gives every used symbol a code of 1 to `m` bits and satisfies the Kraft inequality. */
  ghost predicate CodeFor(f: seq<nat>, l: seq<nat>, m: nat)
    requires |l| <= |f|
  {
    (forall n :: 0 <= n < |l| && f[n] > 0 ==> 0 < l[n] <= m) && Kraft(l, m) <= Pow2(m)
  }

  /** No prefix code for the used symbols is cheaper. */
  ghost predicate Cheapest(f: seq<nat>, lens: seq<nat>)
    requires |lens| <= |f|
  {
    forall l: seq<nat>, m: nat :: |l| == |lens| && CodeFor(f, l, m) ==> CodeCost(f, lens) <= CodeCost(f, l)
  }

  /** More frequent symbols never have longer codes. */
  ghost predicate Monotone(f: seq<nat>, lens: seq<nat>)
    requires |lens| <= |f|
  {
    forall n, m :: 0 <= n < |lens| && 0 <= m < |lens| && f[n] > f[m] > 0 ==> lens[n] <= lens[m]
  }

  lemma GreedyHolds(f: seq<nat>, f0: seq<nat>, leaves: set<nat>, pairs: seq<Pair>)
    requires Complete(|f0|, leaves, pairs) && Frequencies(f, f0, leaves, pairs)
    ensures Greedy(|f0|, leaves, pairs, f[..|f0| + |pairs|])
  {
    var g := f[..|f0| + |pairs|];
    forall i | 0 <= i < |pairs|
      ensures PairLeast(|f0|, leaves, pairs, g, i)
    {
      assert PairLeast(|f0|, leaves, pairs, f, i);
      NeverAgain(|f0|, leaves, pairs, i, i + 1);
    }
  }

  lemma CostOverLeaves(f: seq<nat>, g: seq<nat>, x: seq<nat>, l: seq<nat>, leaves: set<nat>)
    requires |g| == |x| && |l| <= |f| && |l| <= |g|
    requires forall n :: n in leaves ==> n < |l| && x[n] == l[n] && g[n] == f[n]
    requires forall n :: 0 <= n < |l| && n !in leaves ==> f[n] == 0
    ensures Cost(leaves, g, x) == CodeCost(f, l)
  {
    SumPadded(CostTerms(f, l), Masked(leaves, Products(g, x)));
  }

  /** A code for the symbols is feasible for the leaves of the tree. */
  lemma CodeIsFeasible(f: seq<nat>, l: seq<nat>, m: nat, leaves: set<nat>, x: seq<nat>)
    requires |l| <= |f| && |l| <= |x| && x[..|l|] == l && CodeFor(f, l, m)
    requires forall n :: n in leaves ==> n < |l| && f[n] > 0
    ensures Feasible(leaves, x, m)
  {
    var masked := Masked(leaves, Spaces(x, m));
    var padded := Weights(l, m) + seq(|x| - |l|, _ => 0);
    forall n | 0 <= n < |x|
      ensures masked[n] <= padded[n]
    {
      if n in leaves {
        assert x[n] == l[n];
      }
    }
    SumMono(masked, padded);
    SumPadded(Weights(l, m), padded);
  }

  lemma TreeIsCheapest(f: seq<nat>, f0: seq<nat>, leaves: set<nat>, pairs: seq<Pair>, limit: nat, depths: seq<nat>, lens: seq<nat>)
    requires Complete(|f0|, leaves, pairs) && Frequencies(f, f0, leaves, pairs)
    requires Depths(|f0|, leaves, pairs, limit, depths) && Excess(|f0|, pairs, limit, depths, 0) == 0
    requires |lens| <= |f0| && leaves == Leaves(f0, |f0|) && forall n :: n in leaves ==> n < |lens| && lens[n] == depths[n]
    ensures Cheapest(f0, lens)
  {
    hide Complete, Frequencies, Depths, Excess, Leaves, CodeFor, CodeCost;
    forall l: seq<nat>, m: nat | |l| == |lens| && CodeFor(f0, l, m)
      ensures CodeCost(f0, lens) <= CodeCost(f0, l)
    {
      TreeIsCheaper(f, f0, leaves, pairs, limit, depths, lens, l, m);
    }
  }

  lemma TreeIsCheaper(f: seq<nat>, f0: seq<nat>, leaves: set<nat>, pairs: seq<Pair>, limit: nat, depths: seq<nat>, lens: seq<nat>,
                      l: seq<nat>, m: nat)
    requires Complete(|f0|, leaves, pairs) && Frequencies(f, f0, leaves, pairs)
    requires Depths(|f0|, leaves, pairs, limit, depths) && Excess(|f0|, pairs, limit, depths, 0) == 0
    requires |lens| <= |f0| && leaves == Leaves(f0, |f0|) && forall n :: n in leaves ==> n < |lens| && lens[n] == depths[n]
    requires |l| == |lens| && CodeFor(f0, l, m)
    ensures CodeCost(f0, lens) <= CodeCost(f0, l)
  {
    hide PairLeast, PairDepth, Excess, Kraft, Sum;
    var elems := |f0|;
    var g := f[..elems + |pairs|];
    GreedyHolds(f, f0, leaves, pairs);
    assert forall n :: 0 <= n < elems ==> g[n] == f[..elems][n];
    var x: seq<nat> := l + seq(|g| - |l|, _ => 0);
    CodeIsFeasible(f0, l, m, leaves, x);
    MergingIsOptimal(elems, leaves, pairs, g, limit, depths, x, m);
    CostOverLeaves(f0, g, x, l, leaves);
    CostOverLeaves(f0, g, depths, lens, leaves);
  }

  /** If every used symbol has one bit, nothing is cheaper. */
  lemma OneBitIsCheapest(f: seq<nat>, lens: seq<nat>)
    requires |lens| <= |f| && forall n :: 0 <= n < |lens| && f[n] > 0 ==> lens[n] == 1
    ensures Cheapest(f, lens) && Monotone(f, lens)
  {
    forall l: seq<nat>, m: nat | |l| == |lens| && CodeFor(f, l, m)
      ensures CodeCost(f, lens) <= CodeCost(f, l)
    {
      forall n | 0 <= n < |lens|
        ensures f[n] * lens[n] <= f[n] * l[n]
      {
      }
      SumMono(CostTerms(f, lens), CostTerms(f, l));
    }
  }

  /** In a cheapest code, a more frequent symbol is not longer: exchanging the two would save bits. */
  lemma CheapestIsMonotone(f: seq<nat>, lens: seq<nat>, limit: nat)
    requires |lens| <= |f| && Cheapest(f, lens) && CodeFor(f, lens, limit)
    ensures Monotone(f, lens)
  {
    forall n, m | 0 <= n < |lens| && 0 <= m < |lens| && f[n] > f[m] > 0
      ensures lens[n] <= lens[m]
    {
      if lens[n] > lens[m] {
        var l1 := lens[n := lens[m]];
        var l := l1[m := lens[n]];
        KraftUpdate(lens, limit, n, lens[m]);
        KraftUpdate(l1, limit, m, lens[n]);
        assert CodeFor(f, l, limit);
        SumChange(CostTerms(f, lens), CostTerms(f, l1), n);
        SumChange(CostTerms(f, l1), CostTerms(f, l), m);
        Gain(f[n], f[m], lens[n], lens[m]);
      }
    }
  }

  lemma Gain(fn: nat, fm: nat, ln: nat, lm: nat)
    requires fn > fm && ln > lm
    ensures fn * lm + fm * ln < fn * ln + fm * lm
  {
    assert (fn - fm) * (ln - lm) > 0;
  }

  /** Dealing lengths in list order never gives the more frequent symbol the longer code. */
  lemma DescendingIsMonotone(heap: seq<nat>, f: seq<nat>, f0: seq<nat>, leaves: set<nat>, pairs: seq<Pair>, dl: seq<nat>, size: nat)
    requires Listed(heap, |f0|, leaves, pairs) && Frequencies(f, f0, leaves, pairs)
    requires size <= |f0| && size <= |dl| && Descending(heap, First(pairs), dl, size)
    requires leaves == Leaves(f0, |f0|)
    ensures Monotone(f0, dl[..size])
  {
    forall n, m | 0 <= n < size && 0 <= m < size && f0[n] > f0[m] > 0
      ensures dl[n] <= dl[m]
    {
      assert n in leaves && m in leaves;
      LeafListed(heap, |f0|, leaves, pairs, n);
      LeafListed(heap, |f0|, leaves, pairs, m);
      var p :| First(pairs) + 1 <= p < HEAP_SIZE && heap[p] == n;
      var q :| First(pairs) + 1 <= q < HEAP_SIZE && heap[q] == m;
      assert f[..|f0|][n] == f[n] && f[..|f0|][m] == f[m];
      if q < p {
        LaterEntry(heap, f, f0, leaves, pairs, p, q);
      }
    }
  }

  /** Later entries of the list are not more frequent. */
  lemma LaterEntry(heap: seq<nat>, f: seq<nat>, f0: seq<nat>, leaves: set<nat>, pairs: seq<Pair>, p: nat, q: nat)
    requires Listed(heap, |f0|, leaves, pairs) && Frequencies(f, f0, leaves, pairs)
    requires First(pairs) + 1 <= q < p < HEAP_SIZE
    ensures heap[p] < |f| && heap[q] < |f| && f[heap[p]] <= f[heap[q]]
  {
    EntryAt(heap, |f0|, leaves, pairs, p);
    EntryAt(heap, |f0|, leaves, pairs, q);
    var i := MergeAt(p);
    if i < MergeAt(q) {
      LaterIsLess(f, f0, leaves, pairs, i, MergeAt(q), heap[p], heap[q]);
    } else {
      assert RecordedAt(heap, pairs, i) && PairLeast(|f0|, leaves, pairs, f, i);
      assert p == HEAP_SIZE - 1 - 2 * i && q == HEAP_SIZE - 2 - 2 * i;
    }
  }

  /** How a tree grew: the symbols forced, the frequencies of all nodes, the merges, and the depths up to the limit. */
  datatype Growth = Growth(forced: set<nat>, freq: seq<nat>, pairs: seq<Pair>, depths: seq<nat>)

  /** The tree of the used and forced symbols, in which always the least frequent nodes were merged. */
  ghost predicate Grown(f0: seq<nat>, t: Growth, limit: nat)
  {
    && |f0| <= |t.freq| && Forced(t.freq[..|f0|], f0, t.forced)
    && var leaves := Leaves(t.freq, |f0|);
       && Complete(|f0|, leaves, t.pairs) && Frequencies(t.freq, t.freq[..|f0|], leaves, t.pairs)
       && Depths(|f0|, leaves, t.pairs, limit, t.depths) && |t.depths| == |f0| + |t.pairs|
  }

  /** The tree has leaves below the limit. Two leaves, one of them forced, never do. */
  ghost predicate TooDeep(f0: seq<nat>, t: Growth, limit: nat)
    requires |t.depths| == |f0| + |t.pairs|
  {
    Excess(|f0|, t.pairs, limit, t.depths, 0) != 0 && t.forced == {}
  }

  /** More frequent symbols have no longer codes. If the tree that grew from the frequencies is within the limit, no prefix
      code is cheaper; otherwise there are many occurrences. */
  ghost predicate Good(f: seq<nat>, lens: seq<nat>, limit: nat, t: Growth)
  {
    && |lens| <= |f| && Monotone(f, lens) && Grown(f, t, limit)
    && (if TooDeep(f, t, limit) then Sum(f) >= Heavy(limit) else Cheapest(f, lens))
  }

  // ---------- build_tree ----------

  /** What a built tree is: a complete prefix code for all used symbols, with its codes set. */
  ghost predicate TreeBuilt(f0: seq<nat>, fc: seq<nat>, dl: seq<nat>, limit: nat, maxCode: int)
  {
    && 0 <= maxCode < |f0| <= |dl| && |dl| == |fc|
    && ProperCode(f0, dl[..maxCode + 1], limit)
    && Coded(fc, dl[..maxCode + 1], maxCode + 1)
    && dl[maxCode] > 0
    && (forall n :: maxCode < n < |f0| ==> f0[n] == 0 && dl[n] == 0)
  }

  ghost predicate ProperCode(f0: seq<nat>, lens: seq<nat>, limit: nat)
    requires |lens| <= |f0|
  {
    && (forall n :: 0 <= n < |lens| ==> lens[n] <= limit && (f0[n] > 0 ==> lens[n] > 0))
    && Kraft(lens, limit) == Pow2(limit)
  }

  /** The state before merging, with the symbols that had to be forced. */
  method PrepareLeaves(b: TreeBuilder, desc: TreeDesc) returns (ghost forced: set<nat>)
    requires b.Ready(desc)
    modifies b, b.q`heapLen, b.q.heap, b.q.depth, desc.fc, desc.dl, desc`maxCode
    ensures b.heapMax == HEAP_SIZE && 2 <= b.q.heapLen && (forced != {} ==> b.q.heapLen == 2)
    ensures 0 <= desc.maxCode && Greatest(desc.fc[..], desc.elems, desc.maxCode)
    ensures Forced(desc.fc[..], old(desc.fc[..]), forced)
    ensures b.optLen == old(b.optLen) - Over(forced, Ones(desc.elems))
    ensures b.staticLen == old(b.staticLen) - Over(forced, Costs(desc.staticLen, desc.elems))
    ensures Built(b.q.heap[..], b.q.heapLen, desc.fc[..], b.q.depth[..], desc.dl[..],
                  desc.fc[..desc.elems], Leaves(desc.fc[..], desc.elems), [])
  {
    hide Content, HeapFrom, Leaves, Over, Built, Nodes, Costs, Ones;
    b.heapMax := HEAP_SIZE;
    b.CollectLeaves(desc);
    forced := b.ForceCodes(desc);
    ghost var f, leaves := desc.fc[..], Leaves(desc.fc[..], desc.elems);
    LeavesBelow(f, desc.elems);
    SomeLeaf(b.q.heap[..], b.q.heapLen, leaves);
    NodesFromContent(b.q.heap[..], b.q.heapLen, leaves, f, b.q.depth[..]);
    b.Heapify(desc);
    assert desc.fc[..] == f;
    StartMerging(b.q.heap[..], b.q.heapLen, f, b.q.depth[..], desc.dl[..], desc.elems, leaves);
    assert f[..desc.elems] == desc.fc[..desc.elems];
  }

  lemma SomeLeaf(h: seq<nat>, len: nat, leaves: set<nat>)
    requires 1 <= len < |h| && Content(h, len) == multiset(leaves)
    ensures leaves != {}
  {
    InContent(h, len);
  }

  lemma LeavesBelow(f: seq<nat>, n: nat)
    requires n <= |f|
    ensures forall v: nat :: v in Leaves(f, n) <==> v < n && f[v] != 0
  {
  }

  lemma QueueIsTwo(heap: seq<nat>, len: nat, f: seq<nat>, d: seq<nat>, dl: seq<nat>, f0: seq<nat>, leaves: set<nat>)
    returns (u: nat, v: nat)
    requires Built(heap, len, f, d, dl, f0, leaves, []) && len == 2
    ensures u != v && leaves == {u, v}
  {
    u, v := heap[1], heap[2];
    TwoEntries(heap, leaves);
  }

  /** The bits charged under the frequencies before forcing. */
  lemma ChargeTotals(desc: TreeDesc, f0: seq<nat>, f1: seq<nat>, forced: set<nat>, lens: seq<nat>)
    requires desc.Valid() && |f0| == |f1| >= desc.elems >= |lens| && Forced(f1, f0, forced)
    requires forall n :: n in forced ==> n < |lens| && lens[n] == 1
    ensures Sum(Charges(f1, lens, Extras(desc, |lens|)))
         == Sum(Charges(f0, lens, Extras(desc, |lens|))) + Over(forced, Ones(desc.elems))
    ensures StaticCharge(desc, Sum(Charges(f1, StaticLens(desc, |lens|), Extras(desc, |lens|))))
         == StaticCharge(desc, Sum(Charges(f0, StaticLens(desc, |lens|), Extras(desc, |lens|))))
            + Over(forced, Costs(desc.staticLen, desc.elems))
  {
    var extra := Extras(desc, |lens|);
    forall n | n in forced
      ensures extra[n] == 0
    {
      assert desc.Extra(n) == 0;
    }
    ForcedCharges(f0, f1, forced, lens, extra, Ones(desc.elems));
    if desc.staticLen != null {
      ForcedCharges(f0, f1, forced, StaticLens(desc, |lens|), extra, Costs(desc.staticLen, desc.elems));
    } else {
      SumConstant(Masked(forced, Costs(null, desc.elems)), 0);
    }
  }

  lemma ForcedAreShort(f0: seq<nat>, f1: seq<nat>, forced: set<nat>, leaves: set<nat>, lens: seq<nat>, limit: nat, u: nat, v: nat)
    requires Forced(f1, f0, forced) && |lens| <= |f1| && leaves == Leaves(f1, |lens|)
    requires FullCode(lens, limit, leaves) && limit > 0 && leaves == {u, v} && u != v
    ensures forall n :: 0 <= n < |lens| && f1[n] > 0 ==> lens[n] == 1
  {
    assert u in leaves && v in leaves;
    TwoLeaves(lens, limit, leaves, u, v);
    forall n | 0 <= n < |lens| && f1[n] > 0
      ensures lens[n] == 1
    {
      assert n in leaves;
    }
  }

  /** The shape of a result, from its parts. */
  lemma ResultBuilt(f0: seq<nat>, f1: seq<nat>, forced: set<nat>, fc: seq<nat>, dl: seq<nat>, limit: nat, maxCode: int, elems: nat)
    requires 0 <= maxCode < elems <= |f0| && elems <= |dl| == |fc| && |f1| == |f0| && limit > 0
    requires Forced(f1, f0, forced) && Greatest(f1, elems, maxCode)
    requires FullCode(dl[..maxCode + 1], limit, Leaves(f1, elems))
    requires Coded(fc, dl[..maxCode + 1], maxCode + 1)
    requires forall n :: maxCode < n < elems ==> dl[n] == 0
    ensures TreeBuilt(f0[..elems], fc, dl, limit, maxCode)
  {
    hide Coded, Kraft;
    LeavesBelow(f1, elems);
    var lens := dl[..maxCode + 1];
    assert maxCode in Leaves(f1, elems) && lens[maxCode] > 0;
    forall n | 0 <= n < elems && f0[n] > 0
      ensures n <= maxCode && n in Leaves(f1, elems)
    {
      assert n !in forced;
    }
  }

  lemma DecodableAt15(lens: seq<nat>, limit: nat, leaves: set<nat>)
    requires FullCode(lens, limit, leaves) && limit <= 15
    ensures Decodable(lens, 15) && Decodable(lens, limit)
  {
    KraftScale(lens, limit, 15 - limit);
  }

  lemma ForcedSlice(f1: seq<nat>, f0: seq<nat>, forced: set<nat>, elems: nat)
    requires Forced(f1, f0, forced) && 3 <= elems <= |f0|
    ensures Forced(f1[..elems], f0[..elems], forced)
    ensures Leaves(f1[..elems], elems) == Leaves(f1, elems)
  {
  }

  /** The order and optimality of the lengths, for the original frequencies. */
  lemma TreeQuality(heap: seq<nat>, f: seq<nat>, f0: seq<nat>, f1: seq<nat>, forced: set<nat>, leaves: set<nat>,
                    pairs: seq<Pair>, limit: nat, depths: seq<nat>, dl: seq<nat>, size: nat, u: nat, v: nat)
    requires Forced(f1, f0, forced) && leaves == Leaves(f1, |f1|) && 0 < limit && size <= |f1| && size <= |dl|
    requires Listed(heap, |f1|, leaves, pairs) && Frequencies(f, f1, leaves, pairs)
    requires Depths(|f1|, leaves, pairs, limit, depths) && |depths| == |f1| + |pairs|
    requires FullCode(dl[..size], limit, leaves)
    requires forall n :: n in leaves ==> n < size
    requires if Excess(|f1|, pairs, limit, depths, 0) == 0 then forall n :: n in leaves ==> dl[n] == depths[n]
             else Descending(heap, First(pairs), dl, size)
    requires forced != {} ==> leaves == {u, v} && u != v
    ensures Monotone(f0, dl[..size])
    ensures Excess(|f1|, pairs, limit, depths, 0) == 0 || forced != {} ==> Cheapest(f0, dl[..size])
    ensures Excess(|f1|, pairs, limit, depths, 0) == 0 || forced != {} || Sum(f0) >= Heavy(limit)
  {
    hide Kraft, Listed, Frequencies, Depths, Excess, Descending, Monotone, Cheapest, Heavy, Sum;
    var lens := dl[..size];
    if forced != {} {
      assert Leaves(f1, size) == leaves;
      ForcedAreShort(f0, f1, forced, leaves, lens, limit, u, v);
      OneBitIsCheapest(f0, lens);
    } else {
      assert f1 == f0;
      if Excess(|f1|, pairs, limit, depths, 0) == 0 {
        ListedParts(heap, |f1|, leaves, pairs);
        TreeIsCheapest(f, f0, leaves, pairs, limit, depths, lens);
        CheapestIsMonotone(f0, lens, limit);
      } else {
        ListedParts(heap, |f1|, leaves, pairs);
        DeepTreeIsHeavy(f, f0, leaves, pairs, limit, depths);
        DescendingIsMonotone(heap, f, f0, leaves, pairs, dl, size);
      }
    }
  }

  /** The tree as merged, with the frequencies `f1` after forcing. */
  method GrowTree(b: TreeBuilder, desc: TreeDesc)
    returns (ghost f1: seq<nat>, ghost forced: set<nat>, ghost leaves: set<nat>, ghost pairs: seq<Pair>, ghost u: nat, ghost v: nat)
    requires b.Ready(desc) && Sum(desc.fc[..desc.elems]) <= 0xffff - 3
    modifies b, b.q`heapLen, b.q.heap, b.q.depth, desc.fc, desc.dl, desc`maxCode
    ensures 0 <= desc.maxCode && |f1| == desc.fc.Length && leaves == Leaves(f1, desc.elems)
    ensures Greatest(f1, desc.elems, desc.maxCode) && Forced(f1, old(desc.fc[..]), forced)
    ensures forced != {} ==> leaves == {u, v} && u != v
    ensures Listed(b.q.heap[..], desc.elems, leaves, pairs) && b.heapMax == First(pairs)
    ensures desc.elems + |pairs| <= desc.dl.Length && Fathers(desc.dl[..], desc.elems, pairs)
    ensures Frequencies(desc.fc[..], f1[..desc.elems], leaves, pairs)
    ensures forall n :: 0 <= n < desc.elems ==> desc.fc[n] == f1[n]
    ensures forall n :: 0 <= n < desc.elems && n !in leaves ==> desc.dl[n] == 0
    ensures b.optLen == old(b.optLen) - Over(forced, Ones(desc.elems))
    ensures b.staticLen == old(b.staticLen) - Over(forced, Costs(desc.staticLen, desc.elems))
  {
    hide Content, HeapFrom, Leaves, Over, Built, Nodes, Sum, Fathers, Frequencies, Listed, Recorded, Complete, Forced, Costs, Ones;
    ghost var f0, elems := desc.fc[..], desc.elems;
    forced := PrepareLeaves(b, desc);
    f1, leaves := desc.fc[..], Leaves(desc.fc[..], elems);
    TotalFrequency(f1, f0, elems, forced);
    u, v := 0, 0;
    if forced != {} {
      u, v := QueueIsTwo(b.q.heap[..], 2, f1, b.q.depth[..], desc.dl[..], f1[..elems], leaves);
    }
    pairs := MergeNodes(b, desc, f1[..elems], leaves);
    ListedHolds(b.q.heap[..], elems, leaves, pairs);
    SameLeaves(f1, desc.fc[..], elems, leaves, pairs);
  }

  /** The tree with its code lengths, counts and charges. */
  method MeasureTree(b: TreeBuilder, desc: TreeDesc) returns (ghost f1: seq<nat>, ghost forced: set<nat>, ghost growth: Growth)
    requires b.Ready(desc) && Sum(desc.fc[..desc.elems]) <= 0xffff - 3
    modifies b, b.q`heapLen, b.q.heap, b.q.depth, b.blCount, desc.fc, desc.dl, desc`maxCode
    ensures 0 <= desc.maxCode < desc.elems && |f1| == desc.fc.Length
    ensures Greatest(f1, desc.elems, desc.maxCode) && Forced(f1, old(desc.fc[..]), forced)
    ensures FullCode(desc.dl[..desc.maxCode + 1], desc.maxLength, Leaves(f1, desc.elems))
    ensures Counted(b.blCount[..], desc.dl[..desc.maxCode + 1])
    ensures forall n :: desc.maxCode < n < desc.elems ==> desc.dl[n] == 0
    ensures var (f0, lens) := (old(desc.fc[..desc.elems]), desc.dl[..desc.maxCode + 1]);
      && b.optLen == old(b.optLen) + Sum(Charges(f0, lens, Extras(desc, |lens|)))
      && b.staticLen == old(b.staticLen)
         + StaticCharge(desc, Sum(Charges(f0, StaticLens(desc, |lens|), Extras(desc, |lens|))))
      && Good(f0, lens, desc.maxLength, growth)
  {
    hide Heavy, Leaves, Over, Sum, Charges, Kraft, Fathers, Frequencies, Listed,
         Depths, Excess, Descending, Good, Forced, Counted, Costs, Ones, StaticCharge;
    ghost var f0, elems := desc.fc[..], desc.elems;
    ghost var leaves, pairs, u, v;
    f1, forced, leaves, pairs, u, v := GrowTree(b, desc);
    ghost var heap, f2 := b.q.heap[..], desc.fc[..];
    LeavesBelow(f1, elems);
    ghost var depths := GenBitlen(b, desc, leaves, pairs);
    DepthsLength(elems, leaves, pairs, desc.maxLength, depths);
    growth := Growth(forced, f2, pairs, depths);
    ghost var dl, size := desc.dl[..], desc.maxCode + 1;
    ghost var lens := dl[..size];
    ghost var g0, g1 := f0[..elems], f1[..elems];
    ForcedSlice(f1, f0, forced, elems);
    GrowthIsGood(heap, f2, g0, g1, leaves, desc.maxLength, growth, dl, size, u, v);
    ForcedLens(f0, f1, forced, elems, leaves, lens, desc.maxLength, u, v);
    ChargesSame(f2, g1, lens, Extras(desc, size));
    ChargesSame(f2, g1, StaticLens(desc, size), Extras(desc, size));
    ChargeTotals(desc, g0, g1, forced, lens);
  }

  lemma GrowthIs(heap: seq<nat>, f: seq<nat>, f0: seq<nat>, f1: seq<nat>, leaves: set<nat>, limit: nat, t: Growth)
    requires Forced(f1, f0, t.forced) && leaves == Leaves(f1, |f1|) && t.freq == f
    requires Listed(heap, |f1|, leaves, t.pairs) && Frequencies(f, f1, leaves, t.pairs)
    requires Depths(|f1|, leaves, t.pairs, limit, t.depths) && |t.depths| == |f1| + |t.pairs|
    ensures Grown(f0, t, limit)
  {
    hide Depths, Complete;
    ListedParts(heap, |f1|, leaves, t.pairs);
    assert f[..|f1|] == f1;
    assert forall k :: 0 <= k < |f1| ==> f[k] == f[..|f1|][k];
    assert Leaves(f, |f1|) == leaves;
  }

  /** The code made from a tree is as good as its growth says. */
  lemma GrowthIsGood(heap: seq<nat>, f: seq<nat>, f0: seq<nat>, f1: seq<nat>, leaves: set<nat>, limit: nat, t: Growth,
                     dl: seq<nat>, size: nat, u: nat, v: nat)
    requires Forced(f1, f0, t.forced) && leaves == Leaves(f1, |f1|) && 0 < limit && size <= |f1| && size <= |dl| && t.freq == f
    requires Listed(heap, |f1|, leaves, t.pairs) && Frequencies(f, f1, leaves, t.pairs)
    requires Depths(|f1|, leaves, t.pairs, limit, t.depths) && |t.depths| == |f1| + |t.pairs|
    requires FullCode(dl[..size], limit, leaves)
    requires forall n :: n in leaves ==> n < size
    requires if Excess(|f1|, t.pairs, limit, t.depths, 0) == 0 then forall n :: n in leaves ==> dl[n] == t.depths[n]
             else Descending(heap, First(t.pairs), dl, size)
    requires t.forced != {} ==> leaves == {u, v} && u != v
    ensures Good(f0, dl[..size], limit, t)
  {
    hide Kraft, Listed, Frequencies, Depths, Excess, Descending, Monotone, Cheapest, Heavy, Sum, Grown, Leaves;
    TreeQuality(heap, f, f0, f1, t.forced, leaves, t.pairs, limit, t.depths, dl, size, u, v);
    GrowthIs(heap, f, f0, f1, leaves, limit, t);
  }

  lemma DepthsLength(elems: nat, leaves: set<nat>, pairs: seq<Pair>, limit: nat, lens: seq<nat>)
    requires Depths(elems, leaves, pairs, limit, lens)
    ensures |lens| == elems + |pairs|
  {
  }

  /** Builds a Huffman tree for the frequencies in `desc.fc` and assigns code lengths and codes. The code is the
      cheapest of all unless the tree that grew is deeper than the limit, which takes many occurrences. */
  method BuildTree(b: TreeBuilder, desc: TreeDesc) returns (ghost growth: Growth)
    requires b.Ready(desc) && Sum(desc.fc[..desc.elems]) <= 0xffff - 3
    modifies b, b.q`heapLen, b.q.heap, b.q.depth, b.blCount, desc.fc, desc.dl, desc`maxCode
    ensures TreeBuilt(old(desc.fc[..desc.elems]), desc.fc[..], desc.dl[..], desc.maxLength, desc.maxCode)
    ensures var (f0, lens) := (old(desc.fc[..desc.elems]), desc.dl[..desc.maxCode + 1]);
      && b.optLen == old(b.optLen) + Sum(Charges(f0, lens, Extras(desc, |lens|)))
      && b.staticLen == old(b.staticLen)
         + StaticCharge(desc, Sum(Charges(f0, StaticLens(desc, |lens|), Extras(desc, |lens|))))
      && Good(f0, lens, desc.maxLength, growth)
  {
    hide Heavy, Leaves, Sum, Charges, Kraft, Coded, Monotone, Cheapest, Forced, Counted, TreeBuilt, FullCode, StaticCharge, Good;
    ghost var f0 := desc.fc[..];
    ghost var f1, forced;
    f1, forced, growth := MeasureTree(b, desc);
    ghost var dl, lens := desc.dl[..], desc.dl[..desc.maxCode + 1];
    DecodableAt15(lens, desc.maxLength, Leaves(f1, desc.elems));
    GenCodes(desc.fc, desc.dl, b.blCount, desc.maxCode);
    assert desc.dl[..] == dl;
    ResultBuilt(f0, f1, forced, desc.fc[..], dl, desc.maxLength, desc.maxCode, desc.elems);
  }

  lemma ForcedLens(f0: seq<nat>, f1: seq<nat>, forced: set<nat>, elems: nat, leaves: set<nat>, lens: seq<nat>, limit: nat, u: nat, v: nat)
    requires Forced(f1, f0, forced) && |lens| <= elems <= |f1| && 3 <= elems && leaves == Leaves(f1, elems) && limit > 0
    requires FullCode(lens, limit, leaves) && forall n :: n in leaves ==> n < |lens|
    requires forced != {} ==> leaves == {u, v} && u != v
    ensures forall n :: n in forced ==> n < |lens| && lens[n] == 1
  {
    hide Kraft;
    if forced != {} {
      assert u in leaves && v in leaves;
      TwoLeaves(lens, limit, leaves, u, v);
      forall n | n in forced
        ensures n in leaves
      {
      }
    }
  }

  lemma ListedHolds(heap: seq<nat>, elems: nat, leaves: set<nat>, pairs: seq<Pair>)
    requires Complete(elems, leaves, pairs) && Recorded(heap, pairs)
    requires HEAP_SIZE - 2 * |pairs| - 1 >= 1 && heap[HEAP_SIZE - 2 * |pairs| - 1] == Root(elems, pairs)
    ensures Listed(heap, elems, leaves, pairs)
  {
  }

  /** Merging does not change the frequencies of the symbols. */
  lemma SameLeaves(f1: seq<nat>, f2: seq<nat>, elems: nat, leaves: set<nat>, pairs: seq<Pair>)
    requires elems <= |f1| && Frequencies(f2, f1[..elems], leaves, pairs)
    ensures elems <= |f2| && f2[..elems] == f1[..elems]
    ensures forall n :: 0 <= n < elems ==> f2[n] == f1[n]
  {
    forall n | 0 <= n < elems
      ensures f2[n] == f1[n]
    {
      assert f2[..elems][n] == f1[..elems][n];
    }
  }
}
