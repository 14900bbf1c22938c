/** The construction of one Huffman tree, fourth part: lengths that overflow the limit. */
module LengthLimit {
  import opened Bits
  import opened Rfc1951
  import opened Sums
  import opened PrefixCodes
  import opened LengthCounts
  import opened Heaps
  import opened Merges
  import opened MergeLoop
  import opened TreeOrder
  import opened TreeBuilders
  import opened BitLengths

  /** `excess` more units of code space are taken than there are. */
  ghost predicate Overfull(c: seq<nat>, limit: nat, excess: nat, number: nat)
  {
    && |c| == 16 && 1 <= limit <= 15
    && SpaceOf(c, limit, limit) == Pow2(limit) + excess
    && NumberOf(c, limit) == number <= Pow2(limit)
    && excess <= c[limit]
  }

  lemma OverfullStep(c: seq<nat>, limit: nat, excess: nat, number: nat, b: nat)
    requires Overfull(c, limit, excess, number) && excess > 0 && 1 <= b < limit && c[b] > 0
    ensures var c1 := c[b := c[b] - 1];
      var c2 := c1[b + 1 := c1[b + 1] + 2];
      && c2[limit] > 0
      && Overfull(c2[limit := c2[limit] - 1], limit, excess - 1, number)
  {
    var c1, c2, c3 := MoveDown(c, limit, b);
  }

  /** Makes the counts fit: each round moves one leaf down to make room for an overflow item. */
  method RepairCounts(b: TreeBuilder, limit: nat, overflow0: nat, ghost number: nat)
    requires b.Valid() && overflow0 > 0 && overflow0 % 2 == 0
    requires Overfull(b.blCount[..], limit, overflow0 / 2, number)
    modifies b.blCount
    ensures Overfull(b.blCount[..], limit, 0, number)
    ensures forall i :: 0 <= i < 16 && !(1 <= i <= limit) ==> b.blCount[i] == old(b.blCount[i])
  {
    hide SpaceOf, NumberOf;
    var overflow: int := overflow0;
    while overflow > 0
      invariant overflow >= 0 && overflow % 2 == 0
      invariant Overfull(b.blCount[..], limit, overflow / 2, number)
      invariant forall i :: 0 <= i < 16 && !(1 <= i <= limit) ==> b.blCount[i] == old(b.blCount[i])
    {
      ghost var c := b.blCount[..];
      ShorterExists(c, limit);
      var bits := limit - 1;
      while b.blCount[bits] == 0
        invariant 1 <= bits < limit && b.blCount[..] == c
        invariant forall i :: bits < i < limit ==> c[i] == 0
        decreases bits
      {
        bits := bits - 1;
      }
      OverfullStep(c, limit, overflow / 2, number, bits);
      MoveLeaf(b, bits, limit);
      overflow := overflow - 2;
    }
  }

  /** One leaf goes down a level and gets an overflow item as its brother. */
  method MoveLeaf(b: TreeBuilder, bits: nat, limit: nat)
    requires b.Valid() && 1 <= bits < limit <= 15 && b.blCount[bits] > 0
    requires limit == bits + 1 || b.blCount[limit] > 0
    modifies b.blCount
    ensures var c := old(b.blCount[..]);
      var c1 := c[bits := c[bits] - 1];
      var c2 := c1[bits + 1 := c1[bits + 1] + 2];
      c2[limit] > 0 && b.blCount[..] == c2[limit := c2[limit] - 1]
  {
    b.blCount[bits] := b.blCount[bits] - 1;
    b.blCount[bits + 1] := b.blCount[bits + 1] + 2;
    b.blCount[limit] := b.blCount[limit] - 1;
  }

  /** The entries from `h` on have been given lengths, longest first: all of more than `bits` bits
      in `c` and all but `left` of those of `bits` bits. */
  ghost predicate Dealt(heap: seq<nat>, h: nat, dl: seq<nat>, c: seq<nat>, bits: nat, left: nat, limit: nat, size: nat)
  {
    && h <= |heap| && size <= |dl| && |c| == 16 && bits <= limit <= 15 && left <= c[bits]
    && (forall b :: 1 <= b <= limit ==> DealtOf(heap[h..], dl, c, bits, left, size, b))
    && (forall v :: v in heap[h..] && v < size ==> bits <= dl[v] <= limit)
  }

  ghost predicate DealtOf(seen: seq<nat>, dl: seq<nat>, c: seq<nat>, bits: nat, left: nat, size: nat, b: nat)
    requires size <= |dl| && b < |c| && (b == bits ==> left <= c[b])
  {
    Count(SeenAt(seen, dl, size), b) == if b < bits then 0 else if b == bits then c[b] - left else c[b]
  }

  /** Entries further up in the list do not have longer codes. */
  ghost predicate Descending(heap: seq<nat>, h: nat, dl: seq<nat>, size: nat)
    requires h <= |heap| && size <= |dl|
  {
    forall p, q :: h <= p < q < |heap| && heap[p] < size && heap[q] < size ==> dl[heap[p]] <= dl[heap[q]]
  }

  lemma DealSkip(heap: seq<nat>, h: nat, dl: seq<nat>, c: seq<nat>, bits: nat, left: nat, limit: nat, size: nat)
    requires Dealt(heap, h, dl, c, bits, left, limit, size) && h > 0 && heap[h - 1] >= size
    requires Descending(heap, h, dl, size)
    ensures Dealt(heap, h - 1, dl, c, bits, left, limit, size) && Descending(heap, h - 1, dl, size)
  {
    assert heap[h - 1..] == [heap[h - 1]] + heap[h..];
    var seen := heap[h - 1..];
    assert SeenAt(seen, dl, size) == SeenAt(heap[h..], dl, size);
    forall b | 1 <= b <= limit
      ensures DealtOf(seen, dl, c, bits, left, size, b)
    {
      assert DealtOf(heap[h..], dl, c, bits, left, size, b);
    }
  }

  lemma DealOne(heap: seq<nat>, h: nat, dl: seq<nat>, c: seq<nat>, bits: nat, left: nat, limit: nat, size: nat)
    requires Dealt(heap, h, dl, c, bits, left, limit, size) && h > 0 && heap[h - 1] < size
    requires heap[h - 1] !in heap[h..] && left > 0 && bits > 0
    requires Descending(heap, h, dl, size)
    ensures Dealt(heap, h - 1, dl[heap[h - 1] := bits], c, bits, left - 1, limit, size)
    ensures Descending(heap, h - 1, dl[heap[h - 1] := bits], size)
  {
    var v, dl' := heap[h - 1], dl[heap[h - 1] := bits];
    assert heap[h - 1..] == [v] + heap[h..];
    var lens := SeenAt(heap[h..], dl, size);
    var seen, less := heap[h - 1..], left - 1;
    assert SeenAt(seen, dl', size) == lens[v := bits];
    forall b | 1 <= b <= limit
      ensures DealtOf(seen, dl', c, bits, less, size, b)
    {
      assert DealtOf(heap[h..], dl, c, bits, left, size, b);
      CountUpdate(lens, v, bits, b);
    }
    forall q | h <= q < |heap| && heap[q] < size
      ensures bits <= dl'[heap[q]]
    {
      assert heap[q] == heap[h..][q - h];
    }
  }

  lemma DealShorter(heap: seq<nat>, h: nat, dl: seq<nat>, c: seq<nat>, bits: nat, limit: nat, size: nat)
    requires Dealt(heap, h, dl, c, bits, 0, limit, size) && bits > 0
    ensures Dealt(heap, h, dl, c, bits - 1, c[bits - 1], limit, size)
  {
    var seen, next := heap[h..], bits - 1;
    var left := c[next];
    forall b | 1 <= b <= limit
      ensures DealtOf(seen, dl, c, next, left, size, b)
    {
      assert DealtOf(seen, dl, c, bits, 0, size, b);
    }
  }

  lemma DealNone(heap: seq<nat>, dl: seq<nat>, c: seq<nat>, limit: nat, size: nat)
    requires size <= |dl| && |c| == 16 && limit <= 15
    ensures Dealt(heap, |heap|, dl, c, limit, c[limit], limit, size) && Descending(heap, |heap|, dl, size)
  {
    var seen, left := heap[|heap|..], c[limit];
    assert seen == [];
    forall b | 1 <= b <= limit
      ensures DealtOf(seen, dl, c, limit, left, size, b)
    {
      NoCount(SeenAt(seen, dl, size), b);
    }
  }

  /** The leaves, and only they, have lengths; there are as many as lengths to deal. */
  ghost predicate Lengths(dl: seq<nat>, leaves: set<nat>, c: seq<nat>, limit: nat, size: nat)
  {
    && size <= |dl| && limit < |c|
    && (forall n :: 0 <= n < size ==> if n in leaves then 1 <= dl[n] <= limit else dl[n] == 0)
    && NumberAtMost(dl[..size], limit) == NumberOf(c, limit)
  }

  lemma DealtNumber(heap: seq<nat>, h: nat, dl: seq<nat>, c: seq<nat>, bits: nat, left: nat, limit: nat, size: nat)
    requires Dealt(heap, h, dl, c, bits, left, limit, size)
    ensures NumberAtMost(SeenAt(heap[h..], dl, size), limit) <= NumberOf(c, limit)
    ensures left > 0 && bits > 0 ==> NumberAtMost(SeenAt(heap[h..], dl, size), limit) < NumberOf(c, limit)
    ensures bits == 0 ==> NumberAtMost(SeenAt(heap[h..], dl, size), limit) == NumberOf(c, limit)
  {
    var lens := SeenAt(heap[h..], dl, size);
    var d := seq(16, b requires 0 <= b < 16 => Count(lens, b));
    NumberSplit(d, lens, limit);
    forall b | 1 <= b <= limit
      ensures d[b] == (if b < bits then 0 else if b == bits then c[b] - left else c[b])
    {
      assert DealtOf(heap[h..], dl, c, bits, left, size, b);
    }
    NumberLess(d, c, limit, bits);
    if bits == 0 {
      NumberLess(c, d, limit, 0);
    }
  }

  /** While lengths are left, so are leaves. */
  lemma LeafLeft(heap: seq<nat>, h: nat, dl: seq<nat>, c: seq<nat>, bits: nat, left: nat, limit: nat, size: nat,
                 elems: nat, leaves: set<nat>, pairs: seq<Pair>)
    requires Listed(heap, elems, leaves, pairs) && First(pairs) < h && size <= elems
    requires Dealt(heap, h, dl, c, bits, left, limit, size) && Lengths(dl, leaves, c, limit, size)
    requires left > 0 && bits > 0
    ensures h > First(pairs) + 1
  {
    if h == First(pairs) + 1 {
      var seen := heap[h..];
      assert seen == heap[First(pairs) + 1..HEAP_SIZE];
      forall n | 0 <= n < size
        ensures 1 <= SeenAt(seen, dl, size)[n] <= limit <==> 1 <= dl[..size][n] <= limit
      {
        if n in leaves {
          LeafListed(heap, elems, leaves, pairs, n);
        }
      }
      SameNumber(SeenAt(seen, dl, size), dl[..size], limit);
      DealtNumber(heap, h, dl, c, bits, left, limit, size);
    }
  }

  /** When all lengths have been dealt, every leaf has got one. */
  lemma AllDealt(heap: seq<nat>, h: nat, dl: seq<nat>, c: seq<nat>, limit: nat, size: nat, leaves: set<nat>)
    requires |c| == 16 && Dealt(heap, h, dl, c, 0, c[0], limit, size) && Lengths(dl, leaves, c, limit, size)
    ensures forall v :: v in leaves && v < size ==> v in heap[h..]
    ensures forall b :: 1 <= b <= limit ==> Count(dl[..size], b) == c[b]
  {
    var lens := SeenAt(heap[h..], dl, size);
    DealtNumber(heap, h, dl, c, 0, c[0], limit, size);
    forall v | v in leaves && v < size
      ensures v in heap[h..]
    {
      if v !in heap[h..] {
        FewerNumbers(lens, dl[..size], limit, v);
      }
    }
    assert lens == dl[..size];
    forall b | 1 <= b <= limit
      ensures Count(dl[..size], b) == c[b]
    {
      assert DealtOf(heap[h..], dl, c, 0, c[0], size, b);
    }
  }

  lemma ChargeChange(f: seq<nat>, lens: seq<nat>, extra: seq<nat>, v: nat, x: nat)
    requires v < |lens| <= |f| && |lens| <= |extra|
    ensures Sum(Charges(f, lens[v := x], extra)) == Sum(Charges(f, lens, extra)) + (x - lens[v]) * f[v]
  {
    SumChange(Charges(f, lens, extra), Charges(f, lens[v := x], extra), v);
    assert f[v] * (x + extra[v]) == f[v] * (lens[v] + extra[v]) + (x - lens[v]) * f[v];
  }

  lemma LengthsStep(dl: seq<nat>, leaves: set<nat>, c: seq<nat>, limit: nat, size: nat, v: nat, x: nat)
    requires Lengths(dl, leaves, c, limit, size) && v in leaves && v < size && 1 <= x <= limit
    ensures Lengths(dl[v := x], leaves, c, limit, size)
    ensures dl[v := x][..size] == dl[..size][v := x]
  {
    SameNumber(dl[..size], dl[v := x][..size], limit);
  }

  lemma EntryUnseen(heap: seq<nat>, elems: nat, leaves: set<nat>, pairs: seq<Pair>, h: nat)
    requires Listed(heap, elems, leaves, pairs) && First(pairs) < h < HEAP_SIZE
    ensures heap[h] !in heap[h + 1..]
    ensures heap[h] < elems ==> heap[h] in leaves
  {
    if heap[h] < elems {
      ListedLeaf(heap, elems, leaves, pairs, h);
    }
    forall k | h + 1 <= k < HEAP_SIZE
      ensures heap[k] != heap[h]
    {
      NotBefore(heap, elems, leaves, pairs, k);
      assert heap[h] == heap[First(pairs)..k][h - First(pairs)];
    }
  }

  /** Gives one leaf a new length and adjusts the bits charged for it. */
  method SetLength(b: TreeBuilder, desc: TreeDesc, m: nat, bits: nat)
    requires b.Ready(desc) && m < desc.elems
    modifies b`optLen, desc.dl
    ensures desc.dl[..] == old(desc.dl[..])[m := bits]
    ensures b.optLen == old(b.optLen) + (bits - old(desc.dl[m])) * desc.fc[m]
  {
    if desc.dl[m] != bits {
      b.optLen := b.optLen + (bits - desc.dl[m]) * desc.fc[m];
      desc.dl[m] := bits;
    }
  }

  /** Deals the lengths out again, the longest to the least frequent leaves. */
  method Reassign(b: TreeBuilder, desc: TreeDesc, ghost leaves: set<nat>, ghost pairs: seq<Pair>)
    requires b.Ready(desc) && Listed(b.q.heap[..], desc.elems, leaves, pairs)
    requires 0 <= desc.maxCode < desc.elems && First(pairs) < HEAP_SIZE
    requires Lengths(desc.dl[..], leaves, b.blCount[..], desc.maxLength, desc.maxCode + 1)
    modifies b`optLen, desc.dl
    ensures var size := desc.maxCode + 1;
      && Lengths(desc.dl[..], leaves, b.blCount[..], desc.maxLength, size)
      && (forall n :: 1 <= n <= desc.maxLength ==> b.blCount[n] == Count(desc.dl[..size], n))
      && (forall n :: size <= n < desc.dl.Length ==> desc.dl[n] == old(desc.dl[n]))
      && b.optLen - Sum(Charges(desc.fc[..], desc.dl[..size], Extras(desc, size)))
         == old(b.optLen - Sum(Charges(desc.fc[..], desc.dl[..size], Extras(desc, size))))
      && Descending(b.q.heap[..], First(pairs), desc.dl[..], size)
  {
    hide Sum, Charges, Count, Listed, Dealt, Lengths, Descending;
    ghost var heap, f, c, dl := b.q.heap[..], desc.fc[..], b.blCount[..], desc.dl[..];
    ghost var elems, limit, size := desc.elems, desc.maxLength, desc.maxCode + 1;
    ghost var extra := Extras(desc, size);
    ListedParts(heap, elems, leaves, pairs);
    DealNone(heap, dl, c, limit, size);
    var h: nat := HEAP_SIZE;
    var bits: nat := desc.maxLength;
    while bits != 0
      invariant bits <= limit && First(pairs) < h <= HEAP_SIZE && dl == desc.dl[..]
      invariant Dealt(heap, h, dl, c, bits, c[bits], limit, size) && Descending(heap, h, dl, size)
      invariant Lengths(dl, leaves, c, limit, size)
      invariant forall n :: size <= n < |dl| ==> dl[n] == old(desc.dl[n])
      invariant b.optLen - Sum(Charges(f, dl[..size], extra)) == old(b.optLen - Sum(Charges(desc.fc[..], desc.dl[..size], extra)))
    {
      var n := b.blCount[bits];
      while n != 0
        invariant 0 <= n <= c[bits] && First(pairs) < h <= HEAP_SIZE && dl == desc.dl[..]
        invariant Dealt(heap, h, dl, c, bits, n, limit, size) && Descending(heap, h, dl, size)
        invariant Lengths(dl, leaves, c, limit, size)
        invariant forall n :: size <= n < |dl| ==> dl[n] == old(desc.dl[n])
        invariant b.optLen - Sum(Charges(f, dl[..size], extra)) == old(b.optLen - Sum(Charges(desc.fc[..], desc.dl[..size], extra)))
        decreases h
      {
        LeafLeft(heap, h, dl, c, bits, n, limit, size, elems, leaves, pairs);
        EntryUnseen(heap, elems, leaves, pairs, h - 1);
        h := h - 1;
        var m := b.q.heap[h];
        if m > desc.maxCode {
          DealSkip(heap, h + 1, dl, c, bits, n, limit, size);
          continue;
        }
        DealOne(heap, h + 1, dl, c, bits, n, limit, size);
        LengthsStep(dl, leaves, c, limit, size, m, bits);
        ChargeChange(f, dl[..size], extra, m, bits);
        SetLength(b, desc, m, bits);
        dl := dl[m := bits];
        n := n - 1;
      }
      DealShorter(heap, h, dl, c, bits, limit, size);
      bits := bits - 1;
    }
    AllDealt(heap, h, dl, c, limit, size, leaves);
    DescendAll(heap, h, dl, c, limit, size, elems, leaves, pairs);
  }

  /** Once all leaves have lengths, the order holds over the whole list. */
  lemma DescendAll(heap: seq<nat>, h: nat, dl: seq<nat>, c: seq<nat>, limit: nat, size: nat,
                   elems: nat, leaves: set<nat>, pairs: seq<Pair>)
    requires Listed(heap, elems, leaves, pairs) && size <= elems && First(pairs) < h <= HEAP_SIZE && size <= |dl|
    requires Descending(heap, h, dl, size) && forall v :: v in leaves && v < size ==> v in heap[h..]
    ensures Descending(heap, First(pairs), dl, size)
  {
    forall p | First(pairs) <= p < h && heap[p] < size
      ensures false
    {
      ListedLeaf(heap, elems, leaves, pairs, p);
      var q :| h <= q < HEAP_SIZE && heap[q] == heap[p];
      NotBefore(heap, elems, leaves, pairs, q);
    }
  }

  // ---------- From the tree to code lengths ----------

  lemma {:induction false} SumPadded(s: seq<int>, t: seq<int>)
    requires |s| <= |t| && t[..|s|] == s && forall k :: |s| <= k < |t| ==> t[k] == 0
    ensures Sum(t) == Sum(s)
  {
    SumConcat(s, t[|s|..]);
    SumConstant(t[|s|..], 0);
    assert t == s + t[|s|..];
  }

  lemma {:induction false} CountIsSum(lens: seq<nat>, b: nat)
    ensures Count(lens, b) == Sum(seq(|lens|, i requires 0 <= i < |lens| => if lens[i] == b then 1 else 0))
  {
    var s := seq(|lens|, i requires 0 <= i < |lens| => if lens[i] == b then 1 else 0);
    if lens != [] {
      var init := lens[..|lens| - 1];
      CountIsSum(init, b);
      assert s[..|lens| - 1] == seq(|init|, i requires 0 <= i < |init| => if init[i] == b then 1 else 0);
    }
  }

  /** The code space and the number of longest codes, read off the tree. */
  lemma LeafLengths(elems: nat, leaves: set<nat>, pairs: seq<Pair>, limit: nat, lens: seq<nat>, final: seq<nat>)
    requires Complete(elems, leaves, pairs) && Depths(elems, leaves, pairs, limit, lens) && limit > 0
    requires |final| <= elems && forall v :: v in leaves ==> v < |final|
    requires forall n :: 0 <= n < |final| ==> final[n] == if n in leaves then lens[n] else 0
    ensures forall n :: 0 <= n < |final| ==> final[n] <= limit && (n in leaves <==> final[n] > 0)
    ensures Kraft(final, limit) == Pow2(limit) + Excess(elems, pairs, limit, lens, 0)
    ensures Count(final, limit) >= Excess(elems, pairs, limit, lens, 0)
  {
    assert pairs[..0] == [];
    forall n | 0 <= n < |final| && n in leaves
      ensures 0 < lens[n] <= limit
    {
      DepthBound(elems, leaves, pairs, limit, lens, 0, n);
    }
    SpaceSum(elems, leaves, pairs, limit, lens, 0);
    SumPadded(Weights(final, limit), Masked(leaves, Spaces(lens, limit)));
    EnoughAtLimit(elems, leaves, pairs, limit, lens, 0);
    var ones := seq(|final|, i requires 0 <= i < |final| => if final[i] == limit then 1 else 0);
    CountIsSum(final, limit);
    SumPadded(ones, Masked(leaves, AtLimit(lens, limit)));
  }

  /** What generating the lengths establishes about the symbols up to `maxCode`. */
  ghost predicate FullCode(lens: seq<nat>, limit: nat, leaves: set<nat>)
  {
    && (forall n :: 0 <= n < |lens| ==> lens[n] <= limit && (n in leaves <==> lens[n] > 0))
    && Kraft(lens, limit) == Pow2(limit)
  }

  lemma OverfullCounts(c: seq<nat>, lens: seq<nat>, limit: nat, excess: nat)
    requires Counted(c, lens) && 1 <= limit <= 15 && |lens| <= Pow2(limit)
    requires forall n :: 0 <= n < |lens| ==> lens[n] <= limit
    requires Kraft(lens, limit) == Pow2(limit) + excess && Count(lens, limit) >= excess
    ensures Overfull(c, limit, excess, NumberOf(c, limit))
    ensures NumberAtMost(lens, limit) == NumberOf(c, limit)
  {
    SpaceIsKraft(c, lens, limit);
    NumberSplit(c, lens, limit);
    NumberBound(lens, limit);
  }

  lemma LengthsHold(dl: seq<nat>, leaves: set<nat>, c: seq<nat>, limit: nat, size: nat)
    requires size <= |dl| && limit < |c| && NumberAtMost(dl[..size], limit) == NumberOf(c, limit)
    requires forall n :: 0 <= n < size ==> dl[n] <= limit && (n in leaves <==> dl[n] > 0)
    ensures Lengths(dl, leaves, c, limit, size)
  {
  }

  lemma Repaired(dl: seq<nat>, leaves: set<nat>, c: seq<nat>, limit: nat, size: nat, number: nat)
    requires Lengths(dl, leaves, c, limit, size) && Overfull(c, limit, 0, number) && c[0] == 0
    requires forall n :: 1 <= n <= limit ==> c[n] == Count(dl[..size], n)
    requires forall n :: limit < n < 16 ==> c[n] == 0
    ensures FullCode(dl[..size], limit, leaves) && Counted(c, dl[..size])
  {
    forall b | 1 <= b < 16
      ensures c[b] == Count(dl[..size], b)
    {
      if b > limit {
        NoCount(dl[..size], b);
      }
    }
    SpaceIsKraft(c, dl[..size], limit);
  }

  lemma NoneLonger(c: seq<nat>, lens: seq<nat>, limit: nat)
    requires Counted(c, lens) && forall n :: 0 <= n < |lens| ==> lens[n] <= limit
    ensures forall b :: limit < b < 16 ==> c[b] == 0
  {
    forall b | limit < b < 16
      ensures c[b] == 0
    {
      NoCount(lens, b);
    }
  }

  /** The lengths of exactly the leaves are within the limit, but take up `excess` too much code space. */
  ghost predicate TooMuch(lens: seq<nat>, limit: nat, leaves: set<nat>, excess: nat)
  {
    && (forall n :: 0 <= n < |lens| ==> lens[n] <= limit && (n in leaves <==> lens[n] > 0))
    && Kraft(lens, limit) == Pow2(limit) + excess && Count(lens, limit) >= excess
  }

  /** Repairs the counts and deals the lengths anew. */
  method Repair(b: TreeBuilder, desc: TreeDesc, overflow: nat, ghost leaves: set<nat>, ghost pairs: seq<Pair>)
    requires b.Ready(desc) && Listed(b.q.heap[..], desc.elems, leaves, pairs) && First(pairs) < HEAP_SIZE
    requires 0 <= desc.maxCode < desc.elems && overflow > 0 && overflow % 2 == 0
    requires Counted(b.blCount[..], desc.dl[..desc.maxCode + 1])
    requires TooMuch(desc.dl[..desc.maxCode + 1], desc.maxLength, leaves, overflow / 2)
    modifies b`optLen, b.blCount, desc.dl
    ensures var size := desc.maxCode + 1;
      && FullCode(desc.dl[..size], desc.maxLength, leaves) && Counted(b.blCount[..], desc.dl[..size])
      && (forall n :: size <= n < desc.dl.Length ==> desc.dl[n] == old(desc.dl[n]))
      && b.optLen - Sum(Charges(desc.fc[..], desc.dl[..size], Extras(desc, size)))
         == old(b.optLen - Sum(Charges(desc.fc[..], desc.dl[..size], Extras(desc, size))))
      && Descending(b.q.heap[..], First(pairs), desc.dl[..], size)
  {
    hide Sum, Charges, Count, Listed, Lengths, Descending, Kraft, NumberOf, SpaceOf, Counted, Extras, FullCode;
    ghost var limit, size, first, c := desc.maxLength, desc.maxCode + 1, desc.dl[..desc.maxCode + 1], b.blCount[..];
    OverfullCounts(c, first, limit, overflow / 2);
    NoneLonger(c, first, limit);
    CountedZero(c, first);
    ghost var number := NumberOf(c, limit);
    RepairCounts(b, desc.maxLength, overflow, number);
    LengthsHold(desc.dl[..], leaves, b.blCount[..], limit, size);
    Reassign(b, desc, leaves, pairs);
    Repaired(desc.dl[..], leaves, b.blCount[..], limit, size, number);
  }

  /** Generates the code lengths of a finished tree. */
  method GenBitlen(b: TreeBuilder, desc: TreeDesc, ghost leaves: set<nat>, ghost pairs: seq<Pair>)
    returns (ghost depths: seq<nat>)
    requires b.Ready(desc) && Listed(b.q.heap[..], desc.elems, leaves, pairs) && b.heapMax == First(pairs)
    requires desc.elems + |pairs| <= desc.dl.Length && Fathers(desc.dl[..], desc.elems, pairs)
    requires 0 <= desc.maxCode < desc.elems && forall v :: v in leaves ==> v <= desc.maxCode
    requires forall n :: 0 <= n < desc.elems && n !in leaves ==> desc.dl[n] == 0
    requires forall n :: 0 <= n <= desc.maxCode && n !in leaves ==> desc.fc[n] == 0
    modifies b`optLen, b`staticLen, b.blCount, desc.dl
    ensures Depths(desc.elems, leaves, pairs, desc.maxLength, depths)
    ensures var size := desc.maxCode + 1;
      && FullCode(desc.dl[..size], desc.maxLength, leaves) && Counted(b.blCount[..], desc.dl[..size])
      && b.optLen == old(b.optLen) + Sum(Charges(desc.fc[..], desc.dl[..size], Extras(desc, size)))
      && b.staticLen == old(b.staticLen)
         + StaticCharge(desc, Sum(Charges(desc.fc[..], StaticLens(desc, size), Extras(desc, size))))
    ensures forall n :: desc.maxCode < n < desc.elems ==> desc.dl[n] == 0
    ensures if Excess(desc.elems, pairs, desc.maxLength, depths, 0) == 0
            then forall n :: n in leaves ==> desc.dl[n] == depths[n]
            else Descending(b.q.heap[..], First(pairs), desc.dl[..], desc.maxCode + 1)
  {
    hide Sum, Charges, Count, Listed, Lengths, Descending, Depths, Fathers, Excess, Kraft, NumberOf, SpaceOf, Counted;
    ghost var limit, size, heap := desc.maxLength, desc.maxCode + 1, b.q.heap[..];
    ListedParts(heap, desc.elems, leaves, pairs);
    var overflow;
    overflow, depths := FirstPass(b, desc, leaves, pairs);
    ghost var first := desc.dl[..size];
    LeafLengths(desc.elems, leaves, pairs, limit, depths, first);
    if overflow > 0 {
      Repair(b, desc, overflow, leaves, pairs);
    }
  }

  lemma CountedZero(c: seq<nat>, lens: seq<nat>)
    requires Counted(c, lens)
    ensures |c| == 16 && c[0] == 0
  {
  }
}
