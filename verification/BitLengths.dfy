/** The construction of one Huffman tree, third part: code lengths. */
module BitLengths {
  import opened Rfc1951
  import opened Sums
  import opened PrefixCodes
  import opened LengthCounts
  import opened Heaps
  import opened Merges
  import opened MergeLoop
  import opened TreeOrder
  import opened TreeBuilders

  /** The bits all occurrences of each symbol take: code and extra bits. */
  ghost function Charges(f: seq<nat>, lens: seq<nat>, extra: seq<nat>): (r: seq<int>)
    requires |lens| <= |f| && |lens| <= |extra|
    ensures |r| == |lens|
  {
    seq(|lens|, i requires 0 <= i < |lens| => f[i] * (lens[i] + extra[i]))
  }

  /** The extra bits of the symbols below `n`. */
  ghost function Extras(desc: TreeDesc, n: nat): (r: seq<nat>)
    requires desc.Valid() && n <= desc.elems
    ensures |r| == n
  {
    seq(n, i requires 0 <= i < n => desc.Extra(i))
  }

  /** The values of `x` at the symbols in `seen`, 0 elsewhere. */
  ghost function SeenAt(seen: seq<nat>, x: seq<nat>, n: nat): (r: seq<nat>)
    requires n <= |x|
    ensures |r| == n
  {
    seq(n, i requires 0 <= i < n => if i in seen then x[i] else 0)
  }

  ghost function ChargesAt(seen: seq<nat>, f: seq<nat>, x: seq<nat>, extra: seq<nat>, n: nat): (r: seq<int>)
    requires n <= |x| && n <= |f| && n <= |extra|
    ensures |r| == n
  {
    seq(n, i requires 0 <= i < n => if i in seen then f[i] * (x[i] + extra[i]) else 0)
  }

  lemma SeenStep(seen: seq<nat>, f: seq<nat>, x: seq<nat>, extra: seq<nat>, n: nat, v: nat)
    requires v < n <= |x| && n <= |f| && n <= |extra| && v !in seen
    ensures SeenAt(seen + [v], x, n) == SeenAt(seen, x, n)[v := x[v]] && SeenAt(seen, x, n)[v] == 0
    ensures Sum(ChargesAt(seen + [v], f, x, extra, n)) == Sum(ChargesAt(seen, f, x, extra, n)) + f[v] * (x[v] + extra[v])
  {
    SumChange(ChargesAt(seen, f, x, extra, n), ChargesAt(seen + [v], f, x, extra, n), v);
  }

  lemma SeenOther(seen: seq<nat>, f: seq<nat>, x: seq<nat>, extra: seq<nat>, n: nat, v: nat)
    requires n <= v && n <= |x| && n <= |f| && n <= |extra|
    ensures SeenAt(seen + [v], x, n) == SeenAt(seen, x, n)
    ensures ChargesAt(seen + [v], f, x, extra, n) == ChargesAt(seen, f, x, extra, n)
  {
  }

  /** The counters after one more code of `len` bits, if there is one. */
  ghost function Bump(c: seq<nat>, len: nat, more: bool): (r: seq<nat>)
    ensures |r| == |c|
  {
    if more && len < |c| then c[len := c[len] + 1] else c
  }

  /** The bit counter agrees with the lengths given out so far. */
  ghost predicate Counted(c: seq<nat>, lens: seq<nat>)
  {
    |c| == 16 && c[0] == 0 && Counts(c, lens)
  }

  lemma CountedStep(c: seq<nat>, lens: seq<nat>, v: nat, len: nat)
    requires Counted(c, lens) && v < |lens| && lens[v] == 0 && 1 <= len <= 15
    ensures Counted(c[len := c[len] + 1], lens[v := len])
  {
    var c' := c[len := c[len] + 1];
    forall b | 1 <= b < 16
      ensures c'[b] == Count(lens[v := len], b)
    {
      CountUpdate(lens, v, len, b);
    }
  }

  /** Counts one leaf and charges its bits. */
  method ChargeLeaf(b: TreeBuilder, desc: TreeDesc, n: nat, bits: nat)
    requires b.Ready(desc) && n < desc.elems && bits < 16
    modifies b`optLen, b`staticLen, b.blCount
    ensures b.blCount[..] == old(b.blCount[..])[bits := old(b.blCount[bits]) + 1]
    ensures b.optLen == old(b.optLen) + desc.fc[n] * (bits + desc.Extra(n))
    ensures b.staticLen == old(b.staticLen)
      + (if desc.staticLen == null then 0 else desc.fc[n] * (desc.staticLen[n] + desc.Extra(n)))
  {
    b.blCount[bits] := b.blCount[bits] + 1;
    var xbits := 0;
    if n >= desc.extraBase {
      xbits := desc.extraBits[n - desc.extraBase];
    }
    var f := desc.fc[n];
    b.optLen := b.optLen + f * (bits + xbits);
    if desc.staticLen != null {
      b.staticLen := b.staticLen + f * (desc.staticLen[n] + xbits);
    }
  }

  /** `dl` after the nodes in `seen` have been given their lengths. */
  ghost predicate Assigned(dl: seq<nat>, dad: seq<nat>, lens: seq<nat>, seen: seq<nat>)
  {
    && |dl| == |dad| && |lens| <= |dl|
    && (forall v :: v in seen ==> v < |lens|)
    && (forall v :: 0 <= v < |dl| ==> dl[v] == if v in seen then lens[v] else dad[v])
  }

  lemma AssignedStep(dl: seq<nat>, dad: seq<nat>, lens: seq<nat>, seen: seq<nat>, v: nat)
    requires Assigned(dl, dad, lens, seen) && v < |lens|
    ensures Assigned(dl[v := lens[v]], dad, lens, seen + [v])
  {
  }

  /** The length of an entry follows from that of its father. */
  lemma NextLength(heap: seq<nat>, dl: seq<nat>, dad: seq<nat>, elems: nat, leaves: set<nat>, pairs: seq<Pair>,
                   limit: nat, lens: seq<nat>, h: nat)
    requires Listed(heap, elems, leaves, pairs) && First(pairs) < h < HEAP_SIZE
    requires Fathers(dad, elems, pairs) && Depths(elems, leaves, pairs, limit, lens)
    requires Assigned(dl, dad, lens, heap[First(pairs)..h])
    ensures var v := heap[h];
      && v < |lens| && v !in heap[First(pairs)..h] && dl[v] == elems + MergeAt(h) < |dl|
      && lens[v] == Min(dl[dl[v]] + 1, limit)
      && dl[dl[v]] == lens[elems + MergeAt(h)] <= limit
      && MergeAt(h) >= 0 && elems + MergeAt(h) < |lens|
  {
    EntryAt(heap, elems, leaves, pairs, h);
    FatherBefore(heap, elems, leaves, pairs, h);
    NotBefore(heap, elems, leaves, pairs, h);
    var i := MergeAt(h);
    assert PairDepth(elems, pairs, limit, lens, i);
    ReadyStep(elems, leaves, pairs, i);
    DepthBound(elems, leaves, pairs, limit, lens, i + 1, elems + i);
  }

  /** What the first pass knows when it has visited the entries before `h`. */
  ghost predicate Visited(heap: seq<nat>, h: nat, dl: seq<nat>, c: seq<nat>, dad: seq<nat>, lens: seq<nat>,
                          elems: nat, pairs: seq<Pair>, size: nat)
  {
    && 1 <= First(pairs) < h <= HEAP_SIZE == |heap| && size <= |lens|
    && Assigned(dl, dad, lens, heap[First(pairs)..h])
    && Counted(c, SeenAt(heap[First(pairs)..h], lens, size))
  }

  /** The bits charged for the entries before `h`. */
  ghost function Charged(heap: seq<nat>, h: nat, pairs: seq<Pair>, f: seq<nat>, x: seq<nat>, extra: seq<nat>, n: nat): int
    requires 0 <= First(pairs) <= h <= |heap| && n <= |x| && n <= |f| && n <= |extra|
  {
    Sum(ChargesAt(heap[First(pairs)..h], f, x, extra, n))
  }

  lemma VisitNext(heap: seq<nat>, h: nat, dl: seq<nat>, c: seq<nat>, dad: seq<nat>, elems: nat, leaves: set<nat>,
                  pairs: seq<Pair>, limit: nat, lens: seq<nat>, size: nat)
    requires Listed(heap, elems, leaves, pairs) && h < HEAP_SIZE && 1 <= limit <= 15 && size <= elems
    requires Fathers(dad, elems, pairs) && Depths(elems, leaves, pairs, limit, lens)
    requires Visited(heap, h, dl, c, dad, lens, elems, pairs, size)
    ensures var v := heap[h];
      && v < |lens| && v < |dl| && dl[v] == elems + MergeAt(h) < |dl| && 1 <= lens[v] <= limit
      && lens[v] == Min(dl[dl[v]] + 1, limit) && MergeAt(h) >= 0 && elems + MergeAt(h) < |lens|
      && dl[dl[v]] == lens[elems + MergeAt(h)] <= limit
      && Visited(heap, h + 1, dl[v := lens[v]], Bump(c, lens[v], v < size),
                 dad, lens, elems, pairs, size)
  {
    var v, seen := heap[h], heap[First(pairs)..h];
    assert heap[First(pairs)..h + 1] == seen + [v];
    NextLength(heap, dl, dad, elems, leaves, pairs, limit, lens, h);
    AssignedStep(dl, dad, lens, seen, v);
    if v < size {
      SeenStep(seen, lens, lens, lens, size, v);
      CountedStep(c, SeenAt(seen, lens, size), v, lens[v]);
    } else {
      SeenOther(seen, lens, lens, lens, size, v);
    }
  }

  lemma ChargeNext(heap: seq<nat>, h: nat, elems: nat, leaves: set<nat>, pairs: seq<Pair>,
                   f: seq<nat>, x: seq<nat>, extra: seq<nat>, n: nat)
    requires Listed(heap, elems, leaves, pairs) && First(pairs) < h < HEAP_SIZE
    requires n <= |x| && n <= |f| && n <= |extra|
    ensures var v := heap[h];
      Charged(heap, h + 1, pairs, f, x, extra, n)
      == Charged(heap, h, pairs, f, x, extra, n) + (if v < n then f[v] * (x[v] + extra[v]) else 0)
  {
    var v, seen := heap[h], heap[First(pairs)..h];
    assert heap[First(pairs)..h + 1] == seen + [v];
    NotBefore(heap, elems, leaves, pairs, h);
    if v < n {
      SeenStep(seen, f, x, extra, n, v);
    } else {
      SeenOther(seen, f, x, extra, n, v);
    }
  }

  /** Gives the entry at `h` its length and counts it if it is a leaf. */
  method VisitEntry(b: TreeBuilder, desc: TreeDesc, h: nat) returns (deep: bool)
    requires b.Ready(desc) && h < HEAP_SIZE && desc.maxCode < desc.elems
    requires b.q.heap[h] < desc.dl.Length && desc.dl[b.q.heap[h]] < desc.dl.Length
    requires desc.dl[desc.dl[b.q.heap[h]]] <= desc.maxLength
    modifies b`optLen, b`staticLen, b.blCount, desc.dl
    ensures var (v, d) := (b.q.heap[h], old(desc.dl[desc.dl[b.q.heap[h]]]));
      var bits := Min(d + 1, desc.maxLength);
      && deep == (d == desc.maxLength)
      && desc.dl[..] == old(desc.dl[..])[v := bits]
      && b.blCount[..] == Bump(old(b.blCount[..]), bits, v <= desc.maxCode)
      && b.optLen == old(b.optLen) + (if v <= desc.maxCode then desc.fc[v] * (bits + desc.Extra(v)) else 0)
      && b.staticLen == old(b.staticLen)
         + (if v <= desc.maxCode && desc.staticLen != null then desc.fc[v] * (desc.staticLen[v] + desc.Extra(v)) else 0)
  {
    var n := b.q.heap[h];
    var bits := desc.dl[desc.dl[n]] + 1;
    deep := bits > desc.maxLength;
    if deep {
      bits := desc.maxLength;
    }
    desc.dl[n] := bits;
    if n <= desc.maxCode {
      ChargeLeaf(b, desc, n, bits);
    }
  }

  lemma NoneVisited(heap: seq<nat>, dl: seq<nat>, dad: seq<nat>, elems: nat, leaves: set<nat>, pairs: seq<Pair>,
                    limit: nat, lens: seq<nat>, f: seq<nat>, x: seq<nat>, extra: seq<nat>, size: nat)
    requires Listed(heap, elems, leaves, pairs) && Depths(elems, leaves, pairs, limit, lens)
    requires |dad| >= |lens| && dl == dad[Root(elems, pairs) := 0]
    requires size <= elems && size <= |f| && size <= |x| && size <= |extra|
    ensures Visited(heap, First(pairs) + 1, dl, seq(16, _ => 0), dad, lens, elems, pairs, size)
    ensures Charged(heap, First(pairs) + 1, pairs, f, x, extra, size) == 0
  {
    var seen := heap[First(pairs)..First(pairs) + 1];
    assert seen == [Root(elems, pairs)];
    SumConstant(ChargesAt(seen, f, x, extra, size), 0);
    forall b | 1 <= b < 16
      ensures Count(SeenAt(seen, lens, size), b) == 0
    {
      NoCount(SeenAt(seen, lens, size), b);
    }
  }

  lemma {:induction false} NoCount(lens: seq<nat>, b: nat)
    requires forall i :: 0 <= i < |lens| ==> lens[i] != b
    ensures Count(lens, b) == 0
  {
    if lens != [] {
      NoCount(lens[..|lens| - 1], b);
    }
  }

  /** When every entry has been visited, the symbols have their depths as lengths. */
  lemma AllVisited(heap: seq<nat>, dl: seq<nat>, c: seq<nat>, dad: seq<nat>, elems: nat, leaves: set<nat>,
                   pairs: seq<Pair>, lens: seq<nat>, size: nat)
    requires Listed(heap, elems, leaves, pairs) && size <= elems
    requires Visited(heap, HEAP_SIZE, dl, c, dad, lens, elems, pairs, size) && elems <= |lens|
    requires elems <= |dad| && forall n :: 0 <= n < elems && n !in leaves ==> dad[n] == 0
    ensures size <= |dl| && Counted(c, dl[..size])
    ensures elems <= |dl| && elems <= |lens|
    ensures forall n :: 0 <= n < elems ==> dl[n] == if n in leaves then lens[n] else 0
  {
    var seen := heap[First(pairs)..HEAP_SIZE];
    forall n | 0 <= n < elems
      ensures n in seen <==> n in leaves
    {
      SeenIsLeaf(heap, elems, leaves, pairs, n);
    }
    assert dl[..size] == SeenAt(seen, lens, size);
  }

  lemma SeenIsLeaf(heap: seq<nat>, elems: nat, leaves: set<nat>, pairs: seq<Pair>, n: nat)
    requires Listed(heap, elems, leaves, pairs) && n < elems
    ensures n in heap[First(pairs)..HEAP_SIZE] <==> n in leaves
  {
    var seen := heap[First(pairs)..HEAP_SIZE];
    if n in leaves {
      LeafListed(heap, elems, leaves, pairs, n);
    }
    if n in seen {
      var k :| 0 <= k < |seen| && seen[k] == n;
      ListedLeaf(heap, elems, leaves, pairs, First(pairs) + k);
    }
  }

  /** The bits charged for all entries are those of all symbols: unused symbols take none. */
  lemma AllCharged(heap: seq<nat>, elems: nat, leaves: set<nat>, pairs: seq<Pair>,
                   f: seq<nat>, x: seq<nat>, extra: seq<nat>, n: nat)
    requires Listed(heap, elems, leaves, pairs) && n <= elems && n <= |f| && n == |x| && n <= |extra|
    requires forall k :: 0 <= k < n && k !in leaves ==> f[k] == 0
    ensures Charged(heap, HEAP_SIZE, pairs, f, x, extra, n) == Sum(Charges(f, x, extra))
  {
    forall k | 0 <= k < n
      ensures k in heap[First(pairs)..HEAP_SIZE] <==> k in leaves
    {
      SeenIsLeaf(heap, elems, leaves, pairs, k);
    }
    assert ChargesAt(heap[First(pairs)..HEAP_SIZE], f, x, extra, n) == Charges(f, x, extra);
  }

  lemma ChargedLeaves(heap: seq<nat>, elems: nat, leaves: set<nat>, pairs: seq<Pair>,
                      f: seq<nat>, x: seq<nat>, y: seq<nat>, extra: seq<nat>, n: nat)
    requires Listed(heap, elems, leaves, pairs) && n <= elems && n <= |f| && n <= |x| && n == |y| && n <= |extra|
    requires forall k :: 0 <= k < n && k in leaves ==> x[k] == y[k]
    ensures Charged(heap, HEAP_SIZE, pairs, f, x, extra, n) == Charged(heap, HEAP_SIZE, pairs, f, y, extra, n)
  {
    forall k | 0 <= k < n
      ensures k in heap[First(pairs)..HEAP_SIZE] <==> k in leaves
    {
      SeenIsLeaf(heap, elems, leaves, pairs, k);
    }
    assert ChargesAt(heap[First(pairs)..HEAP_SIZE], f, x, extra, n) == ChargesAt(heap[First(pairs)..HEAP_SIZE], f, y, extra, n);
  }

  method ClearCounts(b: TreeBuilder)
    requires b.Valid()
    modifies b.blCount
    ensures b.blCount[..] == seq(16, _ => 0)
  {
    var bits := 0;
    while bits < 16
      invariant 0 <= bits <= 16
      invariant forall i :: 0 <= i < bits ==> b.blCount[i] == 0
    {
      b.blCount[bits] := 0;
      bits := bits + 1;
    }
  }

  /** The lengths of the static tree, as far as the symbols go. */
  ghost function StaticLens(desc: TreeDesc, n: nat): (r: seq<nat>)
    requires desc.Valid() && n <= desc.elems
    reads desc.staticLen
    ensures |r| == n
  {
    if desc.staticLen == null then seq(n, _ => 0) else desc.staticLen[..n]
  }

  /** The bits charged under the static tree; none if there is no static tree. */
  ghost function StaticCharge(desc: TreeDesc, charge: int): int
  {
    if desc.staticLen == null then 0 else charge
  }

  /** Visits all entries after the root. */
  method VisitAll(b: TreeBuilder, desc: TreeDesc, ghost leaves: set<nat>, ghost pairs: seq<Pair>,
                  ghost dad: seq<nat>, ghost lens: seq<nat>) returns (overflow: nat)
    requires b.Ready(desc) && Listed(b.q.heap[..], desc.elems, leaves, pairs) && b.heapMax == First(pairs)
    requires Fathers(dad, desc.elems, pairs) && Depths(desc.elems, leaves, pairs, desc.maxLength, lens)
    requires 0 <= desc.maxCode < desc.elems && desc.maxCode < |lens| == desc.elems + |pairs|
    requires First(pairs) < HEAP_SIZE
    requires Visited(b.q.heap[..], First(pairs) + 1, desc.dl[..], b.blCount[..], dad, lens, desc.elems, pairs, desc.maxCode + 1)
    modifies b`optLen, b`staticLen, b.blCount, desc.dl
    ensures Visited(b.q.heap[..], HEAP_SIZE, desc.dl[..], b.blCount[..], dad, lens, desc.elems, pairs, desc.maxCode + 1)
    ensures overflow == TooDeep(desc.elems, pairs, desc.maxLength, lens, HEAP_SIZE)
    ensures var (heap, size) := (b.q.heap[..], desc.maxCode + 1);
      var (f, extra, slens) := (desc.fc[..], Extras(desc, size), StaticLens(desc, size));
      && b.optLen == old(b.optLen) - Charged(heap, First(pairs) + 1, pairs, f, lens, extra, size)
                     + Charged(heap, HEAP_SIZE, pairs, f, lens, extra, size)
      && b.staticLen == old(b.staticLen) - StaticCharge(desc, Charged(heap, First(pairs) + 1, pairs, f, slens, extra, size))
                     + StaticCharge(desc, Charged(heap, HEAP_SIZE, pairs, f, slens, extra, size))
  {
    hide Sum, ChargesAt, SeenAt, Counts, Depths, Fathers, Listed, Charged, Excess, TooDeep, Visited, Counted, Bump;
    ghost var heap, f, size := b.q.heap[..], desc.fc[..], desc.maxCode + 1;
    ghost var elems, limit := desc.elems, desc.maxLength;
    ghost var extra, slens := Extras(desc, size), StaticLens(desc, size);
    ghost var start, sstart := Charged(heap, First(pairs) + 1, pairs, f, lens, extra, size),
                               StaticCharge(desc, Charged(heap, First(pairs) + 1, pairs, f, slens, extra, size));
    overflow := 0;
    var h: nat := b.heapMax + 1;
    NoneDeep(elems, pairs, limit, lens);
    while h < HEAP_SIZE
      invariant First(pairs) < h <= HEAP_SIZE
      invariant Visited(heap, h, desc.dl[..], b.blCount[..], dad, lens, elems, pairs, size)
      invariant overflow == TooDeep(elems, pairs, limit, lens, h)
      invariant b.optLen == old(b.optLen) - start + Charged(heap, h, pairs, f, lens, extra, size)
      invariant b.staticLen == old(b.staticLen) - sstart + StaticCharge(desc, Charged(heap, h, pairs, f, slens, extra, size))
    {
      VisitNext(heap, h, desc.dl[..], b.blCount[..], dad, elems, leaves, pairs, limit, lens, size);
      ChargeNext(heap, h, elems, leaves, pairs, f, lens, extra, size);
      ChargeNext(heap, h, elems, leaves, pairs, f, slens, extra, size);
      TooDeepStep(elems, pairs, limit, lens, h);
      var deep := VisitEntry(b, desc, h);
      if deep {
        overflow := overflow + 1;
      }
      h := h + 1;
    }
  }

  /** The first pass: depths as lengths, clamped; counts and charges for the leaves. */
  method FirstPass(b: TreeBuilder, desc: TreeDesc, ghost leaves: set<nat>, ghost pairs: seq<Pair>)
    returns (overflow: nat, ghost lens: seq<nat>)
    requires b.Ready(desc) && Listed(b.q.heap[..], desc.elems, leaves, pairs) && b.heapMax == First(pairs)
    requires desc.elems + |pairs| <= desc.dl.Length && Fathers(desc.dl[..], desc.elems, pairs)
    requires 0 <= desc.maxCode < desc.elems
    requires forall n :: 0 <= n < desc.elems && n !in leaves ==> desc.dl[n] == 0
    requires forall n :: 0 <= n <= desc.maxCode && n !in leaves ==> desc.fc[n] == 0
    modifies b`optLen, b`staticLen, b.blCount, desc.dl
    ensures Depths(desc.elems, leaves, pairs, desc.maxLength, lens)
    ensures overflow == 2 * Excess(desc.elems, pairs, desc.maxLength, lens, 0)
    ensures forall n :: 0 <= n < desc.elems ==> desc.dl[n] == if n in leaves then lens[n] else 0
    ensures Counted(b.blCount[..], desc.dl[..desc.maxCode + 1])
    ensures var size := desc.maxCode + 1;
      && b.optLen == old(b.optLen) + Sum(Charges(desc.fc[..], desc.dl[..size], Extras(desc, size)))
      && b.staticLen == old(b.staticLen)
         + StaticCharge(desc, Sum(Charges(desc.fc[..], StaticLens(desc, size), Extras(desc, size))))
  {
    hide Sum, ChargesAt, Charges, SeenAt, Counts, Depths, Fathers, Listed, Charged, Excess, TooDeep, Visited, Counted, Bump;
    ghost var heap, dad, f, size := b.q.heap[..], desc.dl[..], desc.fc[..], desc.maxCode + 1;
    ghost var elems, limit := desc.elems, desc.maxLength;
    ghost var extra, slens := Extras(desc, size), StaticLens(desc, size);
    ListedParts(heap, elems, leaves, pairs);
    lens := NodeDepths(dad, Root(elems, pairs), limit, elems + |pairs|);
    DepthsHold(dad, elems, leaves, pairs, limit);
    ClearCounts(b);
    desc.dl[b.q.heap[b.heapMax]] := 0;
    NoneVisited(heap, desc.dl[..], dad, elems, leaves, pairs, limit, lens, f, lens, extra, size);
    NoneVisited(heap, desc.dl[..], dad, elems, leaves, pairs, limit, lens, f, slens, extra, size);
    overflow := VisitAll(b, desc, leaves, pairs, dad, lens);
    ghost var dl := desc.dl[..];
    AllVisited(heap, dl, b.blCount[..], dad, elems, leaves, pairs, lens, size);
    AllDeep(elems, pairs, limit, lens);
    ChargedLeaves(heap, elems, leaves, pairs, f, lens, dl[..size], extra, size);
    AllCharged(heap, elems, leaves, pairs, f, dl[..size], extra, size);
    AllCharged(heap, elems, leaves, pairs, f, slens, extra, size);
  }
}
