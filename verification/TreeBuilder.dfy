/** The construction of one Huffman tree, first part: leaves, heap and merging. */
module TreeBuilders {
  import opened Bits
  import opened Sums
  import opened Heaps
  import opened Merges

  /** A code tree and its fixed parameters. `fc` holds frequencies or codes, `dl` fathers or lengths. */
  class TreeDesc {
    const fc: array<nat>
    const dl: array<nat>
    const staticLen: array?<nat>
    const extraBits: seq<nat>
    const extraBase: nat
    const elems: nat
    const maxLength: nat
    var maxCode: int

    constructor (elems: nat, maxLength: nat, extraBits: seq<nat>, extraBase: nat, staticLen: array?<nat>)
      requires 3 <= elems <= L_CODES && 1 <= maxLength <= 15 && elems <= Pow2(maxLength)
      requires elems <= extraBase + |extraBits|
      requires forall n :: 0 <= n < 3 ==> ExtraOf(extraBits, extraBase, n) == 0
      requires staticLen != null ==> elems <= staticLen.Length
      ensures Valid() && fresh(Own()) && this.elems == elems && this.maxLength == maxLength
      ensures this.extraBits == extraBits && this.extraBase == extraBase && this.staticLen == staticLen
    {
      this.elems, this.maxLength, this.extraBits, this.extraBase := elems, maxLength, extraBits, extraBase;
      this.staticLen := staticLen;
      fc := new nat[2 * elems + 1](_ => 0);
      dl := new nat[2 * elems + 1](_ => 0);
      maxCode := 0;
    }

    ghost function Own(): set<object> { {this, fc, dl} }

    ghost predicate Valid()
    {
      && 3 <= elems <= L_CODES && 1 <= maxLength <= 15 && elems <= Pow2(maxLength)
      && fc.Length == dl.Length == 2 * elems + 1 && fc != dl
      && (staticLen != null ==> staticLen != fc && staticLen != dl && elems <= staticLen.Length)
      && elems <= extraBase + |extraBits|
      && (forall n :: 0 <= n < 3 ==> ExtraOf(extraBits, extraBase, n) == 0)
    }

    /** The number of extra bits sent after the code of `n`. */
    function Extra(n: nat): nat
      requires n < extraBase + |extraBits|
    {
      ExtraOf(extraBits, extraBase, n)
    }
  }

  function ExtraOf(extraBits: seq<nat>, extraBase: nat, n: nat): nat
    requires n < extraBase + |extraBits|
  {
    if n >= extraBase then extraBits[n - extraBase] else 0
  }

  /** The symbols below `n` that are used. */
  ghost function Leaves(f: seq<nat>, n: nat): set<nat>
    requires n <= |f|
  {
    set k: nat | k < n && f[k] != 0
  }

  function Ones(n: nat): (s: seq<int>)
    ensures |s| == n
  {
    seq(n, _ => 1)
  }

  lemma ContentPush(s: seq<nat>, len: nat, v: nat)
    requires len + 1 < |s|
    ensures Content(s[len + 1 := v], len + 1) == Content(s, len) + multiset{v}
  {
    assert s[len + 1 := v][1..len + 2] == s[1..len + 1] + [v];
  }

  lemma SingleLeaf(heap: seq<nat>, len: nat, leaves: set<nat>, v: nat)
    requires len < 2 <= |heap| && Content(heap, len) == multiset(leaves) && v in leaves
    ensures leaves == {v}
  {
    assert v in Content(heap, len);
    assert heap[1..2] == [heap[1]];
    forall w | w in leaves
      ensures w == v
    {
      assert w in multiset(leaves) && v in multiset(leaves);
    }
  }

  /** The greatest used symbol below `n` is `maxCode`. */
  ghost predicate Greatest(f: seq<nat>, n: nat, maxCode: int)
    requires n <= |f|
  {
    && -1 <= maxCode < n && (maxCode >= 0 ==> f[maxCode] != 0)
    && (forall k :: maxCode < k < n ==> f[k] == 0)
  }

  /** The used symbols below `n` are in the heap array, the others have length 0. */
  ghost predicate Collected(h: seq<nat>, len: nat, f: seq<nat>, dl: seq<nat>, n: nat, maxCode: int)
  {
    && n <= |f| && n <= |dl| && len <= n && len < |h|
    && Content(h, len) == multiset(Leaves(f, n)) && Greatest(f, n, maxCode)
    && (forall k :: 0 <= k < n && f[k] == 0 ==> dl[k] == 0)
  }

  lemma NoneCollected(h: seq<nat>, f: seq<nat>, dl: seq<nat>)
    requires 0 < |h|
    ensures Collected(h, 0, f, dl, 0, -1)
  {
    assert Leaves(f, 0) == {};
  }

  lemma CollectUsed(h: seq<nat>, len: nat, f: seq<nat>, dl: seq<nat>, n: nat, maxCode: int)
    requires Collected(h, len, f, dl, n, maxCode) && n < |f| && n < |dl| && f[n] != 0 && len + 1 < |h|
    ensures Collected(h[len + 1 := n], len + 1, f, dl, n + 1, n)
  {
    ContentPush(h, len, n);
    assert Leaves(f, n + 1) == Leaves(f, n) + {n};
  }

  lemma CollectUnused(h: seq<nat>, len: nat, f: seq<nat>, dl: seq<nat>, n: nat, maxCode: int)
    requires Collected(h, len, f, dl, n, maxCode) && n < |f| && n < |dl| && f[n] == 0
    ensures Collected(h, len, f, dl[n := 0], n + 1, maxCode)
  {
    assert Leaves(f, n + 1) == Leaves(f, n);
  }

  /** `f` is `f0` with the symbols of `forced` given frequency 1. */
  ghost predicate Forced(f: seq<nat>, f0: seq<nat>, forced: set<nat>)
  {
    && |f| == |f0|
    && (forall n :: n in forced ==> n < 3 && n < |f| && f0[n] == 0 && f[n] == 1)
    && (forall n :: 0 <= n < |f| && n !in forced ==> f[n] == f0[n])
  }

  /** The state while forcing symbols: the heap array holds the used ones. */
  ghost predicate Forcing(h: seq<nat>, len: nat, f: seq<nat>, elems: nat, maxCode: int, f0: seq<nat>, forced: set<nat>)
  {
    && 3 <= elems <= |f| && len <= elems && len < |h|
    && Content(h, len) == multiset(Leaves(f, elems)) && Greatest(f, elems, maxCode)
    && Forced(f, f0, forced) && (forced != {} ==> len <= 2)
  }

  /** The symbol to be forced next is not used yet. */
  lemma Unused(h: seq<nat>, len: nat, f: seq<nat>, elems: nat, maxCode: int)
    requires 3 <= elems <= |f| && len < 2 <= |h| && Greatest(f, elems, maxCode)
    requires Content(h, len) == multiset(Leaves(f, elems))
    ensures f[if maxCode < 2 then maxCode + 1 else 0] == 0
  {
    if maxCode >= 2 && f[0] != 0 {
      assert maxCode in Leaves(f, elems) && 0 in Leaves(f, elems);
      SingleLeaf(h, len, Leaves(f, elems), maxCode);
    }
  }

  lemma ForceOne(h: seq<nat>, len: nat, f: seq<nat>, elems: nat, maxCode: int, f0: seq<nat>, forced: set<nat>, code: nat)
    requires Forcing(h, len, f, elems, maxCode, f0, forced) && len < 2 < |h|
    requires code == if maxCode < 2 then maxCode + 1 else 0
    ensures code !in forced && code < 3 && f[code] == 0
    ensures Forcing(h[len + 1 := code], len + 1, f[code := 1], elems, if maxCode < 2 then code else maxCode, f0, forced + {code})
  {
    hide Forced, Content, Leaves;
    Unused(h, len, f, elems, maxCode);
    ContentPush(h, len, code);
    LeavesPush(f, elems, code);
    ForcedPush(f, f0, forced, code);
    ForcedBefore(f, f0, forced, code);
  }

  /** The forced symbol is 0 or 1, except that it is 2 if symbol 1 is the only one used. */
  lemma ForcedIsTwo(h: seq<nat>, len: nat, f: seq<nat>, elems: nat, maxCode: int, code: nat)
    requires 3 <= elems <= |f| && len < 2 <= |h| && Greatest(f, elems, maxCode)
    requires Content(h, len) == multiset(Leaves(f, elems)) && code == if maxCode < 2 then maxCode + 1 else 0
    ensures code <= 2 && (code == 2 <==> Leaves(f, elems) == {1})
  {
    if code == 2 {
      SingleLeaf(h, len, Leaves(f, elems), 1);
    }
    if Leaves(f, elems) == {1} {
      assert f[1] != 0 && (maxCode >= 0 ==> maxCode in Leaves(f, elems));
    }
  }

  lemma ForcedBefore(f: seq<nat>, f0: seq<nat>, forced: set<nat>, code: nat)
    requires Forced(f, f0, forced) && code < |f| && f[code] == 0
    ensures code !in forced
  {
  }

  lemma LeavesPush(f: seq<nat>, n: nat, code: nat)
    requires code < n <= |f| && f[code] == 0
    ensures code !in Leaves(f, n)
    ensures Leaves(f[code := 1], n) == Leaves(f, n) + {code}
  {
  }

  lemma ForcedPush(f: seq<nat>, f0: seq<nat>, forced: set<nat>, code: nat)
    requires Forced(f, f0, forced) && code < 3 && code < |f| && f[code] == 0
    ensures Forced(f[code := 1], f0, forced + {code})
  {
  }

  class TreeBuilder {
    const q: NodeHeap
    const blCount: array<nat>
    var heapMax: nat
    var optLen: int
    var staticLen: int

    constructor ()
      ensures Valid() && fresh(Own())
      ensures (forall i :: 0 <= i < blCount.Length ==> blCount[i] == 0) && optLen == 0 == staticLen
    {
      q := new NodeHeap();
      blCount := new nat[16](_ => 0);
      heapMax, optLen, staticLen := 0, 0, 0;
    }

    ghost function Own(): set<object> { {this, q, q.heap, q.depth, blCount} }

    ghost predicate Valid()
    {
      && q.heap.Length == q.depth.Length == HEAP_SIZE && blCount.Length == 16
      && q.heap != q.depth && q.heap != blCount && q.depth != blCount
    }

    /** The arrays of a tree are none of the builder's own. */
    ghost predicate Separate(desc: TreeDesc)
    {
      && desc.fc != q.heap && desc.fc != q.depth && desc.fc != blCount
      && desc.dl != q.heap && desc.dl != q.depth && desc.dl != blCount
      && (desc.staticLen != null ==>
            desc.staticLen != q.heap && desc.staticLen != q.depth && desc.staticLen != blCount)
    }

    ghost predicate Ready(desc: TreeDesc)
    {
      Valid() && desc.Valid() && Separate(desc)
    }

    /** Appends a leaf to the heap array. */
    method AddLeaf(code: nat)
      requires Valid() && q.heapLen + 1 < HEAP_SIZE && code < HEAP_SIZE
      modifies q`heapLen, q.heap, q.depth
      ensures q.heapLen == old(q.heapLen) + 1
      ensures q.heap[..] == old(q.heap[..])[q.heapLen := code]
    {
      q.heapLen := q.heapLen + 1;
      q.heap[q.heapLen] := code;
      q.depth[code] := 0;
    }

    /** Puts the used symbols in the heap array and clears the lengths of the others. */
    method CollectLeaves(desc: TreeDesc)
      requires Ready(desc)
      modifies q`heapLen, q.heap, q.depth, desc.dl, desc`maxCode
      ensures Collected(q.heap[..], q.heapLen, desc.fc[..], desc.dl[..], desc.elems, desc.maxCode)
    {
      hide Content, Leaves;
      ghost var f, h, dl := desc.fc[..], q.heap[..], desc.dl[..];
      assert Collected(h, 0, f, dl, 0, -1) by { NoneCollected(h, f, dl); }
      q.heapLen := 0;
      desc.maxCode := -1;
      var n: nat := 0;
      while n < desc.elems
        invariant n <= desc.elems && desc.fc[..] == f && q.heap[..] == h && desc.dl[..] == dl
        invariant Collected(h, q.heapLen, f, dl, n, desc.maxCode)
      {
        if desc.fc[n] != 0 {
          CollectUsed(h, q.heapLen, f, dl, n, desc.maxCode);
          AddLeaf(n);
          desc.maxCode := n;
          h := h[q.heapLen := n];
        } else {
          CollectUnused(h, q.heapLen, f, dl, n, desc.maxCode);
          desc.dl[n] := 0;
          dl := dl[n := 0];
        }
        n := n + 1;
      }
    }

    /** Makes `code` used, and discounts the bits its only occurrence will be charged. */
    method ForceCode(desc: TreeDesc, code: nat)
      requires Ready(desc) && q.heapLen + 1 < HEAP_SIZE && code < desc.elems
      modifies this`optLen, this`staticLen, q`heapLen, q.heap, q.depth, desc.fc
      ensures q.heapLen == old(q.heapLen) + 1 && q.heap[..] == old(q.heap[..])[q.heapLen := code]
      ensures desc.fc[..] == old(desc.fc[..])[code := 1]
      ensures optLen == old(optLen) - 1
      ensures staticLen == old(staticLen) - Costs(desc.staticLen, desc.elems)[code]
    {
      AddLeaf(code);
      desc.fc[code] := 1;
      optLen := optLen - 1;
      if desc.staticLen != null {
        staticLen := staticLen - desc.staticLen[code];
      }
    }

    /** Makes at least two symbols used; returns the symbols that were forced. */
    method ForceCodes(desc: TreeDesc) returns (ghost forced: set<nat>)
      requires Ready(desc) && Forcing(q.heap[..], q.heapLen, desc.fc[..], desc.elems, desc.maxCode, desc.fc[..], {})
      modifies this`optLen, this`staticLen, q`heapLen, q.heap, q.depth, desc.fc, desc`maxCode
      ensures 2 <= q.heapLen
      ensures Forcing(q.heap[..], q.heapLen, desc.fc[..], desc.elems, desc.maxCode, old(desc.fc[..]), forced)
      ensures optLen == old(optLen) - Over(forced, Ones(desc.elems))
      ensures staticLen == old(staticLen) - Over(forced, Costs(desc.staticLen, desc.elems))
    {
      hide Over, Content, Leaves, Costs;
      ghost var f0, ones, costs := desc.fc[..], Ones(desc.elems), Costs(desc.staticLen, desc.elems);
      ghost var f, h := f0, q.heap[..];
      forced := {};
      OverEmpty(ones);
      OverEmpty(costs);
      while q.heapLen < 2
        invariant desc.fc[..] == f && q.heap[..] == h && costs == Costs(desc.staticLen, desc.elems)
        invariant Forcing(h, q.heapLen, f, desc.elems, desc.maxCode, f0, forced)
        invariant optLen == old(optLen) - Over(forced, ones)
        invariant staticLen == old(staticLen) - Over(forced, costs)
        decreases 2 - q.heapLen
      {
        var code: nat := if desc.maxCode < 2 then desc.maxCode + 1 else 0;
        ForceOne(h, q.heapLen, f, desc.elems, desc.maxCode, f0, forced, code);
        OverAdd(forced, ones, code);
        OverAdd(forced, costs, code);
        ForceCode(desc, code);
        if desc.maxCode < 2 {
          desc.maxCode := code;
        }
        h, f, forced := h[q.heapLen := code], f[code := 1], forced + {code};
      }
    }

    /** Establishes heap order from the leaves of the heap upwards. */
    method Heapify(desc: TreeDesc)
      requires Ready(desc) && 2 <= q.heapLen <= desc.elems
      requires Nodes(q.heap[..], q.heapLen, desc.fc[..], q.depth[..])
      modifies q.heap
      ensures Nodes(q.heap[..], q.heapLen, desc.fc[..], q.depth[..])
      ensures HeapFrom(q.heap[..], q.heapLen, 1, desc.fc[..], q.depth[..])
      ensures Content(q.heap[..], q.heapLen) == old(Content(q.heap[..], q.heapLen))
    {
      ghost var f, d := desc.fc[..], q.depth[..];
      var n := q.heapLen / 2;
      while n >= 1
        invariant 0 <= n <= q.heapLen / 2
        invariant q.Ordered(desc.fc, f, d) && Nodes(q.heap[..], q.heapLen, f, d)
        invariant HeapFrom(q.heap[..], q.heapLen, n + 1, f, d)
        invariant Content(q.heap[..], q.heapLen) == old(Content(q.heap[..], q.heapLen))
      {
        q.PqDownHeap(desc.fc, n, f, d);
        n := n - 1;
      }
    }
  }

  /** The code lengths of the static tree, or zeros if there is none. */
  ghost function Costs(a: array?<nat>, n: nat): (s: seq<int>)
    requires a != null ==> n <= a.Length
    reads a
    ensures |s| == n
  {
    if a == null then seq(n, _ => 0) else a[..n]
  }

  lemma OverEmpty(g: seq<int>)
    ensures Over({}, g) == 0
  {
    SumConstant(Masked({}, g), 0);
  }
}
