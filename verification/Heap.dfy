/** The binary heap of tree nodes, ordered by frequency and then by depth. */
module Heaps {
  const L_CODES: nat := 286
  const HEAP_SIZE: nat := 2 * L_CODES + 1

  /** The order of the heap: less frequent first, shallower first among equals. */
  ghost predicate Le(freq: seq<nat>, depth: seq<nat>, n: nat, m: nat)
    requires n < |freq| && n < |depth| && m < |freq| && m < |depth|
  {
    freq[n] < freq[m] || (freq[n] == freq[m] && depth[n] <= depth[m])
  }

  /** The heap entries at positions 1 to `len` are nodes. */
  ghost predicate Nodes(heap: seq<nat>, len: nat, freq: seq<nat>, depth: seq<nat>)
  {
    len < |heap| && forall j :: 1 <= j <= len ==> heap[j] < |freq| && heap[j] < |depth|
  }

  /** Heap order between every position from `2k` on and its father. */
  ghost predicate HeapFrom(heap: seq<nat>, len: nat, k: nat, freq: seq<nat>, depth: seq<nat>)
    requires Nodes(heap, len, freq, depth)
  {
    forall j :: 2 <= j <= len && k <= j / 2 ==> Le(freq, depth, heap[j / 2], heap[j])
  }

  ghost function Content(heap: seq<nat>, len: nat): multiset<nat>
    requires len < |heap|
  {
    multiset(heap[1..len + 1])
  }

  /** Heap order with a hole at `k`: below `k` nothing is known but that its father fits. */
  ghost predicate Sinking(s: seq<nat>, len: nat, from: nat, k: nat, freq: seq<nat>, depth: seq<nat>)
    requires Nodes(s, len, freq, depth)
  {
    && (forall j :: 2 <= j <= len && from <= j / 2 && j / 2 != k ==> Le(freq, depth, s[j / 2], s[j]))
    && (forall j :: 2 <= j <= len && j / 2 == k && from <= k / 2 && 1 <= k / 2 ==> Le(freq, depth, s[k / 2], s[j]))
  }

  lemma SinkStep(s: seq<nat>, len: nat, from: nat, k: nat, j: nat, freq: seq<nat>, depth: seq<nat>)
    requires 1 <= from <= k && j / 2 == k && 2 <= j <= len
    requires Nodes(s, len, freq, depth) && Sinking(s, len, from, k, freq, depth)
    requires forall i :: 2 <= i <= len && i / 2 == k ==> Le(freq, depth, s[j], s[i])
    requires !Le(freq, depth, s[k], s[j])
    ensures var t := s[k := s[j]][j := s[k]];
      Nodes(t, len, freq, depth) && Sinking(t, len, from, j, freq, depth)
  {
    var t := s[k := s[j]][j := s[k]];
    forall i | 2 <= i <= len && i / 2 == j
      ensures Le(freq, depth, t[j / 2], t[i])
    {
      assert t[i] == s[i];
    }
  }

  lemma SwapContent(s: seq<nat>, len: nat, k: nat, j: nat)
    requires 1 <= k <= len < |s| && 1 <= j <= len && k != j
    ensures Content(s[k := s[j]][j := s[k]], len) == Content(s, len)
  {
    var w := s[1..len + 1];
    assert s[k := s[j]][j := s[k]][1..len + 1] == w[k - 1 := w[j - 1]][j - 1 := w[k - 1]];
  }

  /** `s` is `s0` with the entry of `from` sunk to position `k`. */
  ghost predicate SunkTo(s: seq<nat>, s0: seq<nat>, len: nat, from: nat, k: nat, freq: seq<nat>, depth: seq<nat>)
  {
    && |s| == |s0| && 1 <= from <= k <= len
    && Nodes(s, len, freq, depth) && Sinking(s, len, from, k, freq, depth)
    && Content(s, len) == Content(s0, len)
    && (forall i :: 0 <= i < |s| && (i < from || i > len) ==> s[i] == s0[i])
  }

  lemma SinkFurther(s: seq<nat>, s0: seq<nat>, len: nat, from: nat, k: nat, j: nat, freq: seq<nat>, depth: seq<nat>)
    requires SunkTo(s, s0, len, from, k, freq, depth) && j / 2 == k && 2 <= j <= len
    requires LeastBelow(s, len, j, k, freq, depth) && !Le(freq, depth, s[k], s[j])
    ensures SunkTo(s[k := s[j]][j := s[k]], s0, len, from, j, freq, depth)
  {
    SinkStep(s, len, from, k, j, freq, depth);
    SwapContent(s, len, k, j);
  }

  ghost predicate LeastBelow(s: seq<nat>, len: nat, j: nat, k: nat, freq: seq<nat>, depth: seq<nat>)
    requires Nodes(s, len, freq, depth) && 1 <= j <= len
  {
    forall i :: 2 <= i <= len && i / 2 == k ==> Le(freq, depth, s[j], s[i])
  }

  /** When nothing below is smaller, heap order is restored. */
  lemma SinkEnds(s: seq<nat>, s0: seq<nat>, len: nat, from: nat, k: nat, freq: seq<nat>, depth: seq<nat>)
    requires SunkTo(s, s0, len, from, k, freq, depth) && LeastBelow(s, len, k, k, freq, depth)
    ensures HeapFrom(s, len, from, freq, depth)
  {
  }

  /** The heap array `h` with a hole at `k` into which `v` is to go. */
  ghost predicate Walk(h: seq<nat>, v: nat, s0: seq<nat>, len: nat, from: nat, k: nat, freq: seq<nat>, depth: seq<nat>)
  {
    Nodes(h, len, freq, depth) && 1 <= k < |h| && SunkTo(h[k := v], s0, len, from, k, freq, depth)
  }

  lemma SonsSeen(h: seq<nat>, v: nat, len: nat, k: nat, j: nat, freq: seq<nat>, depth: seq<nat>)
    requires 1 <= k < |h| && j / 2 == k && 2 <= j <= len
    requires Nodes(h, len, freq, depth) && Nodes(h[k := v], len, freq, depth) && LeastBelow(h, len, j, k, freq, depth)
    ensures h[j] == h[k := v][j] && LeastBelow(h[k := v], len, j, k, freq, depth)
  {
    forall i | 2 <= i <= len && i / 2 == k
      ensures h[i] == h[k := v][i]
    {
    }
  }

  lemma WalkOn(h: seq<nat>, v: nat, s0: seq<nat>, len: nat, from: nat, k: nat, j: nat, freq: seq<nat>, depth: seq<nat>)
    requires Walk(h, v, s0, len, from, k, freq, depth) && j / 2 == k && 2 <= j <= len
    requires LeastBelow(h, len, j, k, freq, depth)
    requires v < |freq| && v < |depth| && !Le(freq, depth, v, h[j])
    ensures Walk(h[k := h[j]], v, s0, len, from, j, freq, depth)
  {
    hide Le, Content, LeastBelow;
    var s := h[k := v];
    SonsSeen(h, v, len, k, j, freq, depth);
    SinkFurther(s, s0, len, from, k, j, freq, depth);
    assert h[k := h[j]][j := v] == s[k := s[j]][j := s[k]];
  }

  lemma WalkEnds(h: seq<nat>, v: nat, s0: seq<nat>, len: nat, from: nat, k: nat, j: nat, freq: seq<nat>, depth: seq<nat>)
    requires Walk(h, v, s0, len, from, k, freq, depth) && v < |freq| && v < |depth|
    requires 2 * k > len || (j / 2 == k && 2 <= j <= len && LeastBelow(h, len, j, k, freq, depth) && Le(freq, depth, v, h[j]))
    ensures HeapFrom(h[k := v], len, from, freq, depth)
  {
    if 2 * k <= len {
      SonsSeen(h, v, len, k, j, freq, depth);
    }
    SinkEnds(h[k := v], s0, len, from, k, freq, depth);
  }

  /** The entry at the top is least. */
  lemma {:induction false} TopIsLeast(heap: seq<nat>, len: nat, freq: seq<nat>, depth: seq<nat>, j: nat)
    requires Nodes(heap, len, freq, depth) && HeapFrom(heap, len, 1, freq, depth) && 1 <= j <= len
    ensures Le(freq, depth, heap[1], heap[j])
    decreases j
  {
    if j > 1 {
      TopIsLeast(heap, len, freq, depth, j / 2);
    }
  }

  lemma TopIsLeastOf(heap: seq<nat>, len: nat, freq: seq<nat>, depth: seq<nat>, v: nat)
    requires Nodes(heap, len, freq, depth) && HeapFrom(heap, len, 1, freq, depth) && v in Content(heap, len)
    ensures v < |freq| && v < |depth| && Le(freq, depth, heap[1], v)
  {
    var i :| 0 <= i < len && heap[1..len + 1][i] == v;
    TopIsLeast(heap, len, freq, depth, i + 1);
  }

  /** The array part of the Huffman tree builder that acts as a priority queue. */
  class NodeHeap {
    const heap: array<nat>
    const depth: array<nat>
    var heapLen: nat

    constructor ()
      ensures heap.Length == depth.Length == HEAP_SIZE && heap != depth
      ensures fresh(heap) && fresh(depth)
    {
      heap := new nat[HEAP_SIZE](_ => 0);
      depth := new nat[HEAP_SIZE](_ => 0);
      heapLen := 0;
    }

    predicate Smaller(freq: array<nat>, n: nat, m: nat)
      requires n < freq.Length && n < depth.Length && m < freq.Length && m < depth.Length
      reads this, depth, freq
    {
      freq[n] < freq[m] || (freq[n] == freq[m] && depth[n] <= depth[m])
    }

    /** `f` and `d` are the contents of the two arrays that decide the order. */
    ghost predicate Ordered(freq: array<nat>, f: seq<nat>, d: seq<nat>)
      reads depth, freq
    {
      heap != depth && heap != freq && depth != freq && freq[..] == f && depth[..] == d
    }

    /** The smaller of the one or two sons of `k`. */
    method SmallestSon(freq: array<nat>, k: nat, ghost f: seq<nat>, ghost d: seq<nat>) returns (j: nat)
      requires Ordered(freq, f, d) && Nodes(heap[..], heapLen, f, d) && 1 <= k && 2 * k <= heapLen
      ensures j / 2 == k && 2 <= j <= heapLen
      ensures LeastBelow(heap[..], heapLen, j, k, f, d)
    {
      j := 2 * k;
      if j < heapLen && Smaller(freq, heap[j + 1], heap[j]) {
        j := j + 1;
      }
      forall i | 2 <= i <= heapLen && i / 2 == k
        ensures Le(f, d, heap[j], heap[i])
      {
        assert i == 2 * k || i == 2 * k + 1;
      }
    }

    /** Moves the entry at `k` down to its place. */
    method PqDownHeap(freq: array<nat>, k: nat, ghost f: seq<nat>, ghost d: seq<nat>)
      requires Ordered(freq, f, d) && Nodes(heap[..], heapLen, f, d) && 1 <= k <= heapLen
      requires HeapFrom(heap[..], heapLen, k + 1, f, d)
      modifies heap
      ensures Ordered(freq, f, d) && Nodes(heap[..], heapLen, f, d)
      ensures HeapFrom(heap[..], heapLen, k, f, d)
      ensures Content(heap[..], heapLen) == old(Content(heap[..], heapLen))
      ensures forall j :: 0 <= j < heap.Length && (j < k || j > heapLen) ==> heap[j] == old(heap[j])
    {
      ghost var before, len := heap[..], heapLen;
      var v: nat := heap[k];
      var hole := k;
      var j := 2 * k;
      assert before[k := v] == before;
      while j <= heapLen
        invariant j == 2 * hole && Ordered(freq, f, d) && v < |f| && v < |d|
        invariant Walk(heap[..], v, before, len, k, hole, f, d)
        decreases heapLen - hole
      {
        ghost var h := heap[..];
        j := SmallestSon(freq, hole, f, d);
        if Smaller(freq, v, heap[j]) {
          break;
        }
        WalkOn(h, v, before, len, k, hole, j, f, d);
        heap[hole] := heap[j];
        assert heap[..] == h[hole := h[j]];
        hole := j;
        j := 2 * j;
      }
      ghost var h := heap[..];
      WalkEnds(h, v, before, len, k, hole, j, f, d);
      heap[hole] := v;
      assert heap[..] == h[hole := v];
    }

    /** Takes the least entry out of the heap. */
    method PqRemove(freq: array<nat>, ghost f: seq<nat>, ghost d: seq<nat>) returns (top: nat)
      requires Ordered(freq, f, d) && Nodes(heap[..], heapLen, f, d)
      requires 2 <= heapLen && HeapFrom(heap[..], heapLen, 1, f, d)
      modifies heap, `heapLen
      ensures heapLen == old(heapLen) - 1
      ensures Ordered(freq, f, d) && Nodes(heap[..], heapLen, f, d) && HeapFrom(heap[..], heapLen, 1, f, d)
      ensures top == old(heap[1])
      ensures Content(heap[..], heapLen) == old(Content(heap[..], heapLen)) - multiset{top}
      ensures forall j :: 0 <= j < heap.Length && j > old(heapLen) ==> heap[j] == old(heap[j])
    {
      hide Content, Le;
      ghost var s := heap[..];
      top := heap[1];
      heap[1] := heap[heapLen];
      RemoveContent(s, heapLen);
      heapLen := heapLen - 1;
      assert heap[..] == s[1 := s[heapLen + 1]];
      PqDownHeap(freq, 1, f, d);
    }

    /** Puts `node` in the place of the least entry. */
    method PqReplace(freq: array<nat>, node: nat, ghost f: seq<nat>, ghost d: seq<nat>)
      requires Ordered(freq, f, d) && Nodes(heap[..], heapLen, f, d)
      requires 1 <= heapLen && HeapFrom(heap[..], heapLen, 1, f, d)
      requires node < |f| && node < |d|
      modifies heap
      ensures Ordered(freq, f, d) && Nodes(heap[..], heapLen, f, d) && HeapFrom(heap[..], heapLen, 1, f, d)
      ensures Content(heap[..], heapLen) == old(Content(heap[..], heapLen) - multiset{heap[1]} + multiset{node})
      ensures forall j :: 0 <= j < heap.Length && j > heapLen ==> heap[j] == old(heap[j])
    {
      ghost var s := heap[..];
      ReplaceContent(s, heapLen, node);
      heap[1] := node;
      assert heap[..] == s[1 := node];
      PqDownHeap(freq, 1, f, d);
    }
  }

  lemma RemoveContent(s: seq<nat>, len: nat)
    requires 2 <= len < |s|
    ensures Content(s[1 := s[len]], len - 1) == Content(s, len) - multiset{s[1]}
  {
    var w, x := s[1..len + 1], s[len];
    MovedLast(w, x);
    assert s[1 := x][1..len] == w[0 := x][..len - 1];
  }

  /** The last entry of a list takes the place of the first one. */
  lemma MovedLast(w: seq<nat>, x: nat)
    requires |w| >= 2 && w[|w| - 1] == x
    ensures multiset(w[0 := x][..|w| - 1]) == multiset(w) - multiset{w[0]}
  {
    var middle := w[1..|w| - 1];
    assert w == [w[0]] + middle + [x];
    assert w[0 := x][..|w| - 1] == [x] + middle;
  }

  lemma ReplaceContent(s: seq<nat>, len: nat, node: nat)
    requires 1 <= len < |s|
    ensures Content(s[1 := node], len) == Content(s, len) - multiset{s[1]} + multiset{node}
  {
    var w := s[1..len + 1];
    assert s[1 := node][1..len + 1] == w[0 := node];
  }
}
