/** The order in which the nodes of a finished tree stand in the heap array. */
module TreeOrder {
  import opened Heaps
  import opened Merges
  import opened MergeLoop

  /** The position of the root; the other nodes follow it. */
  ghost function First(pairs: seq<Pair>): int
  {
    HEAP_SIZE - 1 - 2 * |pairs|
  }

  /** The merge whose pair contains the entry at position `h`. */
  ghost function MergeAt(h: int): int
  {
    (HEAP_SIZE - 1 - h) / 2
  }

  /** The nodes of a complete plan, root first, sons in pairs. */
  ghost predicate Listed(heap: seq<nat>, elems: nat, leaves: set<nat>, pairs: seq<Pair>)
  {
    && Complete(elems, leaves, pairs) && Recorded(heap, pairs) && First(pairs) >= 1
    && heap[First(pairs)] == Root(elems, pairs)
  }

  lemma EntryAt(heap: seq<nat>, elems: nat, leaves: set<nat>, pairs: seq<Pair>, h: nat)
    requires Listed(heap, elems, leaves, pairs) && First(pairs) < h < HEAP_SIZE
    ensures 0 <= MergeAt(h) < |pairs|
    ensures heap[h] == pairs[MergeAt(h)].0 || heap[h] == pairs[MergeAt(h)].1
    ensures heap[h] in Ready(elems, leaves, pairs[..MergeAt(h)])
    ensures heap[h] < elems + MergeAt(h)
  {
    var i := MergeAt(h);
    assert RecordedAt(heap, pairs, i) && PairReady(elems, leaves, pairs, i);
    ReadyBelow(elems, leaves, pairs, i, heap[h]);
  }

  /** The father of every entry stands before it. */
  lemma FatherBefore(heap: seq<nat>, elems: nat, leaves: set<nat>, pairs: seq<Pair>, h: nat)
    requires Listed(heap, elems, leaves, pairs) && First(pairs) < h < HEAP_SIZE
    ensures elems + MergeAt(h) in heap[First(pairs)..h]
  {
    var i, e := MergeAt(h), elems + MergeAt(h);
    EntryAt(heap, elems, leaves, pairs, h);
    if e == Root(elems, pairs) {
      assert heap[First(pairs)..h][0] == e;
    } else {
      ReadyStep(elems, leaves, pairs, i);
      var j := MergedLater(elems, leaves, pairs, i + 1, e);
      assert RecordedAt(heap, pairs, j);
      var k := if e == pairs[j].0 then HEAP_SIZE - 1 - 2 * j else HEAP_SIZE - 2 - 2 * j;
      assert heap[First(pairs)..h][k - First(pairs)] == e;
    }
  }

  /** No node stands twice. */
  lemma NotBefore(heap: seq<nat>, elems: nat, leaves: set<nat>, pairs: seq<Pair>, h: nat)
    requires Listed(heap, elems, leaves, pairs) && First(pairs) < h < HEAP_SIZE
    ensures heap[h] !in heap[First(pairs)..h]
  {
    var i := MergeAt(h);
    EntryAt(heap, elems, leaves, pairs, h);
    forall g | First(pairs) <= g < h
      ensures heap[g] != heap[h]
    {
      if g > First(pairs) {
        var j := MergeAt(g);
        EntryAt(heap, elems, leaves, pairs, g);
        if j == i {
          assert RecordedAt(heap, pairs, i) && PairReady(elems, leaves, pairs, i);
        } else {
          NeverAgain(elems, leaves, pairs, i, j);
        }
      }
    }
  }

  /** Every leaf stands somewhere after the root. */
  lemma LeafListed(heap: seq<nat>, elems: nat, leaves: set<nat>, pairs: seq<Pair>, v: nat)
    requires Listed(heap, elems, leaves, pairs) && v in leaves
    ensures v in heap[First(pairs) + 1..HEAP_SIZE]
  {
    assert pairs[..0] == [];
    var j := MergedLater(elems, leaves, pairs, 0, v);
    assert RecordedAt(heap, pairs, j);
    var k := if v == pairs[j].0 then HEAP_SIZE - 1 - 2 * j else HEAP_SIZE - 2 - 2 * j;
    assert heap[First(pairs) + 1..HEAP_SIZE][k - First(pairs) - 1] == v;
  }

  /** A symbol that stands in the list is a leaf. */
  lemma ListedLeaf(heap: seq<nat>, elems: nat, leaves: set<nat>, pairs: seq<Pair>, h: nat)
    requires Listed(heap, elems, leaves, pairs) && First(pairs) <= h < HEAP_SIZE && heap[h] < elems
    ensures heap[h] in leaves
  {
    if h > First(pairs) {
      EntryAt(heap, elems, leaves, pairs, h);
      ReadyBelow(elems, leaves, pairs, MergeAt(h), heap[h]);
    }
  }

  // ---------- Depths ----------

  /** The depth of `v` found by following the fathers, at most `limit`. */
  ghost function DepthOf(dad: seq<nat>, root: nat, limit: nat, v: nat): nat
    decreases root - v
  {
    if v >= root || v >= |dad| || dad[v] <= v then 0
    else Min(DepthOf(dad, root, limit, dad[v]) + 1, limit)
  }

  ghost function NodeDepths(dad: seq<nat>, root: nat, limit: nat, n: nat): (lens: seq<nat>)
    ensures |lens| == n
  {
    seq(n, v requires 0 <= v < n => DepthOf(dad, root, limit, v))
  }

  lemma DepthsHold(dad: seq<nat>, elems: nat, leaves: set<nat>, pairs: seq<Pair>, limit: nat)
    requires Complete(elems, leaves, pairs) && Fathers(dad, elems, pairs) && |dad| >= elems + |pairs|
    ensures Depths(elems, leaves, pairs, limit, NodeDepths(dad, Root(elems, pairs), limit, elems + |pairs|))
  {
    var root := Root(elems, pairs);
    var lens := NodeDepths(dad, root, limit, elems + |pairs|);
    forall i | 0 <= i < |pairs|
      ensures PairDepth(elems, pairs, limit, lens, i)
    {
      NeverAgain(elems, leaves, pairs, i, i + 1);
      var (a, b) := pairs[i];
      assert dad[a] == elems + i && dad[b] == elems + i;
      assert lens[a] == Min(lens[elems + i] + 1, limit);
      assert lens[b] == Min(lens[elems + i] + 1, limit);
    }
  }

  /** How many of the entries before `h` were too deep. */
  ghost function TooDeep(elems: nat, pairs: seq<Pair>, limit: nat, lens: seq<nat>, h: int): nat
    requires |lens| == elems + |pairs| && First(pairs) < h <= HEAP_SIZE
  {
    var n := h - First(pairs) - 1;
    var i := |pairs| - n / 2;
    2 * Excess(elems, pairs, limit, lens, i) + (if n % 2 == 1 && lens[elems + i - 1] == limit then 1 else 0)
  }

  lemma TooDeepStep(elems: nat, pairs: seq<Pair>, limit: nat, lens: seq<nat>, h: int)
    requires |lens| == elems + |pairs| && First(pairs) < h < HEAP_SIZE
    ensures 0 <= MergeAt(h) < |pairs|
    ensures TooDeep(elems, pairs, limit, lens, h + 1)
         == TooDeep(elems, pairs, limit, lens, h) + (if lens[elems + MergeAt(h)] == limit then 1 else 0)
  {
    var n := h - First(pairs) - 1;
    var i := |pairs| - n / 2;
    assert MergeAt(h) == i - 1;
    if n % 2 == 1 {
      assert (n + 1) / 2 == n / 2 + 1;
    } else {
      assert (n + 1) / 2 == n / 2;
    }
  }

  lemma NoneDeep(elems: nat, pairs: seq<Pair>, limit: nat, lens: seq<nat>)
    requires |lens| == elems + |pairs| && First(pairs) < HEAP_SIZE
    ensures TooDeep(elems, pairs, limit, lens, First(pairs) + 1) == 0
  {
  }

  lemma AllDeep(elems: nat, pairs: seq<Pair>, limit: nat, lens: seq<nat>)
    requires |lens| == elems + |pairs| && First(pairs) < HEAP_SIZE
    ensures TooDeep(elems, pairs, limit, lens, HEAP_SIZE) == 2 * Excess(elems, pairs, limit, lens, 0)
  {
  }

  lemma ListedParts(heap: seq<nat>, elems: nat, leaves: set<nat>, pairs: seq<Pair>)
    requires Listed(heap, elems, leaves, pairs)
    ensures Complete(elems, leaves, pairs) && pairs != []
    ensures |heap| == HEAP_SIZE && 1 <= First(pairs) < HEAP_SIZE
    ensures heap[First(pairs)] == Root(elems, pairs) < elems + |pairs|
  {
  }
}
