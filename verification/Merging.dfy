/** The construction of one Huffman tree, second part: combining the two least nodes. */
module Merging {
  import opened Heaps
  import opened Merges
  import opened Optimality
  import opened MergeLoop
  import opened TreeBuilders

  /** What the merging loop keeps, on the contents of the arrays. */
  ghost predicate Built(heap: seq<nat>, len: nat, f: seq<nat>, d: seq<nat>, dl: seq<nat>,
                        f0: seq<nat>, leaves: set<nat>, pairs: seq<Pair>)
  {
    && Plan(|f0|, leaves, pairs) && len + |pairs| <= |f0| <= L_CODES
    && |f| == |dl| == 2 * |f0| + 1 && |d| == HEAP_SIZE && |heap| == HEAP_SIZE
    && Queued(heap, len, f, d, |f0|, leaves, pairs)
    && Recorded(heap, pairs) && Fathers(dl, |f0|, pairs) && Frequencies(f, f0, leaves, pairs)
    && (forall n :: 0 <= n < |f0| && n !in leaves ==> dl[n] == 0)
  }

  /** The two entries taken from the queue are the two least nodes. */
  lemma TakeTwo(heap: seq<nat>, heap': seq<nat>, len: nat, f: seq<nat>, d: seq<nat>,
                elems: nat, leaves: set<nat>, pairs: seq<Pair>)
    requires Queued(heap, len, f, d, elems, leaves, pairs) && 2 <= len
    requires Nodes(heap', len - 1, f, d) && HeapFrom(heap', len - 1, 1, f, d)
    requires Content(heap', len - 1) == Content(heap, len) - multiset{heap[1]}
    ensures var (n, m) := (heap[1], heap'[1]);
      && n != m && n < |f| && m < |f|
      && n in Ready(elems, leaves, pairs) && m in Ready(elems, leaves, pairs)
      && Least(Ready(elems, leaves, pairs), f, n, m)
  {
    hide Content, HeapFrom, Ready;
    var n, m, ready := heap[1], heap'[1], Ready(elems, leaves, pairs);
    InContent(heap, len);
    InContent(heap', len - 1);
    assert m in multiset(ready) - multiset{n} && n in multiset(ready);
    forall v | v in ready && v < |f| && v != n
      ensures f[m] <= f[v]
    {
      assert v in multiset(ready) - multiset{n};
      TopIsLeastOf(heap', len - 1, f, d, v);
    }
    TopIsLeastOf(heap, len, f, d, m);
  }

  lemma InContent(heap: seq<nat>, len: nat)
    requires 1 <= len < |heap|
    ensures heap[1] in Content(heap, len)
  {
    assert heap[1] == heap[1..len + 1][0];
  }

  lemma ReplaceTwo(ready: set<nat>, n: nat, m: nat, node: nat)
    requires n in ready && m in ready && n != m && node !in ready
    ensures multiset(ready) - multiset{n} - multiset{m} + multiset{node} == multiset(ready - {n, m} + {node})
  {
  }

  /** Writes the merged pair above the heap and sets up its father. */
  method RecordPair(b: TreeBuilder, desc: TreeDesc, n: nat, m: nat, node: nat)
    requires b.Ready(desc) && 2 <= b.heapMax <= HEAP_SIZE
    requires n < node && m < node && node < desc.fc.Length
    modifies b`heapMax, b.q.heap, b.q.depth, desc.fc, desc.dl
    ensures b.heapMax == old(b.heapMax) - 2
    ensures b.q.heap[..] == old(b.q.heap[..])[b.heapMax + 1 := n][b.heapMax := m]
    ensures desc.fc[..] == old(desc.fc[..])[node := (old(desc.fc[n]) + old(desc.fc[m])) % 0x1_0000]
    ensures desc.dl[..] == old(desc.dl[..])[n := node][m := node]
    ensures forall k :: 0 <= k < b.q.depth.Length && k != node ==> b.q.depth[k] == old(b.q.depth[k])
  {
    b.heapMax := b.heapMax - 1;
    b.q.heap[b.heapMax] := n;
    b.heapMax := b.heapMax - 1;
    b.q.heap[b.heapMax] := m;
    desc.fc[node] := (desc.fc[n] + desc.fc[m]) % 0x1_0000;
    b.q.depth[node] := ((if b.q.depth[n] >= b.q.depth[m] then b.q.depth[n] else b.q.depth[m]) + 1) % 256;
    desc.dl[n] := node;
    desc.dl[m] := node;
  }

  /** Entries above the queue stay recorded. */
  lemma RecordedFrame(heap: seq<nat>, heap': seq<nat>, len: nat, pairs: seq<Pair>)
    requires Recorded(heap, pairs) && |heap'| == HEAP_SIZE && len < HEAP_SIZE - 2 * |pairs|
    requires forall j :: len < j < HEAP_SIZE ==> heap'[j] == heap[j]
    ensures Recorded(heap', pairs)
  {
    forall i | 0 <= i < |pairs|
      ensures RecordedAt(heap', pairs, i)
    {
      assert RecordedAt(heap, pairs, i);
    }
  }

  /** The queue after the pair has been recorded, before the new node is put in. */
  lemma AfterRecord(heap: seq<nat>, heap': seq<nat>, len: nat, f: seq<nat>, f': seq<nat>, d: seq<nat>, d': seq<nat>,
                    elems: nat, leaves: set<nat>, pairs: seq<Pair>, n: nat, m: nat)
    requires Plan(elems, leaves, pairs) && Recorded(heap, pairs) && len + 2 < HEAP_SIZE - 2 * |pairs|
    requires Nodes(heap, len, f, d) && HeapFrom(heap, len, 1, f, d)
    requires Content(heap, len) <= multiset(Ready(elems, leaves, pairs))
    requires heap' == heap[HEAP_SIZE - 2 * |pairs| - 1 := n][HEAP_SIZE - 2 * |pairs| - 2 := m]
    requires |f| == |f'| && |d| == |d'|
    requires forall k :: 0 <= k < |f| && k != elems + |pairs| ==> f'[k] == f[k]
    requires forall k :: 0 <= k < |d| && k != elems + |pairs| ==> d'[k] == d[k]
    ensures Nodes(heap', len, f', d') && HeapFrom(heap', len, 1, f', d')
    ensures Content(heap', len) == Content(heap, len)
    ensures Recorded(heap', pairs + [(n, m)])
  {
    hide Content, HeapFrom, Ready, Nodes;
    NodeIsNew(elems, leaves, pairs);
    assert elems + |pairs| !in Content(heap, len);
    QueuedFrame(heap, heap', len, f, f', d, d', elems + |pairs|);
    RecordedPush(heap, heap', pairs, n, m);
  }

  /** The parts of the state that do not concern the queue, after one merge. */
  lemma MergeOnce(f: seq<nat>, f': seq<nat>, dl: seq<nat>, dl': seq<nat>,
                  f0: seq<nat>, leaves: set<nat>, pairs: seq<Pair>, pairs': seq<Pair>, n: nat, m: nat)
    requires Plan(|f0|, leaves, pairs) && |f0| + |pairs| < |f| && |dl| == |f|
    requires Fathers(dl, |f0|, pairs) && Frequencies(f, f0, leaves, pairs) && Over(leaves, f0) <= 0xffff
    requires forall k :: 0 <= k < |f0| && k !in leaves ==> dl[k] == 0
    requires n != m && n in Ready(|f0|, leaves, pairs) && m in Ready(|f0|, leaves, pairs)
    requires n < |f| && m < |f| && Least(Ready(|f0|, leaves, pairs), f, n, m)
    requires pairs' == pairs + [(n, m)] && f' == f[|f0| + |pairs| := (f[n] + f[m]) % 0x1_0000]
    requires dl' == dl[n := |f0| + |pairs|][m := |f0| + |pairs|]
    ensures Plan(|f0|, leaves, pairs') && Fathers(dl', |f0|, pairs') && Frequencies(f', f0, leaves, pairs')
    ensures forall k :: 0 <= k < |f0| && k !in leaves ==> dl'[k] == 0
  {
    hide Ready, Over, Least, Fathers;
    MergedFrequency(f, Ready(|f0|, leaves, pairs), n, m);
    assert (f[n] + f[m]) % 0x1_0000 == f[n] + f[m];
    FrequenciesPush(f, f', f0, leaves, pairs, pairs', n, m);
    FathersPush(dl, |f0|, leaves, pairs, n, m);
    PlanPush(|f0|, leaves, pairs, n, m);
    assert pairs[..|pairs|] == pairs;
    ReadyBelow(|f0|, leaves, pairs, |pairs|, n);
    ReadyBelow(|f0|, leaves, pairs, |pairs|, m);
  }

  lemma Requeued(heap: seq<nat>, len: nat, f: seq<nat>, d: seq<nat>, elems: nat, leaves: set<nat>,
                 pairs: seq<Pair>, n: nat, m: nat, node: nat, c: multiset<nat>)
    requires Plan(elems, leaves, pairs) && node == elems + |pairs|
    requires n != m && n in Ready(elems, leaves, pairs) && m in Ready(elems, leaves, pairs)
    requires Nodes(heap, len, f, d) && HeapFrom(heap, len, 1, f, d)
    requires c == multiset(Ready(elems, leaves, pairs))
    requires Content(heap, len) == c - multiset{n} - multiset{m} + multiset{node}
    ensures Queued(heap, len, f, d, elems, leaves, pairs + [(n, m)])
  {
    hide Content, HeapFrom, Ready, Nodes;
    NodeIsNew(elems, leaves, pairs);
    ReadyPush(elems, leaves, pairs, n, m);
    ReplaceTwo(Ready(elems, leaves, pairs), n, m, node);
  }

  /** One round of the loop: the two least nodes are given a common father. */
  method CombineLeast(b: TreeBuilder, desc: TreeDesc, node: nat, ghost f0: seq<nat>, ghost leaves: set<nat>, ghost pairs: seq<Pair>)
    returns (ghost pairs': seq<Pair>)
    requires b.Ready(desc) && b.heapMax == HEAP_SIZE - 2 * |pairs| && 2 <= b.q.heapLen
    requires |f0| == desc.elems && Over(leaves, f0) <= 0xffff && node == desc.elems + |pairs|
    requires Built(b.q.heap[..], b.q.heapLen, desc.fc[..], b.q.depth[..], desc.dl[..], f0, leaves, pairs)
    modifies b`heapMax, b.q`heapLen, b.q.heap, b.q.depth, desc.fc, desc.dl
    ensures b.heapMax == HEAP_SIZE - 2 * |pairs'| && b.q.heapLen == old(b.q.heapLen) - 1
    ensures |pairs'| == |pairs| + 1 && pairs'[..|pairs|] == pairs
    ensures Built(b.q.heap[..], b.q.heapLen, desc.fc[..], b.q.depth[..], desc.dl[..], f0, leaves, pairs')
  {
    hide Content, HeapFrom, Merges.Ready, Nodes, Recorded, Fathers, Frequencies, Least, Plan, Over, Built;
    ghost var heap, f, d, dl, len := b.q.heap[..], desc.fc[..], b.q.depth[..], desc.dl[..], b.q.heapLen;
    BuiltParts(heap, len, f, d, dl, f0, leaves, pairs);
    ghost var c := Content(heap, len);
    var n := b.q.PqRemove(desc.fc, f, d);
    var m: nat := b.q.heap[1];
    ghost var h1 := b.q.heap[..];
    TakeTwo(heap, h1, len, f, d, |f0|, leaves, pairs);
    BelowNode(|f0|, leaves, pairs, n);
    BelowNode(|f0|, leaves, pairs, m);
    RecordPair(b, desc, n, m, node);
    ghost var f2, d2, h2 := desc.fc[..], b.q.depth[..], b.q.heap[..];
    pairs' := pairs + [(n, m)];
    assert Nodes(h2, len - 1, f2, d2) && HeapFrom(h2, len - 1, 1, f2, d2)
        && Content(h2, len - 1) == c - multiset{n} && Recorded(h2, pairs') by {
      RecordedFrame(heap, h1, len, pairs);
      AfterRecord(h1, h2, len - 1, f, f2, d, d2, |f0|, leaves, pairs, n, m);
    }
    MergeOnce(f, f2, dl, desc.dl[..], f0, leaves, pairs, pairs', n, m);
    assert h2[1] == m;
    b.q.PqReplace(desc.fc, node, f2, d2);
    ghost var h3 := b.q.heap[..];
    RecordedFrame(h2, h3, len - 1, pairs');
    Requeued(h3, len - 1, f2, d2, |f0|, leaves, pairs, n, m, node, c);
    BuiltAgain(h3, len - 1, f2, d2, desc.dl[..], f0, leaves, pairs');
  }

  lemma BuiltParts(heap: seq<nat>, len: nat, f: seq<nat>, d: seq<nat>, dl: seq<nat>, f0: seq<nat>, leaves: set<nat>, pairs: seq<Pair>)
    requires Built(heap, len, f, d, dl, f0, leaves, pairs)
    ensures Plan(|f0|, leaves, pairs) && len + |pairs| <= |f0| <= L_CODES
    ensures |f| == |dl| == 2 * |f0| + 1 && |d| == HEAP_SIZE && |heap| == HEAP_SIZE
    ensures Queued(heap, len, f, d, |f0|, leaves, pairs)
    ensures Recorded(heap, pairs) && Fathers(dl, |f0|, pairs) && Frequencies(f, f0, leaves, pairs)
    ensures forall n :: 0 <= n < |f0| && n !in leaves ==> dl[n] == 0
  {
  }

  lemma BuiltAgain(heap: seq<nat>, len: nat, f: seq<nat>, d: seq<nat>, dl: seq<nat>, f0: seq<nat>, leaves: set<nat>, pairs: seq<Pair>)
    requires Plan(|f0|, leaves, pairs) && len + |pairs| <= |f0| <= L_CODES
    requires |f| == |dl| == 2 * |f0| + 1 && |d| == HEAP_SIZE && |heap| == HEAP_SIZE
    requires Queued(heap, len, f, d, |f0|, leaves, pairs)
    requires Recorded(heap, pairs) && Fathers(dl, |f0|, pairs) && Frequencies(f, f0, leaves, pairs)
    requires forall n :: 0 <= n < |f0| && n !in leaves ==> dl[n] == 0
    ensures Built(heap, len, f, d, dl, f0, leaves, pairs)
  {
  }

  /** Combines the two least frequent nodes until one is left. */
  method MergeNodes(b: TreeBuilder, desc: TreeDesc, ghost f0: seq<nat>, ghost leaves: set<nat>)
    returns (ghost pairs: seq<Pair>)
    requires b.Ready(desc) && b.heapMax == HEAP_SIZE && 2 <= b.q.heapLen
    requires |f0| == desc.elems && Over(leaves, f0) <= 0xffff
    requires Built(b.q.heap[..], b.q.heapLen, desc.fc[..], b.q.depth[..], desc.dl[..], f0, leaves, [])
    modifies b`heapMax, b.q`heapLen, b.q.heap, b.q.depth, desc.fc, desc.dl
    ensures pairs != [] && Complete(|f0|, leaves, pairs)
    ensures b.heapMax == HEAP_SIZE - 2 * |pairs| - 1 && b.heapMax >= 2
    ensures b.q.heap[b.heapMax] == Root(|f0|, pairs) && Recorded(b.q.heap[..], pairs)
    ensures |f0| + |pairs| <= desc.fc.Length
    ensures Fathers(desc.dl[..], |f0|, pairs) && Frequencies(desc.fc[..], f0, leaves, pairs)
    ensures forall n :: 0 <= n < |f0| && n !in leaves ==> desc.dl[n] == 0
  {
    hide Content, HeapFrom, Merges.Ready, Nodes, Recorded, Fathers, Frequencies, Least, Plan, Over, Built;
    pairs := [];
    var node: nat := desc.elems;
    while b.q.heapLen >= 2
      invariant 1 <= b.q.heapLen && node == desc.elems + |pairs| && b.heapMax == HEAP_SIZE - 2 * |pairs|
      invariant b.q.heapLen >= 2 || pairs != []
      invariant Built(b.q.heap[..], b.q.heapLen, desc.fc[..], b.q.depth[..], desc.dl[..], f0, leaves, pairs)
      decreases b.q.heapLen
    {
      pairs := CombineLeast(b, desc, node, f0, leaves, pairs);
      node := node + 1;
    }
    ghost var heap := b.q.heap[..];
    BuiltParts(heap, 1, desc.fc[..], b.q.depth[..], desc.dl[..], f0, leaves, pairs);
    Finished(heap, |f0|, leaves, pairs);
    b.heapMax := b.heapMax - 1;
    b.q.heap[b.heapMax] := b.q.heap[1];
    RecordedBelow(heap, b.q.heap[..], pairs);
  }

  lemma RecordedBelow(heap: seq<nat>, heap': seq<nat>, pairs: seq<Pair>)
    requires Recorded(heap, pairs) && |heap'| == HEAP_SIZE
    requires forall j :: HEAP_SIZE - 2 * |pairs| <= j < HEAP_SIZE ==> heap'[j] == heap[j]
    ensures Recorded(heap', pairs)
  {
    forall i | 0 <= i < |pairs|
      ensures RecordedAt(heap', pairs, i)
    {
      assert RecordedAt(heap, pairs, i);
    }
  }
}
