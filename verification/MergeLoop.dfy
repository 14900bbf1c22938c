/** What the merging loop of the tree builder keeps, stated on the contents of its arrays. */
module MergeLoop {
  import opened Sums
  import opened Heaps
  import opened Merges
  import opened Optimality

  /** The merged pairs stand in the upper part of the heap array, latest first. */
  ghost predicate Recorded(heap: seq<nat>, pairs: seq<Pair>)
  {
    && |heap| == HEAP_SIZE && 2 * |pairs| <= HEAP_SIZE
    && (forall i {:trigger RecordedAt(heap, pairs, i)} :: 0 <= i < |pairs| ==> RecordedAt(heap, pairs, i))
  }

  ghost predicate RecordedAt(heap: seq<nat>, pairs: seq<Pair>, i: nat)
    requires |heap| == HEAP_SIZE && 2 * |pairs| <= HEAP_SIZE && i < |pairs|
  {
    heap[HEAP_SIZE - 1 - 2 * i] == pairs[i].0 && heap[HEAP_SIZE - 2 - 2 * i] == pairs[i].1
  }

  /** The sons of every merged node have it as their father. */
  ghost predicate Fathers(dad: seq<nat>, elems: nat, pairs: seq<Pair>)
  {
    forall i :: 0 <= i < |pairs| ==>
      pairs[i].0 < |dad| && pairs[i].1 < |dad| && dad[pairs[i].0] == elems + i && dad[pairs[i].1] == elems + i
  }

  /** The frequencies of the leaves, followed by those of the merged nodes. */
  ghost predicate Frequencies(f: seq<nat>, f0: seq<nat>, leaves: set<nat>, pairs: seq<Pair>)
  {
    && |f0| + |pairs| <= |f| && f[..|f0|] == f0
    && (forall i {:trigger PairLeast(|f0|, leaves, pairs, f, i)} :: 0 <= i < |pairs| ==> PairLeast(|f0|, leaves, pairs, f, i))
    && Over(Ready(|f0|, leaves, pairs), f) == Over(leaves, f0)
  }

  /** The priority queue holds exactly the nodes without a father. */
  ghost predicate Queued(heap: seq<nat>, len: nat, f: seq<nat>, d: seq<nat>, elems: nat, leaves: set<nat>, pairs: seq<Pair>)
  {
    && Nodes(heap, len, f, d) && HeapFrom(heap, len, 1, f, d)
    && Content(heap, len) == multiset(Ready(elems, leaves, pairs))
  }

  /** A node that has been merged never becomes ready again. */
  lemma {:induction false} NeverAgain(elems: nat, leaves: set<nat>, pairs: seq<Pair>, i: nat, j: nat)
    requires Plan(elems, leaves, pairs) && i < j <= |pairs|
    ensures pairs[i].0 !in Ready(elems, leaves, pairs[..j]) && pairs[i].1 !in Ready(elems, leaves, pairs[..j])
    ensures pairs[i].0 < elems + i && pairs[i].1 < elems + i
    decreases j
  {
    assert PairReady(elems, leaves, pairs, i);
    ReadyBelow(elems, leaves, pairs, i, pairs[i].0);
    ReadyBelow(elems, leaves, pairs, i, pairs[i].1);
    ReadyStep(elems, leaves, pairs, j - 1);
    if i < j - 1 {
      NeverAgain(elems, leaves, pairs, i, j - 1);
    }
  }

  lemma ReadyPush(elems: nat, leaves: set<nat>, pairs: seq<Pair>, a: nat, b: nat)
    ensures Ready(elems, leaves, pairs + [(a, b)]) == Ready(elems, leaves, pairs) - {a, b} + {elems + |pairs|}
  {
    assert (pairs + [(a, b)])[..|pairs|] == pairs;
  }

  lemma PlanPush(elems: nat, leaves: set<nat>, pairs: seq<Pair>, a: nat, b: nat)
    requires Plan(elems, leaves, pairs) && a != b
    requires a in Ready(elems, leaves, pairs) && b in Ready(elems, leaves, pairs)
    ensures Plan(elems, leaves, pairs + [(a, b)])
  {
    var pairs' := pairs + [(a, b)];
    forall i | 0 <= i < |pairs'|
      ensures PairReady(elems, leaves, pairs', i)
    {
      if i < |pairs| {
        assert PairReady(elems, leaves, pairs, i);
        assert pairs'[..i] == pairs[..i];
      } else {
        assert pairs'[..i] == pairs;
      }
    }
  }

  lemma BelowNode(elems: nat, leaves: set<nat>, pairs: seq<Pair>, v: nat)
    requires Plan(elems, leaves, pairs) && v in Ready(elems, leaves, pairs)
    ensures v < elems + |pairs|
  {
    assert pairs[..|pairs|] == pairs;
    ReadyBelow(elems, leaves, pairs, |pairs|, v);
  }

  /** The queue is unaffected by writes to the new node and to the recorded part. */
  lemma QueuedFrame(heap: seq<nat>, heap': seq<nat>, len: nat, f: seq<nat>, f': seq<nat>, d: seq<nat>, d': seq<nat>, node: nat)
    requires Nodes(heap, len, f, d) && HeapFrom(heap, len, 1, f, d) && node !in Content(heap, len)
    requires |heap| == |heap'| && |f| == |f'| && |d| == |d'|
    requires forall j :: 0 <= j <= len ==> heap'[j] == heap[j]
    requires forall k :: 0 <= k < |f| && k != node ==> f'[k] == f[k]
    requires forall k :: 0 <= k < |d| && k != node ==> d'[k] == d[k]
    ensures Nodes(heap', len, f', d') && HeapFrom(heap', len, 1, f', d')
    ensures Content(heap', len) == Content(heap, len)
  {
    assert heap'[1..len + 1] == heap[1..len + 1];
    forall j | 1 <= j <= len
      ensures heap[j] != node
    {
      assert heap[j] == heap[1..len + 1][j - 1];
      assert heap[j] in Content(heap, len);
    }
  }

  lemma RecordedPush(heap: seq<nat>, heap': seq<nat>, pairs: seq<Pair>, a: nat, b: nat)
    requires Recorded(heap, pairs) && 2 * |pairs| + 2 <= HEAP_SIZE && |heap'| == HEAP_SIZE
    requires forall j :: HEAP_SIZE - 2 * |pairs| <= j < HEAP_SIZE ==> heap'[j] == heap[j]
    requires heap'[HEAP_SIZE - 1 - 2 * |pairs|] == a && heap'[HEAP_SIZE - 2 - 2 * |pairs|] == b
    ensures Recorded(heap', pairs + [(a, b)])
  {
    var pairs' := pairs + [(a, b)];
    forall i | 0 <= i < |pairs'|
      ensures RecordedAt(heap', pairs', i)
    {
      if i < |pairs| {
        assert RecordedAt(heap, pairs, i);
      }
    }
  }

  lemma FathersPush(dad: seq<nat>, elems: nat, leaves: set<nat>, pairs: seq<Pair>, a: nat, b: nat)
    requires Plan(elems, leaves, pairs) && Fathers(dad, elems, pairs) && a < |dad| && b < |dad|
    requires a in Ready(elems, leaves, pairs) && b in Ready(elems, leaves, pairs)
    ensures Fathers(dad[a := elems + |pairs|][b := elems + |pairs|], elems, pairs + [(a, b)])
  {
    forall i | 0 <= i < |pairs|
      ensures pairs[i].0 != a && pairs[i].0 != b && pairs[i].1 != a && pairs[i].1 != b
    {
      assert pairs[..|pairs|] == pairs;
      NeverAgain(elems, leaves, pairs, i, |pairs|);
    }
  }

  /** The two least nodes have a sum within the total of all leaf frequencies. */
  lemma MergedFrequency(f: seq<nat>, s: set<nat>, a: nat, b: nat)
    requires a in s && b in s && a != b && a < |f| && b < |f|
    ensures f[a] + f[b] <= Over(s, f)
  {
    OverRemove(s, f, a);
    OverRemove(s - {a}, f, b);
    var rest := Masked(s - {a} - {b}, f);
    SumConstant(seq(|rest|, _ => 0), 0);
    SumMono(seq(|rest|, _ => 0), rest);
  }

  lemma LeastFrame(s: set<nat>, f: seq<nat>, f': seq<nat>, a: nat, b: nat, node: nat)
    requires a < |f| && b < |f| && Least(s, f, a, b) && node !in s && a != node && b != node
    requires |f| == |f'| && forall k :: 0 <= k < |f| && k != node ==> f'[k] == f[k]
    ensures Least(s, f', a, b)
  {
  }

  /** Writing the frequency of a new node changes nothing about an earlier merge. */
  lemma PairLeastFrame(f: seq<nat>, x: nat, elems: nat, leaves: set<nat>, pairs: seq<Pair>, a: nat, b: nat, i: nat)
    requires Plan(elems, leaves, pairs) && elems + |pairs| < |f| && i < |pairs|
    requires PairLeast(elems, leaves, pairs, f, i)
    ensures PairLeast(elems, leaves, pairs + [(a, b)], f[elems + |pairs| := x], i)
  {
    var node := elems + |pairs|;
    assert (pairs + [(a, b)])[..i] == pairs[..i];
    var s := Ready(elems, leaves, pairs[..i]);
    assert PairReady(elems, leaves, pairs, i);
    forall v | v in s
      ensures v < node
    {
      ReadyBelow(elems, leaves, pairs, i, v);
    }
    LeastFrame(s, f, f[node := x], pairs[i].0, pairs[i].1, node);
  }

  lemma PairLeastNew(f: seq<nat>, elems: nat, leaves: set<nat>, pairs: seq<Pair>, a: nat, b: nat)
    requires elems + |pairs| < |f| && a < elems + |pairs| && b < elems + |pairs|
    requires elems + |pairs| !in Ready(elems, leaves, pairs) && Least(Ready(elems, leaves, pairs), f, a, b)
    ensures PairLeast(elems, leaves, pairs + [(a, b)], f[elems + |pairs| := f[a] + f[b]], |pairs|)
  {
    assert (pairs + [(a, b)])[..|pairs|] == pairs;
    LeastFrame(Ready(elems, leaves, pairs), f, f[elems + |pairs| := f[a] + f[b]], a, b, elems + |pairs|);
  }

  lemma OverFrame(s: set<nat>, f: seq<nat>, node: nat, x: nat)
    requires node !in s && node < |f|
    ensures Over(s, f[node := x]) == Over(s, f)
  {
    assert Masked(s, f[node := x]) == Masked(s, f);
  }

  lemma OverPush(f: seq<nat>, elems: nat, leaves: set<nat>, pairs: seq<Pair>, a: nat, b: nat)
    requires elems + |pairs| < |f| && a < elems + |pairs| && b < elems + |pairs|
    requires a != b && a in Ready(elems, leaves, pairs) && b in Ready(elems, leaves, pairs)
    requires elems + |pairs| !in Ready(elems, leaves, pairs)
    ensures Over(Ready(elems, leaves, pairs + [(a, b)]), f[elems + |pairs| := f[a] + f[b]])
         == Over(Ready(elems, leaves, pairs), f)
  {
    var node, ready := elems + |pairs|, Ready(elems, leaves, pairs);
    ReadyPush(elems, leaves, pairs, a, b);
    OverFrame(ready, f, node, f[a] + f[b]);
    OverReplace(ready, f[node := f[a] + f[b]], a, b, node);
  }

  lemma AllLeastPush(f: seq<nat>, f': seq<nat>, elems: nat, leaves: set<nat>, pairs: seq<Pair>, pairs': seq<Pair>, a: nat, b: nat)
    requires Plan(elems, leaves, pairs) && elems + |pairs| < |f| && a < elems + |pairs| && b < elems + |pairs|
    requires forall i :: 0 <= i < |pairs| ==> PairLeast(elems, leaves, pairs, f, i)
    requires elems + |pairs| !in Ready(elems, leaves, pairs) && Least(Ready(elems, leaves, pairs), f, a, b)
    requires pairs' == pairs + [(a, b)] && f' == f[elems + |pairs| := f[a] + f[b]]
    ensures forall i :: 0 <= i < |pairs'| ==> PairLeast(elems, leaves, pairs', f', i)
  {
    forall i | 0 <= i < |pairs'|
      ensures PairLeast(elems, leaves, pairs', f', i)
    {
      if i < |pairs| {
        PairLeastFrame(f, f[a] + f[b], elems, leaves, pairs, a, b, i);
      } else {
        PairLeastNew(f, elems, leaves, pairs, a, b);
      }
    }
  }

  lemma FrequenciesPush(f: seq<nat>, f': seq<nat>, f0: seq<nat>, leaves: set<nat>, pairs: seq<Pair>, pairs': seq<Pair>, a: nat, b: nat)
    requires Plan(|f0|, leaves, pairs) && Frequencies(f, f0, leaves, pairs) && |f0| + |pairs| < |f|
    requires a != b && a in Ready(|f0|, leaves, pairs) && b in Ready(|f0|, leaves, pairs)
    requires a < |f| && b < |f| && Least(Ready(|f0|, leaves, pairs), f, a, b)
    requires pairs' == pairs + [(a, b)] && f' == f[|f0| + |pairs| := f[a] + f[b]]
    ensures Frequencies(f', f0, leaves, pairs')
  {
    var elems := |f0|;
    BelowNode(elems, leaves, pairs, a);
    BelowNode(elems, leaves, pairs, b);
    NodeIsNew(elems, leaves, pairs);
    AllLeastPush(f, f', elems, leaves, pairs, pairs', a, b);
    assert Over(Ready(elems, leaves, pairs'), f') == Over(Ready(elems, leaves, pairs), f) by {
      OverPush(f, elems, leaves, pairs, a, b);
    }
    assert f'[..elems] == f[..elems];
  }

  lemma NodeIsNew(elems: nat, leaves: set<nat>, pairs: seq<Pair>)
    requires Plan(elems, leaves, pairs)
    ensures elems + |pairs| !in Ready(elems, leaves, pairs)
  {
    if elems + |pairs| in Ready(elems, leaves, pairs) {
      BelowNode(elems, leaves, pairs, elems + |pairs|);
    }
  }

  /** When one node is left, the plan is complete. */
  lemma Finished(heap: seq<nat>, elems: nat, leaves: set<nat>, pairs: seq<Pair>)
    requires Plan(elems, leaves, pairs) && pairs != [] && 1 < |heap|
    requires Content(heap, 1) == multiset(Ready(elems, leaves, pairs))
    ensures Complete(elems, leaves, pairs) && heap[1] == Root(elems, pairs)
  {
    var root, ready := Root(elems, pairs), Ready(elems, leaves, pairs);
    assert heap[1..2] == [heap[1]];
    assert multiset(ready) == multiset{heap[1]};
    assert root in ready;
    forall v | v in ready
      ensures v == root
    {
      assert v in multiset(ready) && root in multiset(ready);
    }
  }
}
