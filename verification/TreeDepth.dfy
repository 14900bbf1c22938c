/** How many occurrences a deep Huffman tree needs. */
module TreeDepth {
  import opened Sums
  import opened Merges
  import opened Optimality
  import opened MergeLoop
  import opened TreeBuilders

  /** The list of nodes is in order of frequency: later entries are not more frequent. */
  lemma {:induction false} LaterIsLess(f: seq<nat>, f0: seq<nat>, leaves: set<nat>, pairs: seq<Pair>, i: nat, j: nat, v: nat, w: nat)
    requires Complete(|f0|, leaves, pairs) && Frequencies(f, f0, leaves, pairs) && i < j < |pairs|
    requires (v == pairs[i].0 || v == pairs[i].1) && (w == pairs[j].0 || w == pairs[j].1)
    ensures v < |f| && w < |f| && f[v] <= f[w]
    decreases j - i
  {
    var next := i + 1;
    assert PairLeast(|f0|, leaves, pairs, f, i) && PairLeast(|f0|, leaves, pairs, f, next) && PairReady(|f0|, leaves, pairs, next);
    ReadyStep(|f0|, leaves, pairs, i);
    var b := pairs[i].1;
    forall u | u in Ready(|f0|, leaves, pairs[..next]) && u < |f|
      ensures f[b] <= f[u]
    {
    }
    if j == next {
    } else {
      LaterIsLess(f, f0, leaves, pairs, next, j, pairs[next].1, w);
    }
  }

  /** The term `n` places after `a` of the Fibonacci-like sequence in which `b` is followed by `a`. */
  function Fibonacci(a: nat, b: nat, n: nat): nat
    decreases n
  {
    if n == 0 then a else Fibonacci(a + b, a, n - 1)
  }

  /** The least total frequency of a tree deeper than `limit`: 2584 for 15 bits, 55 for 7. */
  function Heavy(limit: nat): nat
  {
    Fibonacci(2, 1, limit)
  }

  lemma HeavyValues()
    ensures Heavy(7) == 55 && Heavy(15) == 2584
  {
    assert Fibonacci(2, 1, 7) == Fibonacci(5, 3, 5) == Fibonacci(13, 8, 3) == Fibonacci(34, 21, 1) == Fibonacci(55, 34, 0);
    assert Fibonacci(2, 1, 15) == Fibonacci(5, 3, 13) == Fibonacci(13, 8, 11) == Fibonacci(34, 21, 9) == Fibonacci(89, 55, 7);
    assert Fibonacci(89, 55, 7) == Fibonacci(233, 144, 5) == Fibonacci(610, 377, 3) == Fibonacci(1597, 987, 1);
  }

  lemma {:induction false} FibonacciGrows(a: nat, b: nat, m: nat, n: nat)
    requires m <= n
    ensures Fibonacci(a, b, m) <= Fibonacci(a, b, n)
    decreases n
  {
    if m > 0 {
      FibonacciGrows(a + b, a, m - 1, n - 1);
    } else if n > 0 {
      FibonacciGrows(a + b, a, 0, n - 1);
    }
  }

  /** Nodes without a father have positive frequencies. */
  lemma {:induction false} Positive(f: seq<nat>, f0: seq<nat>, leaves: set<nat>, pairs: seq<Pair>, i: nat, v: nat)
    requires Complete(|f0|, leaves, pairs) && Frequencies(f, f0, leaves, pairs) && leaves == Leaves(f0, |f0|) && i <= |pairs|
    requires v in Ready(|f0|, leaves, pairs[..i])
    ensures v < |f| && f[v] >= 1
    decreases i
  {
    if i == 0 {
      assert f[v] == f[..|f0|][v];
    } else {
      ReadyStep(|f0|, leaves, pairs, i - 1);
      if v == |f0| + i - 1 {
        assert PairLeast(|f0|, leaves, pairs, f, i - 1) && PairReady(|f0|, leaves, pairs, i - 1);
        Positive(f, f0, leaves, pairs, i - 1, pairs[i - 1].0);
      } else {
        Positive(f, f0, leaves, pairs, i - 1, v);
      }
    }
  }

  /** From a merge upwards, frequencies grow like Fibonacci numbers. */
  lemma {:induction false} Climb(f: seq<nat>, f0: seq<nat>, leaves: set<nat>, pairs: seq<Pair>, limit: nat, lens: seq<nat>,
                                 i: nat, x: nat, a: nat, b: nat)
    requires Complete(|f0|, leaves, pairs) && Frequencies(f, f0, leaves, pairs) && Depths(|f0|, leaves, pairs, limit, lens)
    requires i < |pairs| && (x == pairs[i].0 || x == pairs[i].1) && x < |f| && |f0| + i < |f|
    requires f[|f0| + i] >= a && f[x] >= b
    ensures f[Root(|f0|, pairs)] >= Fibonacci(a, b, lens[|f0| + i])
    decreases |pairs| - i
  {
    var c := |f0| + i;
    if i < |pairs| - 1 {
      ReadyStep(|f0|, leaves, pairs, i);
      var j := MergedLater(|f0|, leaves, pairs, i + 1, c);
      var other := if c == pairs[j].0 then pairs[j].1 else pairs[j].0;
      LaterIsLess(f, f0, leaves, pairs, i, j, x, other);
      assert PairLeast(|f0|, leaves, pairs, f, j) && PairDepth(|f0|, pairs, limit, lens, j);
      Climb(f, f0, leaves, pairs, limit, lens, j, c, a + b, a);
      FibonacciGrows(a, b, lens[c], lens[|f0| + j] + 1);
    }
  }

  lemma {:induction false} SomeDeep(elems: nat, pairs: seq<Pair>, limit: nat, lens: seq<nat>, k: nat) returns (i: nat)
    requires |lens| == elems + |pairs| && k <= |pairs| && Excess(elems, pairs, limit, lens, k) != 0
    ensures i < |pairs| && lens[elems + i] == limit
    decreases |pairs| - k
  {
    i := k;
    if lens[elems + k] != limit {
      i := SomeDeep(elems, pairs, limit, lens, k + 1);
    }
  }

  /** A tree whose depths exceed the limit has a great total frequency. */
  lemma DeepTreeIsHeavy(f: seq<nat>, f0: seq<nat>, leaves: set<nat>, pairs: seq<Pair>, limit: nat, lens: seq<nat>)
    requires Complete(|f0|, leaves, pairs) && Frequencies(f, f0, leaves, pairs) && Depths(|f0|, leaves, pairs, limit, lens)
    requires leaves == Leaves(f0, |f0|) && Excess(|f0|, pairs, limit, lens, 0) != 0
    ensures Sum(f0) >= Heavy(limit)
  {
    var i := SomeDeep(|f0|, pairs, limit, lens, 0);
    var (x, y) := pairs[i];
    assert PairLeast(|f0|, leaves, pairs, f, i) && PairReady(|f0|, leaves, pairs, i);
    Positive(f, f0, leaves, pairs, i, x);
    Positive(f, f0, leaves, pairs, i, y);
    Climb(f, f0, leaves, pairs, limit, lens, i, x, 2, 1);
    OverSingleton(f, Root(|f0|, pairs));
    assert Masked(leaves, f0) == f0;
  }
}
