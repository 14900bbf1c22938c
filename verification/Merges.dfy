/** Building a binary tree by repeated merging, as a value.

    Nodes are numbers: leaves are below `elems`, and the i-th merge creates node
    `elems + i` from a pair of nodes that had no parent yet. */
module Merges {
  import opened Bits
  import opened Sums

  type Pair = (nat, nat)

  /** The nodes without a parent after the given merges. */
  ghost function Ready(elems: nat, leaves: set<nat>, pairs: seq<Pair>): set<nat>
    decreases |pairs|
  {
    if pairs == [] then leaves
    else
      var (a, b) := pairs[|pairs| - 1];
      Ready(elems, leaves, pairs[..|pairs| - 1]) - {a, b} + {elems + |pairs| - 1}
  }

  /** Every merge takes two different parentless nodes. */
  ghost predicate Plan(elems: nat, leaves: set<nat>, pairs: seq<Pair>)
  {
    && (forall v :: v in leaves ==> v < elems)
    && (forall i {:trigger PairReady(elems, leaves, pairs, i)} :: 0 <= i < |pairs| ==> PairReady(elems, leaves, pairs, i))
  }

  ghost predicate PairReady(elems: nat, leaves: set<nat>, pairs: seq<Pair>, i: nat)
    requires i < |pairs|
  {
    var ready := Ready(elems, leaves, pairs[..i]);
    pairs[i].0 != pairs[i].1 && pairs[i].0 in ready && pairs[i].1 in ready
  }

  /** The root of a plan that has merged everything. */
  ghost function Root(elems: nat, pairs: seq<Pair>): nat
    requires pairs != []
  {
    elems + |pairs| - 1
  }

  ghost predicate Complete(elems: nat, leaves: set<nat>, pairs: seq<Pair>)
  {
    && Plan(elems, leaves, pairs)
    && pairs != []
    && Ready(elems, leaves, pairs) == {Root(elems, pairs)}
  }

  lemma ReadyStep(elems: nat, leaves: set<nat>, pairs: seq<Pair>, i: nat)
    requires i < |pairs|
    ensures Ready(elems, leaves, pairs[..i + 1])
         == Ready(elems, leaves, pairs[..i]) - {pairs[i].0, pairs[i].1} + {elems + i}
  {
    assert pairs[..i + 1][..i] == pairs[..i];
  }

  lemma {:induction false} ReadyBelow(elems: nat, leaves: set<nat>, pairs: seq<Pair>, i: nat, v: nat)
    requires Plan(elems, leaves, pairs) && i <= |pairs|
    requires v in Ready(elems, leaves, pairs[..i])
    ensures v < elems + i
    ensures v < elems ==> v in leaves
  {
    if i > 0 {
      ReadyStep(elems, leaves, pairs, i - 1);
      if v != elems + i - 1 {
        ReadyBelow(elems, leaves, pairs, i - 1, v);
      }
    }
  }

  /** A parentless node other than the root is merged later. */
  lemma {:induction false} MergedLater(elems: nat, leaves: set<nat>, pairs: seq<Pair>, i: nat, v: nat) returns (j: nat)
    requires Complete(elems, leaves, pairs) && i <= |pairs|
    requires v in Ready(elems, leaves, pairs[..i]) && v != Root(elems, pairs)
    ensures i <= j < |pairs| && (v == pairs[j].0 || v == pairs[j].1)
    decreases |pairs| - i
  {
    assert pairs[..|pairs|] == pairs;
    if i == |pairs| {
    } else if v == pairs[i].0 || v == pairs[i].1 {
      j := i;
    } else {
      ReadyStep(elems, leaves, pairs, i);
      j := MergedLater(elems, leaves, pairs, i + 1, v);
    }
  }

  // ---------- Sums over a set of nodes ----------

  ghost function Masked(s: set<nat>, g: seq<int>): (r: seq<int>)
    ensures |r| == |g|
  {
    seq(|g|, i requires 0 <= i < |g| => if i in s then g[i] else 0)
  }

  ghost function Over(s: set<nat>, g: seq<int>): int
  {
    Sum(Masked(s, g))
  }

  lemma OverAdd(s: set<nat>, g: seq<int>, v: nat)
    requires v < |g| && v !in s
    ensures Over(s + {v}, g) == Over(s, g) + g[v]
  {
    SumChange(Masked(s, g), Masked(s + {v}, g), v);
  }

  lemma OverRemove(s: set<nat>, g: seq<int>, v: nat)
    requires v < |g| && v in s
    ensures Over(s - {v}, g) == Over(s, g) - g[v]
  {
    SumChange(Masked(s, g), Masked(s - {v}, g), v);
  }

  lemma OverReplace(s: set<nat>, g: seq<int>, a: nat, b: nat, c: nat)
    requires a in s && b in s && a != b && c !in s
    requires a < |g| && b < |g| && c < |g|
    ensures Over(s - {a, b} + {c}, g) == Over(s, g) - g[a] - g[b] + g[c]
  {
    OverRemove(s, g, a);
    OverRemove(s - {a}, g, b);
    assert s - {a} - {b} == s - {a, b};
    OverAdd(s - {a, b}, g, c);
  }

  lemma OverSingleton(g: seq<int>, v: nat)
    requires v < |g|
    ensures Over({v}, g) == g[v]
  {
    SumConstant(Masked({}, g), 0);
    OverAdd({}, g, v);
    assert {} + {v} == {v};
  }

  /** One merge exchanges the terms of the pair for the term of the new node. */
  lemma OverStep(elems: nat, leaves: set<nat>, pairs: seq<Pair>, g: seq<int>, i: nat)
    requires Plan(elems, leaves, pairs) && i < |pairs| && |g| == elems + |pairs|
    ensures pairs[i].0 < elems + i && pairs[i].1 < elems + i
    ensures Over(Ready(elems, leaves, pairs[..i + 1]), g)
         == Over(Ready(elems, leaves, pairs[..i]), g) - g[pairs[i].0] - g[pairs[i].1] + g[elems + i]
  {
    var ready := Ready(elems, leaves, pairs[..i]);
    var (a, b) := pairs[i];
    assert PairReady(elems, leaves, pairs, i);
    ReadyBelow(elems, leaves, pairs, i, a);
    ReadyBelow(elems, leaves, pairs, i, b);
    if elems + i in ready {
      ReadyBelow(elems, leaves, pairs, i, elems + i);
    }
    ReadyStep(elems, leaves, pairs, i);
    OverReplace(ready, g, a, b, elems + i);
  }

  // ---------- Clamped depths ----------

  function Min(a: nat, b: nat): nat { if a <= b then a else b }

  /** `lens` gives every node its depth in the tree, but at most `limit`. */
  ghost predicate Depths(elems: nat, leaves: set<nat>, pairs: seq<Pair>, limit: nat, lens: seq<nat>)
  {
    && Plan(elems, leaves, pairs) && pairs != []
    && |lens| == elems + |pairs|
    && lens[Root(elems, pairs)] == 0
    && (forall i {:trigger PairDepth(elems, pairs, limit, lens, i)} :: 0 <= i < |pairs| ==> PairDepth(elems, pairs, limit, lens, i))
  }

  ghost predicate PairDepth(elems: nat, pairs: seq<Pair>, limit: nat, lens: seq<nat>, i: nat)
    requires i < |pairs| && |lens| == elems + |pairs|
  {
    var (a, b) := pairs[i];
    a < |lens| && b < |lens| && lens[a] == lens[b] == Min(lens[elems + i] + 1, limit)
  }

  /** The number of merges from the i-th on whose children are deeper than `limit`. */
  ghost function Excess(elems: nat, pairs: seq<Pair>, limit: nat, lens: seq<nat>, i: nat): nat
    requires |lens| == elems + |pairs| && i <= |pairs|
    decreases |pairs| - i
  {
    if i == |pairs| then 0
    else (if lens[elems + i] == limit then 1 else 0) + Excess(elems, pairs, limit, lens, i + 1)
  }

  /** Code space taken by a node: unlike `Weight`, a node of depth 0 takes all of it. */
  function Space(len: nat, limit: nat): nat
  {
    if len <= limit then Pow2(limit - len) else 0
  }

  function Spaces(lens: seq<nat>, limit: nat): (r: seq<int>)
    ensures |r| == |lens|
  {
    seq(|lens|, i requires 0 <= i < |lens| => Space(lens[i], limit))
  }

  lemma {:induction false} DepthBound(elems: nat, leaves: set<nat>, pairs: seq<Pair>, limit: nat, lens: seq<nat>, i: nat, v: nat)
    requires Depths(elems, leaves, pairs, limit, lens) && Complete(elems, leaves, pairs) && i <= |pairs|
    requires v in Ready(elems, leaves, pairs[..i])
    ensures v < |lens| && lens[v] <= limit
    ensures v != Root(elems, pairs) && limit > 0 ==> lens[v] > 0
  {
    if v != Root(elems, pairs) {
      var j := MergedLater(elems, leaves, pairs, i, v);
      assert PairDepth(elems, pairs, limit, lens, j);
    }
  }

  /** The code space used exceeds `2^limit` by exactly the number of too deep merges. */
  lemma {:induction false} SpaceSum(elems: nat, leaves: set<nat>, pairs: seq<Pair>, limit: nat, lens: seq<nat>, i: nat)
    requires Depths(elems, leaves, pairs, limit, lens) && Complete(elems, leaves, pairs) && i <= |pairs|
    ensures Over(Ready(elems, leaves, pairs[..i]), Spaces(lens, limit)) == Pow2(limit) + Excess(elems, pairs, limit, lens, i)
    decreases |pairs| - i
  {
    var g := Spaces(lens, limit);
    if i == |pairs| {
      assert pairs[..i] == pairs;
      OverSingleton(g, Root(elems, pairs));
    } else {
      SpaceSum(elems, leaves, pairs, limit, lens, i + 1);
      OverStep(elems, leaves, pairs, g, i);
      assert PairDepth(elems, pairs, limit, lens, i);
      ReadyStep(elems, leaves, pairs, i);
      DepthBound(elems, leaves, pairs, limit, lens, i + 1, elems + i);
    }
  }

  function AtLimit(lens: seq<nat>, limit: nat): (r: seq<int>)
    ensures |r| == |lens|
  {
    seq(|lens|, i requires 0 <= i < |lens| => if lens[i] == limit then 1 else 0)
  }

  /** There are at least as many nodes at the limit as merges below it. */
  lemma {:induction false} EnoughAtLimit(elems: nat, leaves: set<nat>, pairs: seq<Pair>, limit: nat, lens: seq<nat>, i: nat)
    requires Depths(elems, leaves, pairs, limit, lens) && Complete(elems, leaves, pairs) && i <= |pairs|
    requires limit > 0
    ensures Over(Ready(elems, leaves, pairs[..i]), AtLimit(lens, limit)) >= Excess(elems, pairs, limit, lens, i)
    decreases |pairs| - i
  {
    var g := AtLimit(lens, limit);
    if i == |pairs| {
      assert pairs[..i] == pairs;
      OverSingleton(g, Root(elems, pairs));
    } else {
      EnoughAtLimit(elems, leaves, pairs, limit, lens, i + 1);
      OverStep(elems, leaves, pairs, g, i);
      assert PairDepth(elems, pairs, limit, lens, i);
    }
  }
}
