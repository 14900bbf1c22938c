/** Merging the two least frequent nodes each time gives the cheapest code. */
module Optimality {
  import opened Bits
  import opened Sums
  import opened Merges

  function Products(f: seq<nat>, l: seq<nat>): (r: seq<int>)
    requires |f| == |l|
    ensures |r| == |f|
  {
    seq(|f|, i requires 0 <= i < |f| => f[i] * l[i])
  }

  /** The weighted path length of a length assignment on a set of nodes. */
  ghost function Cost(s: set<nat>, f: seq<nat>, l: seq<nat>): int
    requires |f| == |l|
  {
    Over(s, Products(f, l))
  }

  /** Lengths at most `limit` that satisfy the Kraft inequality on `s`. */
  ghost predicate Feasible(s: set<nat>, l: seq<nat>, limit: nat)
  {
    && (forall v :: v in s ==> v < |l| && l[v] <= limit)
    && Over(s, Spaces(l, limit)) <= Pow2(limit)
  }

  /** Every merge takes the two least frequent nodes and adds their frequencies. */
  ghost predicate Greedy(elems: nat, leaves: set<nat>, pairs: seq<Pair>, f: seq<nat>)
  {
    && Complete(elems, leaves, pairs)
    && |f| == elems + |pairs|
    && (forall i {:trigger PairLeast(elems, leaves, pairs, f, i)} :: 0 <= i < |pairs| ==> PairLeast(elems, leaves, pairs, f, i))
  }

  ghost predicate PairLeast(elems: nat, leaves: set<nat>, pairs: seq<Pair>, f: seq<nat>, i: nat)
    requires i < |pairs|
  {
    var (a, b) := pairs[i];
    && elems + i < |f| && a < |f| && b < |f|
    && f[elems + i] == f[a] + f[b]
    && Least(Ready(elems, leaves, pairs[..i]), f, a, b)
  }

  ghost predicate Least(s: set<nat>, f: seq<nat>, a: nat, b: nat)
    requires a < |f| && b < |f|
  {
    f[a] <= f[b] && (forall v :: v in s && v < |f| && v != a ==> f[b] <= f[v])
  }

  // ---------- Changing single lengths ----------

  lemma OverChange(s: set<nat>, g: seq<int>, h: seq<int>, v: nat)
    requires v in s && v < |g| == |h|
    requires forall k :: 0 <= k < |g| && k != v ==> g[k] == h[k]
    ensures Over(s, h) == Over(s, g) - g[v] + h[v]
  {
    SumChange(Masked(s, g), Masked(s, h), v);
  }

  lemma SetLength(s: set<nat>, f: seq<nat>, l: seq<nat>, limit: nat, v: nat, x: nat)
    requires |f| == |l| && v in s && v < |l|
    ensures Over(s, Spaces(l[v := x], limit)) == Over(s, Spaces(l, limit)) - Space(l[v], limit) + Space(x, limit)
    ensures Cost(s, f, l[v := x]) == Cost(s, f, l) - f[v] * l[v] + f[v] * x
  {
    OverChange(s, Spaces(l, limit), Spaces(l[v := x], limit), v);
    OverChange(s, Products(f, l), Products(f, l[v := x]), v);
  }

  /** Giving the shorter length to the more frequent node does not cost more. */
  lemma Swap(s: set<nat>, f: seq<nat>, l: seq<nat>, limit: nat, a: nat, b: nat) returns (l': seq<nat>)
    requires |f| == |l| && a in s && b in s && a < |l| && b < |l|
    requires Feasible(s, l, limit) && f[a] <= f[b] && l[a] <= l[b]
    ensures |l'| == |l| && l' == l[a := l[b]][b := l[a]]
    ensures Feasible(s, l', limit) && Cost(s, f, l') <= Cost(s, f, l)
  {
    SetLength(s, f, l, limit, a, l[b]);
    SetLength(s, f, l[a := l[b]], limit, b, l[a]);
    l' := l[a := l[b]][b := l[a]];
    if a != b {
      Rearrange(f[a], f[b], l[a], l[b]);
    }
  }

  lemma Rearrange(fa: nat, fb: nat, la: nat, lb: nat)
    requires fa <= fb && la <= lb
    ensures fa * lb + fb * la <= fa * la + fb * lb
  {
    assert (fb - fa) * (lb - la) >= 0;
  }

  // ---------- A unique longest length can be shortened ----------

  lemma {:induction false} SumEven(s: seq<int>)
    requires forall k :: 0 <= k < |s| ==> s[k] % 2 == 0
    ensures Sum(s) % 2 == 0
  {
    if s != [] {
      SumEven(s[..|s| - 1]);
    }
  }

  lemma {:induction false} SumHalf(s: seq<int>, t: seq<int>)
    requires |s| == |t|
    requires forall k :: 0 <= k < |s| ==> t[k] == 2 * s[k]
    ensures Sum(t) == 2 * Sum(s)
  {
    if s != [] {
      SumHalf(s[..|s| - 1], t[..|t| - 1]);
    }
  }

  lemma {:induction false} LowerLimit(s: set<nat>, l: seq<nat>, limit: nat, lower: nat)
    requires Feasible(s, l, limit) && lower <= limit
    requires forall v :: v in s ==> l[v] <= lower
    ensures Feasible(s, l, lower)
  {
    if lower < limit {
      SumHalf(Masked(s, Spaces(l, limit - 1)), Masked(s, Spaces(l, limit)));
      LowerLimit(s, l, limit - 1, lower);
    }
  }

  /** If only `v` has the greatest length, it can be one shorter. */
  lemma Shorten(s: set<nat>, f: seq<nat>, l: seq<nat>, limit: nat, v: nat)
    requires |f| == |l| && v in s && v < |l| && Feasible(s, l, limit) && l[v] > 0
    requires forall k :: k in s && k != v ==> l[k] < l[v]
    ensures Feasible(s, l[v := l[v] - 1], l[v])
    ensures Cost(s, f, l[v := l[v] - 1]) <= Cost(s, f, l)
  {
    var top := l[v];
    LowerLimit(s, l, limit, top);
    SetLength(s, f, l, top, v, top - 1);
    assert f[v] * (top - 1) <= f[v] * top;
    var others := Masked(s, Spaces(l, top))[v := 0];
    SumUpdate(Masked(s, Spaces(l, top)), v, 0);
    forall k | 0 <= k < |others|
      ensures others[k] % 2 == 0
    {
    }
    SumEven(others);
    assert Pow2(top) % 2 == 0;
  }

  /** ... until another node is as long. */
  lemma {:induction false} Tighten(s: set<nat>, f: seq<nat>, l: seq<nat>, limit: nat, v: nat, w: nat)
    returns (l': seq<nat>, limit': nat)
    requires |f| == |l| && v in s && w in s && v != w && v < |l| && Feasible(s, l, limit)
    requires l[w] <= l[v] && forall k :: k in s && k != v ==> l[k] <= l[w]
    ensures l' == l[v := l[w]] && Feasible(s, l', limit') && Cost(s, f, l') <= Cost(s, f, l)
    decreases l[v]
  {
    if l[v] == l[w] {
      l', limit' := l, limit;
    } else {
      Shorten(s, f, l, limit, v);
      l', limit' := Tighten(s, f, l[v := l[v] - 1], l[v], v, w);
    }
  }

  lemma {:induction false} Longest(s: set<nat>, l: seq<nat>) returns (m: nat)
    requires s != {} && forall v :: v in s ==> v < |l|
    ensures m in s && forall v :: v in s ==> l[v] <= l[m]
    decreases s
  {
    var v :| v in s;
    if s == {v} {
      m := v;
    } else {
      m := Longest(s - {v}, l);
      if l[m] < l[v] {
        m := v;
      }
    }
  }

  // ---------- The exchange argument ----------

  /** The two least frequent nodes may have the same, greatest length. */
  lemma Siblings(s: set<nat>, f: seq<nat>, l: seq<nat>, limit: nat, a: nat, b: nat)
    returns (l': seq<nat>, limit': nat)
    requires |f| == |l| && a in s && b in s && a != b && Feasible(s, l, limit)
    requires Least(s, f, a, b)
    ensures |l'| == |l| && Feasible(s, l', limit') && l'[a] == l'[b]
    ensures Cost(s, f, l') <= Cost(s, f, l)
  {
    var x := Longest(s, l);
    var l1 := Swap(s, f, l, limit, a, x);
    assert b in s - {a};
    var y := Longest(s - {a}, l1);
    var l2, limit2 := Tighten(s, f, l1, limit, a, y);
    l' := Swap(s, f, l2, limit2, b, y);
    limit' := limit2;
  }

  /** Any code on `s` gives one on the merged set that is cheaper by the merged frequency. */
  lemma MergeCheaper(s: set<nat>, f: seq<nat>, l: seq<nat>, limit: nat, a: nat, b: nat, e: nat)
    returns (l': seq<nat>, limit': nat)
    requires |f| == |l| && a in s && b in s && a != b && Feasible(s, l, limit)
    requires Least(s, f, a, b) && e !in s && e < |f| && f[e] == f[a] + f[b]
    ensures |l'| == |l| && Feasible(s - {a, b} + {e}, l', limit')
    ensures Cost(s - {a, b} + {e}, f, l') <= Cost(s, f, l) - f[e]
  {
    var l1, m := Siblings(s, f, l, limit, a, b);
    var t := l1[a];
    PairSpace(s, l1, m, a, b);
    l', limit' := l1[e := t - 1], m;
    var merged := s - {a, b} + {e};
    assert Masked(s, Spaces(l', m)) == Masked(s, Spaces(l1, m));
    OverReplace(s, Spaces(l', m), a, b, e);
    assert Masked(s, Products(f, l')) == Masked(s, Products(f, l1));
    OverReplace(s, Products(f, l'), a, b, e);
    OneLess(f[a], f[b], t);
  }

  lemma OneLess(x: int, y: int, t: int)
    ensures (x + y) * (t - 1) == x * t + y * t - (x + y)
  {
  }

  /** Two different nodes cannot both take the whole code space. */
  lemma PairSpace(s: set<nat>, l: seq<nat>, limit: nat, a: nat, b: nat)
    requires Feasible(s, l, limit) && a in s && b in s && a != b && l[a] == l[b]
    ensures l[a] > 0
  {
    var g := Spaces(l, limit);
    OverRemove(s, g, a);
    OverRemove(s - {a}, g, b);
    var rest := Masked(s - {a} - {b}, g);
    SumConstant(seq(|rest|, _ => 0), 0);
    SumMono(seq(|rest|, _ => 0), rest);
  }

  // ---------- The two halves of optimality ----------

  /** The frequencies of the nodes made from the i-th merge on. */
  ghost function MergeCost(elems: nat, pairs: seq<Pair>, f: seq<nat>, i: nat): nat
    requires |f| == elems + |pairs| && i <= |pairs|
    decreases |pairs| - i
  {
    if i == |pairs| then 0 else f[elems + i] + MergeCost(elems, pairs, f, i + 1)
  }

  /** No feasible code on the nodes of a stage costs less than the remaining merges. */
  lemma {:induction false} CostAtLeast(elems: nat, leaves: set<nat>, pairs: seq<Pair>, f: seq<nat>, i: nat, l: seq<nat>, limit: nat)
    requires Greedy(elems, leaves, pairs, f) && i <= |pairs| && |l| == |f|
    requires Feasible(Ready(elems, leaves, pairs[..i]), l, limit)
    ensures MergeCost(elems, pairs, f, i) <= Cost(Ready(elems, leaves, pairs[..i]), f, l)
    decreases |pairs| - i
  {
    var s := Ready(elems, leaves, pairs[..i]);
    if i == |pairs| {
      SumConstant(seq(|f|, _ => 0), 0);
      SumMono(seq(|f|, _ => 0), Masked(s, Products(f, l)));
    } else {
      assert PairLeast(elems, leaves, pairs, f, i) && PairReady(elems, leaves, pairs, i);
      if elems + i in s {
        ReadyBelow(elems, leaves, pairs, i, elems + i);
      }
      var (a, b) := pairs[i];
      var l', limit' := MergeCheaper(s, f, l, limit, a, b, elems + i);
      ReadyStep(elems, leaves, pairs, i);
      CostAtLeast(elems, leaves, pairs, f, i + 1, l', limit');
    }
  }

  /** If no depth was clamped, the tree's own lengths cost exactly that. */
  lemma {:induction false} CostOfDepths(elems: nat, leaves: set<nat>, pairs: seq<Pair>, f: seq<nat>, limit: nat, lens: seq<nat>, i: nat)
    requires Greedy(elems, leaves, pairs, f) && Depths(elems, leaves, pairs, limit, lens) && i <= |pairs|
    requires Excess(elems, pairs, limit, lens, i) == 0
    ensures Cost(Ready(elems, leaves, pairs[..i]), f, lens) == MergeCost(elems, pairs, f, i)
    decreases |pairs| - i
  {
    var g := Products(f, lens);
    if i == |pairs| {
      assert pairs[..i] == pairs;
      OverSingleton(g, Root(elems, pairs));
    } else {
      CostOfDepths(elems, leaves, pairs, f, limit, lens, i + 1);
      OverStep(elems, leaves, pairs, g, i);
      assert PairLeast(elems, leaves, pairs, f, i) && PairDepth(elems, pairs, limit, lens, i);
      var (a, b) := pairs[i];
      var e := elems + i;
      assert lens[e] < limit by {
        ReadyStep(elems, leaves, pairs, i);
        DepthBound(elems, leaves, pairs, limit, lens, i + 1, e);
      }
      Distribute(f[a], f[b], lens[e]);
    }
  }

  lemma Distribute(x: int, y: int, t: int)
    ensures x * (t + 1) + y * (t + 1) == (x + y) * t + (x + y)
  {
  }

  /** Repeated merging of the two least frequent nodes is optimal. */
  lemma MergingIsOptimal(elems: nat, leaves: set<nat>, pairs: seq<Pair>, f: seq<nat>, limit: nat, lens: seq<nat>, l: seq<nat>, m: nat)
    requires Greedy(elems, leaves, pairs, f) && Depths(elems, leaves, pairs, limit, lens)
    requires Excess(elems, pairs, limit, lens, 0) == 0
    requires |l| == |f| && Feasible(leaves, l, m)
    ensures Cost(leaves, f, lens) <= Cost(leaves, f, l)
  {
    assert pairs[..0] == [];
    CostOfDepths(elems, leaves, pairs, f, limit, lens, 0);
    CostAtLeast(elems, leaves, pairs, f, 0, l, m);
  }
}
