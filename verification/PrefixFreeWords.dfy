/** Prefix-free sets of bit words: the Kraft inequality, and the words of a complete canonical code. */
module PrefixFreeWords {
  import opened Bits
  import opened Options
  import opened Rfc1951
  import opened Sums
  import opened PrefixCodes
  import opened Huffman

  /** Bit words for some of the symbols. */
  type Words = seq<Option<seq<bool>>>

  /** No word is the beginning of another one. */
  ghost predicate PrefixFree(ws: Words)
  {
    forall i, j :: 0 <= i < |ws| && 0 <= j < |ws| && i != j && ws[i].Some? && ws[j].Some? ==> !(ws[i].value <= ws[j].value)
  }

  ghost predicate AtMost(ws: Words, m: nat)
  {
    forall i :: 0 <= i < |ws| && ws[i].Some? ==> |ws[i].value| <= m
  }

  /** The share of the space of `m`-bit words that begin with `w`. */
  function Share(w: Option<seq<bool>>, m: nat): nat
  {
    if w.Some? && |w.value| <= m then Pow2(m - |w.value|) else 0
  }

  function Shares(ws: Words, m: nat): (s: seq<int>)
    ensures |s| == |ws|
  {
    seq(|ws|, i requires 0 <= i < |ws| => Share(ws[i], m))
  }

  /** What follows `bit` in the word, if it begins with it. */
  function Tail(w: Option<seq<bool>>, bit: bool): Option<seq<bool>>
  {
    if w.Some? && w.value != [] && w.value[0] == bit then Some(w.value[1..]) else None
  }

  function Tails(ws: Words, bit: bool): (r: Words)
    ensures |r| == |ws|
  {
    seq(|ws|, i requires 0 <= i < |ws| => Tail(ws[i], bit))
  }

  lemma TailsPrefixFree(ws: Words, bit: bool, m: nat)
    requires PrefixFree(ws) && AtMost(ws, m) && m > 0
    ensures PrefixFree(Tails(ws, bit)) && AtMost(Tails(ws, bit), m - 1)
  {
    var ts := Tails(ws, bit);
    forall i, j | 0 <= i < |ts| && 0 <= j < |ts| && i != j && ts[i].Some? && ts[j].Some?
      ensures !(ts[i].value <= ts[j].value)
    {
      assert ws[i].value == [bit] + ts[i].value && ws[j].value == [bit] + ts[j].value;
    }
  }

  lemma SharesSplit(ws: Words, m: nat)
    requires m > 0 && forall i :: 0 <= i < |ws| && ws[i].Some? ==> ws[i].value != []
    ensures Sum(Shares(ws, m)) == Sum(Shares(Tails(ws, false), m - 1)) + Sum(Shares(Tails(ws, true), m - 1))
  {
    SumPlus(Shares(Tails(ws, false), m - 1), Shares(Tails(ws, true), m - 1), Shares(ws, m));
  }

  /** The empty word is the beginning of every word. */
  lemma OnlyWord(ws: Words, m: nat, k: nat)
    requires PrefixFree(ws) && k < |ws| && ws[k] == Some([])
    ensures Sum(Shares(ws, m)) == Pow2(m)
  {
    var none: seq<int> := seq(|ws|, _ => 0);
    SumConstant(none, 0);
    SumUpdate(none, k, Pow2(m));
    forall i | 0 <= i < |ws|
      ensures Shares(ws, m)[i] == none[k := Pow2(m)][i]
    {
    }
    assert Shares(ws, m) == none[k := Pow2(m)];
  }

  /** The Kraft inequality. */
  lemma {:induction false} KraftInequality(ws: Words, m: nat)
    requires PrefixFree(ws) && AtMost(ws, m)
    ensures Sum(Shares(ws, m)) <= Pow2(m)
    decreases m
  {
    if k :| 0 <= k < |ws| && ws[k] == Some([]) {
      OnlyWord(ws, m, k);
    } else if m == 0 {
      SumConstant(Shares(ws, m), 0);
    } else {
      TailsPrefixFree(ws, false, m);
      TailsPrefixFree(ws, true, m);
      KraftInequality(Tails(ws, false), m - 1);
      KraftInequality(Tails(ws, true), m - 1);
      SharesSplit(ws, m);
    }
  }

  function Lengths(ws: Words): (l: seq<nat>)
    ensures |l| == |ws|
  {
    seq(|ws|, i requires 0 <= i < |ws| => if ws[i].Some? then |ws[i].value| else 0)
  }

  /** A cheapest code is cheaper than every set of prefix-free words for the used symbols. */
  lemma NoWordsAreCheaper(f: seq<nat>, lens: seq<nat>, ws: Words, m: nat)
    requires |lens| == |ws| <= |f| && Cheapest(f, lens) && PrefixFree(ws) && AtMost(ws, m)
    requires forall n :: 0 <= n < |ws| ==> (ws[n].Some? ==> ws[n].value != []) && (f[n] > 0 ==> ws[n].Some?)
    ensures CodeCost(f, lens) <= CodeCost(f, Lengths(ws))
  {
    KraftInequality(ws, m);
    assert Weights(Lengths(ws), m) == Shares(ws, m);
    assert CodeFor(f, Lengths(ws), m);
  }

  // ---------- The words of a canonical code ----------

  /** The words of the canonical code with the given lengths. */
  function CanonicalWords(lens: seq<nat>): (ws: Words)
    ensures |ws| == |lens|
  {
    seq(|lens|, i requires 0 <= i < |lens| => if lens[i] > 0 then Some(CodeBits(lens, i)) else None)
  }

  lemma CanonicalIsPrefixFree(lens: seq<nat>, limit: nat)
    requires Decodable(lens, limit)
    ensures PrefixFree(CanonicalWords(lens)) && AtMost(CanonicalWords(lens), limit)
  {
    hide Decodable, CodeBits;
    var ws := CanonicalWords(lens);
    forall i, j | 0 <= i < |ws| && 0 <= j < |ws| && i != j && ws[i].Some? && ws[j].Some?
      ensures !(ws[i].value <= ws[j].value)
    {
      if lens[i] <= lens[j] {
        PrefixCodes.PrefixFree(lens, limit, i, j);
      }
    }
    LengthsBounded(lens, limit);
  }

  lemma LengthsBounded(lens: seq<nat>, limit: nat)
    requires Decodable(lens, limit)
    ensures forall i :: 0 <= i < |lens| ==> lens[i] <= limit
  {
  }

  /** Codes of the same length are in the order of their symbols. */
  lemma SameLengthInOrder(lens: seq<nat>, n: nat, m: nat)
    requires n < m < |lens| && lens[n] == lens[m]
    ensures CodeOf(lens, n) < CodeOf(lens, m)
  {
    CountPrefix(lens, n, m, lens[n]);
  }

  lemma {:induction false} AllOnes(len: nat)
    ensures Msb(Pow2(len) - 1, len) == seq(len, _ => true)
  {
    if len > 0 {
      AllOnes(len - 1);
      MsbStep(Pow2(len) - 1, len);
      assert (Pow2(len) - 1) / 2 == Pow2(len - 1) - 1;
    }
  }

  /** In a complete code the last code is all ones. */
  lemma LastCodeIsAllOnes(lens: seq<nat>, limit: nat, n: nat)
    requires (forall i :: 0 <= i < |lens| ==> lens[i] <= limit) && Kraft(lens, limit) == Pow2(limit)
    requires n < |lens| && lens[n] > 0
    requires forall i :: 0 <= i < |lens| ==> lens[i] < lens[n] || (lens[i] == lens[n] && i <= n)
    ensures CodeBits(lens, n) == seq(lens[n], _ => true)
  {
    var len := lens[n];
    var next := NextStart(lens, len, limit);
    assert Shorter(lens, len + 1) == lens;
    Exactly(next, len, limit - len, limit);
    CountAfter(lens, n, |lens|);
    assert lens[..|lens|] == lens;
    AllOnes(len);
  }

  lemma {:induction false} CountAfter(lens: seq<nat>, n: nat, m: nat)
    requires n < m <= |lens| && forall i :: n < i < m ==> lens[i] != lens[n]
    ensures Count(lens[..m], lens[n]) == Count(lens[..n], lens[n]) + 1
  {
    assert lens[..m][..m - 1] == lens[..m - 1];
    if n < m - 1 {
      CountAfter(lens, n, m - 1);
    }
  }

  lemma {:induction false} Exactly(v: nat, b: nat, n: nat, total: nat)
    requires Shl(v, n) == Pow2(total) && total == b + n
    ensures v == Pow2(b)
  {
    if n > 0 {
      Exactly(v, b, n - 1, total - 1);
    }
  }
}
