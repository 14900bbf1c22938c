/** Why canonical codes can be decoded: Kraft sums and prefix-freeness. */
module PrefixCodes {
  import opened Bits
  import opened Options
  import opened Rfc1951
  import opened Sums

  /** The share of the code space of `2^limit` leaves taken by a code of `len` bits. */
  function Weight(len: nat, limit: nat): (w: nat)
  {
    if 0 < len <= limit then Pow2(limit - len) else 0
  }

  function Weights(lens: seq<nat>, limit: nat): (w: seq<int>)
    ensures |w| == |lens|
  {
    seq(|lens|, i requires 0 <= i < |lens| => Weight(lens[i], limit))
  }

  /** The Kraft sum, scaled by `2^limit`. */
  function Kraft(lens: seq<nat>, limit: nat): int
  {
    Sum(Weights(lens, limit))
  }

  /** Every length is at most `limit`, and the code space is not exceeded. */
  predicate Decodable(lens: seq<nat>, limit: nat)
  {
    (forall i :: 0 <= i < |lens| ==> lens[i] <= limit) && Kraft(lens, limit) <= Pow2(limit)
  }

  lemma WeightsPush(lens: seq<nat>, limit: nat)
    requires lens != []
    ensures Kraft(lens, limit) == Kraft(lens[..|lens| - 1], limit) + Weight(lens[|lens| - 1], limit)
  {
    assert Weights(lens, limit)[..|lens| - 1] == Weights(lens[..|lens| - 1], limit);
  }

  lemma KraftUpdate(lens: seq<nat>, limit: nat, i: nat, v: nat)
    requires i < |lens|
    ensures Kraft(lens[i := v], limit) == Kraft(lens, limit) - Weight(lens[i], limit) + Weight(v, limit)
  {
    SumChange(Weights(lens, limit), Weights(lens[i := v], limit), i);
  }

  lemma {:induction false} CountUpdate(lens: seq<nat>, i: nat, v: nat, b: nat)
    requires i < |lens|
    ensures Count(lens[i := v], b) == Count(lens, b) - (if lens[i] == b then 1 else 0) + (if v == b then 1 else 0)
  {
    var last := |lens| - 1;
    if i < last {
      assert lens[i := v][..last] == lens[..last][i := v];
      CountUpdate(lens[..last], i, v, b);
    } else {
      assert lens[i := v][..last] == lens[..last];
    }
  }

  lemma {:induction false} CountPrefix(lens: seq<nat>, n: nat, m: nat, b: nat)
    requires n < m <= |lens| && lens[n] == b
    ensures Count(lens[..n], b) < Count(lens[..m], b)
  {
    assert lens[..m][..m - 1] == lens[..m - 1];
    if n < m - 1 {
      CountPrefix(lens, n, m - 1, b);
    }
  }

  // ---------- Codes fit in their length ----------

  lemma {:induction false} ShlDouble(v: nat, n: nat)
    ensures Shl(2 * v, n) == Shl(v, n + 1)
  {
    if n > 0 {
      ShlDouble(v, n - 1);
    }
  }

  lemma {:induction false} ShlAdd(v: nat, w: nat, n: nat)
    ensures Shl(v + w, n) == Shl(v, n) + Shl(w, n)
  {
    if n > 0 {
      ShlAdd(v, w, n - 1);
    }
  }

  lemma {:induction false} ShlOne(n: nat)
    ensures Shl(1, n) == Pow2(n) && Shl(0, n) == 0
  {
    if n > 0 {
      ShlOne(n - 1);
    }
  }

  lemma {:induction false} ShlLess(v: nat, b: nat, n: nat)
    requires Shl(v, n) <= Pow2(b + n)
    ensures v <= Pow2(b)
  {
    if n > 0 {
      ShlLess(v, b, n - 1);
    }
  }

  /** The lengths that come before `b` bits in code order. */
  function Shorter(lens: seq<nat>, b: nat): (s: seq<nat>)
    ensures |s| == |lens|
  {
    seq(|lens|, i requires 0 <= i < |lens| => if lens[i] < b then lens[i] else 0)
  }

  lemma {:induction false} ShorterStep(lens: seq<nat>, b: nat, limit: nat)
    requires 0 < b <= limit
    ensures Kraft(Shorter(lens, b + 1), limit) == Kraft(Shorter(lens, b), limit) + Shl(Count(lens, b), limit - b)
  {
    if lens == [] {
      ShlOne(limit - b);
    } else {
      var init, last := lens[..|lens| - 1], lens[|lens| - 1];
      ShorterStep(init, b, limit);
      ShorterPush(lens, b, limit);
      ShorterPush(lens, b + 1, limit);
      if last == b {
        ShlAdd(Count(init, b), 1, limit - b);
        ShlOne(limit - b);
      }
    }
  }

  lemma ShorterPush(lens: seq<nat>, b: nat, limit: nat)
    requires lens != []
    ensures var last := lens[|lens| - 1];
      Kraft(Shorter(lens, b), limit)
      == Kraft(Shorter(lens[..|lens| - 1], b), limit) + Weight(if last < b then last else 0, limit)
  {
    WeightsPush(Shorter(lens, b), limit);
    assert Shorter(lens, b)[..|lens| - 1] == Shorter(lens[..|lens| - 1], b);
  }

  /** The first code of `b` bits starts where the shorter codes end. */
  lemma {:induction false} FirstCodeStart(lens: seq<nat>, b: nat, limit: nat)
    requires 0 < b <= limit
    ensures Shl(FirstCode(lens, b), limit - b) == Kraft(Shorter(lens, b), limit)
  {
    if b == 1 {
      ShlOne(limit - 1);
      SumConstant(Weights(Shorter(lens, 1), limit), 0);
    } else {
      FirstCodeStart(lens, b - 1, limit);
      ShorterStep(lens, b - 1, limit);
      ShlAdd(FirstCode(lens, b - 1), Count(lens, b - 1), limit - (b - 1));
      ShlDouble(FirstCode(lens, b - 1) + Count(lens, b - 1), limit - b);
    }
  }

  lemma ShorterBound(lens: seq<nat>, b: nat, limit: nat)
    ensures Kraft(Shorter(lens, b), limit) <= Kraft(lens, limit)
  {
    SumMono(Weights(Shorter(lens, b), limit), Weights(lens, limit));
  }

  /** The value after the last code of `b` bits. */
  lemma NextStart(lens: seq<nat>, b: nat, limit: nat) returns (next: nat)
    requires 0 < b <= limit
    ensures next == FirstCode(lens, b) + Count(lens, b)
    ensures Shl(next, limit - b) == Kraft(Shorter(lens, b + 1), limit)
  {
    var first, count, k := FirstCode(lens, b), Count(lens, b), limit - b;
    FirstCodeStart(lens, b, limit);
    ShorterStep(lens, b, limit);
    ShlAdd(first, count, k);
    next := first + count;
  }

  /** All codes of `b` bits lie below `2^b`. */
  lemma CodesFit(lens: seq<nat>, b: nat, limit: nat)
    requires 0 < b <= limit && Decodable(lens, limit)
    ensures FirstCode(lens, b) + Count(lens, b) <= Pow2(b)
  {
    var next := NextStart(lens, b, limit);
    ShorterBound(lens, b + 1, limit);
    TopBound(next, b, limit);
  }

  lemma TopBound(v: nat, b: nat, limit: nat)
    requires b <= limit && Shl(v, limit - b) <= Pow2(limit)
    ensures v <= Pow2(b)
  {
    var k := limit - b;
    assert b + k == limit;
    ShlLess(v, b, k);
  }

  lemma CodeFits(lens: seq<nat>, n: nat, limit: nat)
    requires n < |lens| && lens[n] > 0 && Decodable(lens, limit)
    ensures CodeOf(lens, n) < FirstCode(lens, lens[n]) + Count(lens, lens[n])
    ensures CodeOf(lens, n) < Pow2(lens[n])
  {
    CodesFit(lens, lens[n], limit);
    CountPrefix(lens, n, |lens|, lens[n]);
    assert lens[..|lens|] == lens;
  }

  // ---------- Prefix-freeness ----------

  lemma {:induction false} MsbPrefix(v: nat, n: nat, m: nat)
    requires m <= n
    ensures Msb(v, n)[..m] == Msb(Shr(v, n - m), m)
  {
    if m < n {
      MsbPrefix(v / 2, n - 1, m);
      MsbStep(v, n);
      assert Msb(v, n)[..m] == Msb(v / 2, n - 1)[..m];
    }
  }

  lemma {:induction false} MsbInjective(a: nat, b: nat, n: nat)
    requires a < Pow2(n) && b < Pow2(n) && Msb(a, n) == Msb(b, n)
    ensures a == b
  {
    if n > 0 {
      MsbStep(a, n);
      MsbStep(b, n);
      var x, y := Msb(a, n), Msb(b, n);
      assert x[..n - 1] == Msb(a / 2, n - 1) && y[..n - 1] == Msb(b / 2, n - 1);
      assert x[n - 1] == (a % 2 == 1) && y[n - 1] == (b % 2 == 1);
      MsbInjective(a / 2, b / 2, n - 1);
    }
  }

  lemma {:induction false} ShrAbove(v: nat, x: nat, n: nat)
    requires Shl(x, n) <= v
    ensures x <= Shr(v, n)
  {
    if n > 0 {
      ShrAbove(v / 2, x, n - 1);
    }
  }

  /** Longer codes start after all shorter ones. */
  lemma {:induction false} LaterStart(lens: seq<nat>, a: nat, b: nat)
    requires 0 < a < b
    ensures Shl(FirstCode(lens, a) + Count(lens, a), b - a) <= FirstCode(lens, b)
    decreases b
  {
    if a < b - 1 {
      LaterStart(lens, a, b - 1);
    }
  }

  lemma {:induction false} ShlMono(v: nat, w: nat, n: nat)
    requires v <= w
    ensures Shl(v, n) <= Shl(w, n)
  {
    if n > 0 {
      ShlMono(v, w, n - 1);
    }
  }

  /** A symbol earlier in code order does not have a code that starts a later one's. */
  lemma EarlierIsNoPrefix(lens: seq<nat>, limit: nat, n: nat, m: nat)
    requires Decodable(lens, limit) && n < |lens| && m < |lens|
    requires 0 < lens[n] < lens[m] || (0 < lens[n] == lens[m] && n < m)
    ensures CodeBits(lens, m)[..lens[n]] != CodeBits(lens, n)
  {
    var a, b, k := CodeOf(lens, n), CodeOf(lens, m), lens[m] - lens[n];
    CodeFits(lens, n, limit);
    CodeFits(lens, m, limit);
    if k == 0 {
      CountPrefix(lens, n, m, lens[n]);
    } else {
      LaterStart(lens, lens[n], lens[m]);
      ShlMono(a + 1, FirstCode(lens, lens[n]) + Count(lens, lens[n]), k);
    }
    assert Shl(a + 1, k) <= b;
    ShrAbove(b, a + 1, k);
    MsbPrefix(b, lens[m], lens[n]);
    ShrBound(b, k, lens[n]);
    if CodeBits(lens, m)[..lens[n]] == CodeBits(lens, n) {
      MsbInjective(a, Shr(b, k), lens[n]);
    }
  }

  /** No code is the beginning of another one. */
  lemma PrefixFree(lens: seq<nat>, limit: nat, n: nat, m: nat)
    requires Decodable(lens, limit) && n < |lens| && m < |lens| && n != m
    requires 0 < lens[n] <= lens[m]
    ensures CodeBits(lens, m)[..lens[n]] != CodeBits(lens, n)
  {
    if lens[n] < lens[m] || n < m {
      EarlierIsNoPrefix(lens, limit, n, m);
    } else {
      EarlierIsNoPrefix(lens, limit, m, n);
      assert CodeBits(lens, n)[..lens[m]] == CodeBits(lens, n);
      assert CodeBits(lens, m)[..lens[n]] == CodeBits(lens, m);
    }
  }

  lemma SameStream(bits: seq<bool>, pos: nat, e: seq<bool>, f: seq<bool>)
    requires At(bits, pos, e) && At(bits, pos, f) && |e| <= |f|
    ensures f[..|e|] == e
  {
    assert bits[pos..pos + |f|][..|e|] == bits[pos..pos + |e|];
  }

  lemma {:induction false} FindSymbol(lens: seq<nat>, limit: nat, bits: seq<bool>, pos: nat, n: nat, k: nat)
    requires Decodable(lens, limit) && k <= n < |lens| && lens[n] > 0 && At(bits, pos, CodeBits(lens, n))
    ensures ReadSymbolFrom(lens, bits, pos, k) == Some((n, pos + lens[n]))
    decreases n - k
  {
    if k < n {
      FindSymbol(lens, limit, bits, pos, n, k + 1);
      if lens[k] > 0 && At(bits, pos, CodeBits(lens, k)) {
        if lens[k] <= lens[n] {
          PrefixFree(lens, limit, k, n);
          SameStream(bits, pos, CodeBits(lens, k), CodeBits(lens, n));
        } else {
          PrefixFree(lens, limit, n, k);
          SameStream(bits, pos, CodeBits(lens, n), CodeBits(lens, k));
        }
      }
    }
  }

  /** Wherever the code of `n` stands in a stream, the decoder reads `n`. */
  lemma SymbolRoundTrip(lens: seq<nat>, limit: nat, bits: seq<bool>, pos: nat, n: nat)
    requires Decodable(lens, limit) && n < |lens| && lens[n] > 0 && At(bits, pos, CodeBits(lens, n))
    ensures ReadSymbol(lens, bits, pos) == Some((n, pos + lens[n]))
  {
    FindSymbol(lens, limit, bits, pos, n, 0);
  }
}
