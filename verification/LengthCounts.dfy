/** How many codes of each length there are, and the code space they take together. */
module LengthCounts {
  import opened Bits
  import opened Rfc1951
  import opened Sums
  import opened PrefixCodes

  /** The code space, out of `2^limit`, taken by `c[b]` codes of each length `b` up to `top`. */
  function SpaceOf(c: seq<nat>, limit: nat, top: nat): nat
    requires top <= limit && top < |c|
  {
    if top == 0 then 0 else SpaceOf(c, limit, top - 1) + Shl(c[top], limit - top)
  }

  /** The number of codes of lengths 1 to `top`. */
  function NumberOf(c: seq<nat>, top: nat): nat
    requires top < |c|
  {
    if top == 0 then 0 else NumberOf(c, top - 1) + c[top]
  }

  /** `c` counts the lengths in `lens`. */
  ghost predicate Counts(c: seq<nat>, lens: seq<nat>)
  {
    forall b :: 1 <= b < |c| ==> c[b] == Count(lens, b)
  }

  lemma {:induction false} SpaceOfCounts(c: seq<nat>, lens: seq<nat>, limit: nat, top: nat)
    requires Counts(c, lens) && top <= limit && top < |c|
    ensures SpaceOf(c, limit, top) == Kraft(Shorter(lens, top + 1), limit)
  {
    if top == 0 {
      SumConstant(Weights(Shorter(lens, 1), limit), 0);
    } else {
      SpaceOfCounts(c, lens, limit, top - 1);
      ShorterStep(lens, top, limit);
    }
  }

  /** The code space computed from the counts is the Kraft sum of the lengths. */
  lemma SpaceIsKraft(c: seq<nat>, lens: seq<nat>, limit: nat)
    requires Counts(c, lens) && limit < |c|
    requires forall i :: 0 <= i < |lens| ==> lens[i] <= limit
    ensures SpaceOf(c, limit, limit) == Kraft(lens, limit)
  {
    SpaceOfCounts(c, lens, limit, limit);
    assert Shorter(lens, limit + 1) == lens;
  }

  lemma {:induction false} NumberSplit(c: seq<nat>, lens: seq<nat>, top: nat)
    requires Counts(c, lens) && top < |c|
    ensures NumberOf(c, top) == NumberAtMost(lens, top)
  {
    if top == 0 {
      NoneAtMost(lens);
    } else {
      NumberSplit(c, lens, top - 1);
      OneMore(lens, top);
    }
  }

  /** The number of lengths from 1 to `top`. */
  function NumberAtMost(lens: seq<nat>, top: nat): nat
  {
    if lens == [] then 0
    else NumberAtMost(lens[..|lens| - 1], top) + (if 1 <= lens[|lens| - 1] <= top then 1 else 0)
  }

  lemma {:induction false} NoneAtMost(lens: seq<nat>)
    ensures NumberAtMost(lens, 0) == 0
  {
    if lens != [] {
      NoneAtMost(lens[..|lens| - 1]);
    }
  }

  lemma {:induction false} OneMore(lens: seq<nat>, top: nat)
    requires top > 0
    ensures NumberAtMost(lens, top) == NumberAtMost(lens, top - 1) + Count(lens, top)
  {
    if lens != [] {
      OneMore(lens[..|lens| - 1], top);
    }
  }

  /** Lengths that are non-zero in the same places are equally many. */
  lemma {:induction false} SameNumber(lens: seq<nat>, lens': seq<nat>, top: nat)
    requires |lens| == |lens'|
    requires forall i :: 0 <= i < |lens| ==> (1 <= lens[i] <= top <==> 1 <= lens'[i] <= top)
    ensures NumberAtMost(lens, top) == NumberAtMost(lens', top)
  {
    if lens != [] {
      SameNumber(lens[..|lens| - 1], lens'[..|lens| - 1], top);
    }
  }

  lemma {:induction false} NumberBound(lens: seq<nat>, top: nat)
    ensures NumberAtMost(lens, top) <= |lens|
  {
    if lens != [] {
      NumberBound(lens[..|lens| - 1], top);
    }
  }

  lemma {:induction false} SpaceFrame(c: seq<nat>, c': seq<nat>, limit: nat, top: nat)
    requires top <= limit && top < |c| && top < |c'|
    requires forall b :: 1 <= b <= top ==> c[b] == c'[b]
    ensures SpaceOf(c, limit, top) == SpaceOf(c', limit, top)
    ensures NumberOf(c, top) == NumberOf(c', top)
  {
    if top > 0 {
      SpaceFrame(c, c', limit, top - 1);
    }
  }

  lemma {:induction false} AddCode(c: seq<nat>, limit: nat, top: nat, b: nat, k: nat)
    requires 1 <= b <= top <= limit && top < |c|
    ensures SpaceOf(c[b := c[b] + k], limit, top) == SpaceOf(c, limit, top) + Shl(k, limit - b)
    ensures NumberOf(c[b := c[b] + k], top) == NumberOf(c, top) + k
  {
    if b == top {
      SpaceFrame(c, c[b := c[b] + k], limit, top - 1);
      ShlAdd(c[b], k, limit - b);
    } else {
      AddCode(c, limit, top - 1, b, k);
    }
  }

  lemma RemoveCode(c: seq<nat>, limit: nat, top: nat, b: nat)
    requires 1 <= b <= top <= limit && top < |c| && c[b] > 0
    ensures SpaceOf(c[b := c[b] - 1], limit, top) == SpaceOf(c, limit, top) - Pow2(limit - b)
    ensures NumberOf(c[b := c[b] - 1], top) == NumberOf(c, top) - 1
  {
    var less := c[b := c[b] - 1];
    AddCode(less, limit, top, b, 1);
    assert less[b := less[b] + 1] == c;
    ShlOne(limit - b);
  }

  /** Moving one leaf down and giving it an overflow item as a brother frees one unit. */
  lemma MoveDown(c: seq<nat>, limit: nat, b: nat) returns (c1: seq<nat>, c2: seq<nat>, c3: seq<nat>)
    requires 1 <= b < limit < |c| && c[b] > 0 && c[limit] > 0
    ensures c1 == c[b := c[b] - 1] && c2 == c1[b + 1 := c1[b + 1] + 2]
    ensures c2[limit] > 0 && c3 == c2[limit := c2[limit] - 1]
    ensures SpaceOf(c3, limit, limit) == SpaceOf(c, limit, limit) - 1
    ensures NumberOf(c3, limit) == NumberOf(c, limit)
  {
    c1 := c[b := c[b] - 1];
    RemoveCode(c, limit, limit, b);
    c2 := c1[b + 1 := c1[b + 1] + 2];
    AddCode(c1, limit, limit, b + 1, 2);
    var k := limit - (b + 1);
    assert Shl(2, k) == Pow2(limit - b) by {
      ShlDouble(1, k);
      ShlOne(k + 1);
      assert k + 1 == limit - b;
    }
    c3 := c2[limit := c2[limit] - 1];
    RemoveCode(c2, limit, limit, limit);
  }

  lemma {:induction false} OnlyLongest(c: seq<nat>, limit: nat, top: nat)
    requires top <= limit < |c| && forall b :: 1 <= b <= top ==> c[b] == 0
    ensures SpaceOf(c, limit, top) == 0 && NumberOf(c, top) == 0
  {
    if top > 0 {
      OnlyLongest(c, limit, top - 1);
      ShlOne(limit - top);
    }
  }

  /** If too much space is taken, some code is shorter than `limit`. */
  lemma ShorterExists(c: seq<nat>, limit: nat)
    requires 1 <= limit < |c| && NumberOf(c, limit) <= Pow2(limit) < SpaceOf(c, limit, limit)
    ensures exists b :: 1 <= b < limit && c[b] > 0
  {
    if forall b :: 1 <= b <= limit - 1 ==> c[b] == 0 {
      OnlyLongest(c, limit, limit - 1);
    }
  }

  lemma {:induction false} FewerNumbers(lens: seq<nat>, lens': seq<nat>, top: nat, i: nat)
    requires i < |lens| == |lens'|
    requires forall k :: 0 <= k < |lens| && 1 <= lens[k] <= top ==> 1 <= lens'[k] <= top
    requires !(1 <= lens[i] <= top) && 1 <= lens'[i] <= top
    ensures NumberAtMost(lens, top) < NumberAtMost(lens', top)
  {
    var last := |lens| - 1;
    if i < last {
      FewerNumbers(lens[..last], lens'[..last], top, i);
    } else {
      NoMoreNumbers(lens[..last], lens'[..last], top);
    }
  }

  lemma {:induction false} NoMoreNumbers(lens: seq<nat>, lens': seq<nat>, top: nat)
    requires |lens| == |lens'|
    requires forall k :: 0 <= k < |lens| && 1 <= lens[k] <= top ==> 1 <= lens'[k] <= top
    ensures NumberAtMost(lens, top) <= NumberAtMost(lens', top)
  {
    if lens != [] {
      NoMoreNumbers(lens[..|lens| - 1], lens'[..|lens| - 1], top);
    }
  }

  lemma {:induction false} NumberLess(c: seq<nat>, c': seq<nat>, top: nat, b: nat)
    requires top < |c| && top < |c'|
    requires forall k :: 1 <= k <= top ==> c[k] <= c'[k]
    ensures NumberOf(c, top) <= NumberOf(c', top)
    ensures 1 <= b <= top && c[b] < c'[b] ==> NumberOf(c, top) < NumberOf(c', top)
  {
    if top > 0 {
      NumberLess(c, c', top - 1, b);
    }
  }
}
