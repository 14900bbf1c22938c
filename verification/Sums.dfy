/** Sums of integer sequences. */
module Sums {
  function Sum(s: seq<int>): int
  {
    if s == [] then 0 else Sum(s[..|s| - 1]) + s[|s| - 1]
  }

  lemma SumPush(s: seq<int>, x: int)
    ensures Sum(s + [x]) == Sum(s) + x
  {
    assert (s + [x])[..|s|] == s;
  }

  lemma {:induction false} SumConcat(s: seq<int>, t: seq<int>)
    ensures Sum(s + t) == Sum(s) + Sum(t)
  {
    if t == [] {
      assert s + t == s;
    } else {
      SumConcat(s, t[..|t| - 1]);
      assert s + t == (s + t[..|t| - 1]) + [t[|t| - 1]];
      SumPush(s + t[..|t| - 1], t[|t| - 1]);
    }
  }

  lemma {:induction false} SumUpdate(s: seq<int>, i: nat, x: int)
    requires i < |s|
    ensures Sum(s[i := x]) == Sum(s) - s[i] + x
  {
    var last := |s| - 1;
    if i < last {
      SumUpdate(s[..last], i, x);
      assert s[i := x][..last] == s[..last][i := x];
    } else {
      assert s[i := x][..last] == s[..last];
    }
  }

  /** Replacing one element of a sequence given pointwise. */
  lemma SumChange(s: seq<int>, t: seq<int>, i: nat)
    requires i < |s| == |t|
    requires forall k :: 0 <= k < |s| && k != i ==> s[k] == t[k]
    ensures Sum(t) == Sum(s) - s[i] + t[i]
  {
    assert t == s[i := t[i]];
    SumUpdate(s, i, t[i]);
  }

  lemma {:induction false} SumMono(s: seq<int>, t: seq<int>)
    requires |s| == |t|
    requires forall k :: 0 <= k < |s| ==> s[k] <= t[k]
    ensures Sum(s) <= Sum(t)
  {
    if s != [] {
      SumMono(s[..|s| - 1], t[..|t| - 1]);
    }
  }

  lemma {:induction false} SumConstant(s: seq<int>, c: int)
    requires forall k :: 0 <= k < |s| ==> s[k] == c
    ensures Sum(s) == |s| * c
  {
    if s != [] {
      SumConstant(s[..|s| - 1], c);
      assert (|s| - 1) * c + c == |s| * c;
    }
  }

  lemma {:induction false} SumPlus(s: seq<int>, t: seq<int>, u: seq<int>)
    requires |s| == |t| == |u|
    requires forall k :: 0 <= k < |s| ==> u[k] == s[k] + t[k]
    ensures Sum(u) == Sum(s) + Sum(t)
  {
    if s != [] {
      SumPlus(s[..|s| - 1], t[..|t| - 1], u[..|u| - 1]);
    }
  }
}
