/** Which of two Debian version numbers is later, in terms of their characters. */
module DebianLaws {
  import opened DebianVersions

  // ---------- Versions with a common beginning ----------

  /** No run of digits reaches from `s` into `t`. */
  predicate Apart(s: string, t: string)
  {
    s == "" || t == "" || !IsDigit(s[|s| - 1]) || !IsDigit(t[0])
  }

  lemma {:induction false} NumberInside(s: string, t: string, d: nat, i: nat, j: nat)
    requires Digits(s, i, j) && d + |s| <= |t| && t[d..d + |s|] == s
    ensures Digits(t, d + i, d + j) && Number(t, d + i, d + j) == Number(s, i, j)
    decreases j
  {
    forall k | d + i <= k < d + j
      ensures IsDigit(t[k])
    {
      assert t[d..d + |s|][k - d] == s[k - d];
    }
    if i < j {
      NumberInside(s, t, d, i, j - 1);
      assert d + (j - 1) == d + j - 1;
    }
  }

  lemma {:induction false} EndInside(s: string, t: string, d: nat, i: nat)
    requires i <= |s| && d + |s| <= |t| && t[d..d + |s|] == s
    requires Apart(s[i..], t[d + |s|..])
    ensures DigitsEnd(t, d + i) == d + DigitsEnd(s, i) || (i == |s| && d + |s| < |t| && IsDigit(t[d + |s|]))
    decreases |s| - i
  {
    if i < |s| {
      assert t[d + i] == t[d..d + |s|][i];
      if IsDigit(s[i]) {
        if i + 1 == |s| {
          assert s[i..][|s| - i - 1] == s[i];
          assert d + |s| < |t| ==> t[d + |s|..][0] == t[d + |s|];
        }
        EndInside(s, t, d, i + 1);
      }
    }
  }

  lemma KeyNumber(s: string, i: nat)
    requires i < |s| && IsDigit(s[i])
    ensures i < DigitsEnd(s, i) && Key(s, i) == [0, Number(s, i, DigitsEnd(s, i))] + Key(s, DigitsEnd(s, i))
  {
  }

  lemma KeyOther(s: string, i: nat)
    requires i < |s| && !IsDigit(s[i])
    ensures Key(s, i) == [Order(s[i])] + Key(s, i + 1)
  {
  }

  /** The key of a text that is followed by another one. */
  lemma {:induction false} KeyInside(s: string, t: string, i: nat)
    requires i <= |s| && Apart(s, t)
    ensures Key(s + t, i) == Key(s, i) + Key(t, 0)
    decreases |s| - i
  {
    hide Order, Number, DigitsEnd;
    var v := s + t;
    assert v[0..0 + |s|] == s && v[|s|..] == t;
    if i == |s| {
      KeyAfter(s, t, 0);
      return;
    }
    hide Key;
    assert v[i] == s[i];
    if IsDigit(s[i]) {
      var e := DigitsEnd(s, i);
      ApartFrom(s, t, i);
      EndInside(s, v, 0, i);
      NumberInside(s, v, 0, i, e);
      KeyNumber(s, i);
      KeyNumber(v, i);
      KeyInside(s, t, e);
    } else {
      KeyOther(s, i);
      KeyOther(v, i);
      KeyInside(s, t, i + 1);
    }
  }

  lemma ApartFrom(s: string, t: string, i: nat)
    requires i < |s| && Apart(s, t)
    ensures Apart(s[i..], t)
  {
    assert s[i..][|s| - i - 1] == s[|s| - 1];
  }

  /** A run of digits in a text that follows another one. */
  lemma RunAfter(s: string, t: string, i: nat) returns (e: nat)
    requires i < |t| && IsDigit(t[i])
    ensures e == DigitsEnd(t, i) && i < e && DigitsEnd(s + t, |s| + i) == |s| + e
    ensures Digits(s + t, |s| + i, |s| + e) && Number(s + t, |s| + i, |s| + e) == Number(t, i, e)
  {
    hide Key, Number, Order;
    e := DigitsEnd(t, i);
    var v := s + t;
    assert v[|s|..|s| + |t|] == t && v[|s| + |t|..] == "";
    EndInside(t, v, |s|, i);
    NumberInside(t, v, |s|, i, e);
  }

  lemma {:induction false} KeyAfter(s: string, t: string, i: nat)
    requires i <= |t|
    ensures Key(s + t, |s| + i) == Key(t, i)
    decreases |t| - i
  {
    hide Order, Number, DigitsEnd;
    if i < |t| {
      hide Key;
      assert (s + t)[|s| + i] == t[i];
      if IsDigit(t[i]) {
        var e := RunAfter(s, t, i);
        KeyNumber(t, i);
        KeyNumber(s + t, |s| + i);
        KeyAfter(s, t, e);
      } else {
        KeyOther(t, i);
        KeyOther(s + t, |s| + i);
        KeyAfter(s, t, i + 1);
      }
    }
  }

  lemma {:induction false} SameEntries(a: seq<int>, b: seq<int>, c: seq<int>, n: nat)
    requires n <= |a|
    ensures CompareFrom(a + b, a + c, 0) == CompareFrom(a + b, a + c, n)
  {
    if n > 0 {
      SameEntries(a, b, c, n - 1);
      SkipEqual(a + b, a + c, n - 1);
    }
  }

  lemma CommonKey(a: seq<int>, b: seq<int>, c: seq<int>)
    ensures Compare(a + b, a + c) == Compare(b, c)
  {
    hide CompareFrom;
    SameEntries(a, b, c, |a|);
    CompareDrop(a + b, a + c, 0, |a|);
    assert Drop(a + b, |a|) == b && Drop(a + c, |a|) == c;
  }

  /** What two versions begin with does not matter. */
  lemma CommonBeginning(s: string, t: string, u: string)
    requires Apart(s, t) && Apart(s, u)
    ensures CompareParts(s + t, s + u) == CompareParts(t, u)
  {
    hide Key, Compare;
    KeyInside(s, t, 0);
    KeyInside(s, u, 0);
    CommonKey(Key(s, 0), Key(t, 0), Key(u, 0));
  }

  // ---------- The first difference ----------

  /** A tilde before digits and the end, these before letters, letters before all other characters. */
  function Class(c: char): nat
  {
    if c == '~' then 0
    else if '0' <= c <= '9' then 1
    else if 'a' <= c <= 'z' || 'A' <= c <= 'Z' then 2
    else 3
  }

  /** The first difference decides by the classes of the characters, and by their codes if both are of one class. */
  lemma FirstDifference(s: string, c: char, t: string, d: char, u: string)
    requires IsText([c] + t) && IsText([d] + u) && c != d && !(Class(c) == Class(d) == 1)
    requires Apart(s, [c] + t) && Apart(s, [d] + u)
    ensures CompareParts(s + ([c] + t), s + ([d] + u))
         == if Class(c) < Class(d) || (Class(c) == Class(d) && c < d) then -1 else 1
  {
    CommonBeginning(s, [c] + t, [d] + u);
    assert ([c] + t)[0] == c && ([d] + u)[0] == d;
    hide Key, Compare;
    DifferentOrders([c] + t, 0, [d] + u, 0);
  }

  /** A tilde comes before the end, the end before letters and other characters. */
  lemma EndDifference(s: string, d: char, u: string)
    requires IsText([d] + u) && Class(d) != 1
    ensures CompareParts(s, s + ([d] + u)) == if d == '~' then 1 else -1
  {
    assert s + "" == s;
    assert ([d] + u)[0] == d;
    CommonBeginning(s, "", [d] + u);
    hide Key, Compare;
    DifferentOrders("", 0, [d] + u, 0);
  }

  // ---------- Runs of digits ----------

  /** A run of digits, and what follows it. */
  predicate Run(m: string, t: string)
  {
    m != "" && (forall k :: 0 <= k < |m| ==> '0' <= m[k] <= '9') && (t == "" || !('0' <= t[0] <= '9'))
  }

  function Value(m: string): nat
    requires forall k :: 0 <= k < |m| ==> '0' <= m[k] <= '9'
  {
    if m == "" then 0 else 10 * Value(m[..|m| - 1]) + (m[|m| - 1] as nat - '0' as nat)
  }

  lemma {:induction false} ValueIs(m: string)
    requires forall k :: 0 <= k < |m| ==> '0' <= m[k] <= '9'
    ensures Value(m) == Number(m, 0, |m|)
  {
    if m != "" {
      var h := m[..|m| - 1];
      ValueIs(h);
      assert Digits(h, 0, |h|);
      NumberInside(h, m, 0, 0, |h|);
    }
  }

  lemma RunIs(m: string, t: string)
    requires Run(m, t)
    ensures IsDigit((m + t)[0]) && DigitsEnd(m + t, 0) == |m| && Number(m + t, 0, |m|) == Value(m)
    ensures Key(m + t, |m|) == Key(t, 0)
  {
    var v := m + t;
    assert v[0..|m|] == m && m[0..] == m && v[0 + |m|..] == t;
    assert Digits(m, 0, |m|);
    EndOf(m, 0, |m|);
    EndInside(m, v, 0, 0);
    NumberInside(m, v, 0, 0, |m|);
    ValueIs(m);
    KeyAfter(m, t, 0);
  }

  /** Runs of digits are compared by their values; equal ones do not matter. */
  lemma RunsByValue(s: string, m: string, t: string, n: string, u: string)
    requires Run(m, t) && Run(n, u) && (s == "" || !('0' <= s[|s| - 1] <= '9'))
    ensures CompareParts(s + (m + t), s + (n + u))
         == if Value(m) < Value(n) then -1 else if Value(m) > Value(n) then 1 else CompareParts(t, u)
  {
    CommonBeginning(s, m + t, n + u);
    hide Key, Compare, DigitsEnd, Number;
    RunIs(m, t);
    RunIs(n, u);
    BothNumbers(m + t, 0, n + u, 0);
  }

  lemma {:induction false} ZeroInFront(m: string)
    requires forall k :: 0 <= k < |m| ==> '0' <= m[k] <= '9'
    ensures Value("0" + m) == Value(m)
  {
    var z := "0" + m;
    if m == "" {
      assert z == "0" && z[..0] == "";
    } else {
      ZeroInFront(m[..|m| - 1]);
      assert z[..|z| - 1] == "0" + m[..|m| - 1];
    }
  }

  /** Leading zeros do not matter. */
  lemma LeadingZeros(s: string, m: string, t: string)
    requires Run(m, t) && (s == "" || !('0' <= s[|s| - 1] <= '9'))
    ensures CompareParts(s + (("0" + m) + t), s + (m + t)) == 0
  {
    ZeroInFront(m);
    RunsByValue(s, "0" + m, t, m, t);
    CompareSwap(Key(t, 0), Key(t, 0), 0);
  }

  // ---------- Epoch and revision ----------

  lemma FirstOnly(e: string, v: string, c: char)
    requires c !in e
    ensures FirstIndex(e + ([c] + v), c) == |e|
  {
    assert (e + ([c] + v))[|e|] == c;
    assert forall k :: 0 <= k < |e| ==> (e + ([c] + v))[k] in e;
  }

  /** An epoch of digits is its value, and the rest is taken apart like a version without one. */
  lemma EpochIs(e: string, v: string)
    requires IsText(v) && ':' !in v && Run(e, [':'] + v) && Value(e) < 0x1_0000_0000
    ensures IsText(e + ([':'] + v))
    ensures Split(v).epoch == 0 && Split(e + ([':'] + v)) == Split(v).(epoch := Value(e))
  {
    var s := e + ([':'] + v);
    hide Number, LastIndex, FirstIndex, DigitsEnd, Atoi;
    forall k | 0 <= k < |s|
      ensures 0 < s[k] as int < 256
    {
      assert s[k] == if k < |e| then e[k] else if k == |e| then ':' else v[k - |e| - 1];
    }
    DigitsNoColon(e);
    FirstOnly(e, v, ':');
    assert s[|e| + 1..] == v;
    assert FirstIndex(v, ':') == |v|;
    AtoiIs(e, [':'] + v);
  }

  lemma DigitsNoColon(e: string)
    requires forall k :: 0 <= k < |e| ==> '0' <= e[k] <= '9'
    ensures ':' !in e
  {
  }

  lemma AtoiIs(e: string, t: string)
    requires Run(e, t) && Value(e) < 0x1_0000_0000
    ensures Atoi(e + t) == Value(e)
  {
    hide Number, DigitsEnd, Value;
    assert (e + t)[0] == e[0];
    RunIs(e, t);
  }

  /** The greater epoch wins; of equal epochs, what follows decides, and a missing epoch is 0. */
  lemma EpochsFirst(e: string, v: string, f: string, w: string)
    requires IsText(v) && ':' !in v && Run(e, [':'] + v) && Value(e) < 0x1_0000_0000
    requires IsText(w) && ':' !in w && Run(f, [':'] + w) && Value(f) < 0x1_0000_0000
    ensures IsText(e + ([':'] + v)) && IsText(f + ([':'] + w))
    ensures Outcome(e + ([':'] + v), f + ([':'] + w))
         == if Value(e) < Value(f) then -1 else if Value(e) > Value(f) then 1 else Outcome(v, w)
    ensures Value(e) == 0 ==> Outcome(e + ([':'] + v), w) == Outcome(v, w)
  {
    EpochIs(e, v);
    EpochIs(f, w);
    hide Split, CompareParts;
  }

  /** The last hyphen separates the revision; without a hyphen it is empty. */
  lemma RevisionIs(u: string, r: string)
    requires IsText(u) && IsText(r) && ':' !in u && ':' !in r && '-' !in r
    ensures IsText(u + (['-'] + r)) && Split(u + (['-'] + r)) == Version(0, u, r)
    ensures Split(r) == Version(0, r, "")
  {
    var s := u + (['-'] + r);
    hide Atoi, FirstIndex, LastIndex;
    LastOnly(u, r, '-');
    assert ':' !in s && FirstIndex(s, ':') == |s|;
    assert s[..|u|] == u && s[|u| + 1..] == r;
    assert FirstIndex(r, ':') == |r| && LastIndex(r, '-') == |r| && r[..|r|] == r;
  }

  lemma LastOnly(u: string, r: string, c: char)
    requires c !in r
    ensures LastIndex(u + ([c] + r), c) == |u|
  {
    hide LastIndex;
    var s := u + ([c] + r);
    var i := LastIndex(s, c);
    assert s[|u|] == c && |s| == |u| + 1 + |r|;
    assert |u| <= i < |s|;
  }

  /** The upstream versions decide, and if they are equal, the revisions. */
  lemma UpstreamFirst(u: string, r: string, w: string, q: string)
    requires IsText(u) && IsText(r) && ':' !in u && ':' !in r && '-' !in r
    requires IsText(w) && IsText(q) && ':' !in w && ':' !in q && '-' !in q
    ensures IsText(u + (['-'] + r)) && IsText(w + (['-'] + q))
    ensures Outcome(u + (['-'] + r), w + (['-'] + q))
         == if CompareParts(u, w) != 0 then CompareParts(u, w) else CompareParts(r, q)
  {
    RevisionIs(u, r);
    RevisionIs(w, q);
    hide Split, CompareParts;
  }

  /** A release candidate comes before the release. */
  lemma CandidateFirst()
    ensures IsText("1.0~rc1-1") && IsText("1.0-1") && Outcome("1.0~rc1-1", "1.0-1") == -1
  {
    hide Outcome, CompareParts;
    var u := "1.0~rc1";
    assert u == "1.0" + (['~'] + "rc1");
    assert u + (['-'] + "1") == "1.0~rc1-1" && "1.0" + (['-'] + "1") == "1.0-1";
    EndDifference("1.0", '~', "rc1");
    PartsSwap("1.0", u);
    UpstreamFirst(u, "1", "1.0", "1");
  }

  lemma PartsSwap(s: string, t: string)
    ensures CompareParts(s, t) == -CompareParts(t, s)
  {
    CompareSwap(Key(s, 0), Key(t, 0), 0);
  }

  /** Numbers are compared as numbers. */
  lemma NineBeforeTen()
    ensures IsText("1.9") && IsText("1.10") && Outcome("1.9", "1.10") == -1
  {
    NineAndTen();
    hide CompareParts, Value, Split;
    RunsByValue("1.", "9", "", "10", "");
    assert "1." + ("9" + "") == "1.9" && "1." + ("10" + "") == "1.10";
    RevisionIs("", "1.9");
    RevisionIs("", "1.10");
  }

  lemma NineAndTen()
    ensures Value("9") == 9 && Value("10") == 10
  {
    assert "10"[..1] == "1" && "9"[..0] == "" && "1"[..0] == "";
    assert Value("1") == 1;
  }
}
