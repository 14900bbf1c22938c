/** Debian version numbers: the comparison walks both strings and compares their keys. */
module DebianVersions {

  /** The characters of a version are those of a C string in the C locale. */
  predicate IsText(s: string)
  {
    forall i :: 0 <= i < |s| ==> 0 < s[i] as int < 256
  }

  predicate IsDigit(c: char) { '0' <= c <= '9' }

  predicate IsAlpha(c: char) { 'a' <= c <= 'z' || 'A' <= c <= 'Z' }

  /** The order of characters: a tilde before everything, even the end; letters before other characters. */
  function Order(c: char): int
  {
    if c == '~' then -1
    else if c == '\0' || IsDigit(c) then 0
    else if IsAlpha(c) then c as int
    else c as int + 256
  }

  /** The character at `i`, or the terminating one. */
  function At(s: string, i: nat): char
  {
    if i < |s| then s[i] else '\0'
  }

  // ---------- Keys ----------

  /** Where the digits that begin at `i` end. */
  function DigitsEnd(s: string, i: nat): (j: nat)
    requires i <= |s|
    ensures i <= j <= |s| && (j < |s| ==> !IsDigit(s[j])) && forall k :: i <= k < j ==> IsDigit(s[k])
    decreases |s| - i
  {
    if i < |s| && IsDigit(s[i]) then DigitsEnd(s, i + 1) else i
  }

  function Digit(c: char): (d: nat)
    requires IsDigit(c)
    ensures d <= 9
  {
    c as int - '0' as int
  }

  /** The number written from `i` to `j`. */
  function Number(s: string, i: nat, j: nat): nat
    requires i <= j <= |s| && forall k :: i <= k < j ==> IsDigit(s[k])
    decreases j - i
  {
    if i == j then 0 else 10 * Number(s, i, j - 1) + Digit(s[j - 1])
  }

  /** What a version amounts to: the orders of its other characters, and 0 and the value for each run of digits. */
  function Key(s: string, i: nat): seq<int>
    requires i <= |s|
    decreases |s| - i
  {
    if i == |s| then []
    else if IsDigit(s[i]) then [0, Number(s, i, DigitsEnd(s, i))] + Key(s, DigitsEnd(s, i))
    else [Order(s[i])] + Key(s, i + 1)
  }

  /** Entries after the end are 0. */
  function Entry(k: seq<int>, i: nat): int
  {
    if i < |k| then k[i] else 0
  }

  function Drop(k: seq<int>, n: nat): seq<int>
  {
    if n <= |k| then k[n..] else []
  }

  function Sign(x: int): int
  {
    if x < 0 then -1 else if x > 0 then 1 else 0
  }

  /** Lexicographic comparison from entry `i` on. */
  function CompareFrom(a: seq<int>, b: seq<int>, i: nat): (r: int)
    ensures -1 <= r <= 1
    decreases |a| + |b| - i
  {
    if i >= |a| && i >= |b| then 0
    else if Entry(a, i) != Entry(b, i) then Sign(Entry(a, i) - Entry(b, i))
    else CompareFrom(a, b, i + 1)
  }

  function Compare(a: seq<int>, b: seq<int>): int
  {
    CompareFrom(a, b, 0)
  }

  /** The order of upstream versions and of revisions. */
  function CompareParts(s: string, t: string): int
  {
    Compare(Key(s, 0), Key(t, 0))
  }

  // ---------- Keys are totally preordered ----------

  lemma {:induction false} CompareSwap(a: seq<int>, b: seq<int>, i: nat)
    ensures CompareFrom(a, b, i) == -CompareFrom(b, a, i)
    decreases |a| + |b| - i
  {
    if !(i >= |a| && i >= |b|) && Entry(a, i) == Entry(b, i) {
      CompareSwap(a, b, i + 1);
    }
  }

  /** Beyond both ends nothing differs. */
  lemma {:induction false} EqualKeys(a: seq<int>, b: seq<int>, c: seq<int>, i: nat)
    requires CompareFrom(a, b, i) == 0
    ensures CompareFrom(a, c, i) == CompareFrom(b, c, i)
    decreases |a| + |b| + |c| - i
  {
    if i < |a| || i < |b| || i < |c| {
      EqualKeys(a, b, c, i + 1);
    }
  }

  lemma {:induction false} CompareTransitive(a: seq<int>, b: seq<int>, c: seq<int>, i: nat)
    requires CompareFrom(a, b, i) <= 0 && CompareFrom(b, c, i) <= 0
    ensures CompareFrom(a, c, i) <= 0
    ensures CompareFrom(a, b, i) < 0 || CompareFrom(b, c, i) < 0 ==> CompareFrom(a, c, i) < 0
    decreases |a| + |b| + |c| - i
  {
    if i < |a| || i < |b| || i < |c| {
      if Entry(a, i) == Entry(b, i) == Entry(c, i) {
        CompareTransitive(a, b, c, i + 1);
      }
    }
  }

  /** Equal entries can be dropped. */
  lemma {:induction false} CompareDrop(a: seq<int>, b: seq<int>, i: nat, n: nat)
    ensures CompareFrom(a, b, i + n) == CompareFrom(Drop(a, n), Drop(b, n), i)
    decreases |a| + |b| - i
  {
    if i + n < |a| || i + n < |b| {
      assert Entry(a, i + n) == Entry(Drop(a, n), i) && Entry(b, i + n) == Entry(Drop(b, n), i);
      CompareDrop(a, b, i + 1, n);
      assert i + 1 + n == i + n + 1;
    }
  }

  // ---------- Numbers ----------

  function Pow10(n: nat): (p: nat)
    ensures p >= 1
  {
    if n == 0 then 1 else 10 * Pow10(n - 1)
  }

  lemma {:induction false} Pow10Grows(m: nat, n: nat)
    requires m <= n
    ensures Pow10(m) <= Pow10(n)
  {
    if m < n {
      Pow10Grows(m, n - 1);
    }
  }

  ghost predicate Digits(s: string, i: nat, j: nat)
  {
    i <= j <= |s| && forall k :: i <= k < j ==> IsDigit(s[k])
  }

  lemma {:induction false} LeadingZero(s: string, i: nat, j: nat)
    requires Digits(s, i, j) && i < j && s[i] == '0'
    ensures Number(s, i, j) == Number(s, i + 1, j)
    decreases j
  {
    if i + 1 < j {
      LeadingZero(s, i, j - 1);
    }
  }

  /** A number without leading zero is as large as its digits are many. */
  lemma {:induction false} NumberBounds(s: string, i: nat, j: nat)
    requires Digits(s, i, j)
    ensures Number(s, i, j) < Pow10(j - i)
    ensures i < j && s[i] != '0' ==> Number(s, i, j) >= Pow10(j - i - 1)
    decreases j
  {
    if i < j {
      NumberBounds(s, i, j - 1);
    }
  }

  /** The greater number of digits wins. */
  lemma LongerWins(s: string, i: nat, j: nat, t: string, p: nat, q: nat)
    requires Digits(s, i, j) && Digits(t, p, q) && q - p < j - i && s[i] != '0'
    ensures Number(s, i, j) > Number(t, p, q)
  {
    NumberBounds(s, i, j);
    NumberBounds(t, p, q);
    Pow10Grows(q - p, j - i - 1);
  }

  lemma {:induction false} EndOf(s: string, i: nat, j: nat)
    requires i <= j && Digits(s, i, j)
    ensures DigitsEnd(s, i) == DigitsEnd(s, j)
    decreases j - i
  {
    if i < j {
      EndOf(s, i + 1, j);
    }
  }

  /** Skips leading zeros: the number and its end stay. */
  method SkipZeros(s: string, i: nat) returns (p: nat)
    requires i <= |s|
    ensures i <= p <= DigitsEnd(s, i) && DigitsEnd(s, p) == DigitsEnd(s, i) && At(s, p) != '0'
    ensures Number(s, p, DigitsEnd(s, i)) == Number(s, i, DigitsEnd(s, i))
  {
    ghost var e := DigitsEnd(s, i);
    p := i;
    while At(s, p) == '0'
      invariant i <= p <= e && DigitsEnd(s, p) == e && Number(s, p, e) == Number(s, i, e)
      decreases |s| - p
    {
      LeadingZero(s, p, e);
      p := p + 1;
    }
  }

  /** Numbers that differ keep their order with one more digit; equal ones are ordered by it. */
  lemma DiffStays(n: nat, m: nat, d: nat, e: nat, diff: int)
    requires Sign(diff) == Sign(n as int - m as int) && d <= 9 && e <= 9
    ensures Sign(10 * n as int + d as int - (10 * m as int + e as int)) == if diff == 0 then Sign(d as int - e as int) else Sign(diff)
  {
  }

  lemma NumberNext(s: string, p: nat, i: nat)
    requires p <= i && Digits(s, p, i)
    ensures p == i ==> Number(s, p, i) == 0
    ensures i < |s| && IsDigit(s[i]) ==> Number(s, p, i + 1) == 10 * Number(s, p, i) + Digit(s[i])
  {
  }

  /** Compares the numbers at `i` and `j`; if they are equal, both have been passed. */
  method CompareNumbers(val: string, i: nat, ref: string, j: nat) returns (r: int, i': nat, j': nat)
    requires i <= |val| && j <= |ref|
    ensures Sign(r) == Sign(Number(val, i, DigitsEnd(val, i)) as int - Number(ref, j, DigitsEnd(ref, j)) as int)
    ensures r == 0 ==> i' == DigitsEnd(val, i) && j' == DigitsEnd(ref, j)
  {
    hide DigitsEnd, Number;
    ghost var e, f := DigitsEnd(val, i), DigitsEnd(ref, j);
    i' := SkipZeros(val, i);
    j' := SkipZeros(ref, j);
    ghost var p, q := i', j';
    var firstDiff := 0;
    NumberNext(val, p, p);
    NumberNext(ref, q, q);
    while IsDigit(At(val, i')) && IsDigit(At(ref, j'))
      invariant p <= i' <= e && q <= j' <= f && i' - p == j' - q
      invariant Sign(firstDiff) == Sign(Number(val, p, i') - Number(ref, q, j'))
      decreases e - i'
    {
      EndOf(val, p, i');
      EndOf(ref, q, j');
      NumberNext(val, p, i');
      NumberNext(ref, q, j');
      DiffStays(Number(val, p, i'), Number(ref, q, j'), Digit(val[i']), Digit(ref[j']), firstDiff);
      if firstDiff == 0 {
        firstDiff := val[i'] as int - ref[j'] as int;
      }
      i', j' := i' + 1, j' + 1;
    }
    EndOf(val, p, i');
    EndOf(ref, q, j');
    if IsDigit(At(val, i')) {
      LongerWins(val, p, e, ref, q, f);
      return 1, i', j';
    }
    if IsDigit(At(ref, j')) {
      LongerWins(ref, q, f, val, p, e);
      return -1, i', j';
    }
    r := firstDiff;
  }

  // ---------- version_compare_part ----------

  /** One equal character that is no digit. */
  lemma SameCharacter(val: string, i: nat, ref: string, j: nat)
    requires i < |val| && j < |ref| && !IsDigit(val[i]) && !IsDigit(ref[j]) && Order(val[i]) == Order(ref[j])
    ensures Compare(Key(val, i), Key(ref, j)) == Compare(Key(val, i + 1), Key(ref, j + 1))
  {
    var a, b := Key(val, i), Key(ref, j);
    assert Drop(a, 1) == Key(val, i + 1) && Drop(b, 1) == Key(ref, j + 1);
    CompareDrop(a, b, 0, 1);
  }

  lemma NumberEntries(s: string, i: nat)
    requires i <= |s| && (i < |s| ==> IsDigit(s[i]))
    ensures Entry(Key(s, i), 0) == 0 && Entry(Key(s, i), 1) == Number(s, i, DigitsEnd(s, i))
    ensures Drop(Key(s, i), 2) == Key(s, DigitsEnd(s, i))
  {
  }

  /** Two numbers, or ends in their places, decide or are passed. */
  lemma BothNumbers(val: string, i: nat, ref: string, j: nat)
    requires i <= |val| && (i < |val| ==> IsDigit(val[i])) && j <= |ref| && (j < |ref| ==> IsDigit(ref[j]))
    ensures var n: int := Number(val, i, DigitsEnd(val, i)); var m: int := Number(ref, j, DigitsEnd(ref, j));
      Compare(Key(val, i), Key(ref, j))
      == if n != m then Sign(n - m) else Compare(Key(val, DigitsEnd(val, i)), Key(ref, DigitsEnd(ref, j)))
  {
    hide Key;
    var a, b := Key(val, i), Key(ref, j);
    NumberEntries(val, i);
    NumberEntries(ref, j);
    CompareDrop(a, b, 0, 2);
    assert CompareFrom(a, b, 0) == CompareFrom(a, b, 1) by { SkipEqual(a, b, 0); }
    if Entry(a, 1) == Entry(b, 1) {
      SkipEqual(a, b, 1);
    }
  }

  lemma SkipEqual(a: seq<int>, b: seq<int>, i: nat)
    requires Entry(a, i) == Entry(b, i)
    ensures CompareFrom(a, b, i) == CompareFrom(a, b, i + 1)
  {
  }

  /** Different characters, digits and ends counting as 0, decide. */
  lemma DifferentOrders(val: string, i: nat, ref: string, j: nat)
    requires IsText(val) && IsText(ref) && i <= |val| && j <= |ref| && Order(At(val, i)) != Order(At(ref, j))
    ensures Compare(Key(val, i), Key(ref, j)) == Sign(Order(At(val, i)) - Order(At(ref, j)))
  {
    FirstEntry(val, i);
    FirstEntry(ref, j);
  }

  lemma FirstEntry(s: string, i: nat)
    requires IsText(s) && i <= |s|
    ensures Entry(Key(s, i), 0) == Order(At(s, i))
  {
  }

  /** Compares an upstream version or a revision. */
  method VersionComparePart(val: string, ref: string) returns (r: int)
    requires IsText(val) && IsText(ref)
    ensures Sign(r) == CompareParts(val, ref)
  {
    hide Key, CompareFrom;
    var i, j := 0, 0;
    while i < |val| || j < |ref|
      invariant 0 <= i <= |val| && 0 <= j <= |ref|
      invariant Compare(Key(val, i), Key(ref, j)) == Compare(Key(val, 0), Key(ref, 0))
      decreases |val| + |ref| - i - j
    {
      ghost var i0, j0 := i, j;
      while (i < |val| && !IsDigit(val[i])) || (j < |ref| && !IsDigit(ref[j]))
        invariant i0 <= i <= |val| && j0 <= j <= |ref|
        invariant Compare(Key(val, i), Key(ref, j)) == Compare(Key(val, 0), Key(ref, 0))
        decreases |val| + |ref| - i - j
      {
        var vc, rc := Order(At(val, i)), Order(At(ref, j));
        if vc != rc {
          DifferentOrders(val, i, ref, j);
          return vc - rc;
        }
        SameCharacter(val, i, ref, j);
        i, j := i + 1, j + 1;
      }
      BothNumbers(val, i, ref, j);
      r, i, j := CompareNumbers(val, i, ref, j);
      if r != 0 {
        return;
      }
    }
    NothingLeft(val, ref);
    r := 0;
  }

  lemma NothingLeft(val: string, ref: string)
    ensures Compare(Key(val, |val|), Key(ref, |ref|)) == 0
  {
  }

  // ---------- version_compare ----------

  /** The index of the first `c` in `s`, or its length. */
  function FirstIndex(s: string, c: char): (i: nat)
    ensures i <= |s| && (i < |s| ==> s[i] == c) && forall k :: 0 <= k < i ==> s[k] != c
  {
    if s == "" then 0
    else if s[0] == c then 0
    else 1 + FirstIndex(s[1..], c)
  }

  /** The index of the last `c` in `s`, or its length. */
  function LastIndex(s: string, c: char): (i: nat)
    ensures i <= |s| && (i < |s| ==> s[i] == c) && forall k :: i < k < |s| ==> s[k] != c
    ensures i == |s| ==> forall k :: 0 <= k < |s| ==> s[k] != c
  {
    if s == "" then 0
    else if s[|s| - 1] == c then |s| - 1
    else
      var i := LastIndex(s[..|s| - 1], c);
      if i == |s| - 1 then |s| else i
  }

  /** `atoi`, assigned to an unsigned variable. */
  function Atoi(s: string): nat
  {
    if s != "" && (s[0] == ' ' || 9 <= s[0] as int <= 13) then Atoi(s[1..])
    else
      var start := if s != "" && (s[0] == '-' || s[0] == '+') then 1 else 0;
      var n: int := Number(s, start, DigitsEnd(s, start));
      (if start == 1 && s[0] == '-' then -n else n) % 0x1_0000_0000
  }

  /** Epoch, upstream version and revision. */
  datatype Version = Version(epoch: nat, upstream: string, revision: string)

  function Split(s: string): (v: Version)
    requires IsText(s)
    ensures IsText(v.upstream) && IsText(v.revision)
  {
    var colon := FirstIndex(s, ':');
    var rest := if colon < |s| then s[colon + 1..] else s;
    var dash := LastIndex(rest, '-');
    Version(if colon < |s| then Atoi(s) else 0, rest[..dash], if dash < |rest| then rest[dash + 1..] else "")
  }

  function CompareVersions(v: Version, w: Version): (r: int)
    ensures -1 <= r <= 1
  {
    if v.epoch != w.epoch then Sign(v.epoch - w.epoch)
    else if CompareParts(v.upstream, w.upstream) != 0 then CompareParts(v.upstream, w.upstream)
    else CompareParts(v.revision, w.revision)
  }

  /** The order of version numbers. */
  function Outcome(ver1: string, ver2: string): (r: int)
    requires IsText(ver1) && IsText(ver2)
    ensures -1 <= r <= 1
  {
    CompareVersions(Split(ver1), Split(ver2))
  }

  /** Swapping the versions swaps the outcome. */
  lemma VersionsSwap(v: Version, w: Version)
    ensures CompareVersions(v, w) == -CompareVersions(w, v)
  {
    CompareSwap(Key(v.upstream, 0), Key(w.upstream, 0), 0);
    CompareSwap(Key(v.revision, 0), Key(w.revision, 0), 0);
  }

  /** Versions are totally preordered. */
  lemma VersionsTransitive(u: Version, v: Version, w: Version)
    requires CompareVersions(u, v) <= 0 && CompareVersions(v, w) <= 0
    ensures CompareVersions(u, w) <= 0
    ensures CompareVersions(u, v) < 0 || CompareVersions(v, w) < 0 ==> CompareVersions(u, w) < 0
  {
    hide Key;
    var a, b, c := Key(u.upstream, 0), Key(v.upstream, 0), Key(w.upstream, 0);
    if u.epoch == v.epoch == w.epoch {
      CompareTransitive(a, b, c, 0);
      if Compare(a, b) == 0 && Compare(b, c) == 0 {
        EqualKeys(a, b, c, 0);
        CompareTransitive(Key(u.revision, 0), Key(v.revision, 0), Key(w.revision, 0), 0);
      }
    }
  }

  /** Compares two version numbers. */
  method VersionCompare(ver1: string, ver2: string) returns (result: int)
    requires IsText(ver1) && IsText(ver2)
    ensures Sign(result) == Outcome(ver1, ver2)
  {
    hide Split, CompareParts;
    var epoch1, upstream1, deb1 := TakeApart(ver1);
    var epoch2, upstream2, deb2 := TakeApart(ver2);
    if epoch1 < epoch2 {
      return -1;
    }
    if epoch1 > epoch2 {
      return 1;
    }
    result := VersionComparePart(upstream1, upstream2);
    if result == 0 {
      result := VersionComparePart(deb1, deb2);
    }
  }

  /** Chops off the epoch and the revision; a missing one is 0 or empty. */
  method TakeApart(ver: string) returns (epoch: nat, upstream: string, deb: string)
    requires IsText(ver)
    ensures Split(ver) == Version(epoch, upstream, deb) && IsText(upstream) && IsText(deb)
  {
    hide IsText, Atoi;
    var chVer := ver;
    epoch := 0;
    var colon := FirstIndex(chVer, ':');
    if colon < |chVer| {
      epoch := Atoi(chVer);
      chVer := chVer[colon + 1..];
    }
    var dash := LastIndex(chVer, '-');
    deb := if dash < |chVer| then chVer[dash + 1..] else "";
    upstream := chVer[..dash];
    ghost var v := Split(ver);
  }
}
