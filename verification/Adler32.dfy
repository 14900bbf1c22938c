/** The Adler-32 checksum with deferred reduction. */
module Adler32 {
  import opened Bits

  /** Largest prime below 2^16. */
  const BASE: nat := 65521
  /** How many bytes may be added between two reductions. */
  const NMAX: nat := 5552
  const WORD: nat := 0x1_0000_0000

  // ---------- Section 8.2 of RFC 1950: both sums are kept modulo BASE ----------

  function SumOne(s1: nat, s: seq<byte>): nat
  {
    if s == [] then s1 else (SumOne(s1, s[..|s| - 1]) + s[|s| - 1]) % BASE
  }

  function SumTwo(s1: nat, s2: nat, s: seq<byte>): nat
  {
    if s == [] then s2 else (SumTwo(s1, s2, s[..|s| - 1]) + SumOne(s1, s)) % BASE
  }

  /** The checksum of `s`, continued from `adler`. */
  function Adler(adler: nat, s: seq<byte>): nat
  {
    SumTwo(adler % 0x1_0000, adler / 0x1_0000 % 0x1_0000, s) * 0x1_0000 + SumOne(adler % 0x1_0000, s)
  }

  lemma {:induction false} SumsConcat(s1: nat, s2: nat, s: seq<byte>, t: seq<byte>)
    ensures SumOne(s1, s + t) == SumOne(SumOne(s1, s), t)
    ensures SumTwo(s1, s2, s + t) == SumTwo(SumOne(s1, s), SumTwo(s1, s2, s), t)
  {
    if t == [] {
      assert s + t == s;
    } else {
      SumsConcat(s1, s2, s, t[..|t| - 1]);
      assert (s + t)[..|s + t| - 1] == s + t[..|t| - 1];
    }
  }

  lemma SumsSmall(s1: nat, s2: nat, s: seq<byte>)
    requires s1 < 0x1_0000 && s2 < 0x1_0000
    ensures SumOne(s1, s) < 0x1_0000 && SumTwo(s1, s2, s) < 0x1_0000
  {
  }

  lemma Halves(hi: nat, lo: nat)
    requires lo < 0x1_0000 && hi < 0x1_0000
    ensures (hi * 0x1_0000 + lo) % 0x1_0000 == lo && (hi * 0x1_0000 + lo) / 0x1_0000 == hi
  {
  }

  /** The checksum of a concatenation is the chained checksum, whatever it starts from. */
  lemma AdlerConcat(adler: nat, s: seq<byte>, t: seq<byte>)
    ensures Adler(adler, s + t) == Adler(Adler(adler, s), t)
  {
    hide SumOne, SumTwo;
    var s1, s2 := adler % 0x1_0000, adler / 0x1_0000 % 0x1_0000;
    SumsConcat(s1, s2, s, t);
    SumsSmall(s1, s2, s);
    Halves(SumTwo(s1, s2, s), SumOne(s1, s));
  }

  // ---------- Without reduction ----------

  /** The bound of the second sum after `n` bytes, for any first values below 2^16. */
  function Bound(n: nat): (b: nat)
    ensures b >= 0xffff
  {
    if n == 0 then 0xffff else Bound(n - 1) + 0xffff + 255 * n
  }

  lemma {:induction false} BoundIs(n: nat)
    ensures 2 * Bound(n) == 2 * 0xffff * (n + 1) + 255 * (n * (n + 1))
  {
    if n > 0 {
      BoundIs(n - 1);
      assert n * (n + 1) == (n - 1) * n + 2 * n;
    }
  }

  lemma {:induction false} BoundGrows(m: nat, n: nat)
    requires m <= n
    ensures Bound(m) <= Bound(n)
  {
    if m < n {
      BoundGrows(m, n - 1);
    }
  }

  /** Within NMAX bytes neither sum overflows 32 bits. */
  lemma NoOverflow(n: nat)
    requires n <= NMAX
    ensures 0xffff + 255 * n < WORD && Bound(n) < WORD
  {
    BoundGrows(n, NMAX);
    BoundIs(NMAX);
  }

  /** The sums after `n` bytes of a piece, congruent to the reduced ones and within their bounds. */
  ghost predicate Deferred(a: nat, b: nat, r1: nat, r2: nat, piece: seq<byte>)
  {
    && a <= 0xffff + 255 * |piece| && b <= Bound(|piece|)
    && a % BASE == SumOne(r1, piece) % BASE && b % BASE == SumTwo(r1, r2, piece) % BASE
  }

  lemma ModAdd(a: nat, r: nat, c: nat)
    requires a % BASE == r % BASE
    ensures (a + c) % BASE == (r + c) % BASE
  {
  }

  lemma DeferredStep(a: nat, b: nat, r1: nat, r2: nat, piece: seq<byte>, c: byte)
    requires Deferred(a, b, r1, r2, piece) && |piece| < NMAX
    ensures a + c < WORD && b + a + c < WORD && Deferred(a + c, b + (a + c), r1, r2, piece + [c])
  {
    hide SumOne, SumTwo;
    NoOverflow(|piece| + 1);
    NextSums(r1, r2, piece, c);
    var p, q := SumOne(r1, piece), SumTwo(r1, r2, piece);
    SumsCongruent(a, b, p, q, c);
    assert |piece + [c]| == |piece| + 1;
  }

  lemma NextSums(r1: nat, r2: nat, piece: seq<byte>, c: byte)
    ensures SumOne(r1, piece + [c]) == (SumOne(r1, piece) + c) % BASE
    ensures SumTwo(r1, r2, piece + [c]) == (SumTwo(r1, r2, piece) + SumOne(r1, piece + [c])) % BASE
  {
    assert (piece + [c])[..|piece|] == piece;
  }

  lemma SumsCongruent(a: nat, b: nat, p: nat, q: nat, c: nat)
    requires a % BASE == p % BASE && b % BASE == q % BASE
    ensures (a + c) % BASE == (p + c) % BASE && (b + (a + c)) % BASE == (q + (p + c) % BASE) % BASE
  {
    ModAdd(a, p, c);
    ModAdd(b, q, a + c);
    ModAdd(a + c, (p + c) % BASE, q);
  }

  /** The sums of a piece, reduced once at its end. */
  method AddPiece(buf: array<byte>, from: nat, k: nat, s1: nat, s2: nat) returns (t1: nat, t2: nat)
    requires from + k <= buf.Length && 0 < k <= NMAX && s1 < 0x1_0000 && s2 < 0x1_0000
    ensures t1 == SumOne(s1, buf[from..from + k]) && t2 == SumTwo(s1, s2, buf[from..from + k])
  {
    hide SumOne, SumTwo, Bound, Deferred;
    t1, t2 := s1, s2;
    var i := 0;
    NothingDeferred(s1, s2);
    assert buf[from..from] == [];
    while i < k
      invariant 0 <= i <= k && Deferred(t1, t2, s1, s2, buf[from..from + i])
    {
      ghost var piece := buf[from..from + i];
      DeferredStep(t1, t2, s1, s2, piece, buf[from + i]);
      assert piece + [buf[from + i]] == buf[from..from + i + 1];
      t1 := (t1 + buf[from + i]) % WORD;
      t2 := (t2 + t1) % WORD;
      i := i + 1;
    }
    SumsReduced(t1, t2, s1, s2, buf[from..from + k]);
    t1, t2 := t1 % BASE, t2 % BASE;
  }

  lemma NothingDeferred(s1: nat, s2: nat)
    requires s1 < 0x1_0000 && s2 < 0x1_0000
    ensures Deferred(s1, s2, s1, s2, [])
  {
  }

  lemma SumsReduced(a: nat, b: nat, s1: nat, s2: nat, s: seq<byte>)
    requires s != [] && Deferred(a, b, s1, s2, s)
    ensures a % BASE == SumOne(s1, s) && b % BASE == SumTwo(s1, s2, s)
  {
    hide Bound;
    SumsBelow(s1, s2, s);
  }

  /** The checksum of the first `len` bytes of `buf`, continued from `adler`; 1 if there is no buffer. */
  method LzoAdler32(adler: nat, buf: array?<byte>, len: nat) returns (r: nat)
    requires adler < WORD && (buf != null ==> len <= buf.Length)
    ensures r == if buf == null then 1 else Adler(adler, buf[..len])
  {
    hide SumOne, SumTwo;
    var s1, s2 := adler % 0x1_0000, adler / 0x1_0000 % 0x1_0000;
    if buf == null {
      return 1;
    }
    ghost var r1, r2 := s1, s2;
    var at, left := 0, len;
    NothingSummed(r1, r2, buf[..0]);
    while left > 0
      invariant 0 <= left && at + left == len && s1 < 0x1_0000 && s2 < 0x1_0000
      invariant s1 == SumOne(r1, buf[..at]) && s2 == SumTwo(r1, r2, buf[..at])
    {
      var k := if left < NMAX then left else NMAX;
      left := left - k;
      SumsConcat(r1, r2, buf[..at], buf[at..at + k]);
      assert buf[..at] + buf[at..at + k] == buf[..at + k];
      s1, s2 := AddPiece(buf, at, k, s1, s2);
      at := at + k;
      SumsSmall(r1, r2, buf[..at]);
    }
    r := s2 * 0x1_0000 + s1;
  }

  lemma NothingSummed(s1: nat, s2: nat, s: seq<byte>)
    requires s == []
    ensures SumOne(s1, s) == s1 && SumTwo(s1, s2, s) == s2
  {
  }

  // ---------- The sums in closed form ----------

  function Total(s: seq<byte>): nat
  {
    if s == [] then 0 else s[0] + Total(s[1..])
  }

  /** Each byte as often as there are bytes from it to the end. */
  function Weighted(s: seq<byte>): nat
  {
    if s == [] then 0 else |s| * s[0] + Weighted(s[1..])
  }

  lemma {:induction false} TotalsPush(s: seq<byte>, c: byte)
    ensures Total(s + [c]) == Total(s) + c && Weighted(s + [c]) == Weighted(s) + Total(s) + c
  {
    if s == [] {
      assert [c][1..] == [];
    } else {
      TotalsPush(s[1..], c);
      assert (s + [c])[1..] == s[1..] + [c];
      assert (|s| + 1) * s[0] == |s| * s[0] + s[0];
    }
  }

  lemma {:induction false} SumsAre(s1: nat, s2: nat, s: seq<byte>)
    ensures SumOne(s1, s) % BASE == (s1 + Total(s)) % BASE
    ensures SumTwo(s1, s2, s) % BASE == (s2 + |s| * s1 + Weighted(s)) % BASE
  {
    hide SumOne, SumTwo, Total, Weighted;
    if s == [] {
      NothingSummed(s1, s2, s);
      NoTotals(s);
    } else {
      var p, c := s[..|s| - 1], s[|s| - 1];
      assert s == p + [c];
      SumsAre(s1, s2, p);
      NextTotals(s1, s2, p, c);
    }
  }

  lemma NextTotals(s1: nat, s2: nat, p: seq<byte>, c: byte)
    requires SumOne(s1, p) % BASE == (s1 + Total(p)) % BASE
    requires SumTwo(s1, s2, p) % BASE == (s2 + |p| * s1 + Weighted(p)) % BASE
    ensures SumOne(s1, p + [c]) % BASE == (s1 + Total(p + [c])) % BASE
    ensures SumTwo(s1, s2, p + [c]) % BASE == (s2 + |p + [c]| * s1 + Weighted(p + [c])) % BASE
  {
    hide SumOne, SumTwo, Total, Weighted;
    TotalsPush(p, c);
    NextSums(s1, s2, p, c);
    MoreWeight(s1, s2, |p|, Total(p), Weighted(p), c);
    SumsReducedTwice(s1 + Total(p), s2 + |p| * s1 + Weighted(p), SumOne(s1, p), SumTwo(s1, s2, p), c);
    assert |p + [c]| == |p| + 1;
  }

  lemma SumsReducedTwice(a: nat, b: nat, p: nat, q: nat, c: nat)
    requires p % BASE == a % BASE && q % BASE == b % BASE
    ensures (p + c) % BASE % BASE == (a + c) % BASE
    ensures (q + (p + c) % BASE) % BASE % BASE == (b + (a + c)) % BASE
  {
    SumsCongruent(a, b, p, q, c);
    hide BASE;
  }

  lemma MoreWeight(s1: nat, s2: nat, n: nat, t: nat, w: nat, c: nat)
    ensures s2 + n * s1 + w + (s1 + t + c) == s2 + (n + 1) * s1 + (w + t + c)
  {
  }

  lemma NoTotals(s: seq<byte>)
    requires s == []
    ensures Total(s) == 0 && Weighted(s) == 0
  {
  }

  /** The low half is the sum of all bytes, the high half that of all the low halves, both modulo the largest prime below 2^16. */
  lemma AdlerIs(adler: nat, s: seq<byte>)
    requires s != []
    ensures var s1, s2 := adler % 0x1_0000, adler / 0x1_0000 % 0x1_0000;
            Adler(adler, s) == (s2 + |s| * s1 + Weighted(s)) % 65521 * 0x1_0000 + (s1 + Total(s)) % 65521
  {
    hide SumOne, SumTwo, Total, Weighted;
    var s1, s2 := adler % 0x1_0000, adler / 0x1_0000 % 0x1_0000;
    SumsAre(s1, s2, s);
    SumsBelow(s1, s2, s);
  }

  lemma SumsBelow(s1: nat, s2: nat, s: seq<byte>)
    requires s != []
    ensures SumOne(s1, s) < BASE && SumTwo(s1, s2, s) < BASE
  {
  }
}
