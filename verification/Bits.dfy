/** Bit strings, numbers and the conversions between them.

    A bit string is a `seq<bool>`; the first bit of a stream is the least
    significant bit of its first byte (section 3.1.1 of RFC 1951). Shifts are
    defined one position at a time, which keeps every proof linear. */
module Bits {
  type byte = x: int | 0 <= x < 256

  function Pow2(n: nat): (p: nat)
    ensures p >= 1
  {
    if n == 0 then 1 else 2 * Pow2(n - 1)
  }

  lemma {:induction false} Pow2Mono(m: nat, n: nat)
    requires m <= n
    ensures Pow2(m) <= Pow2(n)
  {
    if m < n {
      Pow2Mono(m, n - 1);
    }
  }

  lemma Pow2Values()
    ensures Pow2(1) == 2 && Pow2(2) == 4 && Pow2(3) == 8 && Pow2(4) == 16
    ensures Pow2(5) == 32 && Pow2(6) == 64 && Pow2(7) == 128 && Pow2(8) == 256
    ensures Pow2(9) == 512 && Pow2(10) == 1024 && Pow2(11) == 2048 && Pow2(12) == 4096
    ensures Pow2(13) == 8192 && Pow2(14) == 16384 && Pow2(15) == 32768 && Pow2(16) == 65536
  {
    assert Pow2(4) == 16;
    assert Pow2(8) == 256;
    assert Pow2(12) == 4096;
    assert Pow2(16) == 65536;
  }

  /** `v << n` on unbounded numbers. */
  function Shl(v: nat, n: nat): nat
  {
    if n == 0 then v else 2 * Shl(v, n - 1)
  }

  /** `v >> n`. */
  function Shr(v: nat, n: nat): nat
  {
    if n == 0 then v else Shr(v / 2, n - 1)
  }

  /** Bit number `i` of `v`, counted from the least significant one. */
  predicate Bit(v: nat, i: nat)
  {
    if i == 0 then v % 2 == 1 else Bit(v / 2, i - 1)
  }

  /** The `n` low bits of `v`, least significant bit first. */
  function Lsb(v: nat, n: nat): (bs: seq<bool>)
    ensures |bs| == n
  {
    seq(n, i requires 0 <= i < n => Bit(v, i))
  }

  lemma LsbStep(v: nat, n: nat)
    requires n > 0
    ensures Lsb(v, n) == [v % 2 == 1] + Lsb(v / 2, n - 1)
  {
  }

  /** The `n` low bits of `v`, most significant bit first. */
  function Msb(v: nat, n: nat): (bs: seq<bool>)
    ensures |bs| == n
  {
    seq(n, i requires 0 <= i < n => Bit(v, n - 1 - i))
  }

  lemma MsbStep(v: nat, n: nat)
    requires n > 0
    ensures Msb(v, n) == Msb(v / 2, n - 1) + [v % 2 == 1]
  {
    var a, b := Msb(v, n), Msb(v / 2, n - 1);
    forall i | 0 <= i < n - 1
      ensures a[i] == b[i]
    {
      assert Bit(v, n - 1 - i) == Bit(v / 2, n - 2 - i);
    }
    assert a[n - 1] == Bit(v, 0);
    assert a == b + [v % 2 == 1];
  }

  /** The number whose bits are `bs`, least significant bit first. */
  function Val(bs: seq<bool>): (v: nat)
    ensures v < Pow2(|bs|)
  {
    if bs == [] then 0 else (if bs[0] then 1 else 0) + 2 * Val(bs[1..])
  }

  lemma {:induction false} ValLsb(v: nat, n: nat)
    requires v < Pow2(n)
    ensures Val(Lsb(v, n)) == v
  {
    if n > 0 {
      ValLsb(v / 2, n - 1);
      LsbStep(v, n);
      assert Lsb(v, n)[1..] == Lsb(v / 2, n - 1);
    }
  }

  lemma {:induction false} LsbVal(bs: seq<bool>)
    ensures Lsb(Val(bs), |bs|) == bs
  {
    if bs != [] {
      LsbVal(bs[1..]);
      LsbStep(Val(bs), |bs|);
      assert bs == [bs[0]] + bs[1..];
    }
  }

  /** Reading the low `m` bits and then the next `n` is reading `m + n`. */
  lemma {:induction false} LsbSplit(v: nat, m: nat, n: nat)
    ensures Lsb(v, m + n) == Lsb(v, m) + Lsb(Shr(v, m), n)
  {
    if m > 0 {
      LsbSplit(v / 2, m - 1, n);
      LsbStep(v, m);
      LsbStep(v, m + n);
      assert m + n - 1 == m - 1 + n;
    }
  }

  lemma {:induction false} LsbZero(n: nat)
    ensures Lsb(0, n) == seq(n, _ => false)
  {
    if n > 0 {
      LsbZero(n - 1);
      LsbStep(0, n);
    }
  }

  /** A value below `2^m` placed under a value shifted by `m`. */
  lemma {:induction false} LsbConcat(lo: nat, hi: nat, m: nat, n: nat)
    requires lo < Pow2(m)
    ensures Lsb(lo + Shl(hi, m), m + n) == Lsb(lo, m) + Lsb(hi, n)
  {
    if m > 0 {
      LsbConcat(lo / 2, hi, m - 1, n);
      LsbStep(lo, m);
      LsbStep(lo + Shl(hi, m), m + n);
      assert m + n - 1 == m - 1 + n;
    }
  }

  lemma {:induction false} ShrConcat(lo: nat, hi: nat, m: nat, n: nat)
    requires lo < Pow2(m)
    ensures Shr(lo + Shl(hi, m), m + n) == Shr(hi, n)
  {
    if m > 0 {
      ShrConcat(lo / 2, hi, m - 1, n);
      assert m + n - 1 == m - 1 + n;
    }
  }

  lemma {:induction false} ShlBound(lo: nat, hi: nat, m: nat, n: nat)
    requires lo < Pow2(m) && hi < Pow2(n)
    ensures lo + Shl(hi, m) < Pow2(m + n)
  {
    if m > 0 {
      ShlBound(lo / 2, hi, m - 1, n);
      assert m + n - 1 == m - 1 + n;
    }
  }

  lemma {:induction false} ShrBound(v: nat, m: nat, n: nat)
    requires v < Pow2(m + n)
    ensures Shr(v, m) < Pow2(n)
  {
    if m > 0 {
      assert m + n - 1 == m - 1 + n;
      ShrBound(v / 2, m - 1, n);
    }
  }

  /** Bitwise inclusive or, bit by bit. */
  function Or(a: nat, b: nat): nat
    decreases a + b
  {
    if a == 0 then b
    else if b == 0 then a
    else (if a % 2 == 1 || b % 2 == 1 then 1 else 0) + 2 * Or(a / 2, b / 2)
  }

  /** Or-ing a shifted value into a buffer whose high bits are clear is addition. */
  lemma {:induction false} OrDisjoint(a: nat, b: nat, m: nat)
    requires a < Pow2(m)
    ensures Or(a, Shl(b, m)) == a + Shl(b, m)
  {
    if a > 0 && Shl(b, m) > 0 {
      OrDisjoint(a / 2, b, m - 1);
    }
  }

  /** Bitwise exclusive or, bit by bit. */
  function Xor(a: nat, b: nat): nat
    decreases a + b
  {
    if a == 0 then b
    else if b == 0 then a
    else (if a % 2 == b % 2 then 0 else 1) + 2 * Xor(a / 2, b / 2)
  }

  lemma HalfOf(x: nat, bit: nat)
    requires bit <= 1
    ensures (bit + 2 * x) % 2 == bit && (bit + 2 * x) / 2 == x
  {
  }

  lemma {:induction false} XorStep(a: nat, b: nat)
    ensures Xor(a, b) % 2 == (if a % 2 == b % 2 then 0 else 1)
    ensures Xor(a, b) / 2 == Xor(a / 2, b / 2)
  {
    if a == 0 {
      assert Xor(a / 2, b / 2) == b / 2;
    } else if b == 0 {
      assert Xor(a / 2, b / 2) == a / 2;
    } else {
      HalfOf(Xor(a / 2, b / 2), if a % 2 == b % 2 then 0 else 1);
    }
  }

  /** `v & (2^n - 1)`. */
  function Mask(v: nat, n: nat): (r: nat)
    ensures r < Pow2(n)
  {
    if n == 0 then 0 else v % 2 + 2 * Mask(v / 2, n - 1)
  }

  lemma {:induction false} MaskSmall(v: nat, n: nat)
    requires v < Pow2(n)
    ensures Mask(v, n) == v
  {
    if n > 0 {
      MaskSmall(v / 2, n - 1);
    }
  }

  /** Two numbers agree in their `n` low bits. */
  predicate Agree(a: nat, b: nat, n: nat)
  {
    n == 0 || (a % 2 == b % 2 && Agree(a / 2, b / 2, n - 1))
  }

  lemma {:induction false} AgreeSymmetric(a: nat, b: nat, n: nat)
    requires Agree(a, b, n)
    ensures Agree(b, a, n)
  {
    if n > 0 {
      AgreeSymmetric(a / 2, b / 2, n - 1);
    }
  }

  lemma {:induction false} AgreeTransitive(a: nat, b: nat, c: nat, n: nat)
    requires Agree(a, b, n) && Agree(b, c, n)
    ensures Agree(a, c, n)
  {
    if n > 0 {
      AgreeTransitive(a / 2, b / 2, c / 2, n - 1);
    }
  }

  lemma {:induction false} AgreeReflexive(a: nat, n: nat)
    ensures Agree(a, a, n)
  {
    if n > 0 {
      AgreeReflexive(a / 2, n - 1);
    }
  }

  lemma {:induction false} AgreeLess(a: nat, b: nat, m: nat, n: nat)
    requires m <= n && Agree(a, b, n)
    ensures Agree(a, b, m)
  {
    if m > 0 {
      AgreeLess(a / 2, b / 2, m - 1, n - 1);
    }
  }

  lemma {:induction false} AgreeMask(a: nat, n: nat, m: nat)
    requires m <= n
    ensures Agree(Mask(a, n), a, m)
  {
    if m > 0 {
      AgreeMask(a / 2, n - 1, m - 1);
    }
  }

  lemma {:induction false} AgreeEqual(a: nat, b: nat, n: nat)
    requires a < Pow2(n) && b < Pow2(n) && Agree(a, b, n)
    ensures a == b
  {
    if n > 0 {
      AgreeEqual(a / 2, b / 2, n - 1);
    }
  }

  lemma {:induction false} AgreeLsb(a: nat, b: nat, n: nat)
    requires Agree(a, b, n)
    ensures Lsb(a, n) == Lsb(b, n)
  {
    if n > 0 {
      AgreeLsb(a / 2, b / 2, n - 1);
      LsbStep(a, n);
      LsbStep(b, n);
    }
  }

  lemma {:induction false} AgreeXor(a: nat, b: nat, c: nat, d: nat, n: nat)
    requires Agree(a, b, n) && Agree(c, d, n)
    ensures Agree(Xor(a, c), Xor(b, d), n)
  {
    if n > 0 {
      XorStep(a, c);
      XorStep(b, d);
      AgreeXor(a / 2, b / 2, c / 2, d / 2, n - 1);
    }
  }

  /** Exclusive or with a common operand can be undone. */
  lemma {:induction false} AgreeXorCancel(a: nat, b: nat, c: nat, d: nat, n: nat)
    requires Agree(a, b, n) && Agree(Xor(a, c), Xor(b, d), n)
    ensures Agree(c, d, n)
  {
    if n > 0 {
      XorStep(a, c);
      XorStep(b, d);
      AgreeXorCancel(a / 2, b / 2, c / 2, d / 2, n - 1);
    }
  }

  /** Shifting left by `s` needs `s` fewer bits to agree. */
  lemma {:induction false} AgreeShift(a: nat, b: nat, s: nat, n: nat)
    requires Agree(a, b, if n < s then 0 else n - s)
    ensures Agree(Shl(a, s), Shl(b, s), n)
  {
    if n > 0 && s > 0 {
      AgreeShift(a, b, s - 1, n - 1);
    }
  }

  lemma Associate<T>(a: seq<T>, b: seq<T>, c: seq<T>)
    ensures a + b + c == a + (b + c)
  {
  }

  // ---------- Division ----------

  /** Quotient and remainder are unique. */
  lemma Quotient(v: int, d: int, q: int, r: int)
    requires 0 <= r < d && v == d * q + r
    ensures v / d == q && v % d == r
  {
    var q', r' := v / d, v % d;
    assert v == d * q' + r';
    assert d * (q - q') == r' - r;
    if q > q' {
      MulMono(d, 1, q - q');
    } else if q < q' {
      MulMono(d, q - q', -1);
    }
  }

  lemma MulMono(a: int, x: int, y: int)
    requires 0 <= a && x <= y
    ensures a * x <= a * y
  {
  }

  function Octet(b: nat): (bs: seq<bool>)
    ensures |bs| == 8
  {
    Lsb(b, 8)
  }

  /** The bits of a byte string, each byte least significant bit first. */
  function ByteBits(s: seq<byte>): (bs: seq<bool>)
    ensures |bs| == 8 * |s|
  {
    if s == [] then [] else ByteBits(s[..|s| - 1]) + Octet(s[|s| - 1])
  }

  lemma ByteBitsPush(s: seq<byte>, b: byte)
    ensures ByteBits(s + [b]) == ByteBits(s) + Octet(b)
  {
    assert (s + [b])[..|s|] == s;
  }

  lemma {:induction false} ByteBitsAppend(s: seq<byte>, t: seq<byte>)
    ensures ByteBits(s + t) == ByteBits(s) + ByteBits(t)
  {
    if t == [] {
      assert s + t == s;
    } else {
      var t', b := t[..|t| - 1], t[|t| - 1];
      ByteBitsAppend(s, t');
      assert s + t == (s + t') + [b];
      ByteBitsPush(s + t', b);
      Associate(ByteBits(s), ByteBits(t'), Octet(b));
    }
  }
}
