/** SHA-1 as FIPS PUB 180-1 defines it. */
module Sha1s {
  type octet = bv8
  type word = bv32

  /** The working variables, or the chaining value, of section 7. */
  datatype State = State(a: word, b: word, c: word, d: word, e: word)

  const INITIAL: State := State(0x67452301, 0xEFCDAB89, 0x98BADCFE, 0x10325476, 0xC3D2E1F0)

  /** The circular shift S^n of section 3. */
  function Rol(x: word, n: bv6): word
    requires n <= 32
  {
    (x << n) | (x >> (32 - n))
  }

  /** Section 5. */
  function F(t: nat, b: word, c: word, d: word): word
  {
    if t < 20 then (b & c) | (!b & d)
    else if t < 40 then b ^ c ^ d
    else if t < 60 then (b & c) | (b & d) | (c & d)
    else b ^ c ^ d
  }

  /** Section 6. */
  function K(t: nat): word
  {
    if t < 20 then 0x5A827999 else if t < 40 then 0x6ED9EBA1 else if t < 60 then 0x8F1BBCDC else 0xCA62C1D6
  }

  /** Four bytes, the most significant one first. */
  function Big(s: seq<octet>, i: nat): word
    requires i + 4 <= |s|
  {
    ((s[i] as word) << 24) | ((s[i + 1] as word) << 16) | ((s[i + 2] as word) << 8) | (s[i + 3] as word)
  }

  function Next(p: word, q: word, r: word, s: word): word
  {
    Rol(p ^ q ^ r ^ s, 1)
  }

  /** The word W(t) of section 7. */
  function W(block: seq<octet>, t: nat): word
    requires |block| == 64
  {
    if t < 16 then Big(block, 4 * t)
    else Next(W(block, t - 3), W(block, t - 8), W(block, t - 14), W(block, t - 16))
  }

  function Sum(p: word, q: word, r: word, s: word, t: word): word
  {
    p + q + r + s + t
  }

  function Temp(t: nat, a: word, b: word, c: word, d: word, e: word, w: word): word
  {
    Sum(Rol(a, 5), F(t, b, c, d), e, w, K(t))
  }

  /** Step d of section 7. */
  function Round(s: State, t: nat, w: word): State
  {
    State(Temp(t, s.a, s.b, s.c, s.d, s.e, w), s.a, Rol(s.b, 30), s.c, s.d)
  }

  function Rounds(s: State, block: seq<octet>, n: nat): State
    requires |block| == 64
  {
    if n == 0 then s else Round(Rounds(s, block, n - 1), n - 1, W(block, n - 1))
  }

  function Add(x: word, y: word): word { x + y }

  function Plus(h: State, s: State): State
  {
    State(Add(h.a, s.a), Add(h.b, s.b), Add(h.c, s.c), Add(h.d, s.d), Add(h.e, s.e))
  }

  function Compress(h: State, block: seq<octet>): State
    requires |block| == 64
  {
    Plus(h, Rounds(h, block, 80))
  }

  /** The chaining value after the blocks of `s`. */
  function Chain(s: seq<octet>): State
    requires |s| % 64 == 0
  {
    if s == [] then INITIAL else Compress(Chain(s[..|s| - 64]), s[|s| - 64..])
  }

  /** Byte `k` of a number, 0 being the least significant one. */
  function Octet(v: nat, k: nat): octet
  {
    if k == 0 then (v % 256) as octet else Octet(v / 256, k - 1)
  }

  /** `n` bytes of a number, the most significant one first. */
  function Octets(v: nat, n: nat): (s: seq<octet>)
    ensures |s| == n
  {
    if n == 0 then [] else Octets(v / 256, n - 1) + [Octet(v, 0)]
  }

  function ZeroOctets(n: nat): (s: seq<octet>)
    ensures |s| == n
  {
    seq(n, _ => 0)
  }

  /** How many zero bytes the padding has. */
  function Gap(n: nat): nat
  {
    (119 - n % 64) % 64
  }

  lemma PaddedBlocks(n: nat)
    ensures (n + 1 + Gap(n) + 8) % 64 == 0
  {
    var q, r := n / 64, n % 64;
    assert n == 64 * q + r;
    assert n + 1 + Gap(n) + 8 == 64 * (q + if r <= 55 then 1 else 2);
  }

  const MARK: octet := 0x80

  /** Section 4: a one, zeros, and the length in bits. */
  function Padded(m: seq<octet>): (s: seq<octet>)
    ensures |s| % 64 == 0
  {
    PaddedBlocks(|m|);
    m + [MARK] + ZeroOctets(Gap(|m|)) + Octets(8 * |m|, 8)
  }

  /** Byte `k` of a word, 0 being the most significant one. */
  function Part(w: word, k: nat): octet
    requires k < 4
  {
    ((w >> (match k case 0 => 24 case 1 => 16 case 2 => 8 case 3 => 0)) & 255) as octet
  }

  function Component(s: State, i: nat): word
    requires i < 5
  {
    match i case 0 => s.a case 1 => s.b case 2 => s.c case 3 => s.d case 4 => s.e
  }

  function DigestOf(s: State): (d: seq<octet>)
    ensures |d| == 20
  {
    seq(20, i requires 0 <= i < 20 => Part(Component(s, i / 4), i % 4))
  }

  /** The message digest. */
  function Sha1(m: seq<octet>): (d: seq<octet>)
    ensures |d| == 20
  {
    DigestOf(Chain(Padded(m)))
  }
}
