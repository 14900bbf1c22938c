/** The rolling hash of three bytes. */
module Hashing {
  import opened Bits

  /** Shift of the hash per byte; three of them push a byte out of 15 bits. */
  const H_SHIFT: nat := 5

  /** The supported widths of the hash. */
  predicate HashBits(bits: nat)
  {
    13 <= bits <= 15
  }

  function UpdateHash(h: nat, c: byte, bits: nat): (r: nat)
    ensures r < Pow2(bits)
  {
    Mask(Xor(Shl(h, H_SHIFT), c), bits)
  }

  function Hash2(a: byte, b: byte, bits: nat): nat
  {
    UpdateHash(UpdateHash(0, a, bits), b, bits)
  }

  /** The hash of three bytes, computed from scratch. */
  function Hash3(a: byte, b: byte, c: byte, bits: nat): (r: nat)
    ensures r < Pow2(bits)
  {
    UpdateHash(Hash2(a, b, bits), c, bits)
  }

  /** Hashes that agree in `n` bits agree in 5 more after one update. */
  lemma UpdateAgrees(h: nat, g: nat, c: byte, n: nat, bits: nat)
    requires Agree(h, g, n) && n + H_SHIFT <= bits
    ensures Agree(UpdateHash(h, c, bits), UpdateHash(g, c, bits), n + H_SHIFT)
  {
    hide Agree, Mask, Xor, Shl;
    var m := n + H_SHIFT;
    var x, y := Xor(Shl(h, H_SHIFT), c), Xor(Shl(g, H_SHIFT), c);
    AgreeShift(h, g, H_SHIFT, m);
    AgreeReflexive(c, m);
    AgreeXor(Shl(h, H_SHIFT), Shl(g, H_SHIFT), c, c, m);
    AgreeMask(x, bits, m);
    AgreeMask(y, bits, m);
    AgreeTransitive(Mask(x, bits), x, y, m);
    AgreeSymmetric(Mask(y, bits), y, m);
    AgreeTransitive(Mask(x, bits), y, Mask(y, bits), m);
  }

  /** `h` has taken in the bytes `a` and `b`; older bytes do not matter any more. */
  predicate Rolled(h: nat, a: byte, b: byte, bits: nat)
  {
    h < Pow2(bits) && Agree(h, Hash2(a, b, bits), 10)
  }

  /** The rolling hash is the hash from scratch of the last three bytes, whatever came before. */
  lemma Roll(h: nat, a: byte, b: byte, c: byte, bits: nat)
    requires Rolled(h, a, b, bits) && HashBits(bits)
    ensures UpdateHash(h, c, bits) == Hash3(a, b, c, bits)
    ensures Rolled(Hash3(a, b, c, bits), b, c, bits)
  {
    hide Agree, UpdateHash, Hash2;
    var two := Hash2(a, b, bits);
    AgreeTop(h, two, c, bits);
    AgreeNone(UpdateHash(0, a, bits), 0);
    UpdateAgrees(UpdateHash(0, a, bits), 0, b, 0, bits);
    HashOfTwo(a, b, bits);
    HashOfTwo(b, c, bits);
    UpdateAgrees(two, UpdateHash(0, b, bits), c, 5, bits);
  }

  lemma HashOfTwo(a: byte, b: byte, bits: nat)
    ensures Hash2(a, b, bits) == UpdateHash(UpdateHash(0, a, bits), b, bits)
  {
  }

  lemma AgreeNone(a: nat, b: nat)
    ensures Agree(a, b, 0)
  {
  }

  lemma AgreeTop(h: nat, g: nat, c: byte, bits: nat)
    requires Agree(h, g, 10) && HashBits(bits)
    ensures UpdateHash(h, c, bits) == UpdateHash(g, c, bits)
  {
    hide Agree, UpdateHash;
    AgreeLess(h, g, bits - 5, 10);
    UpdateAgrees(h, g, c, bits - 5, bits);
    AgreeEqual(UpdateHash(h, c, bits), UpdateHash(g, c, bits), bits);
  }

  /** Equal hashes of strings with the same first two bytes: the third bytes are equal. */
  lemma ThirdByte(a: byte, b: byte, c: byte, d: byte, bits: nat)
    requires HashBits(bits) && Hash3(a, b, c, bits) == Hash3(a, b, d, bits)
    ensures c == d
  {
    hide Agree, Mask, Xor, Shl, Hash2;
    var s := Shl(Hash2(a, b, bits), H_SHIFT);
    var x, y := Xor(s, c), Xor(s, d);
    AgreeMask(x, bits, 8);
    AgreeMask(y, bits, 8);
    AgreeSymmetric(Mask(x, bits), x, 8);
    AgreeTransitive(x, Mask(x, bits), y, 8);
    AgreeReflexive(s, 8);
    AgreeXorCancel(s, s, c, d, 8);
    assert Pow2(8) == 256;
    AgreeEqual(c, d, 8);
  }
}
