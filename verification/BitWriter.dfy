/** The output side of the compressor: the byte buffer and the 16-bit bit buffer. */
module BitWriters {
  import opened Bits
  import opened LittleEndian

  function Word(w: nat): (bs: seq<bool>)
    ensures |bs| == 16
  {
    Lsb(w, 16)
  }

  /** The number of zero bits that complete a byte after `n` bits. */
  function Padding(n: nat): (k: nat)
    ensures k < 8 && (n + k) % 8 == 0
  {
    (8 - n % 8) % 8
  }

  lemma PaddingAfter(bytes: nat, extra: nat)
    requires extra <= 16
    ensures Padding(8 * bytes + extra) == (if extra == 0 then 0 else if extra <= 8 then 8 - extra else 16 - extra)
  {
    assert (8 * bytes + extra) % 8 == extra % 8;
  }

  function Zeros(n: nat): seq<bool> { seq(n, _ => false) }

  class BitWriter {
    const outbuf: array<byte>
    /** What has been written before the first bits. */
    const head: seq<byte>
    var written: seq<byte>
    var outcnt: nat
    var biBuf: nat
    var biValid: nat

    ghost function Own(): set<object> { {this, outbuf} }

    ghost predicate Room()
      reads this
    {
      outbuf.Length >= 3 && outcnt < outbuf.Length
    }

    /** All bytes output so far, flushed or not. */
    ghost function All(): seq<byte>
      requires outcnt <= outbuf.Length
      reads `written, `outcnt, outbuf
    {
      written + outbuf[..outcnt]
    }

    ghost predicate HasRoom()
      reads this, outbuf
    {
      Room() && head <= All()
    }

    ghost predicate Valid()
      reads this, outbuf
    {
      HasRoom() && biValid <= 16 && biBuf < Pow2(biValid)
    }

    /** All bytes output after the head. */
    ghost function Out(): seq<byte>
      requires HasRoom()
      reads this, outbuf
    {
      All()[|head|..]
    }

    /** All bits output so far, including those still in the bit buffer. */
    ghost function Bits(): seq<bool>
      requires Valid()
      reads this, outbuf
    {
      ByteBits(Out()) + Lsb(biBuf, biValid)
    }

    /** A writer that begins with `head`. */
    constructor (outbufSize: nat, head: seq<byte>)
      requires outbufSize >= 3
      ensures Valid() && Bits() == [] && fresh(Own()) && this.head == head
    {
      outbuf, this.head := new byte[outbufSize], head;
      written, outcnt, biBuf, biValid := [], 0, 0, 0;
      new;
      for i := 0 to |head|
        invariant Room() && All() == head[..i] && biBuf == biValid == 0 && fresh(outbuf)
      {
        Put8bit(head[i]);
      }
      assert head[..|head|] == head && All()[|head|..] == [];
    }

    method FlushOutbuf()
      requires outcnt <= outbuf.Length
      modifies `written, `outcnt
      ensures outcnt == 0
      ensures written == old(written + outbuf[..outcnt])
    {
      if outcnt == 0 {
        return;
      }
      written := written + outbuf[..outcnt];
      outcnt := 0;
    }

    lemma Longer(before: seq<byte>, x: seq<byte>)
      requires Room() && head <= before && All() == before + x
      ensures HasRoom() && Out() == before[|head|..] + x
    {
      assert All()[..|head|] == before[..|head|];
    }

    method Put8bit(c: nat)
      requires Room()
      modifies `written, `outcnt, outbuf
      ensures Room() && All() == old(All()) + [c % 256]
      ensures old(HasRoom()) ==> HasRoom() && Out() == old(Out()) + [c % 256]
    {
      outbuf[outcnt] := c % 256;
      outcnt := outcnt + 1;
      assert written + outbuf[..outcnt] == old(All()) + [c % 256];
      if outcnt == outbuf.Length {
        FlushOutbuf();
      }
      assert All() == old(All()) + [c % 256];
      if old(HasRoom()) {
        Longer(old(All()), [c % 256]);
      }
    }

    method PutPair(lo: byte, hi: byte)
      requires HasRoom()
      modifies `written, `outcnt, outbuf
      ensures HasRoom() && Out() == old(Out()) + [lo, hi]
    {
      if outcnt < outbuf.Length - 2 {
        outbuf[outcnt] := lo;
        outcnt := outcnt + 1;
        outbuf[outcnt] := hi;
        outcnt := outcnt + 1;
        assert All() == old(All()) + [lo, hi];
        Longer(old(All()), [lo, hi]);
      } else {
        Put8bit(lo);
        Put8bit(hi);
      }
    }

    method Put16bit(w: nat)
      requires HasRoom()
      modifies `written, `outcnt, outbuf
      ensures HasRoom() && Out() == old(Out()) + Le16(w % U16)
      ensures ByteBits(Out()) == ByteBits(old(Out())) + Word(w)
    {
      hide ByteBits, Word, Octet, HasRoom, Le16;
      ghost var out := Out();
      var lo: byte, hi: byte := w % 256, w / 256 % 256;
      PutPair(lo, hi);
      LowWord(w);
      PairBits(out, w);
    }

    method Put32bit(n: nat)
      requires HasRoom()
      modifies `written, `outcnt, outbuf
      ensures HasRoom() && Out() == old(Out()) + Le32(n % U32)
    {
      hide Le16, ByteBits;
      HighWord(n);
      Put16bit(n);
      Put16bit(n / U16);
    }

    /** Appends the `length` low bits of `value`, least significant first. */
    method SendBits(value: nat, length: nat)
      requires Valid() && length <= 16 && value < Pow2(length)
      modifies this, outbuf
      ensures Valid()
      ensures Bits() == old(Bits()) + Lsb(value, length)
    {
      hide Shl, Shr, Or, Lsb, ByteBits, Word;
      ghost var before, low, added := ByteBits(Out()), Lsb(biBuf, biValid), Lsb(value, length);
      Associate(before, low, added);
      var word := Or(biBuf, Shl(value, biValid)) % 0x1_0000;
      if biValid > 16 - length {
        var carry, left := Shr(value, 16 - biValid), biValid + length - 16;
        assert carry < Pow2(left) && Word(word) + Lsb(carry, left) == low + added by {
          Spill(biBuf, biValid, value, length);
        }
        Put16bit(word);
        Associate(before, Word(word), Lsb(carry, left));
        biBuf, biValid := carry, left;
      } else {
        assert word < Pow2(biValid + length) && Lsb(word, biValid + length) == low + added by {
          Fit(biBuf, biValid, value, length);
        }
        biBuf, biValid := word, biValid + length;
      }
      assert Bits() == before + (low + added);
    }

    /** Completes the current byte with zero bits. */
    method Windup()
      requires Valid()
      modifies this, outbuf
      ensures Valid() && biValid == 0 && biBuf == 0
      ensures Bits() == old(Bits()) + Zeros(Padding(|old(Bits())|))
      ensures Bits() == ByteBits(Out())
    {
      hide ByteBits, All, Lsb, Le16, Padding;
      NoBits();
      ghost var before, low, valid := ByteBits(Out()), Lsb(biBuf, biValid), biValid;
      ghost var pad := Zeros(Padding(|Bits()|));
      PaddingAfter(|Out()|, valid);
      Associate(before, low, pad);
      if biValid > 8 {
        assert Word(biBuf) == low + pad by { ZeroTail(biBuf, valid, 16 - valid); }
        Put16bit(biBuf);
      } else if biValid > 0 {
        assert Octet(biBuf) == low + pad by { ZeroTail(biBuf, valid, 8 - valid); }
        OctetMod(biBuf);
        ByteBitsPush(Out(), biBuf % 256);
        Put8bit(biBuf);
      } else {
        assert low + pad == [];
      }
      assert ByteBits(Out()) == before + (low + pad);
      biBuf, biValid := 0, 0;
    }

    /** Sends a stored block: alignment, optional length words, then the raw bytes. */
    method CopyBlock(buf: array<byte>, start: nat, len: nat, header: bool)
      requires Valid() && buf != outbuf && start + len <= buf.Length
      modifies this, outbuf
      ensures Valid()
      ensures Bits() == old(Bits()) + Zeros(Padding(|old(Bits())|))
              + (if header then Word(len % 0x1_0000) + Word(0xffff - len % 0x1_0000) else [])
              + ByteBits(buf[start..start + len])
    {
      hide Lsb, ByteBits, Word, Padding, Zeros;
      Windup();
      ghost var aligned := Bits();
      if header {
        Put16bit(len % 0x1_0000);
        Put16bit(0xffff - len % 0x1_0000);
      }
      assert ByteBits(Out()) == aligned + (if header then Word(len % 0x1_0000) + Word(0xffff - len % 0x1_0000) else []);
      ByteBitsAppend(Out(), buf[start..start + len]);
      PutBytes(buf, start, len);
    }

    method PutBytes(buf: array<byte>, start: nat, len: nat)
      requires HasRoom() && buf != outbuf && start + len <= buf.Length
      modifies `written, `outcnt, outbuf
      ensures HasRoom()
      ensures Out() == old(Out()) + buf[start..start + len]
    {
      var i := 0;
      while i < len
        invariant i <= len
        invariant HasRoom()
        invariant Out() == old(Out()) + buf[start..start + i]
      {
        Put8bit(buf[start + i]);
        i := i + 1;
      }
    }
  }

  lemma NoBits()
    ensures Lsb(0, 0) == [] && Pow2(0) == 1 && forall v :: Lsb(v, 0) == []
  {
  }

  lemma PairBits(out: seq<byte>, w: nat)
    ensures ByteBits(out + [w % 256, w / 256 % 256]) == ByteBits(out) + Word(w)
  {
    hide ByteBits, Octet, Word;
    var lo: byte, hi: byte := w % 256, w / 256 % 256;
    TwoBytes(w);
    ByteBitsPush(out, lo);
    ByteBitsPush(out + [lo], hi);
    Associate(ByteBits(out), Octet(lo), Octet(hi));
    assert out + [lo] + [hi] == out + [lo, hi];
  }

  lemma LowWord(w: nat)
    ensures Le16(w % U16) == [w % 256, w / 256 % 256]
  {
    var q := w / U16;
    assert w == 256 * (256 * q + w % U16 / 256) + w % 256;
    Quotient(w, 256, 256 * q + w % U16 / 256, w % 256);
    Quotient(w / 256, 256, q, w % U16 / 256);
  }

  lemma HighWord(n: nat)
    ensures n % U32 % U16 == n % U16 && n % U32 / U16 == n / U16 % U16
  {
    var q, r := n / U32, n % U32;
    assert n == U16 * (U16 * q + r / U16) + r % U16;
    Quotient(n, U16, U16 * q + r / U16, r % U16);
    Quotient(n / U16, U16, q, r / U16);
  }

  /** The overflowing case of sending bits: one full word leaves, the rest stays. */
  lemma Spill(buf: nat, valid: nat, value: nat, length: nat)
    requires buf < Pow2(valid) && value < Pow2(length)
    requires 16 - length < valid <= 16 && length <= 16
    ensures var word := Or(buf, Shl(value, valid)) % 0x1_0000;
      Word(word) + Lsb(Shr(value, 16 - valid), valid + length - 16) == Lsb(buf, valid) + Lsb(value, length)
    ensures Shr(value, 16 - valid) < Pow2(valid + length - 16)
  {
    var all, more := buf + Shl(value, valid), valid + length - 16;
    OrDisjoint(buf, value, valid);
    LsbConcat(buf, value, valid, length);
    WordMod(all);
    assert Lsb(all, 16 + more) == Word(all) + Lsb(Shr(all, 16), more) by { LsbSplit(all, 16, more); }
    ShrConcat(buf, value, valid, 16 - valid);
    ShrBound(value, 16 - valid, more);
  }

  /** The case in which the bit buffer has room. */
  lemma Fit(buf: nat, valid: nat, value: nat, length: nat)
    requires buf < Pow2(valid) && value < Pow2(length) && valid + length <= 16
    ensures var word := Or(buf, Shl(value, valid)) % 0x1_0000;
      word < Pow2(valid + length) && Lsb(word, valid + length) == Lsb(buf, valid) + Lsb(value, length)
  {
    var sum := buf + Shl(value, valid);
    assert Or(buf, Shl(value, valid)) == sum by { OrDisjoint(buf, value, valid); }
    assert sum < Pow2(valid + length) by { ShlBound(buf, value, valid, length); }
    SmallWord(sum, valid + length);
    LsbConcat(buf, value, valid, length);
  }

  lemma SmallWord(v: nat, n: nat)
    requires v < Pow2(n) && n <= 16
    ensures v % 0x1_0000 == v
  {
    Pow2Mono(n, 16);
    Pow2Values();
  }

  lemma WordMod(v: nat)
    ensures Word(v % 0x1_0000) == Word(v)
  {
    Pow2Values();
    AgreeWord(v % 0x1_0000, v, 0x1_0000, 16);
    AgreeLsb(v % 0x1_0000, v, 16);
  }

  lemma {:induction false} AgreeWord(a: nat, b: nat, p: nat, n: nat)
    requires Pow2(n) == p && a == b % p
    ensures Agree(a, b, n)
  {
    if n > 0 {
      var half := Pow2(n - 1);
      assert p == 2 * half;
      ModHalf(b, half);
      AgreeWord(a / 2, b / 2, half, n - 1);
    }
  }

  lemma ModHalf(v: nat, p: nat)
    requires p > 0
    ensures v % (2 * p) % 2 == v % 2
    ensures v % (2 * p) / 2 == v / 2 % p
  {
    var q, r := v / 2 / p, v / 2 % p;
    assert v / 2 == p * q + r;
    assert v == 2 * p * q + (2 * r + v % 2);
    Quotient(v, 2 * p, q, 2 * r + v % 2);
  }

  lemma TwoBytes(w: nat)
    ensures Word(w) == Octet(w % 256) + Octet(w / 256 % 256)
  {
    assert Shr(w, 8) == w / 256 by {
      ShrShr(w, 4, 4);
      ShrFour(w);
      ShrFour(w / 16);
    }
    assert Word(w) == Octet(w) + Octet(w / 256) by { LsbSplit(w, 8, 8); }
    OctetMod(w);
    OctetMod(w / 256);
  }

  lemma ShrFour(v: nat)
    ensures Shr(v, 4) == v / 16
  {
    assert Shr(v, 4) == Shr(v / 2, 3) == Shr(v / 4, 2) == Shr(v / 8, 1) == Shr(v / 16, 0);
  }

  lemma {:induction false} ShrShr(v: nat, m: nat, n: nat)
    ensures Shr(v, m + n) == Shr(Shr(v, m), n)
  {
    if m > 0 {
      ShrShr(v / 2, m - 1, n);
      assert m + n - 1 == m - 1 + n;
    }
  }

  lemma OctetMod(v: nat)
    ensures Octet(v % 256) == Octet(v)
  {
    Pow2Values();
    AgreeWord(v % 256, v, 256, 8);
    AgreeLsb(v % 256, v, 8);
  }

  lemma {:induction false} ZeroTail(v: nat, m: nat, n: nat)
    requires v < Pow2(m)
    ensures Lsb(v, m + n) == Lsb(v, m) + Zeros(n)
  {
    if m == 0 {
      LsbZero(n);
    } else {
      ZeroTail(v / 2, m - 1, n);
      LsbStep(v, m);
      LsbStep(v, m + n);
      assert m + n - 1 == m - 1 + n;
    }
  }
}
