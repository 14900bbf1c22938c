/** CRC-32: bit by bit, and with a table of 256 words. */
module Crc32s {
  import opened Bits

  const ONES: nat := 0xffff_ffff
  const WORDS: nat := 0x1_0000_0000
  const POLYNOMIAL: nat := 0xedb8_8320

  // ---------- Exclusive or ----------

  lemma {:induction false} XorTwice(a: nat, b: nat)
    ensures Xor(Xor(a, b), b) == a
    decreases a + b
  {
    if a > 0 || b > 0 {
      XorStep(a, b);
      XorStep(Xor(a, b), b);
      XorTwice(a / 2, b / 2);
    }
  }

  lemma {:induction false} XorCommutes(a: nat, b: nat)
    ensures Xor(a, b) == Xor(b, a)
    decreases a + b
  {
    if a > 0 || b > 0 {
      XorStep(a, b);
      XorStep(b, a);
      XorCommutes(a / 2, b / 2);
    }
  }

  lemma {:induction false} XorAssociates(a: nat, b: nat, c: nat)
    ensures Xor(Xor(a, b), c) == Xor(a, Xor(b, c))
    decreases a + b + c
  {
    if a > 0 || b > 0 || c > 0 {
      XorStep(a, b);
      XorStep(b, c);
      XorStep(Xor(a, b), c);
      XorStep(a, Xor(b, c));
      XorAssociates(a / 2, b / 2, c / 2);
      hide Xor;
    }
  }

  lemma {:induction false} XorBound(a: nat, b: nat, n: nat)
    requires a < Pow2(n) && b < Pow2(n)
    ensures Xor(a, b) < Pow2(n)
  {
    if n > 0 {
      XorStep(a, b);
      XorBound(a / 2, b / 2, n - 1);
    }
  }

  lemma {:induction false} ShrLess(v: nat, n: nat)
    ensures Shr(v, n) <= v
  {
    if n > 0 {
      ShrLess(v / 2, n - 1);
    }
  }

  lemma WordBound(a: nat, b: nat)
    requires a < WORDS && b < WORDS
    ensures Xor(a, b) < WORDS
  {
    assert Pow2(32) == WORDS by {
      Pow2Values();
      assert Pow2(20) == 16 * Pow2(16);
      assert Pow2(24) == 16 * Pow2(20);
      assert Pow2(28) == 16 * Pow2(24);
      assert Pow2(32) == 16 * Pow2(28);
    }
    XorBound(a, b, 32);
  }

  // ---------- Bit by bit ----------

  /** The register moves by one bit. */
  function Shift(c: nat): (r: nat)
    requires c < WORDS
    ensures r < WORDS
  {
    WordBound(c / 2, POLYNOMIAL);
    if c % 2 == 1 then Xor(c / 2, POLYNOMIAL) else c / 2
  }

  function Shifts(c: nat, n: nat): (r: nat)
    requires c < WORDS
    ensures r < WORDS
    decreases n
  {
    if n == 0 then c else Shifts(Shift(c), n - 1)
  }

  /** The register after a message: every byte enters at the low end and is shifted out. */
  function Register(c: nat, s: seq<byte>): (r: nat)
    requires c < WORDS
    ensures r < WORDS
  {
    if s == [] then c
    else
      WordBound(Register(c, s[..|s| - 1]), s[|s| - 1]);
      Shifts(Xor(Register(c, s[..|s| - 1]), s[|s| - 1]), 8)
  }

  /** The checksum of a message, as section 8 of RFC 1952 has it. */
  function Crc(s: seq<byte>): (r: nat)
    ensures r < WORDS
  {
    WordBound(Register(ONES, s), ONES);
    Xor(Register(ONES, s), ONES)
  }

  // ---------- With a table ----------

  /** A table of 256 words. */
  predicate IsTable(tab: seq<nat>)
  {
    |tab| == 256 && forall i :: 0 <= i < 256 ==> tab[i] < WORDS
  }

  /** One byte: `tab[(crc ^ b) & 0xFF] ^ (crc >> 8)`. */
  function Step(tab: seq<nat>, crc: nat, b: byte): (r: nat)
    requires IsTable(tab) && crc < WORDS
    ensures r < WORDS
  {
    assert Pow2(8) == 256;
    ShrLess(crc, 8);
    WordBound(tab[Mask(Xor(crc, b), 8)], Shr(crc, 8));
    Xor(tab[Mask(Xor(crc, b), 8)], Shr(crc, 8))
  }

  function Feed(tab: seq<nat>, crc: nat, s: seq<byte>): (r: nat)
    requires IsTable(tab) && crc < WORDS
    ensures r < WORDS
  {
    if s == [] then crc else Step(tab, Feed(tab, crc, s[..|s| - 1]), s[|s| - 1])
  }

  lemma {:induction false} FeedConcat(tab: seq<nat>, crc: nat, s: seq<byte>, t: seq<byte>)
    requires IsTable(tab) && crc < WORDS
    ensures Feed(tab, crc, s + t) == Feed(tab, Feed(tab, crc, s), t)
  {
    hide Step;
    if t == [] {
      assert s + t == s;
    } else {
      FeedConcat(tab, crc, s, t[..|t| - 1]);
      assert (s + t)[..|s + t| - 1] == s + t[..|t| - 1];
    }
  }

  /** What eight shifts do to each byte. */
  function Table(): (tab: seq<nat>)
    ensures IsTable(tab)
  {
    seq(256, i requires 0 <= i < 256 => Shifts(i, 8))
  }

  lemma XorSwap(p: nat, q: nat, r: nat)
    ensures Xor(Xor(p, r), Xor(q, r)) == Xor(p, q)
  {
    hide Xor;
    XorCommutes(q, r);
    XorAssociates(Xor(p, r), r, q);
    XorTwice(p, r);
  }

  lemma XorSide(p: nat, q: nat, r: nat)
    ensures Xor(Xor(p, r), q) == Xor(Xor(p, q), r)
  {
    hide Xor;
    XorAssociates(p, r, q);
    XorCommutes(r, q);
    XorAssociates(p, q, r);
  }

  /** Shifting is linear. */
  lemma ShiftXor(a: nat, b: nat)
    requires a < WORDS && b < WORDS
    ensures Xor(a, b) < WORDS && Shift(Xor(a, b)) == Xor(Shift(a), Shift(b))
  {
    hide Xor;
    WordBound(a, b);
    XorStep(a, b);
    var p, q := a / 2, b / 2;
    if a % 2 == 1 && b % 2 == 1 {
      XorSwap(p, q, POLYNOMIAL);
    } else if a % 2 == 1 {
      XorSide(p, q, POLYNOMIAL);
    } else if b % 2 == 1 {
      XorAssociates(p, q, POLYNOMIAL);
    }
  }

  lemma {:induction false} ShiftsXor(a: nat, b: nat, n: nat)
    requires a < WORDS && b < WORDS
    ensures Xor(a, b) < WORDS && Shifts(Xor(a, b), n) == Xor(Shifts(a, n), Shifts(b, n))
    decreases n
  {
    hide Xor, Shift;
    ShiftXor(a, b);
    if n > 0 {
      ShiftsXor(Shift(a), Shift(b), n - 1);
    }
  }

  /** Zeros at the low end are just shifted out. */
  lemma {:induction false} ShiftsZeros(y: nat, n: nat)
    requires Shl(y, n) < WORDS
    ensures y < WORDS && Shifts(Shl(y, n), n) == y
    decreases n
  {
    hide Xor;
    if n > 0 {
      ShiftsZeros(y, n - 1);
    }
  }

  lemma {:induction false} SplitXor(x: nat, n: nat)
    ensures Xor(Mask(x, n), Shl(Shr(x, n), n)) == x
  {
    if n > 0 {
      var low, high := Mask(x, n), Shl(Shr(x, n), n);
      XorStep(low, high);
      assert low % 2 == x % 2 && low / 2 == Mask(x / 2, n - 1) && high / 2 == Shl(Shr(x / 2, n - 1), n - 1) && high % 2 == 0;
      SplitXor(x / 2, n - 1);
      hide Xor;
    } else {
      assert Xor(0, x) == x;
    }
  }

  lemma {:induction false} ShrXor(a: nat, b: nat, n: nat)
    ensures Shr(Xor(a, b), n) == Xor(Shr(a, n), Shr(b, n))
    decreases n
  {
    hide Xor;
    if n > 0 {
      XorStep(a, b);
      ShrXor(a / 2, b / 2, n - 1);
    }
  }

  lemma MaskHalf(a: nat, n: nat)
    requires n > 0
    ensures Mask(a, n) % 2 == a % 2 && Mask(a, n) / 2 == Mask(a / 2, n - 1)
  {
  }

  lemma SameHalves(a: nat, b: nat)
    requires a % 2 == b % 2 && a / 2 == b / 2
    ensures a == b
  {
  }

  lemma {:induction false} MaskXor(a: nat, b: nat, n: nat)
    ensures Mask(Xor(a, b), n) == Xor(Mask(a, n), Mask(b, n))
    decreases n
  {
    hide Xor;
    if n > 0 {
      XorStep(a, b);
      MaskXor(a / 2, b / 2, n - 1);
      MaskHalf(a, n);
      MaskHalf(b, n);
      MaskHalf(Xor(a, b), n);
      hide Mask;
      XorStep(Mask(a, n), Mask(b, n));
      SameHalves(Mask(Xor(a, b), n), Xor(Mask(a, n), Mask(b, n)));
    } else {
      XorZero(0);
    }
  }

  lemma {:induction false} ShrSmall(b: nat, n: nat)
    requires b < Pow2(n)
    ensures Shr(b, n) == 0
  {
    if n > 0 {
      ShrSmall(b / 2, n - 1);
    }
  }

  lemma {:induction false} PartsBelow(x: nat, n: nat)
    ensures Mask(x, n) <= x && Shl(Shr(x, n), n) <= x
  {
    if n > 0 {
      PartsBelow(x / 2, n - 1);
    }
  }

  /** One byte through the table is eight shifts. */
  lemma StepIsShifts(crc: nat, b: byte)
    requires crc < WORDS
    ensures Xor(crc, b) < WORDS && Step(Table(), crc, b) == Shifts(Xor(crc, b), 8)
  {
    hide Xor, Shifts, Shl, Shr, Mask;
    WordBound(crc, b);
    assert Pow2(8) == 256;
    var x := Xor(crc, b);
    PartsBelow(x, 8);
    SplitXor(x, 8);
    ShiftsXor(Mask(x, 8), Shl(Shr(x, 8), 8), 8);
    ShiftsZeros(Shr(x, 8), 8);
    ShrXor(crc, b, 8);
    ShrSmall(b, 8);
    XorZero(Shr(crc, 8));
  }

  lemma XorZero(a: nat)
    ensures Xor(a, 0) == a
  {
  }

  /** The table gives the register bit by bit. */
  lemma {:induction false} FeedIsRegister(crc: nat, s: seq<byte>)
    requires crc < WORDS
    ensures Feed(Table(), crc, s) == Register(crc, s)
  {
    hide Step, Shifts, Xor, Table;
    if s != [] {
      FeedIsRegister(crc, s[..|s| - 1]);
      StepIsShifts(Register(crc, s[..|s| - 1]), s[|s| - 1]);
    }
  }

  /** Fills the table. */
  method FillTable() returns (tab: seq<nat>)
    ensures tab == Table()
  {
    hide Xor, Shift;
    tab := [];
    for i := 0 to 256
      invariant tab == Table()[..i]
    {
      var c: nat := i;
      var j := 8;
      while j > 0
        invariant 0 <= j <= 8 && c < WORDS && Shifts(c, j) == Shifts(i, 8)
      {
        ShiftIs(c);
        c := if c % 2 == 1 then Xor(c / 2, POLYNOMIAL) else c / 2;
        j := j - 1;
      }
      tab := tab + [c];
    }
  }

  lemma ShiftIs(c: nat)
    requires c < WORDS
    ensures Shift(c) == if c % 2 == 1 then Xor(c / 2, POLYNOMIAL) else c / 2
  {
  }

  lemma ByteIndex(val: nat, b: byte)
    ensures Xor(Mask(val, 8), b) == Mask(Xor(val, b), 8) < 256
  {
    assert Pow2(8) == 256;
    MaskXor(val, b, 8);
    MaskSmall(b, 8);
  }

  /** The loop over a buffer. */
  method BlockEndian0(val: nat, buf: seq<byte>, tab: seq<nat>) returns (r: nat)
    requires val < WORDS && IsTable(tab)
    ensures r == Feed(tab, val, buf)
  {
    hide Xor, Shr, Mask;
    r := val;
    assert buf[..0] == [];
    for i := 0 to |buf|
      invariant r == Feed(tab, val, buf[..i])
    {
      assert buf[..i + 1][..i] == buf[..i];
      ByteIndex(r, buf[i]);
      r := Xor(tab[Xor(Mask(r, 8), buf[i])], Shr(r, 8));
    }
    assert buf[..|buf|] == buf;
  }
}
