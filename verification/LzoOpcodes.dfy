/** What the instructions of an LZO1X block mean, in numbers. */
module LzoOpcodes {
  import opened Bits
  import opened Options
  import opened Rfc1951
  import opened Lzo1x

  // ---------- Instructions in general ----------

  lemma Parts(h: seq<byte>, lits: seq<byte>, rest: seq<byte>)
    ensures var s := h + lits + rest;
      s[..|h|] == h && s[|h|..|h| + |lits|] == lits && s[|h| + |lits|..] == rest && |s| == |h| + |lits| + |rest|
  {
  }

  /** A match with its literals, and what follows. */
  lemma AMatch(h: seq<byte>, lits: seq<byte>, rest: seq<byte>, mode: Mode, out: seq<byte>, length: nat, distance: nat)
    requires |h| >= 2 && h[|h| - 2] % 4 == |lits| && 1 <= distance <= |out|
    requires ReadHead(h + lits + rest, mode) == Some(MatchHead(length, distance, |h|))
    ensures Decode(h + lits + rest, mode, out)
         == Decode(rest, if lits == [] then Top else AfterShort, CopyBack(out, length, distance) + lits)
  {
    hide ReadHead, CopyBack;
    Parts(h, lits, rest);
    var s := h + lits + rest;
    assert s[|h| - 2] == s[..|h|][|h| - 2];
  }

  /** A run of literals, and what follows. */
  lemma ARun(h: seq<byte>, lits: seq<byte>, rest: seq<byte>, out: seq<byte>)
    requires ReadHead(h + lits + rest, Top) == Some(RunHead(|lits|, |h|))
    ensures Decode(h + lits + rest, Top, out) == Decode(rest, AfterRun, out + lits)
  {
    hide ReadHead;
    Parts(h, lits, rest);
  }

  /** Zeros that continue a length. */
  function Zeroes(z: nat): (s: seq<byte>)
    ensures |s| == z
  {
    seq(z, _ => 0)
  }

  lemma {:induction false} Continued(s: seq<byte>, i: nat, z: nat, base: nat)
    requires i + z < |s| && s[i + z] != 0 && forall k :: i <= k < i + z ==> s[k] == 0
    ensures Extension(s, i, base) == Some((base + 255 * z + s[i + z], i + z + 1))
    decreases z
  {
    if z > 0 {
      Continued(s, i + 1, z - 1, base + 255);
    }
  }

  // ---------- The forms of matches ----------

  /** Below 16 after a match with literals: two bytes, up to 1024 back. */
  lemma TwoBytes(t: nat, b: byte, lits: seq<byte>, rest: seq<byte>, out: seq<byte>)
    requires t < 16 && |lits| == t % 4 && 1 + t / 4 + 4 * b as nat <= |out|
    ensures Decode([t, b] + lits + rest, AfterShort, out)
         == Decode(rest, if lits == [] then Top else AfterShort, CopyBack(out, 2, 1 + t / 4 + 4 * b as nat) + lits)
  {
    hide CopyBack, Decode;
    var s := [t, b] + lits + rest;
    assert s[0] == t && s[1] == b;
    AMatch([t, b], lits, rest, AfterShort, out, 2, 1 + t / 4 + 4 * b as nat);
  }

  /** Below 16 after a run of literals: three bytes, from 2049 to 3072 back. */
  lemma ThreeBytes(t: nat, b: byte, lits: seq<byte>, rest: seq<byte>, out: seq<byte>)
    requires t < 16 && |lits| == t % 4 && 2049 + t / 4 + 4 * b as nat <= |out|
    ensures Decode([t, b] + lits + rest, AfterRun, out)
         == Decode(rest, if lits == [] then Top else AfterShort, CopyBack(out, 3, 2049 + t / 4 + 4 * b as nat) + lits)
  {
    hide CopyBack, Decode;
    var s := [t, b] + lits + rest;
    assert s[0] == t && s[1] == b;
    AMatch([t, b], lits, rest, AfterRun, out, 3, 2049 + t / 4 + 4 * b as nat);
  }

  /** From 64 on: three to eight bytes, up to 2048 back. */
  lemma ThreeToEight(t: nat, b: byte, lits: seq<byte>, rest: seq<byte>, mode: Mode, out: seq<byte>)
    requires 64 <= t < 256 && |lits| == t % 4 && 1 + t / 4 % 8 + 8 * b as nat <= |out|
    ensures Decode([t, b] + lits + rest, mode, out)
         == Decode(rest, if lits == [] then Top else AfterShort, CopyBack(out, t / 32 + 1, 1 + t / 4 % 8 + 8 * b as nat) + lits)
  {
    hide CopyBack, Decode;
    var s := [t, b] + lits + rest;
    assert s[0] == t && s[1] == b;
    AMatch([t, b], lits, rest, mode, out, t / 32 + 1, 1 + t / 4 % 8 + 8 * b as nat);
  }

  /** From 33 to 63: 3 to 33 bytes, up to 16384 back. */
  lemma UpTo33(t: nat, a: byte, b: byte, lits: seq<byte>, rest: seq<byte>, mode: Mode, out: seq<byte>)
    requires 32 < t < 64 && |lits| == a % 4 && 1 + a as nat / 4 + 64 * b as nat <= |out|
    ensures Decode([t, a, b] + lits + rest, mode, out)
         == Decode(rest, if lits == [] then Top else AfterShort, CopyBack(out, t - 30, 1 + a as nat / 4 + 64 * b as nat) + lits)
  {
    hide CopyBack, Decode;
    var s := [t, a, b] + lits + rest;
    assert s[0] == t && s[1] == a && s[2] == b;
    assert Offset(s, 1) == a as nat / 4 + 64 * b as nat && Length(s, t - 32, 31) == Some((t - 32, 1));
    AMatch([t, a, b], lits, rest, mode, out, t - 30, 1 + a as nat / 4 + 64 * b as nat);
  }

  /** 32: longer ones, with the length in further bytes. */
  lemma From34(z: nat, c: byte, a: byte, b: byte, lits: seq<byte>, rest: seq<byte>, mode: Mode, out: seq<byte>)
    requires c != 0 && |lits| == a % 4 && 1 + a as nat / 4 + 64 * b as nat <= |out|
    ensures Decode([32] + Zeroes(z) + [c, a, b] + lits + rest, mode, out)
         == Decode(rest, if lits == [] then Top else AfterShort,
                   CopyBack(out, 33 + 255 * z + c as nat, 1 + a as nat / 4 + 64 * b as nat) + lits)
  {
    hide CopyBack, Decode, Extension;
    var h := [32] + Zeroes(z) + [c, a, b];
    var s := h + lits + rest;
    LongBytes(32, z, c, a, b, lits, rest);
    Continued(s, 1, z, 31);
    assert Length(s, 0, 31) == Some((31 + 255 * z + c as nat, z + 2)) && Offset(s, z + 2) == a as nat / 4 + 64 * b as nat;
    AMatch(h, lits, rest, mode, out, 33 + 255 * z + c as nat, 1 + a as nat / 4 + 64 * b as nat);
  }

  lemma LongBytes(t: byte, z: nat, c: byte, a: byte, b: byte, lits: seq<byte>, rest: seq<byte>)
    ensures var h := [t] + Zeroes(z) + [c, a, b]; var s := h + lits + rest;
      && |h| == z + 4 && h[|h| - 2] == a && |s| >= z + 4 && s[0] == t && s[z + 1] == c && s[z + 2] == a && s[z + 3] == b
      && forall k :: 1 <= k < 1 + z ==> s[k] == 0
  {
  }

  /** From 17 to 31, except 24: 3 to 9 bytes, from 16385 to 49151 back. */
  lemma FarAway(t: nat, a: byte, b: byte, lits: seq<byte>, rest: seq<byte>, mode: Mode, out: seq<byte>)
    requires 16 < t < 32 && t != 24 && |lits| == a % 4
    requires var back := (if t >= 24 then 16384 else 0) + a as nat / 4 + 64 * b as nat; 0 < back && 16384 + back <= |out|
    ensures var back := (if t >= 24 then 16384 else 0) + a as nat / 4 + 64 * b as nat;
      Decode([t, a, b] + lits + rest, mode, out)
        == Decode(rest, if lits == [] then Top else AfterShort, CopyBack(out, t % 8 + 2, 16384 + back) + lits)
  {
    hide CopyBack, Decode;
    var s := [t, a, b] + lits + rest;
    assert s[0] == t && s[1] == a && s[2] == b;
    assert Offset(s, 1) == a as nat / 4 + 64 * b as nat && Length(s, t % 8, 7) == Some((t % 8, 1));
    AMatch([t, a, b], lits, rest, mode, out, t % 8 + 2, 16384 + (if t >= 24 then 16384 else 0) + a as nat / 4 + 64 * b as nat);
  }

  /** 16 and 24: longer ones from there. */
  lemma FarAndLong(t: nat, z: nat, c: byte, a: byte, b: byte, lits: seq<byte>, rest: seq<byte>, mode: Mode, out: seq<byte>)
    requires t in {16, 24} && c != 0 && |lits| == a % 4
    requires var back := (if t == 24 then 16384 else 0) + a as nat / 4 + 64 * b as nat; 0 < back && 16384 + back <= |out|
    ensures var back := (if t == 24 then 16384 else 0) + a as nat / 4 + 64 * b as nat;
      Decode([t] + Zeroes(z) + [c, a, b] + lits + rest, mode, out)
        == Decode(rest, if lits == [] then Top else AfterShort, CopyBack(out, 9 + 255 * z + c as nat, 16384 + back) + lits)
  {
    hide CopyBack, Decode, Extension;
    var h := [t] + Zeroes(z) + [c, a, b];
    var s := h + lits + rest;
    LongBytes(t, z, c, a, b, lits, rest);
    Continued(s, 1, z, 7);
    assert Length(s, 0, 7) == Some((7 + 255 * z + c as nat, z + 2)) && Offset(s, z + 2) == a as nat / 4 + 64 * b as nat;
    AMatch(h, lits, rest, mode, out, 9 + 255 * z + c as nat, 16384 + (if t == 24 then 16384 else 0) + a as nat / 4 + 64 * b as nat);
  }

  /** The code that ends a block. */
  lemma EndCode(mode: Mode, out: seq<byte>, rest: seq<byte>)
    ensures Decode([17, 0, 0] + rest, mode, out) == Some((out, |rest|))
  {
    var s := [17, 0, 0] + rest;
    assert Length(s, 1, 7) == Some((1, 1)) && Offset(s, 1) == 0;
    assert ReadHead(s, mode) == Some(EofHead(3));
  }

  // ---------- Runs of literals ----------

  /** 1 to 15: 4 to 18 literals. */
  lemma ShortRun(t: nat, lits: seq<byte>, rest: seq<byte>, out: seq<byte>)
    requires 0 < t < 16 && |lits| == t + 3
    ensures Decode([t] + lits + rest, Top, out) == Decode(rest, AfterRun, out + lits)
  {
    hide Decode;
    var s := [t] + lits + rest;
    assert s[0] == t && Length(s, t, 15) == Some((t, 1));
    ARun([t], lits, rest, out);
  }

  /** 0: more, with the number in further bytes. */
  lemma LongRun(z: nat, c: byte, lits: seq<byte>, rest: seq<byte>, out: seq<byte>)
    requires c != 0 && |lits| == 18 + 255 * z + c as nat
    ensures Decode([0] + Zeroes(z) + [c] + lits + rest, Top, out) == Decode(rest, AfterRun, out + lits)
  {
    hide Decode, Extension;
    var h := [0] + Zeroes(z) + [c];
    var s := h + lits + rest;
    assert h[0] == 0 && h[z + 1] == c && forall k :: 1 <= k < 1 + z ==> h[k] == 0;
    assert s[..|h|] == h;
    assert s[0] == h[0] && s[z + 1] == h[z + 1] && forall k :: 1 <= k < 1 + z ==> s[k] == h[k];
    Continued(s, 1, z, 15);
    assert Length(s, 0, 15) == Some((15 + 255 * z + c as nat, z + 2));
    ARun(h, lits, rest, out);
  }

  /** A first byte above 17: so many literals less 17. */
  lemma FirstLiterals(t: nat, lits: seq<byte>, rest: seq<byte>)
    requires 17 < t < 256 && |lits| == t - 17
    ensures DecodeBlock([t] + lits + rest) == Decode(rest, if t < 21 then AfterShort else AfterRun, lits)
  {
    hide Decode;
    Parts([t], lits, rest);
    assert ([t] + lits + rest)[0] == t;
  }

  /** Any other first byte is an instruction. */
  lemma FirstInstruction(t: nat, rest: seq<byte>)
    requires t <= 17
    ensures DecodeBlock([t] + rest) == Decode([t] + rest, Top, [])
  {
  }

  // ---------- An instance ----------

  /** After a run of literals the bytes 0, 0 copy what stands 2049 back. */
  lemma From2049(out: seq<byte>)
    requires |out| >= 2049
    ensures Decode([0, 0, 17, 0, 0], AfterRun, out)
         == Some((out + [out[|out| - 2049], out[|out| - 2048], out[|out| - 2047]], 0))
  {
    hide Decode;
    assert [0, 0] + [] + [17, 0, 0] == [0, 0, 17, 0, 0] && [17, 0, 0] + [] == [17, 0, 0];
    ThreeBytes(0, 0, [], [17, 0, 0], out);
    var three := [out[|out| - 2049], out[|out| - 2048], out[|out| - 2047]];
    assert CopyBack(out, 3, 2049) == out + three by {
      var one := out + [out[|out| - 2049]];
      var two := one + [out[|out| - 2048]];
      assert CopyBack(out, 3, 2049) == CopyBack(one, 2, 2049) == CopyBack(two, 1, 2049);
      assert two + [out[|out| - 2047]] == out + three;
      assert CopyBack(two, 1, 2049) == CopyBack(two + [out[|out| - 2047]], 0, 2049);
    }
    assert CopyBack(out, 3, 2049) + [] == out + three;
    EndCode(Top, out + three, []);
  }
}
