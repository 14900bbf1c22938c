/** The digest of "abc", step by step, and where the constants of SHA-1 come from. */
module Sha1Examples {
  import opened Sha1s

  /** The constant of each quarter is the integer part of 2^30 times a square root: of 2, 3, 5 and 10. */
  lemma ConstantsAreRoots(t: nat)
    requires t < 80
    ensures var k: int := if t < 20 then 0x5A827999 else if t < 40 then 0x6ED9EBA1 else if t < 60 then 0x8F1BBCDC else 0xCA62C1D6;
      var n := if t < 20 then 2 else if t < 40 then 3 else if t < 60 then 5 else 10;
      K(t) as int == k && k * k <= n * 0x1000_0000_0000_0000 < (k + 1) * (k + 1)
  {
  }

  /** The functions of the quarters on single bits: choice, parity, majority, parity. */
  lemma FunctionsAre(t: nat, b: word, c: word, d: word)
    ensures t < 20 ==> F(t, b, c, d) == (b & c) ^ (!b & d)
    ensures 20 <= t < 40 || 60 <= t ==> F(t, b, c, d) == b ^ c ^ d
    ensures 40 <= t < 60 ==> F(t, b, c, d) == (b & c) ^ (b & d) ^ (c & d)
  {
  }

  /** The number that bytes stand for, the most significant one first. */
  function Value(s: seq<octet>): nat
  {
    if s == [] then 0 else 256 * Value(s[..|s| - 1]) + s[|s| - 1] as nat
  }

  lemma {:induction false} OctetsOfValue(s: seq<octet>)
    ensures Octets(Value(s), |s|) == s
  {
    hide Octet;
    if s != [] {
      var h := s[..|s| - 1];
      OctetsOfValue(h);
      LowOctet(Value(h), s[|s| - 1]);
      assert h + [s[|s| - 1]] == s;
    }
  }

  lemma LowOctet(q: nat, y: octet)
    ensures (256 * q + y as nat) / 256 == q && Octet(256 * q + y as nat, 0) == y
  {
    assert (256 * q + y as nat) % 256 == y as nat;
  }

  /** The padding: a one bit, fewer zero bytes than a block has, and the length in bits to the end of a block. */
  lemma PaddingEndsBlock(m: seq<octet>, length: seq<octet>) returns (zeros: nat)
    requires |length| == 8 && Value(length) == 8 * |m|
    ensures zeros < 64 && (|m| + 1 + zeros + 8) % 64 == 0
    ensures Padded(m) == m + [0x80] + seq(zeros, _ => 0) + length
  {
    hide Value, Octets;
    zeros := Gap(|m|);
    OctetsOfValue(length);
    PaddedBlocks(|m|);
  }

  const ABC: seq<octet> := [0x61, 0x62, 0x63]

  /** The words of the padded message before the schedule extends them. */
  const WORDS: seq<word> :=
    [0x61626380, 0, 0, 0, 0, 0, 0, 0, 0, 0, 0, 0, 0, 0, 0, 24]

  function AbcBlock(): (s: seq<octet>)
    ensures |s| == 64
  {
    [0x61, 0x62, 0x63, 0x80] + ZeroOctets(59) + [24]
  }

  lemma AbcPadded()
    ensures Padded(ABC) == AbcBlock()
  {
    assert Gap(3) == 52;
    assert Octets(24, 8) == ZeroOctets(7) + [24] by {
      Octets24();
    }
    assert ZeroOctets(52) + ZeroOctets(7) == ZeroOctets(59);
  }

  lemma Octets24()
    ensures Octets(24, 8) == [0, 0, 0, 0, 0, 0, 0, 24]
  {
    assert Octet(24, 0) == 24 && Octet(0, 0) == 0;
    assert Octets(0, 1) == [0] && Octets(0, 2) == [0, 0] && Octets(0, 3) == [0, 0, 0] && Octets(0, 4) == [0, 0, 0, 0];
    assert Octets(0, 5) == [0, 0, 0, 0, 0] && Octets(0, 6) == [0, 0, 0, 0, 0, 0] && Octets(0, 7) == [0, 0, 0, 0, 0, 0, 0];
  }

  lemma FirstWords(t: nat)
    requires t < 16
    ensures W(AbcBlock(), t) == WORDS[t]
  {
    var s := AbcBlock();
    if t == 0 {
      assert s[0] == 0x61 && s[1] == 0x62 && s[2] == 0x63 && s[3] == 0x80;
    } else if t < 15 {
      assert s[4 * t] == 0 && s[4 * t + 1] == 0 && s[4 * t + 2] == 0 && s[4 * t + 3] == 0;
    } else {
      assert s[60] == 0 && s[61] == 0 && s[62] == 0 && s[63] == 24;
    }
  }

  predicate Begins(b: seq<octet>)
    requires |b| == 64
  {
    forall t | 0 <= t < 16 :: W(b, t) == WORDS[t]
  }

  lemma AbcBegins()
    ensures Begins(AbcBlock())
  {
    forall t | 0 <= t < 16
      ensures W(AbcBlock(), t) == WORDS[t]
    {
      FirstWords(t);
    }
  }

  lemma NextWord(b: seq<octet>, t: nat, p: word, q: word, r: word, s: word)
    requires |b| == 64 && t >= 16
    requires W(b, t - 3) == p && W(b, t - 8) == q && W(b, t - 14) == r && W(b, t - 16) == s
    ensures W(b, t) == Next(p, q, r, s)
  {
    hide Next;
  }

  lemma Words16(b: seq<octet>)
    requires |b| == 64 && Begins(b)
    ensures W(b, 16) == 0xC2C4C700 && W(b, 17) == 0x00000000 && W(b, 18) == 0x00000030 && W(b, 19) == 0x85898E01
         && W(b, 20) == 0x00000000 && W(b, 21) == 0x00000060 && W(b, 22) == 0x0B131C03 && W(b, 23) == 0x00000030
  {
    hide W;
    NextWord(b, 16, 0x00000000, 0x00000000, 0x00000000, 0x61626380);
    NextWord(b, 17, 0x00000000, 0x00000000, 0x00000000, 0x00000000);
    NextWord(b, 18, 0x00000018, 0x00000000, 0x00000000, 0x00000000);
    NextWord(b, 19, 0xC2C4C700, 0x00000000, 0x00000000, 0x00000000);
    NextWord(b, 20, 0x00000000, 0x00000000, 0x00000000, 0x00000000);
    NextWord(b, 21, 0x00000030, 0x00000000, 0x00000000, 0x00000000);
    NextWord(b, 22, 0x85898E01, 0x00000000, 0x00000000, 0x00000000);
    NextWord(b, 23, 0x00000000, 0x00000018, 0x00000000, 0x00000000);
  }

  lemma Words24(b: seq<octet>)
    requires |b| == 64 && Begins(b)
    ensures W(b, 24) == 0x85898EC1 && W(b, 25) == 0x16263806 && W(b, 26) == 0x00000000 && W(b, 27) == 0x00000180
         && W(b, 28) == 0x2C4C700C && W(b, 29) == 0x000000F0 && W(b, 30) == 0x93AFB507 && W(b, 31) == 0x5898E048
  {
    hide W;
    Words16(b);
    NextWord(b, 24, 0x00000060, 0xC2C4C700, 0x00000000, 0x00000000);
    NextWord(b, 25, 0x0B131C03, 0x00000000, 0x00000000, 0x00000000);
    NextWord(b, 26, 0x00000030, 0x00000030, 0x00000000, 0x00000000);
    NextWord(b, 27, 0x85898EC1, 0x85898E01, 0x00000000, 0x00000000);
    NextWord(b, 28, 0x16263806, 0x00000000, 0x00000000, 0x00000000);
    NextWord(b, 29, 0x00000000, 0x00000060, 0x00000018, 0x00000000);
    NextWord(b, 30, 0x00000180, 0x0B131C03, 0xC2C4C700, 0x00000000);
    NextWord(b, 31, 0x2C4C700C, 0x00000030, 0x00000000, 0x00000018);
  }

  lemma Words32(b: seq<octet>)
    requires |b| == 64 && Begins(b)
    ensures W(b, 32) == 0x8E9A9202 && W(b, 33) == 0x00000600 && W(b, 34) == 0xB131C0F0 && W(b, 35) == 0x16263BC6
         && W(b, 36) == 0x4EBED41E && W(b, 37) == 0x626380A1 && W(b, 38) == 0x16263806 && W(b, 39) == 0x000018C0
  {
    hide W;
    Words24(b);
    Words16(b);
    NextWord(b, 32, 0x000000F0, 0x85898EC1, 0x00000030, 0xC2C4C700);
    NextWord(b, 33, 0x93AFB507, 0x16263806, 0x85898E01, 0x00000000);
    NextWord(b, 34, 0x5898E048, 0x00000000, 0x00000000, 0x00000030);
    NextWord(b, 35, 0x8E9A9202, 0x00000180, 0x00000060, 0x85898E01);
    NextWord(b, 36, 0x00000600, 0x2C4C700C, 0x0B131C03, 0x00000000);
    NextWord(b, 37, 0xB131C0F0, 0x000000F0, 0x00000030, 0x00000060);
    NextWord(b, 38, 0x16263BC6, 0x93AFB507, 0x85898EC1, 0x0B131C03);
    NextWord(b, 39, 0x4EBED41E, 0x5898E048, 0x16263806, 0x00000030);
  }

  lemma Words40(b: seq<octet>)
    requires |b| == 64 && Begins(b)
    ensures W(b, 40) == 0xD2E138C4 && W(b, 41) == 0x00000F00 && W(b, 42) == 0x3AFB5079 && W(b, 43) == 0x898E04E5
         && W(b, 44) == 0xE2BA3C2B && W(b, 45) == 0x000060C0 && W(b, 46) == 0x053A37CD && W(b, 47) == 0x74458547
  {
    hide W;
    Words32(b);
    Words24(b);
    NextWord(b, 40, 0x626380A1, 0x8E9A9202, 0x00000000, 0x85898EC1);
    NextWord(b, 41, 0x16263806, 0x00000600, 0x00000180, 0x16263806);
    NextWord(b, 42, 0x000018C0, 0xB131C0F0, 0x2C4C700C, 0x00000000);
    NextWord(b, 43, 0xD2E138C4, 0x16263BC6, 0x000000F0, 0x00000180);
    NextWord(b, 44, 0x00000F00, 0x4EBED41E, 0x93AFB507, 0x2C4C700C);
    NextWord(b, 45, 0x3AFB5079, 0x626380A1, 0x5898E048, 0x000000F0);
    NextWord(b, 46, 0x898E04E5, 0x16263806, 0x8E9A9202, 0x93AFB507);
    NextWord(b, 47, 0xE2BA3C2B, 0x000018C0, 0x00000600, 0x5898E048);
  }

  lemma Words48(b: seq<octet>)
    requires |b| == 64 && Begins(b)
    ensures W(b, 48) == 0xDA9415ED && W(b, 49) == 0x26380A16 && W(b, 50) == 0x626383A1 && W(b, 51) == 0x4EBF54DE
         && W(b, 52) == 0x3835B44B && W(b, 53) == 0x0000F600 && W(b, 54) == 0x1E84C7A3 && W(b, 55) == 0x98E04D98
  {
    hide W;
    Words40(b);
    Words32(b);
    NextWord(b, 48, 0x000060C0, 0xD2E138C4, 0xB131C0F0, 0x8E9A9202);
    NextWord(b, 49, 0x053A37CD, 0x00000F00, 0x16263BC6, 0x00000600);
    NextWord(b, 50, 0x74458547, 0x3AFB5079, 0x4EBED41E, 0xB131C0F0);
    NextWord(b, 51, 0xDA9415ED, 0x898E04E5, 0x626380A1, 0x16263BC6);
    NextWord(b, 52, 0x26380A16, 0xE2BA3C2B, 0x16263806, 0x4EBED41E);
    NextWord(b, 53, 0x626383A1, 0x000060C0, 0x000018C0, 0x626380A1);
    NextWord(b, 54, 0x4EBF54DE, 0x053A37CD, 0xD2E138C4, 0x16263806);
    NextWord(b, 55, 0x3835B44B, 0x74458547, 0x00000F00, 0x000018C0);
  }

  lemma Words56(b: seq<octet>)
    requires |b| == 64 && Begins(b)
    ensures W(b, 56) == 0x651D16A0 && W(b, 57) == 0x62658CA1 && W(b, 58) == 0x458544D6 && W(b, 59) == 0x44584CB7
         && W(b, 60) == 0x7BA06619 && W(b, 61) == 0x6380AEA2 && W(b, 62) == 0x0AE55269 && W(b, 63) == 0x627B49A1
  {
    hide W;
    Words48(b);
    Words40(b);
    NextWord(b, 56, 0x0000F600, 0xDA9415ED, 0x3AFB5079, 0xD2E138C4);
    NextWord(b, 57, 0x1E84C7A3, 0x26380A16, 0x898E04E5, 0x00000F00);
    NextWord(b, 58, 0x98E04D98, 0x626383A1, 0xE2BA3C2B, 0x3AFB5079);
    NextWord(b, 59, 0x651D16A0, 0x4EBF54DE, 0x000060C0, 0x898E04E5);
    NextWord(b, 60, 0x62658CA1, 0x3835B44B, 0x053A37CD, 0xE2BA3C2B);
    NextWord(b, 61, 0x458544D6, 0x0000F600, 0x74458547, 0x000060C0);
    NextWord(b, 62, 0x44584CB7, 0x1E84C7A3, 0xDA9415ED, 0x053A37CD);
    NextWord(b, 63, 0x7BA06619, 0x98E04D98, 0x26380A16, 0x74458547);
  }

  lemma Words64(b: seq<octet>)
    requires |b| == 64 && Begins(b)
    ensures W(b, 64) == 0x7CD45C9D && W(b, 65) == 0x000F0000 && W(b, 66) == 0xFB50753A && W(b, 67) == 0xEC6765E8
         && W(b, 68) == 0xBA3C2BE2 && W(b, 69) == 0x0060C000 && W(b, 70) == 0x3A37CD05 && W(b, 71) == 0x458546F4
  {
    hide W;
    Words56(b);
    Words48(b);
    NextWord(b, 64, 0x6380AEA2, 0x651D16A0, 0x626383A1, 0xDA9415ED);
    NextWord(b, 65, 0x0AE55269, 0x62658CA1, 0x4EBF54DE, 0x26380A16);
    NextWord(b, 66, 0x627B49A1, 0x458544D6, 0x3835B44B, 0x626383A1);
    NextWord(b, 67, 0x7CD45C9D, 0x44584CB7, 0x0000F600, 0x4EBF54DE);
    NextWord(b, 68, 0x000F0000, 0x7BA06619, 0x1E84C7A3, 0x3835B44B);
    NextWord(b, 69, 0xFB50753A, 0x6380AEA2, 0x98E04D98, 0x0000F600);
    NextWord(b, 70, 0xEC6765E8, 0x0AE55269, 0x651D16A0, 0x1E84C7A3);
    NextWord(b, 71, 0xBA3C2BE2, 0x627B49A1, 0x62658CA1, 0x98E04D98);
  }

  lemma Words72(b: seq<octet>)
    requires |b| == 64 && Begins(b)
    ensures W(b, 72) == 0xB8599DD6 && W(b, 73) == 0x380A1A26 && W(b, 74) == 0x01E02203 && W(b, 75) == 0xE7CC3456
         && W(b, 76) == 0xE6E60B69 && W(b, 77) == 0x00F60A00 && W(b, 78) == 0x5795EF4F && W(b, 79) == 0x822E0879
  {
    hide W;
    Words64(b);
    Words56(b);
    NextWord(b, 72, 0x0060C000, 0x7CD45C9D, 0x458544D6, 0x651D16A0);
    NextWord(b, 73, 0x3A37CD05, 0x000F0000, 0x44584CB7, 0x62658CA1);
    NextWord(b, 74, 0x458546F4, 0xFB50753A, 0x7BA06619, 0x458544D6);
    NextWord(b, 75, 0xB8599DD6, 0xEC6765E8, 0x6380AEA2, 0x44584CB7);
    NextWord(b, 76, 0x380A1A26, 0xBA3C2BE2, 0x0AE55269, 0x7BA06619);
    NextWord(b, 77, 0x01E02203, 0x0060C000, 0x627B49A1, 0x6380AEA2);
    NextWord(b, 78, 0xE7CC3456, 0x3A37CD05, 0x7CD45C9D, 0x0AE55269);
    NextWord(b, 79, 0xE6E60B69, 0x458546F4, 0x000F0000, 0x627B49A1);
  }

  lemma OneRound(b: seq<octet>, n: nat, s: State, w: word, s': State)
    requires |b| == 64
    requires Rounds(INITIAL, b, n) == s && W(b, n) == w && Round(s, n, w) == s'
    ensures Rounds(INITIAL, b, n + 1) == s'
  {
    hide Round, W;
  }

  /** The state after 8 steps. */
  lemma Rounds8(b: seq<octet>)
    requires |b| == 64 && Begins(b)
    ensures Rounds(INITIAL, b, 8)
         == State(0x9E8C07D4, 0x993E30C1, 0x0FF1F290, 0xB3F52677, 0xF3763846)
  {
    hide W, Rounds;
    NoRound(b);
    OneRound(b, 0, State(0x67452301, 0xEFCDAB89, 0x98BADCFE, 0x10325476, 0xC3D2E1F0), 0x61626380,
             State(0x0116FC33, 0x67452301, 0x7BF36AE2, 0x98BADCFE, 0x10325476));
    OneRound(b, 1, State(0x0116FC33, 0x67452301, 0x7BF36AE2, 0x98BADCFE, 0x10325476), 0x00000000,
             State(0x8990536D, 0x0116FC33, 0x59D148C0, 0x7BF36AE2, 0x98BADCFE));
    OneRound(b, 2, State(0x8990536D, 0x0116FC33, 0x59D148C0, 0x7BF36AE2, 0x98BADCFE), 0x00000000,
             State(0xA1390F08, 0x8990536D, 0xC045BF0C, 0x59D148C0, 0x7BF36AE2));
    OneRound(b, 3, State(0xA1390F08, 0x8990536D, 0xC045BF0C, 0x59D148C0, 0x7BF36AE2), 0x00000000,
             State(0xCDD8E11B, 0xA1390F08, 0x626414DB, 0xC045BF0C, 0x59D148C0));
    OneRound(b, 4, State(0xCDD8E11B, 0xA1390F08, 0x626414DB, 0xC045BF0C, 0x59D148C0), 0x00000000,
             State(0xCFD499DE, 0xCDD8E11B, 0x284E43C2, 0x626414DB, 0xC045BF0C));
    OneRound(b, 5, State(0xCFD499DE, 0xCDD8E11B, 0x284E43C2, 0x626414DB, 0xC045BF0C), 0x00000000,
             State(0x3FC7CA40, 0xCFD499DE, 0xF3763846, 0x284E43C2, 0x626414DB));
    OneRound(b, 6, State(0x3FC7CA40, 0xCFD499DE, 0xF3763846, 0x284E43C2, 0x626414DB), 0x00000000,
             State(0x993E30C1, 0x3FC7CA40, 0xB3F52677, 0xF3763846, 0x284E43C2));
    OneRound(b, 7, State(0x993E30C1, 0x3FC7CA40, 0xB3F52677, 0xF3763846, 0x284E43C2), 0x00000000,
             State(0x9E8C07D4, 0x993E30C1, 0x0FF1F290, 0xB3F52677, 0xF3763846));
  }

  /** The state after 16 steps. */
  lemma Rounds16(b: seq<octet>)
    requires |b| == 64 && Begins(b)
    ensures Rounds(INITIAL, b, 16)
         == State(0x20BDD62F, 0x196BEE77, 0x644A3DA5, 0x1181ED99, 0x18C623F9)
  {
    hide W, Rounds;
    Rounds8(b);
    OneRound(b, 8, State(0x9E8C07D4, 0x993E30C1, 0x0FF1F290, 0xB3F52677, 0xF3763846), 0x00000000,
             State(0x4B6AE328, 0x9E8C07D4, 0x664F8C30, 0x0FF1F290, 0xB3F52677));
    OneRound(b, 9, State(0x4B6AE328, 0x9E8C07D4, 0x664F8C30, 0x0FF1F290, 0xB3F52677), 0x00000000,
             State(0x8351F929, 0x4B6AE328, 0x27A301F5, 0x664F8C30, 0x0FF1F290));
    OneRound(b, 10, State(0x8351F929, 0x4B6AE328, 0x27A301F5, 0x664F8C30, 0x0FF1F290), 0x00000000,
             State(0xFBDA9E89, 0x8351F929, 0x12DAB8CA, 0x27A301F5, 0x664F8C30));
    OneRound(b, 11, State(0xFBDA9E89, 0x8351F929, 0x12DAB8CA, 0x27A301F5, 0x664F8C30), 0x00000000,
             State(0x63188FE4, 0xFBDA9E89, 0x60D47E4A, 0x12DAB8CA, 0x27A301F5));
    OneRound(b, 12, State(0x63188FE4, 0xFBDA9E89, 0x60D47E4A, 0x12DAB8CA, 0x27A301F5), 0x00000000,
             State(0x4607B664, 0x63188FE4, 0x7EF6A7A2, 0x60D47E4A, 0x12DAB8CA));
    OneRound(b, 13, State(0x4607B664, 0x63188FE4, 0x7EF6A7A2, 0x60D47E4A, 0x12DAB8CA), 0x00000000,
             State(0x9128F695, 0x4607B664, 0x18C623F9, 0x7EF6A7A2, 0x60D47E4A));
    OneRound(b, 14, State(0x9128F695, 0x4607B664, 0x18C623F9, 0x7EF6A7A2, 0x60D47E4A), 0x00000000,
             State(0x196BEE77, 0x9128F695, 0x1181ED99, 0x18C623F9, 0x7EF6A7A2));
    OneRound(b, 15, State(0x196BEE77, 0x9128F695, 0x1181ED99, 0x18C623F9, 0x7EF6A7A2), 0x00000018,
             State(0x20BDD62F, 0x196BEE77, 0x644A3DA5, 0x1181ED99, 0x18C623F9));
  }

  /** The state after 24 steps. */
  lemma Rounds24(b: seq<octet>)
    requires |b| == 64 && Begins(b)
    ensures Rounds(INITIAL, b, 24)
         == State(0xD541F12D, 0x21283486, 0x0CE88EFF, 0x868DEC32, 0x7F67875F)
  {
    hide W, Rounds;
    Rounds16(b);
    Words16(b);
    OneRound(b, 16, State(0x20BDD62F, 0x196BEE77, 0x644A3DA5, 0x1181ED99, 0x18C623F9), 0xC2C4C700,
             State(0x4E925823, 0x20BDD62F, 0xC65AFB9D, 0x644A3DA5, 0x1181ED99));
    OneRound(b, 17, State(0x4E925823, 0x20BDD62F, 0xC65AFB9D, 0x644A3DA5, 0x1181ED99), 0x00000000,
             State(0x82AA6728, 0x4E925823, 0xC82F758B, 0xC65AFB9D, 0x644A3DA5));
    OneRound(b, 18, State(0x82AA6728, 0x4E925823, 0xC82F758B, 0xC65AFB9D, 0x644A3DA5), 0x00000030,
             State(0xDC64901D, 0x82AA6728, 0xD3A49608, 0xC82F758B, 0xC65AFB9D));
    OneRound(b, 19, State(0xDC64901D, 0x82AA6728, 0xD3A49608, 0xC82F758B, 0xC65AFB9D), 0x85898E01,
             State(0xFD9E1D7D, 0xDC64901D, 0x20AA99CA, 0xD3A49608, 0xC82F758B));
    OneRound(b, 20, State(0xFD9E1D7D, 0xDC64901D, 0x20AA99CA, 0xD3A49608, 0xC82F758B), 0x00000000,
             State(0x1A37B0CA, 0xFD9E1D7D, 0x77192407, 0x20AA99CA, 0xD3A49608));
    OneRound(b, 21, State(0x1A37B0CA, 0xFD9E1D7D, 0x77192407, 0x20AA99CA, 0xD3A49608), 0x00000060,
             State(0x33A23BFC, 0x1A37B0CA, 0x7F67875F, 0x77192407, 0x20AA99CA));
    OneRound(b, 22, State(0x33A23BFC, 0x1A37B0CA, 0x7F67875F, 0x77192407, 0x20AA99CA), 0x0B131C03,
             State(0x21283486, 0x33A23BFC, 0x868DEC32, 0x7F67875F, 0x77192407));
    OneRound(b, 23, State(0x21283486, 0x33A23BFC, 0x868DEC32, 0x7F67875F, 0x77192407), 0x00000030,
             State(0xD541F12D, 0x21283486, 0x0CE88EFF, 0x868DEC32, 0x7F67875F));
  }

  /** The state after 32 steps. */
  lemma Rounds32(b: seq<octet>)
    requires |b| == 64 && Begins(b)
    ensures Rounds(INITIAL, b, 32)
         == State(0x3B845D33, 0x1267B407, 0x717EEBD7, 0xA0DC2D4B, 0xD2AA1365)
  {
    hide W, Rounds;
    Rounds24(b);
    Words24(b);
    OneRound(b, 24, State(0xD541F12D, 0x21283486, 0x0CE88EFF, 0x868DEC32, 0x7F67875F), 0x85898EC1,
             State(0xC7567DC6, 0xD541F12D, 0x884A0D21, 0x0CE88EFF, 0x868DEC32));
    OneRound(b, 25, State(0xC7567DC6, 0xD541F12D, 0x884A0D21, 0x0CE88EFF, 0x868DEC32), 0x16263806,
             State(0x48413BA4, 0xC7567DC6, 0x75507C4B, 0x884A0D21, 0x0CE88EFF));
    OneRound(b, 26, State(0x48413BA4, 0xC7567DC6, 0x75507C4B, 0x884A0D21, 0x0CE88EFF), 0x00000000,
             State(0xBE35FBD5, 0x48413BA4, 0xB1D59F71, 0x75507C4B, 0x884A0D21));
    OneRound(b, 27, State(0xBE35FBD5, 0x48413BA4, 0xB1D59F71, 0x75507C4B, 0x884A0D21), 0x00000180,
             State(0x4AA84D97, 0xBE35FBD5, 0x12104EE9, 0xB1D59F71, 0x75507C4B));
    OneRound(b, 28, State(0x4AA84D97, 0xBE35FBD5, 0x12104EE9, 0xB1D59F71, 0x75507C4B), 0x2C4C700C,
             State(0x8370B52E, 0x4AA84D97, 0x6F8D7EF5, 0x12104EE9, 0xB1D59F71));
    OneRound(b, 29, State(0x8370B52E, 0x4AA84D97, 0x6F8D7EF5, 0x12104EE9, 0xB1D59F71), 0x000000F0,
             State(0xC5FBAF5D, 0x8370B52E, 0xD2AA1365, 0x6F8D7EF5, 0x12104EE9));
    OneRound(b, 30, State(0xC5FBAF5D, 0x8370B52E, 0xD2AA1365, 0x6F8D7EF5, 0x12104EE9), 0x93AFB507,
             State(0x1267B407, 0xC5FBAF5D, 0xA0DC2D4B, 0xD2AA1365, 0x6F8D7EF5));
    OneRound(b, 31, State(0x1267B407, 0xC5FBAF5D, 0xA0DC2D4B, 0xD2AA1365, 0x6F8D7EF5), 0x5898E048,
             State(0x3B845D33, 0x1267B407, 0x717EEBD7, 0xA0DC2D4B, 0xD2AA1365));
  }

  /** The state after 40 steps. */
  lemma Rounds40(b: seq<octet>)
    requires |b| == 64 && Begins(b)
    ensures Rounds(INITIAL, b, 40)
         == State(0x32DE1CBA, 0x4C986405, 0xF718E5CF, 0x03D447F6, 0xF72EEC32)
  {
    hide W, Rounds;
    Rounds32(b);
    Words32(b);
    OneRound(b, 32, State(0x3B845D33, 0x1267B407, 0x717EEBD7, 0xA0DC2D4B, 0xD2AA1365), 0x8E9A9202,
             State(0x046FAA0A, 0x3B845D33, 0xC499ED01, 0x717EEBD7, 0xA0DC2D4B));
    OneRound(b, 33, State(0x046FAA0A, 0x3B845D33, 0xC499ED01, 0x717EEBD7, 0xA0DC2D4B), 0x00000600,
             State(0x2C0EBC11, 0x046FAA0A, 0xCEE1174C, 0xC499ED01, 0x717EEBD7));
    OneRound(b, 34, State(0x2C0EBC11, 0x046FAA0A, 0xCEE1174C, 0xC499ED01, 0x717EEBD7), 0xB131C0F0,
             State(0x21796AD4, 0x2C0EBC11, 0x811BEA82, 0xCEE1174C, 0xC499ED01));
    OneRound(b, 35, State(0x21796AD4, 0x2C0EBC11, 0x811BEA82, 0xCEE1174C, 0xC499ED01), 0x16263BC6,
             State(0xDCBBB0CB, 0x21796AD4, 0x4B03AF04, 0x811BEA82, 0xCEE1174C));
    OneRound(b, 36, State(0xDCBBB0CB, 0x21796AD4, 0x4B03AF04, 0x811BEA82, 0xCEE1174C), 0x4EBED41E,
             State(0x0F511FD8, 0xDCBBB0CB, 0x085E5AB5, 0x4B03AF04, 0x811BEA82));
    OneRound(b, 37, State(0x0F511FD8, 0xDCBBB0CB, 0x085E5AB5, 0x4B03AF04, 0x811BEA82), 0x626380A1,
             State(0xDC63973F, 0x0F511FD8, 0xF72EEC32, 0x085E5AB5, 0x4B03AF04));
    OneRound(b, 38, State(0xDC63973F, 0x0F511FD8, 0xF72EEC32, 0x085E5AB5, 0x4B03AF04), 0x16263806,
             State(0x4C986405, 0xDC63973F, 0x03D447F6, 0xF72EEC32, 0x085E5AB5));
    OneRound(b, 39, State(0x4C986405, 0xDC63973F, 0x03D447F6, 0xF72EEC32, 0x085E5AB5), 0x000018C0,
             State(0x32DE1CBA, 0x4C986405, 0xF718E5CF, 0x03D447F6, 0xF72EEC32));
  }

  /** The state after 48 steps. */
  lemma Rounds48(b: seq<octet>)
    requires |b| == 64 && Begins(b)
    ensures Rounds(INITIAL, b, 48)
         == State(0xBEAD02CA, 0xA01B846C, 0x8714787C, 0x503CA382, 0xFB86C6AB)
  {
    hide W, Rounds;
    Rounds40(b);
    Words40(b);
    OneRound(b, 40, State(0x32DE1CBA, 0x4C986405, 0xF718E5CF, 0x03D447F6, 0xF72EEC32), 0xD2E138C4,
             State(0xFC87DEDF, 0x32DE1CBA, 0x53261901, 0xF718E5CF, 0x03D447F6));
    OneRound(b, 41, State(0xFC87DEDF, 0x32DE1CBA, 0x53261901, 0xF718E5CF, 0x03D447F6), 0x00000F00,
             State(0x970A0D5C, 0xFC87DEDF, 0x8CB7872E, 0x53261901, 0xF718E5CF));
    OneRound(b, 42, State(0x970A0D5C, 0xFC87DEDF, 0x8CB7872E, 0x53261901, 0xF718E5CF), 0x3AFB5079,
             State(0x7F193DC5, 0x970A0D5C, 0xFF21F7B7, 0x8CB7872E, 0x53261901));
    OneRound(b, 43, State(0x7F193DC5, 0x970A0D5C, 0xFF21F7B7, 0x8CB7872E, 0x53261901), 0x898E04E5,
             State(0xEE1B1AAF, 0x7F193DC5, 0x25C28357, 0xFF21F7B7, 0x8CB7872E));
    OneRound(b, 44, State(0xEE1B1AAF, 0x7F193DC5, 0x25C28357, 0xFF21F7B7, 0x8CB7872E), 0xE2BA3C2B,
             State(0x40F28E09, 0xEE1B1AAF, 0x5FC64F71, 0x25C28357, 0xFF21F7B7));
    OneRound(b, 45, State(0x40F28E09, 0xEE1B1AAF, 0x5FC64F71, 0x25C28357, 0xFF21F7B7), 0x000060C0,
             State(0x1C51E1F2, 0x40F28E09, 0xFB86C6AB, 0x5FC64F71, 0x25C28357));
    OneRound(b, 46, State(0x1C51E1F2, 0x40F28E09, 0xFB86C6AB, 0x5FC64F71, 0x25C28357), 0x053A37CD,
             State(0xA01B846C, 0x1C51E1F2, 0x503CA382, 0xFB86C6AB, 0x5FC64F71));
    OneRound(b, 47, State(0xA01B846C, 0x1C51E1F2, 0x503CA382, 0xFB86C6AB, 0x5FC64F71), 0x74458547,
             State(0xBEAD02CA, 0xA01B846C, 0x8714787C, 0x503CA382, 0xFB86C6AB));
  }

  /** The state after 56 steps. */
  lemma Rounds56(b: seq<octet>)
    requires |b| == 64 && Begins(b)
    ensures Rounds(INITIAL, b, 56)
         == State(0x5E6456AF, 0x7B71F76D, 0x09FA7C76, 0x792410DB, 0x8E11EB59)
  {
    hide W, Rounds;
    Rounds48(b);
    Words48(b);
    OneRound(b, 48, State(0xBEAD02CA, 0xA01B846C, 0x8714787C, 0x503CA382, 0xFB86C6AB), 0xDA9415ED,
             State(0xBAF39337, 0xBEAD02CA, 0x2806E11B, 0x8714787C, 0x503CA382));
    OneRound(b, 49, State(0xBAF39337, 0xBEAD02CA, 0x2806E11B, 0x8714787C, 0x503CA382), 0x26380A16,
             State(0x120731C5, 0xBAF39337, 0xAFAB40B2, 0x2806E11B, 0x8714787C));
    OneRound(b, 50, State(0x120731C5, 0xBAF39337, 0xAFAB40B2, 0x2806E11B, 0x8714787C), 0x626383A1,
             State(0x641DB2CE, 0x120731C5, 0xEEBCE4CD, 0xAFAB40B2, 0x2806E11B));
    OneRound(b, 51, State(0x641DB2CE, 0x120731C5, 0xEEBCE4CD, 0xAFAB40B2, 0x2806E11B), 0x4EBF54DE,
             State(0x3847AD66, 0x641DB2CE, 0x4481CC71, 0xEEBCE4CD, 0xAFAB40B2));
    OneRound(b, 52, State(0x3847AD66, 0x641DB2CE, 0x4481CC71, 0xEEBCE4CD, 0xAFAB40B2), 0x3835B44B,
             State(0xE490436D, 0x3847AD66, 0x99076CB3, 0x4481CC71, 0xEEBCE4CD));
    OneRound(b, 53, State(0xE490436D, 0x3847AD66, 0x99076CB3, 0x4481CC71, 0xEEBCE4CD), 0x0000F600,
             State(0x27E9F1D8, 0xE490436D, 0x8E11EB59, 0x99076CB3, 0x4481CC71));
    OneRound(b, 54, State(0x27E9F1D8, 0xE490436D, 0x8E11EB59, 0x99076CB3, 0x4481CC71), 0x1E84C7A3,
             State(0x7B71F76D, 0x27E9F1D8, 0x792410DB, 0x8E11EB59, 0x99076CB3));
    OneRound(b, 55, State(0x7B71F76D, 0x27E9F1D8, 0x792410DB, 0x8E11EB59, 0x99076CB3), 0x98E04D98,
             State(0x5E6456AF, 0x7B71F76D, 0x09FA7C76, 0x792410DB, 0x8E11EB59));
  }

  /** The state after 64 steps. */
  lemma Rounds64(b: seq<octet>)
    requires |b| == 64 && Begins(b)
    ensures Rounds(INITIAL, b, 64)
         == State(0x6B61C9E1, 0xB66C020B, 0x9523272C, 0xF5D5B051, 0x8FD4B796)
  {
    hide W, Rounds;
    Rounds56(b);
    Words56(b);
    OneRound(b, 56, State(0x5E6456AF, 0x7B71F76D, 0x09FA7C76, 0x792410DB, 0x8E11EB59), 0x651D16A0,
             State(0xC846093F, 0x5E6456AF, 0x5EDC7DDB, 0x09FA7C76, 0x792410DB));
    OneRound(b, 57, State(0xC846093F, 0x5E6456AF, 0x5EDC7DDB, 0x09FA7C76, 0x792410DB), 0x62658CA1,
             State(0xD262FF50, 0xC846093F, 0xD79915AB, 0x5EDC7DDB, 0x09FA7C76));
    OneRound(b, 58, State(0xD262FF50, 0xC846093F, 0xD79915AB, 0x5EDC7DDB, 0x09FA7C76), 0x458544D6,
             State(0x09D785FD, 0xD262FF50, 0xF211824F, 0xD79915AB, 0x5EDC7DDB));
    OneRound(b, 59, State(0x09D785FD, 0xD262FF50, 0xF211824F, 0xD79915AB, 0x5EDC7DDB), 0x44584CB7,
             State(0x3F52DE5A, 0x09D785FD, 0x3498BFD4, 0xF211824F, 0xD79915AB));
    OneRound(b, 60, State(0x3F52DE5A, 0x09D785FD, 0x3498BFD4, 0xF211824F, 0xD79915AB), 0x7BA06619,
             State(0xD756C147, 0x3F52DE5A, 0x4275E17F, 0x3498BFD4, 0xF211824F));
    OneRound(b, 61, State(0xD756C147, 0x3F52DE5A, 0x4275E17F, 0x3498BFD4, 0xF211824F), 0x6380AEA2,
             State(0x548C9CB2, 0xD756C147, 0x8FD4B796, 0x4275E17F, 0x3498BFD4));
    OneRound(b, 62, State(0x548C9CB2, 0xD756C147, 0x8FD4B796, 0x4275E17F, 0x3498BFD4), 0x0AE55269,
             State(0xB66C020B, 0x548C9CB2, 0xF5D5B051, 0x8FD4B796, 0x4275E17F));
    OneRound(b, 63, State(0xB66C020B, 0x548C9CB2, 0xF5D5B051, 0x8FD4B796, 0x4275E17F), 0x627B49A1,
             State(0x6B61C9E1, 0xB66C020B, 0x9523272C, 0xF5D5B051, 0x8FD4B796));
  }

  /** The state after 72 steps. */
  lemma Rounds72(b: seq<octet>)
    requires |b| == 64 && Begins(b)
    ensures Rounds(INITIAL, b, 72)
         == State(0x39859DE7, 0xC199F8C7, 0x8FC96230, 0x125C24F0, 0xDE37534A)
  {
    hide W, Rounds;
    Rounds64(b);
    Words64(b);
    OneRound(b, 64, State(0x6B61C9E1, 0xB66C020B, 0x9523272C, 0xF5D5B051, 0x8FD4B796), 0x7CD45C9D,
             State(0x19DFA7AC, 0x6B61C9E1, 0xED9B0082, 0x9523272C, 0xF5D5B051));
    OneRound(b, 65, State(0x19DFA7AC, 0x6B61C9E1, 0xED9B0082, 0x9523272C, 0xF5D5B051), 0x000F0000,
             State(0x101655F9, 0x19DFA7AC, 0x5AD87278, 0xED9B0082, 0x9523272C));
    OneRound(b, 66, State(0x101655F9, 0x19DFA7AC, 0x5AD87278, 0xED9B0082, 0x9523272C), 0xFB50753A,
             State(0x0C3DF2B4, 0x101655F9, 0x0677E9EB, 0x5AD87278, 0xED9B0082));
    OneRound(b, 67, State(0x0C3DF2B4, 0x101655F9, 0x0677E9EB, 0x5AD87278, 0xED9B0082), 0xEC6765E8,
             State(0x78DD4D2B, 0x0C3DF2B4, 0x4405957E, 0x0677E9EB, 0x5AD87278));
    OneRound(b, 68, State(0x78DD4D2B, 0x0C3DF2B4, 0x4405957E, 0x0677E9EB, 0x5AD87278), 0xBA3C2BE2,
             State(0x497093C0, 0x78DD4D2B, 0x030F7CAD, 0x4405957E, 0x0677E9EB));
    OneRound(b, 69, State(0x497093C0, 0x78DD4D2B, 0x030F7CAD, 0x4405957E, 0x0677E9EB), 0x0060C000,
             State(0x3F2588C2, 0x497093C0, 0xDE37534A, 0x030F7CAD, 0x4405957E));
    OneRound(b, 70, State(0x3F2588C2, 0x497093C0, 0xDE37534A, 0x030F7CAD, 0x4405957E), 0x3A37CD05,
             State(0xC199F8C7, 0x3F2588C2, 0x125C24F0, 0xDE37534A, 0x030F7CAD));
    OneRound(b, 71, State(0xC199F8C7, 0x3F2588C2, 0x125C24F0, 0xDE37534A, 0x030F7CAD), 0x458546F4,
             State(0x39859DE7, 0xC199F8C7, 0x8FC96230, 0x125C24F0, 0xDE37534A));
  }

  /** The state after 80 steps. */
  lemma Rounds80(b: seq<octet>)
    requires |b| == 64 && Begins(b)
    ensures Rounds(INITIAL, b, 80)
         == State(0x42541B35, 0x5738D5E1, 0x21834873, 0x681E6DF6, 0xD8FDF6AD)
  {
    hide W, Rounds;
    Rounds72(b);
    Words72(b);
    OneRound(b, 72, State(0x39859DE7, 0xC199F8C7, 0x8FC96230, 0x125C24F0, 0xDE37534A), 0xB8599DD6,
             State(0xEDB42DE4, 0x39859DE7, 0xF0667E31, 0x8FC96230, 0x125C24F0));
    OneRound(b, 73, State(0xEDB42DE4, 0x39859DE7, 0xF0667E31, 0x8FC96230, 0x125C24F0), 0x380A1A26,
             State(0x11793F6F, 0xEDB42DE4, 0xCE616779, 0xF0667E31, 0x8FC96230));
    OneRound(b, 74, State(0x11793F6F, 0xEDB42DE4, 0xCE616779, 0xF0667E31, 0x8FC96230), 0x01E02203,
             State(0x5EE76897, 0x11793F6F, 0x3B6D0B79, 0xCE616779, 0xF0667E31));
    OneRound(b, 75, State(0x5EE76897, 0x11793F6F, 0x3B6D0B79, 0xCE616779, 0xF0667E31), 0xE7CC3456,
             State(0x63F7DAB7, 0x5EE76897, 0xC45E4FDB, 0x3B6D0B79, 0xCE616779));
    OneRound(b, 76, State(0x63F7DAB7, 0x5EE76897, 0xC45E4FDB, 0x3B6D0B79, 0xCE616779), 0xE6E60B69,
             State(0xA079B7D9, 0x63F7DAB7, 0xD7B9DA25, 0xC45E4FDB, 0x3B6D0B79));
    OneRound(b, 77, State(0xA079B7D9, 0x63F7DAB7, 0xD7B9DA25, 0xC45E4FDB, 0x3B6D0B79), 0x00F60A00,
             State(0x860D21CC, 0xA079B7D9, 0xD8FDF6AD, 0xD7B9DA25, 0xC45E4FDB));
    OneRound(b, 78, State(0x860D21CC, 0xA079B7D9, 0xD8FDF6AD, 0xD7B9DA25, 0xC45E4FDB), 0x5795EF4F,
             State(0x5738D5E1, 0x860D21CC, 0x681E6DF6, 0xD8FDF6AD, 0xD7B9DA25));
    OneRound(b, 79, State(0x5738D5E1, 0x860D21CC, 0x681E6DF6, 0xD8FDF6AD, 0xD7B9DA25), 0x822E0879,
             State(0x42541B35, 0x5738D5E1, 0x21834873, 0x681E6DF6, 0xD8FDF6AD));
  }

  lemma NoRound(b: seq<octet>)
    requires |b| == 64
    ensures Rounds(INITIAL, b, 0) == INITIAL
  {
  }

  /** The first test vector of FIPS PUB 180-1. */
  lemma DigestOfAbc()
    ensures Sha1(ABC) == [0xA9, 0x99, 0x3E, 0x36, 0x47, 0x06, 0x81, 0x6A, 0xBA, 0x3E,
                          0x25, 0x71, 0x78, 0x50, 0xC2, 0x6C, 0x9C, 0xD0, 0xD8, 0x9D]
  {
    AbcPadded();
    AbcBegins();
    Rounds80(AbcBlock());
    ChainOfAbc();
    hide Rounds, Compress, AbcBlock, Padded, Chain, Begins, W;
    PartsOfAbc();
  }

  lemma ChainOfAbc()
    ensures Chain(AbcBlock()) == Plus(INITIAL, Rounds(INITIAL, AbcBlock(), 80))
  {
    hide Rounds, Plus;
    var s := AbcBlock();
    assert s[..0] == [] && s[0..] == s;
    assert Chain([]) == INITIAL;
  }

  lemma PartsOfAbc()
    ensures var s := Plus(INITIAL, State(0x42541B35, 0x5738D5E1, 0x21834873, 0x681E6DF6, 0xD8FDF6AD));
      s == State(0xA9993E36, 0x4706816A, 0xBA3E2571, 0x7850C26C, 0x9CD0D89D)
      && DigestOf(s) == [0xA9, 0x99, 0x3E, 0x36, 0x47, 0x06, 0x81, 0x6A, 0xBA, 0x3E,
                         0x25, 0x71, 0x78, 0x50, 0xC2, 0x6C, 0x9C, 0xD0, 0xD8, 0x9D]
  {
  }
}
