/** Instructions in an LZO1X stream, and rewritings that keep what the stream decodes to. */
module LzoStreams {
  import opened Bits
  import opened Options
  import opened Rfc1951
  import opened Lzo1x

  // ---------- Heads do not depend on what follows them ----------

  lemma {:induction false} ExtensionLocal(s: seq<byte>, t: seq<byte>, i: nat, value: nat, k: nat)
    requires Extension(s, i, value).Some? && Extension(s, i, value).value.1 <= k <= |s| && k <= |t| && t[..k] == s[..k]
    ensures Extension(t, i, value) == Extension(s, i, value)
    decreases |s| - i
  {
    assert t[i] == t[..k][i] == s[..k][i] == s[i];
    if s[i] == 0 {
      ExtensionLocal(s, t, i + 1, value + 255, k);
    }
  }

  lemma LengthLocal(s: seq<byte>, t: seq<byte>, v: nat, base: nat, k: nat)
    requires Length(s, v, base).Some? && Length(s, v, base).value.1 <= k <= |s| && k <= |t| && t[..k] == s[..k]
    ensures Length(t, v, base) == Length(s, v, base)
  {
    if v == 0 {
      ExtensionLocal(s, t, 1, base, k);
    }
  }

  /** Changing the low two bits of a byte. */
  function SetLow(b: byte, n: nat): (r: byte)
    requires n < 4
    ensures r % 4 == n && r as int / 4 == b as int / 4
  {
    b / 4 * 4 + n
  }

  /** `t` begins with the `k` bytes of `s`, but for the low bits of the last byte but one. */
  ghost predicate SameHead(s: seq<byte>, t: seq<byte>, k: nat)
  {
    && 2 <= k <= |s| && k <= |t| && t[..k - 2] == s[..k - 2] && t[k - 1] == s[k - 1]
    && t[k - 2] as int / 4 == s[k - 2] as int / 4
  }

  /** The low bits of the last byte but one are not part of a match. */
  lemma SameMatch(s: seq<byte>, t: seq<byte>, mode: Mode, k: nat)
    requires SameHead(s, t, k) && ReadHead(s, mode).Some? && ReadHead(s, mode).value.size == k
    requires ReadHead(s, mode).value.MatchHead?
    ensures ReadHead(t, mode) == ReadHead(s, mode)
  {
    hide ReadHead, SameHead;
    if s[0] >= 64 || s[0] < 16 {
      SameShort(s, t, mode, k);
    } else {
      SameLong(s, t, mode, k);
    }
  }

  lemma SameShort(s: seq<byte>, t: seq<byte>, mode: Mode, k: nat)
    requires SameHead(s, t, k) && ReadHead(s, mode).Some? && ReadHead(s, mode).value.size == k
    requires ReadHead(s, mode).value.MatchHead? && (s[0] >= 64 || s[0] < 16)
    ensures ReadHead(t, mode) == ReadHead(s, mode)
  {
    hide Length;
    assert k == 2;
    SameOpcode(s[0], t[0]);
  }

  lemma SameLong(s: seq<byte>, t: seq<byte>, mode: Mode, k: nat)
    requires SameHead(s, t, k) && ReadHead(s, mode).Some? && ReadHead(s, mode).value.size == k
    requires ReadHead(s, mode).value.MatchHead? && 16 <= s[0] < 64
    ensures ReadHead(t, mode) == ReadHead(s, mode)
  {
    hide Length, Offset;
    SameOffset(s, t, k);
    assert k - 2 >= 1;
    assert t[0] == t[..k - 2][0] == s[..k - 2][0] == s[0];
    if s[0] >= 32 {
      LengthLocal(s, t, s[0] % 32, 31, k - 2);
    } else {
      LengthLocal(s, t, s[0] % 8, 7, k - 2);
    }
  }

  lemma SameOffset(s: seq<byte>, t: seq<byte>, k: nat)
    requires SameHead(s, t, k)
    ensures Offset(t, k - 2) == Offset(s, k - 2)
  {
  }

  lemma SameOpcode(b: byte, c: byte)
    requires b as int / 4 == c as int / 4
    ensures b >= 64 <==> c >= 64
    ensures b < 16 <==> c < 16
    ensures b as int / 32 == c as int / 32
  {
    assert b as int / 32 == b as int / 4 / 8;
    assert c as int / 32 == c as int / 4 / 8;
  }

  lemma RunLocal(s: seq<byte>, t: seq<byte>, k: nat)
    requires ReadHead(s, Top).Some? && ReadHead(s, Top).value.RunHead? && ReadHead(s, Top).value.size == k
    requires k <= |t| && t[..k] == s[..k]
    ensures ReadHead(t, Top) == ReadHead(s, Top)
  {
    assert t[0] == t[..k][0] == s[..k][0] == s[0];
    LengthLocal(s, t, s[0], 15, k);
  }

  /** `m` is the head of a match, whatever follows. */
  ghost predicate IsMatch(m: seq<byte>, mode: Mode, length: nat, distance: nat)
  {
    |m| >= 2 && forall rest: seq<byte> :: ReadHead(m + rest, mode) == Some(MatchHead(length, distance, |m|))
  }

  /** `h` is the head of a literal run, whatever follows. */
  ghost predicate IsRun(h: seq<byte>, count: nat)
  {
    |h| >= 1 && forall rest: seq<byte> :: ReadHead(h + rest, Top) == Some(RunHead(count, |h|))
  }

  lemma MatchThere(s: seq<byte>, mode: Mode, length: nat, distance: nat, k: nat)
    requires ReadHead(s, mode) == Some(MatchHead(length, distance, k))
    ensures 2 <= k <= |s| && IsMatch(s[..k], mode, length, distance)
  {
    hide ReadHead;
    forall rest: seq<byte>
      ensures ReadHead(s[..k] + rest, mode) == Some(MatchHead(length, distance, k))
    {
      var t := s[..k] + rest;
      assert t[..k - 2] == s[..k - 2];
      SameMatch(s, t, mode, k);
    }
  }

  lemma RunThere(s: seq<byte>, count: nat, k: nat)
    requires ReadHead(s, Top) == Some(RunHead(count, k))
    ensures 1 <= k <= |s| && IsRun(s[..k], count)
  {
    hide ReadHead;
    forall rest: seq<byte>
      ensures ReadHead(s[..k] + rest, Top) == Some(RunHead(count, k))
    {
      var t := s[..k] + rest;
      assert t[..k] == s[..k];
      RunLocal(s, t, k);
    }
  }

  /** The head of a match, with another number of literals to follow. */
  function Followed(m: seq<byte>, n: nat): (r: seq<byte>)
    requires |m| >= 2 && n < 4
    ensures |r| == |m|
  {
    m[|m| - 2 := SetLow(m[|m| - 2], n)]
  }

  lemma FollowedIsMatch(m: seq<byte>, mode: Mode, length: nat, distance: nat, n: nat)
    requires IsMatch(m, mode, length, distance) && n < 4
    ensures IsMatch(Followed(m, n), mode, length, distance) && Followed(m, n)[|m| - 2] % 4 == n
  {
    hide ReadHead, SetLow;
    var m' := Followed(m, n);
    forall rest: seq<byte>
      ensures ReadHead(m' + rest, mode) == Some(MatchHead(length, distance, |m'|))
    {
      assert ReadHead(m + rest, mode) == Some(MatchHead(length, distance, |m|));
      assert (m' + rest)[..|m| - 2] == (m + rest)[..|m| - 2];
      SameMatch(m + rest, m' + rest, mode, |m|);
    }
  }

  /** A short run has a head of one byte. */
  lemma ShortRun(count: nat)
    requires 4 <= count <= 18
    ensures IsRun([(count - 3) as byte], count)
  {
    var h: seq<byte> := [count - 3];
    forall rest: seq<byte>
      ensures ReadHead(h + rest, Top) == Some(RunHead(count, 1))
    {
      assert (h + rest)[0] == count - 3;
    }
  }

  // ---------- Prefixes that lead from one state of the decoder to another ----------

  ghost predicate Leads(b: seq<byte>, mode: Mode, out: seq<byte>, mode': Mode, out': seq<byte>)
  {
    forall rest: seq<byte> :: Decode(b + rest, mode, out) == Decode(rest, mode', out')
  }

  lemma LeadsNowhere(mode: Mode, out: seq<byte>)
    ensures Leads([], mode, out, mode, out)
  {
    forall rest: seq<byte>
      ensures Decode([] + rest, mode, out) == Decode(rest, mode, out)
    {
      assert [] + rest == rest;
    }
  }

  lemma LeadsOn(b: seq<byte>, c: seq<byte>, mode: Mode, out: seq<byte>, mode': Mode, out': seq<byte>, mode'': Mode, out'': seq<byte>)
    requires Leads(b, mode, out, mode', out') && Leads(c, mode', out', mode'', out'')
    ensures Leads(b + c, mode, out, mode'', out'')
  {
    hide Decode;
    forall rest: seq<byte>
      ensures Decode(b + c + rest, mode, out) == Decode(rest, mode'', out'')
    {
      Associate(b, c, rest);
      assert Decode(b + (c + rest), mode, out) == Decode(c + rest, mode', out');
    }
  }

  lemma RunLeads(h: seq<byte>, lits: seq<byte>, out: seq<byte>)
    requires IsRun(h, |lits|)
    ensures Leads(h + lits, Top, out, AfterRun, out + lits)
  {
    hide ReadHead;
    forall rest: seq<byte>
      ensures Decode(h + lits + rest, Top, out) == Decode(rest, AfterRun, out + lits)
    {
      var s := h + lits + rest;
      Associate(h, lits, rest);
      assert ReadHead(s, Top) == Some(RunHead(|lits|, |h|));
      assert s[|h|..|h| + |lits|] == lits && s[|h| + |lits|..] == rest;
    }
  }

  lemma MatchLeads(m: seq<byte>, mode: Mode, length: nat, distance: nat, tail: seq<byte>, out: seq<byte>)
    requires IsMatch(m, mode, length, distance) && 1 <= distance <= |out| && m[|m| - 2] % 4 == |tail|
    ensures Leads(m + tail, mode, out, ModeAfter(|tail|), CopyBack(out, length, distance) + tail)
  {
    hide ReadHead, CopyBack, ModeAfter;
    forall rest: seq<byte>
      ensures Decode(m + tail + rest, mode, out) == Decode(rest, ModeAfter(|tail|), CopyBack(out, length, distance) + tail)
    {
      var s := m + tail + rest;
      Associate(m, tail, rest);
      assert ReadHead(s, mode) == Some(MatchHead(length, distance, |m|));
      assert s[|m| - 2] == m[|m| - 2];
      assert s[|m|..|m| + |tail|] == tail && s[|m| + |tail|..] == rest;
    }
  }
}
