/** Numbers in files, least significant byte first. */
module LittleEndian {
  import opened Bits

  const U16: nat := 0x1_0000
  const U32: nat := 0x1_0000_0000

  function Le16(v: nat): (s: seq<byte>)
    ensures |s| == 2
  {
    [v % 256, v / 256 % 256]
  }

  function Le32(v: nat): (s: seq<byte>)
    ensures |s| == 4
  {
    Le16(v % U16) + Le16(v / U16)
  }

  function Get16(s: seq<byte>, i: nat): (v: nat)
    requires i + 2 <= |s|
    ensures v < U16
  {
    s[i] as nat + 256 * s[i + 1] as nat
  }

  function Get32(s: seq<byte>, i: nat): (v: nat)
    requires i + 4 <= |s|
    ensures v < U32
  {
    Get16(s, i) + U16 * Get16(s, i + 2)
  }

  lemma Get16Le(s: seq<byte>, i: nat, v: nat)
    requires i + 2 <= |s| && s[i..i + 2] == Le16(v) && v < U16
    ensures Get16(s, i) == v
  {
    assert s[i] == s[i..i + 2][0] && s[i + 1] == s[i..i + 2][1];
  }

  lemma Get32Le(s: seq<byte>, i: nat, v: nat)
    requires i + 4 <= |s| && s[i..i + 4] == Le32(v) && v < U32
    ensures Get32(s, i) == v
  {
    assert s[i..i + 2] == s[i..i + 4][..2] && s[i + 2..i + 4] == s[i..i + 4][2..];
    Get16Le(s, i, v % U16);
    Get16Le(s, i + 2, v / U16);
  }
}
