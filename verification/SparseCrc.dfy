/** The checksum of sparse images, which does not depend on how the image is cut into pieces. */
module SparseCrcs {
  import opened Bits
  import opened Crc32s

  function Crc32(tab: seq<nat>, crc: nat, s: seq<byte>): (r: nat)
    requires IsTable(tab) && crc < WORDS
    ensures r < WORDS
  {
    WordBound(crc, ONES);
    WordBound(Feed(tab, Xor(crc, ONES), s), ONES);
    Xor(Feed(tab, Xor(crc, ONES), s), ONES)
  }

  /** The checksum is continued over pieces. */
  lemma CrcConcat(tab: seq<nat>, crc: nat, s: seq<byte>, t: seq<byte>)
    requires IsTable(tab) && crc < WORDS
    ensures Crc32(tab, crc, s + t) == Crc32(tab, Crc32(tab, crc, s), t)
  {
    hide Feed, Xor;
    WordBound(crc, ONES);
    var start := Xor(crc, ONES);
    FeedConcat(tab, start, s, t);
    XorTwice(Feed(tab, start, s), ONES);
  }

  /** The checksum of nothing more. */
  lemma CrcNothing(tab: seq<nat>, crc: nat)
    requires IsTable(tab) && crc < WORDS
    ensures Crc32(tab, crc, []) == crc
  {
    hide Xor;
    XorTwice(crc, ONES);
  }

  /** With the table of CRC-32, it is the checksum of gzip files. */
  lemma ChecksumIsCrc(s: seq<byte>)
    ensures Crc32(Table(), 0, s) == Crc(s)
  {
    hide Feed, Table, Register;
    FeedIsRegister(ONES, s);
    assert Xor(0, ONES) == ONES;
  }

  /** The loop over a buffer. */
  method SparseCrc32(tab: seq<nat>, crcIn: nat, buf: seq<byte>) returns (crc: nat)
    requires IsTable(tab) && crcIn < WORDS
    ensures crc == Crc32(tab, crcIn, buf)
  {
    hide Step, Xor;
    WordBound(crcIn, ONES);
    crc := Xor(crcIn, ONES);
    var i := 0;
    assert buf[..0] == [];
    while i < |buf|
      invariant 0 <= i <= |buf| && crc == Feed(tab, Xor(crcIn, ONES), buf[..i])
    {
      assert buf[..i + 1][..i] == buf[..i];
      crc := Step(tab, crc, buf[i]);
      i := i + 1;
    }
    assert buf[..|buf|] == buf;
    crc := Xor(crc, ONES);
  }
}
