/** What sparse files and images are, in bytes. */
module SparseLaws {
  import opened Bits
  import opened Options
  import opened SparseFormat
  import opened Simg2imgs
  import opened BlockQueues
  import opened SparseImages

  // ---------- A file of literal bytes ----------

  /** Magic number, version 1.0, sizes 28 and 12 of the headers, blocks of 4 bytes, 3 blocks, 2 chunks, no checksum. */
  const HEAD: seq<byte> :=
    [0x3a, 0xff, 0x26, 0xed, 0x01, 0x00, 0x00, 0x00, 0x1c, 0x00, 0x0c, 0x00, 0x04, 0x00,
     0x00, 0x00, 0x03, 0x00, 0x00, 0x00, 0x02, 0x00, 0x00, 0x00, 0x00, 0x00, 0x00, 0x00]

  /** One raw block: 16 bytes with the header. */
  const RAW_CHUNK: seq<byte> := [0xc1, 0xca, 0x00, 0x00, 0x01, 0x00, 0x00, 0x00, 0x10, 0x00, 0x00, 0x00]

  /** Two blocks to be skipped: 12 bytes with the header. */
  const SKIP_CHUNK: seq<byte> := [0xc3, 0xca, 0x00, 0x00, 0x02, 0x00, 0x00, 0x00, 0x0c, 0x00, 0x00, 0x00]

  lemma HeadIs(rest: seq<byte>)
    ensures DecodeHeader(HEAD + rest) == Header(0xed26ff3a, 1, 0, 28, 12, 4, 3, 2, 0)
  {
    var s := HEAD + rest;
    assert forall i :: 0 <= i < 28 ==> s[i] == HEAD[i];
  }

  lemma RawChunkIs(s: seq<byte>)
    requires s == RAW_CHUNK
    ensures DecodeChunk(s) == Chunk(0xCAC1, 1, 16)
  {
  }

  lemma SkipChunkIs(s: seq<byte>)
    requires s == SKIP_CHUNK
    ensures DecodeChunk(s) == Chunk(0xCAC3, 2, 12)
  {
  }

  /** The file stands for the data of its raw block and eight zeros. */
  lemma FileMeans(data: seq<byte>)
    requires |data| == 4
    ensures Meaning(HEAD + RAW_CHUNK + data + SKIP_CHUNK) == Some(Progress(56, 3, data + [0, 0, 0, 0, 0, 0, 0, 0]))
  {
    hide DecodeHeader, DecodeChunk, HEAD, RAW_CHUNK, SKIP_CHUNK, ReadChunks;
    var file := HEAD + RAW_CHUNK + data + SKIP_CHUNK;
    PartSizes();
    assert file == HEAD + (RAW_CHUNK + data + SKIP_CHUNK);
    HeadIs(RAW_CHUNK + data + SKIP_CHUNK);
    var p := FirstChunk(file, data);
    SecondChunk(file, data, p);
  }

  lemma PartSizes()
    ensures |HEAD| == 28 && |RAW_CHUNK| == |SKIP_CHUNK| == 12
  {
  }

  lemma FirstChunk(file: seq<byte>, data: seq<byte>) returns (p: Progress)
    requires |data| == 4 && file == HEAD + RAW_CHUNK + data + SKIP_CHUNK
    ensures p == Progress(44, 1, data) && ReadChunks(file, 28, Sizes(12, 4), 1) == Some(p)
  {
    hide DecodeChunk, HEAD, RAW_CHUNK, SKIP_CHUNK;
    PartSizes();
    assert file[28..40] == RAW_CHUNK && file[40..44] == data;
    RawChunkIs(file[28..40]);
    assert ReadChunks(file, 28, Sizes(12, 4), 0) == Some(Progress(28, 0, []));
    assert [] + data == data;
    p := Progress(44, 1, data);
  }

  lemma SecondChunk(file: seq<byte>, data: seq<byte>, p: Progress)
    requires |data| == 4 && file == HEAD + RAW_CHUNK + data + SKIP_CHUNK && p == Progress(44, 1, data)
    requires ReadChunks(file, 28, Sizes(12, 4), 1) == Some(p)
    ensures ReadChunks(file, 28, Sizes(12, 4), 2) == Some(Progress(56, 3, data + [0, 0, 0, 0, 0, 0, 0, 0]))
  {
    hide DecodeChunk, HEAD, RAW_CHUNK, SKIP_CHUNK;
    PartSizes();
    assert file[44..56] == SKIP_CHUNK;
    SkipChunkIs(file[44..56]);
    assert ZeroBytes(8) == [0, 0, 0, 0, 0, 0, 0, 0];
  }

  // ---------- Where the superblock and the descriptors are ----------

  /** Whatever the block size, the superblock is at byte 1024 of the image, and the descriptors are in the next block. */
  lemma HeadsShown(image: seq<byte>, sb: seq<byte>, desc: seq<byte>, bits: nat, pieces: seq<Piece>, s: set<Piece>)
    requires |sb| == 1024 && 10 <= bits <= 12 && Shows(image, s, bits)
    requires WithHeads(sb, desc, bits, pieces)[0] in s && WithHeads(sb, desc, bits, pieces)[1] in s
    ensures |image| >= 2048 && image[1024..2048] == sb
    ensures var at := if bits == 12 then 4096 else 2048; |image| >= at + |desc| && image[at..at + |desc|] == desc
  {
    hide Pow2, ZeroBytes;
    BlockSizes(bits);
    var p, q := WithHeads(sb, desc, bits, pieces)[0], WithHeads(sb, desc, bits, pieces)[1];
    assert ShowsPiece(image, p, bits) && ShowsPiece(image, q, bits);
    SuperIn(sb, bits);
    hide Shows, WithHeads, Super;
    if bits > 10 {
      assert image[1024..2048] == image[0..|p.data|][1024..2048];
    }
  }

  lemma BlockSizes(bits: nat)
    requires 10 <= bits <= 12
    ensures Pow2(bits) == if bits == 10 then 1024 else if bits == 11 then 2048 else 4096
  {
    Pow2Values();
  }

  lemma SuperIn(sb: seq<byte>, bits: nat)
    requires |sb| == 1024 && 10 <= bits <= 12
    ensures bits > 10 ==> Super(sb, bits).block == 0 && |Super(sb, bits).data| >= 2048 && Super(sb, bits).data[1024..2048] == sb
    ensures bits == 10 ==> Super(sb, bits).block == 1 && Super(sb, bits).data == sb
  {
  }
}
