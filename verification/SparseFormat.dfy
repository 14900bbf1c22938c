/** Sparse images: a header, and chunks of raw blocks or of blocks to be skipped. */
module SparseFormat {
  import opened Bits
  import opened Options
  import opened LittleEndian

  const MAGIC: nat := 0xed26ff3a
  const RAW: nat := 0xCAC1
  const DONT_CARE: nat := 0xCAC3
  const HEADER_LEN: nat := 28
  const CHUNK_LEN: nat := 12
  const INT_LIMIT: nat := 0x8000_0000

  // ---------- Headers ----------

  datatype Header = Header(magic: nat, major: nat, minor: nat, headerSize: nat, chunkSize: nat, blockSize: nat,
                           totalBlocks: nat, totalChunks: nat, checksum: nat)

  predicate HeaderFits(h: Header)
  {
    && h.magic < U32 && h.major < U16 && h.minor < U16 && h.headerSize < U16 && h.chunkSize < U16
    && h.blockSize < U32 && h.totalBlocks < U32 && h.totalChunks < U32 && h.checksum < U32
  }

  function EncodeHeader(h: Header): (s: seq<byte>)
    ensures |s| == HEADER_LEN
  {
    Le32(h.magic) + Le16(h.major) + Le16(h.minor) + Le16(h.headerSize) + Le16(h.chunkSize) + Le32(h.blockSize)
      + Le32(h.totalBlocks) + Le32(h.totalChunks) + Le32(h.checksum)
  }

  function DecodeHeader(s: seq<byte>): (h: Header)
    requires |s| >= HEADER_LEN
    ensures HeaderFits(h)
  {
    Header(Get32(s, 0), Get16(s, 4), Get16(s, 6), Get16(s, 8), Get16(s, 10), Get32(s, 12), Get32(s, 16),
           Get32(s, 20), Get32(s, 24))
  }

  lemma HeaderRoundTrip(h: Header, rest: seq<byte>)
    requires HeaderFits(h)
    ensures DecodeHeader(EncodeHeader(h) + rest) == h
  {
    hide Le16, Le32, Get16, Get32;
    var s := EncodeHeader(h) + rest;
    assert s[0..4] == Le32(h.magic) && s[4..6] == Le16(h.major) && s[6..8] == Le16(h.minor);
    assert s[8..10] == Le16(h.headerSize) && s[10..12] == Le16(h.chunkSize) && s[12..16] == Le32(h.blockSize);
    assert s[16..20] == Le32(h.totalBlocks) && s[20..24] == Le32(h.totalChunks) && s[24..28] == Le32(h.checksum);
    Get32Le(s, 0, h.magic);
    Get16Le(s, 4, h.major);
    Get16Le(s, 6, h.minor);
    Get16Le(s, 8, h.headerSize);
    Get16Le(s, 10, h.chunkSize);
    Get32Le(s, 12, h.blockSize);
    Get32Le(s, 16, h.totalBlocks);
    Get32Le(s, 20, h.totalChunks);
    Get32Le(s, 24, h.checksum);
  }

  datatype Chunk = Chunk(kind: nat, blocks: nat, total: nat)

  predicate ChunkFits(c: Chunk)
  {
    c.kind < U16 && c.blocks < U32 && c.total < U32
  }

  function EncodeChunk(c: Chunk): (s: seq<byte>)
    ensures |s| == CHUNK_LEN
  {
    Le16(c.kind) + Le16(0) + Le32(c.blocks) + Le32(c.total)
  }

  function DecodeChunk(s: seq<byte>): (c: Chunk)
    requires |s| >= CHUNK_LEN
    ensures ChunkFits(c)
  {
    Chunk(Get16(s, 0), Get32(s, 4), Get32(s, 8))
  }

  lemma ChunkRoundTrip(c: Chunk)
    requires ChunkFits(c)
    ensures DecodeChunk(EncodeChunk(c)) == c
  {
    hide Le16, Le32, Get16, Get32;
    var s := EncodeChunk(c);
    assert s[0..2] == Le16(c.kind) && s[4..8] == Le32(c.blocks) && s[8..12] == Le32(c.total);
    Get16Le(s, 0, c.kind);
    Get32Le(s, 4, c.blocks);
    Get32Le(s, 8, c.total);
  }

  // ---------- What a sparse file stands for ----------

  function ZeroBytes(n: nat): (s: seq<byte>)
    ensures |s| == n
  {
    seq(n, _ => 0)
  }

  /** How far a file has been read, how many blocks the chunks had, and the image so far. */
  datatype Progress = Progress(at: nat, blocks: nat, image: seq<byte>)

  /** What the sizes in a file are: of a chunk header, of a block. */
  datatype Sizes = Sizes(chunk: nat, block: nat)

  /** A chunk of `c.blocks` blocks whose header ends at `body`. Skipped blocks are zero. */
  function ReadBody(file: seq<byte>, body: nat, c: Chunk, z: Sizes, p: Progress): (r: Option<Progress>)
    ensures r.Some? ==> r.value.at >= body
  {
    var len := c.blocks * z.block;
    if c.kind == RAW then
      if c.total != (z.chunk + len) % U32 then None
      else if len == 0 then Some(Progress(body, p.blocks + c.blocks, p.image))
      else if body + len > |file| then None
      else Some(Progress(body + len, p.blocks + c.blocks, p.image + file[body..body + len]))
    else if c.kind == DONT_CARE then
      if c.total != z.chunk then None
      else Some(Progress(body, p.blocks + c.blocks, p.image + ZeroBytes(len)))
    else None
  }

  function ReadChunk(file: seq<byte>, z: Sizes, p: Progress): (r: Option<Progress>)
    ensures r.Some? ==> r.value.at >= p.at + CHUNK_LEN
  {
    if p.at + CHUNK_LEN > |file| then None
    else ReadBody(file, p.at + if z.chunk > CHUNK_LEN then z.chunk else CHUNK_LEN,
                  DecodeChunk(file[p.at..p.at + CHUNK_LEN]), z, p)
  }

  /** The first `n` chunks. */
  function ReadChunks(file: seq<byte>, start: nat, z: Sizes, n: nat): (r: Option<Progress>)
    ensures r.Some? ==> r.value.at >= start
  {
    if n == 0 then Some(Progress(start, 0, []))
    else
      var p :- ReadChunks(file, start, z, n - 1);
      ReadChunk(file, z, p)
  }

  /** Chunks do not depend on what follows them, nor on what stands before the first one. */
  lemma {:induction false} ReadsSame(file: seq<byte>, more: seq<byte>, start: nat, z: Sizes, n: nat)
    requires start <= |file| <= |more| && more[start..|file|] == file[start..]
    requires ReadChunks(file, start, z, n).Some?
    ensures ReadChunks(more, start, z, n) == ReadChunks(file, start, z, n)
  {
    hide ReadBody, DecodeChunk;
    if n > 0 {
      ReadsSame(file, more, start, z, n - 1);
      var p := ReadChunks(file, start, z, n - 1).value;
      SameSlice(file, more, start, p.at, p.at + CHUNK_LEN);
      var c := DecodeChunk(file[p.at..p.at + CHUNK_LEN]);
      var body := p.at + if z.chunk > CHUNK_LEN then z.chunk else CHUNK_LEN;
      SameBody(file, more, start, body, c, z, p);
    }
  }

  lemma SameBody(file: seq<byte>, more: seq<byte>, start: nat, body: nat, c: Chunk, z: Sizes, p: Progress)
    requires start <= body && start <= |file| <= |more| && more[start..|file|] == file[start..]
    requires ReadBody(file, body, c, z, p).Some?
    ensures ReadBody(more, body, c, z, p) == ReadBody(file, body, c, z, p)
  {
    var len := c.blocks * z.block;
    if c.kind == RAW && len != 0 {
      SameSlice(file, more, start, body, body + len);
    }
  }

  lemma SameSlice(file: seq<byte>, more: seq<byte>, start: nat, i: nat, j: nat)
    requires start <= |file| <= |more| && more[start..|file|] == file[start..] && start <= i <= j <= |file|
    ensures more[i..j] == file[i..j]
  {
    forall k | i <= k < j
      ensures more[k] == file[k]
    {
      assert more[k] == more[start..|file|][k - start] && file[k] == file[start..][k - start];
    }
  }

  /** One more chunk at the end of the file. */
  lemma Appended(file: seq<byte>, start: nat, z: Sizes, n: nat, p: Progress, chunk: seq<byte>)
    requires start <= |file| && ReadChunks(file, start, z, n) == Some(p) && p.at == |file|
    ensures ReadChunks(file + chunk, start, z, n + 1) == ReadChunk(file + chunk, z, p)
  {
    ReadsSame(file, file + chunk, start, z, n);
  }

  lemma RawAppended(file: seq<byte>, z: Sizes, p: Progress, blocks: nat, data: seq<byte>)
    requires p.at == |file| && z.chunk == CHUNK_LEN && z.block > 0 && |data| == blocks * z.block
    requires CHUNK_LEN + |data| < U32 && blocks < U32
    ensures ReadChunk(file + EncodeChunk(Chunk(RAW, blocks, CHUNK_LEN + |data|)) + data, z, p)
         == Some(Progress(|file| + CHUNK_LEN + |data|, p.blocks + blocks, p.image + data))
  {
    hide EncodeChunk, DecodeChunk;
    var c := Chunk(RAW, blocks, CHUNK_LEN + |data|);
    var all := file + EncodeChunk(c) + data;
    var at := |file| + CHUNK_LEN;
    assert all[|file|..at] == EncodeChunk(c);
    ChunkRoundTrip(c);
    assert all[at..at + |data|] == data;
    if |data| == 0 {
      assert blocks == 0 by { NoBlocks(blocks, z.block); }
      assert p.image + data == p.image;
    }
  }

  lemma NoBlocks(n: nat, size: nat)
    requires size > 0 && n * size == 0
    ensures n == 0
  {
    assert n * size == if n > 0 then (n - 1) * size + size else 0;
  }

  lemma SkipAppended(file: seq<byte>, z: Sizes, p: Progress, blocks: nat)
    requires p.at == |file| && z.chunk == CHUNK_LEN && blocks < U32
    ensures ReadChunk(file + EncodeChunk(Chunk(DONT_CARE, blocks, CHUNK_LEN)), z, p)
         == Some(Progress(|file| + CHUNK_LEN, p.blocks + blocks, p.image + ZeroBytes(blocks * z.block)))
  {
    hide EncodeChunk, DecodeChunk;
    var c := Chunk(DONT_CARE, blocks, CHUNK_LEN);
    var all := file + EncodeChunk(c);
    assert all[|file|..|file| + CHUNK_LEN] == EncodeChunk(c);
    ChunkRoundTrip(c);
  }
}
