/** The writer of sparse images. */
module SparseWriters {
  import opened Bits
  import opened Options
  import opened LittleEndian
  import opened SparseFormat
  import opened Crc32s
  import opened SparseCrcs

  lemma {:induction false} MaskIsRest(v: nat, n: nat)
    ensures Mask(v, n) == v % Pow2(n)
  {
    if n > 0 {
      MaskIsRest(v / 2, n - 1);
      Halves(v, Pow2(n - 1));
    }
  }

  lemma Halves(v: nat, p: nat)
    requires p > 0
    ensures v % (2 * p) == v % 2 + 2 * (v / 2 % p)
  {
    var h := v / 2;
    var q, r := h / p, h % p;
    assert h == p * q + r;
    assert (2 * p) * q == 2 * (p * q);
    Quotient(v, 2 * p, q, v % 2 + 2 * r);
  }

  /** `(len + (size - 1)) & ~(size - 1)` for a size of 2^bits. */
  function RoundUp(len: nat, bits: nat): nat
  {
    var v := len + Pow2(bits) - 1;
    assert Mask(v, bits) <= v by { MaskIsRest(v, bits); }
    v - Mask(v, bits)
  }

  /** It is the least multiple that is not less. */
  lemma RoundUpIs(len: nat, bits: nat)
    ensures len <= RoundUp(len, bits) < len + Pow2(bits) && RoundUp(len, bits) % Pow2(bits) == 0
  {
    hide Mask, Pow2;
    var v := len + Pow2(bits) - 1;
    MaskIsRest(v, bits);
    Least(len, Pow2(bits), v, Mask(v, bits));
  }

  lemma Least(len: nat, p: nat, v: nat, r: nat)
    requires p > 0 && v == len + p - 1 && r == v % p
    ensures r <= v && len <= v - r < len + p && (v - r) % p == 0
  {
    var q := v / p;
    assert v == p * q + r;
    Quotient(v - r, p, q, 0);
  }

  lemma Multiples(a: nat, b: nat, p: nat)
    requires p > 0 && a % p == 0
    ensures (a + b) % p == b % p && (b % p == 0 ==> (a + b) / p == a / p + b / p)
  {
    var k, q, r := a / p, b / p, b % p;
    assert a == p * k && b == p * q + r;
    assert p * (k + q) == p * k + p * q;
    Quotient(a + b, p, k + q, r);
  }

  lemma DivMono(a: nat, b: nat, p: nat)
    requires a <= b && p > 0
    ensures a / p <= b / p
  {
    var k, q, r := a / p, b / p, b % p;
    assert a >= p * k && b == p * q + r;
    assert p * (q + 1) == p * q + p;
    if k > q {
      MulMono(p, q + 1, k);
    }
  }

  lemma Exact(a: nat, p: nat)
    requires p > 0 && a % p == 0
    ensures a / p * p == a && a / p <= a
  {
    var k := a / p;
    assert a == p * k;
    MulMono(k, 1, p);
    assert p * k == k * p;
  }

  lemma RawStep(file: seq<byte>, z: Sizes, n: nat, p: Progress, blocks: nat, body: seq<byte>)
    requires HEADER_LEN <= |file| && ReadChunks(file, HEADER_LEN, z, n) == Some(p) && p.at == |file|
    requires z.chunk == CHUNK_LEN && z.block > 0 && |body| == blocks * z.block
    requires CHUNK_LEN + |body| < U32 && blocks < U32
    ensures ReadChunks(file + EncodeChunk(Chunk(RAW, blocks, CHUNK_LEN + |body|)) + body, HEADER_LEN, z, n + 1)
         == Some(Progress(|file| + CHUNK_LEN + |body|, p.blocks + blocks, p.image + body))
  {
    hide ReadChunk, ReadChunks, EncodeChunk;
    var chunk := EncodeChunk(Chunk(RAW, blocks, CHUNK_LEN + |body|));
    assert file + (chunk + body) == file + chunk + body;
    Appended(file, HEADER_LEN, z, n, p, chunk + body);
    RawAppended(file, z, p, blocks, body);
  }

  function HeaderFor(len: nat, size: nat, chunks: nat, checksum: nat): Header
    requires size > 0
  {
    DivMono(0, len, size);
    Header(MAGIC, 1, 0, HEADER_LEN, CHUNK_LEN, size, len / size, chunks, checksum)
  }

  class SparseFile {
    /** The block size is 2^bits, the image has `len` bytes. */
    const bits: nat
    const len: nat
    const tab: seq<nat>
    var file: seq<byte>
    var curOutPtr: nat
    var chunkCnt: nat
    var crc32: nat
    /** What the chunks written so far stand for. */
    ghost var image: seq<byte>

    function BlockSize(): nat { Pow2(bits) }

    function Z(): Sizes { Sizes(CHUNK_LEN, Pow2(bits)) }

    function InitialHeader(): Header
    {
      HeaderFor(len, BlockSize(), 0, 0)
    }

    constructor (bits: nat, len: nat, tab: seq<nat>)
      requires IsTable(tab) && len / Pow2(bits) < U32
      ensures this.bits == bits && this.len == len && this.tab == tab && Valid() && image == [] && curOutPtr == 0 && chunkCnt == 0
    {
      this.bits, this.len, this.tab := bits, len, tab;
      curOutPtr, chunkCnt, crc32, image := 0, 0, 0, [];
      new;
      file := EncodeHeader(InitialHeader());
      CrcNothing(tab, 0);
    }

    ghost predicate Fixed()
    {
      IsTable(tab) && len / Pow2(bits) < U32
    }

    ghost predicate Valid()
      reads this
    {
      && Fixed() && |image| == curOutPtr && curOutPtr % BlockSize() == 0 && HEADER_LEN <= |file|
      && ReadChunks(file, HEADER_LEN, Z(), chunkCnt) == Some(Progress(|file|, curOutPtr / BlockSize(), image))
      && crc32 == Crc32(tab, 0, image)
    }

    /** The checksum goes on over zeros, at most a block at a time. */
    method CrcZeros(n: nat)
      requires IsTable(tab) && crc32 == Crc32(tab, 0, image)
      modifies this`crc32
      ensures crc32 == Crc32(tab, 0, image + ZeroBytes(n))
    {
      hide Crc32, IsTable;
      var skipLen := n;
      assert image + ZeroBytes(0) == image;
      while skipLen > 0
        invariant 0 <= skipLen <= n
        invariant crc32 == Crc32(tab, 0, image + ZeroBytes(n - skipLen))
      {
        var chunk := if skipLen > BlockSize() then BlockSize() else skipLen;
        ghost var before := image + ZeroBytes(n - skipLen);
        assert before + ZeroBytes(chunk) == image + ZeroBytes(n - (skipLen - chunk));
        CrcConcat(tab, 0, before, ZeroBytes(chunk));
        crc32 := SparseCrc32(tab, crc32, ZeroBytes(BlockSize())[..chunk]);
        assert ZeroBytes(BlockSize())[..chunk] == ZeroBytes(chunk);
        skipLen := skipLen - chunk;
      }
    }

    /** Blocks nobody cares about, unless the length is no number of blocks. */
    method EmitSkipChunk(skipLen: nat) returns (ok: bool)
      requires Valid() && skipLen / BlockSize() < U32
      modifies this
      ensures Valid() && ok == (skipLen % BlockSize() == 0)
      ensures if ok then image == old(image) + ZeroBytes(skipLen) && chunkCnt == old(chunkCnt) + 1 else unchanged(this)
    {
      hide Crc32, IsTable, ReadChunks, ReadChunk, EncodeChunk;
      if skipLen % BlockSize() != 0 {
        return false;
      }
      var chunk := EncodeChunk(Chunk(DONT_CARE, skipLen / BlockSize(), CHUNK_LEN));
      ghost var p := Progress(|file|, curOutPtr / BlockSize(), image);
      Appended(file, HEADER_LEN, Z(), chunkCnt, p, chunk);
      SkipAppended(file, Z(), p, skipLen / BlockSize());
      Exact(skipLen, BlockSize());
      Multiples(curOutPtr, skipLen, BlockSize());
      CrcZeros(skipLen);
      file := file + chunk;
      curOutPtr, chunkCnt := curOutPtr + skipLen, chunkCnt + 1;
      image := image + ZeroBytes(skipLen);
      return true;
    }

    method CrcData(data: seq<byte>, zeroLen: nat)
      requires IsTable(tab) && crc32 == Crc32(tab, 0, image)
      modifies this`crc32
      ensures crc32 == Crc32(tab, 0, image + (data + ZeroBytes(zeroLen)))
    {
      hide Crc32, IsTable;
      CrcConcat(tab, 0, image, data);
      crc32 := SparseCrc32(tab, crc32, data);
      assert image + (data + ZeroBytes(zeroLen)) == image + data + ZeroBytes(zeroLen);
      if zeroLen > 0 {
        CrcConcat(tab, 0, image + data, ZeroBytes(zeroLen));
        crc32 := SparseCrc32(tab, crc32, ZeroBytes(zeroLen));
      } else {
        assert image + data + ZeroBytes(0) == image + data;
      }
    }

    /** Raw blocks, the last one filled up with zeros. */
    method EmitRawChunk(data: seq<byte>)
      requires Valid() && |data| + BlockSize() < INT_LIMIT
      modifies this
      ensures Valid() && chunkCnt == old(chunkCnt) + 1
      ensures image == old(image) + data + ZeroBytes(RoundUp(|data|, bits) - |data|)
    {
      hide Crc32, IsTable, ReadChunks, ReadChunk, EncodeChunk;
      RoundUpIs(|data|, bits);
      var rndUpLen := RoundUp(|data|, bits);
      hide RoundUp, Mask, Pow2;
      var zeroLen := rndUpLen - |data|;
      Exact(rndUpLen, BlockSize());
      var blocks := rndUpLen / BlockSize();
      var chunk := EncodeChunk(Chunk(RAW, blocks, CHUNK_LEN + rndUpLen));
      ghost var body := data + ZeroBytes(zeroLen);
      RawStep(file, Z(), chunkCnt, Progress(|file|, curOutPtr / BlockSize(), image), blocks, body);
      Multiples(curOutPtr, rndUpLen, BlockSize());
      file := file + chunk + data;
      if zeroLen > 0 {
        file := file + ZeroBytes(zeroLen);
      }
      assert file == old(file) + chunk + body;
      CrcData(data, zeroLen);
      assert image + body == image + data + ZeroBytes(zeroLen);
      image := image + body;
      curOutPtr, chunkCnt := curOutPtr + rndUpLen, chunkCnt + 1;
    }

    /** Writes data at `off`, with a skip chunk for a gap before it. Fails behind the output pointer and off the block
        grid, without any change. */
    method WriteChunkRaw(off: nat, data: seq<byte>) returns (ok: bool)
      requires Valid() && |data| + BlockSize() < INT_LIMIT && off <= len
      modifies this
      ensures Valid() && ok == (off >= old(curOutPtr) && off % BlockSize() == 0)
      ensures if !ok then unchanged(this) else
                && image == old(image) + ZeroBytes(off - old(curOutPtr)) + data + ZeroBytes(RoundUp(|data|, bits) - |data|)
                && curOutPtr == off + RoundUp(|data|, bits) && chunkCnt <= old(chunkCnt) + 2
    {
      hide Crc32, IsTable, ReadChunks;
      RoundUpIs(|data|, bits);
      if off < curOutPtr {
        return false;
      }
      Multiples(curOutPtr, off - curOutPtr, BlockSize());
      if off > curOutPtr {
        DivMono(off - curOutPtr, len, BlockSize());
        var _ := EmitSkipChunk(off - curOutPtr);
      } else {
        assert image + ZeroBytes(0) == image;
      }
      if off % BlockSize() != 0 {
        return false;
      }
      if off != curOutPtr {
        return false;
      }
      EmitRawChunk(data);
      return true;
    }

    method WriteDataBlock(off: nat, data: seq<byte>) returns (ok: bool)
      requires Valid() && |data| + BlockSize() < INT_LIMIT
      modifies this
      ensures Valid() && ok == (off + |data| <= len && off >= old(curOutPtr) && off % BlockSize() == 0)
      ensures if !ok then unchanged(this) else
                && image == old(image) + ZeroBytes(off - old(curOutPtr)) + data + ZeroBytes(RoundUp(|data|, bits) - |data|)
                && curOutPtr == off + RoundUp(|data|, bits) && chunkCnt <= old(chunkCnt) + 2
    {
      if off + |data| > len {
        return false;
      }
      ok := WriteChunkRaw(off, data);
    }

    /** Like `WriteDataBlock`, but data that ends where the image ends is refused, and so is no data, which
        cannot be mapped. */
    method WriteDataFile(off: nat, data: seq<byte>) returns (ok: bool)
      requires Valid() && |data| + BlockSize() < INT_LIMIT
      modifies this
      ensures Valid() && ok == (data != [] && off + |data| < len && off >= old(curOutPtr) && off % BlockSize() == 0)
      ensures if !ok then unchanged(this) else
                && image == old(image) + ZeroBytes(off - old(curOutPtr)) + data + ZeroBytes(RoundUp(|data|, bits) - |data|)
                && curOutPtr == off + RoundUp(|data|, bits) && chunkCnt <= old(chunkCnt) + 2
    {
      if off + |data| >= len {
        return false;
      }
      if data == [] {
        return false;
      }
      ok := WriteChunkRaw(off, data);
    }

    /** Fills the image up with a skip chunk. */
    method PadOutputFile(length: nat)
      requires Valid()
      modifies this
      ensures Valid() && chunkCnt <= old(chunkCnt) + 1
      ensures if length <= len && length >= old(curOutPtr) && length % BlockSize() == 0
              then image == old(image) + ZeroBytes(length - old(curOutPtr)) else unchanged(this)
    {
      hide Crc32, IsTable, ReadChunks;
      if length > len || length < curOutPtr {
        return;
      }
      Multiples(curOutPtr, length - curOutPtr, BlockSize());
      if length > curOutPtr {
        DivMono(length - curOutPtr, len, BlockSize());
        var _ := EmitSkipChunk(length - curOutPtr);
      } else {
        assert image + ZeroBytes(0) == image;
      }
    }

    /** Updates the header with the number of chunks and the checksum. */
    method CloseOutputFile()
      requires Valid() && chunkCnt < U32 && BlockSize() < U32
      modifies this`file
      ensures Valid() && DecodeHeader(file)
                         == HeaderFor(len, BlockSize(), chunkCnt, Crc32(tab, 0, image))
    {
      hide Crc32, IsTable, ReadChunks, EncodeHeader, DecodeHeader;
      ghost var was := file;
      var h := HeaderFor(len, BlockSize(), chunkCnt, crc32);
      file := EncodeHeader(h) + file[HEADER_LEN..];
      HeaderRoundTrip(h, was[HEADER_LEN..]);
      ReadsSame(was, file, HEADER_LEN, Z(), chunkCnt);
    }
  }
}
