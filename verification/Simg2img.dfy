/** Rebuilding an image from a sparse file. */
module Simg2imgs {
  import opened Bits
  import opened Options
  import opened LittleEndian
  import opened SparseFormat
  import opened Crc32s
  import opened SparseCrcs

  const COPY_BUF_SIZE: nat := 1024 * 1024
  const SEEK_LIMIT: nat := 0x8000_0000

  // ---------- The step of the second loop over a skipped region ----------

  /** How far the last of the seeks goes that make up `len`. */
  function LastSeek(len: nat): (s: nat)
    ensures len > 0 ==> s > 0
  {
    if len <= SEEK_LIMIT then len else LastSeek(len - SEEK_LIMIT)
  }

  /** The checksum of a skipped region goes on in steps of the block size or of the last seek. */
  function SkipStep(len: nat, size: nat): nat
  {
    if LastSeek(len) > size then size else LastSeek(len)
  }

  /** The steps of the second loop meet the end. */
  predicate StepsFit(len: nat, size: nat)
  {
    len > 0 ==> size > 0 && len % SkipStep(len, size) == 0
  }

  /** The second loop: `skip` is at most a block after the first step, and 64 bits must not be passed below zero. */
  predicate LoopEnds(len: nat, skip: nat, size: nat)
  {
    len == 0
    || var step := if skip > size then size else skip;
       0 < step <= len && LoopEnds(len - step, step, size)
  }

  lemma RestOf(len: nat, step: nat)
    requires 0 < step
    ensures if len >= step then len % step == (len - step) % step else len % step == len
  {
    if len >= step {
      var q, r := (len - step) / step, (len - step) % step;
      assert len - step == step * q + r;
      assert step * (q + 1) == step * q + step;
      Quotient(len, step, q + 1, r);
    } else {
      Quotient(len, step, 0, len);
    }
  }

  /** Equal steps arrive at zero exactly if they divide the length. */
  lemma {:induction false} EqualSteps(len: nat, step: nat, size: nat)
    requires 0 < step <= size
    ensures LoopEnds(len, step, size) <==> len % step == 0
  {
    RestOf(len, step);
    if len >= step {
      EqualSteps(len - step, step, size);
    }
  }

  /** The loop over a skipped region ends exactly if its steps fit. */
  lemma SkipLoopEndsIff(len: nat, size: nat)
    ensures LoopEnds(len, LastSeek(len), size) <==> StepsFit(len, size)
  {
    hide LastSeek;
    if len > 0 && size > 0 {
      var step := SkipStep(len, size);
      RestOf(len, step);
      if len >= step {
        EqualSteps(len - step, step, size);
      }
    }
  }

  lemma {:induction false} LastSeekIs(len: nat, size: nat, k: nat)
    requires len > 0 && size > 0 && SEEK_LIMIT == size * k && len % size == 0
    ensures LastSeek(len) >= size
  {
    if len <= SEEK_LIMIT {
      var q := len / size;
      assert len == size * q;
      MulMono(size, 1, if q >= 1 then q else 1);
    } else {
      var q := len / size;
      assert len == size * q && size * (q - k) == size * q - size * k;
      Quotient(len - SEEK_LIMIT, size, q - k, 0);
      LastSeekIs(len - SEEK_LIMIT, size, k);
    }
  }

  lemma {:induction false} PowerDivides(m: nat, n: nat) returns (k: nat)
    requires m <= n
    ensures Pow2(n) == Pow2(m) * k && k >= 1
  {
    if m == n {
      k := 1;
    } else {
      var j := PowerDivides(m, n - 1);
      k := 2 * j;
      assert Pow2(m) * (2 * j) == 2 * (Pow2(m) * j);
    }
  }

  /** If the block size is a power of two, every step is a block. */
  lemma PowerStep(blocks: nat, bits: nat)
    requires bits < 32 && blocks > 0
    ensures SkipStep(blocks * Pow2(bits), Pow2(bits)) == Pow2(bits)
  {
    var k := PowerDivides(bits, 31);
    assert Pow2(31) == SEEK_LIMIT by { Pow31(); }
    MulMono(Pow2(bits), 1, blocks);
    assert Pow2(bits) * blocks == blocks * Pow2(bits);
    Quotient(blocks * Pow2(bits), Pow2(bits), blocks, 0);
    LastSeekIs(blocks * Pow2(bits), Pow2(bits), k);
  }

  lemma Pow31()
    ensures Pow2(31) == SEEK_LIMIT
  {
    assert Pow2(7) == 128 && Pow2(15) == 256 * Pow2(7) && Pow2(23) == 256 * Pow2(15) && Pow2(31) == 256 * Pow2(23);
  }

  /** With blocks of 20 bytes, 107374183 of them are passed over in steps of 12 bytes, which do not meet the end. */
  lemma StepMissesTheEnd()
    ensures var len := 107374183 * 20; SkipStep(len, 20) == 12 && !LoopEnds(len, LastSeek(len), 20)
  {
    var len := 107374183 * 20;
    assert LastSeek(len) == LastSeek(12) == 12;
    SkipLoopEndsIff(len, 20);
  }

  // ---------- The program ----------

  /** A file cut off or filled up with zeros. */
  function Resize(s: seq<byte>, n: nat): (r: seq<byte>)
    ensures |r| == n
  {
    if n <= |s| then s[..n] else s + ZeroBytes(n - |s|)
  }

  function Start(h: Header): nat { if h.headerSize > HEADER_LEN then h.headerSize else HEADER_LEN }

  predicate Readable(input: seq<byte>)
  {
    |input| >= HEADER_LEN && DecodeHeader(input).magic == MAGIC && DecodeHeader(input).major == 1
  }

  /** What a sparse file stands for. */
  function Meaning(input: seq<byte>): Option<Progress>
  {
    if !Readable(input) then None
    else
      var h := DecodeHeader(input);
      ReadChunks(input, Start(h), Sizes(h.chunkSize, h.blockSize), h.totalChunks)
  }

  class Rebuilder {
    const input: seq<byte>
    const tab: seq<nat>
    var at: nat
    var out: seq<byte>
    var outPos: nat
    var crc32: nat

    constructor (input: seq<byte>, tab: seq<nat>)
      requires IsTable(tab)
      ensures this.input == input && this.tab == tab && at == 0 && Valid() && Image() == []
    {
      this.input, this.tab, at, out, outPos, crc32 := input, tab, 0, [], 0, 0;
      new;
      CrcNothing(tab, 0);
    }

    /** The output once it is filled up to the position reached. */
    ghost function Image(): seq<byte>
      reads this
    {
      Resize(out, outPos)
    }

    ghost predicate Valid()
      reads this
    {
      IsTable(tab) && |out| <= outPos && crc32 == Crc32(tab, 0, Image())
    }

    /** Writing behind the end fills the gap with zeros. */
    method Write(data: seq<byte>)
      requires |out| <= outPos
      modifies this`out, this`outPos
      ensures |out| <= outPos && Image() == old(Image()) + data
    {
      if data != [] {
        out := Resize(out, outPos) + data;
        outPos := outPos + |data|;
      } else {
        assert Image() + data == Image();
      }
    }

    /** Copies blocks, and stops if there are not enough. */
    method ProcessRawChunk(blocks: nat, size: nat) returns (ok: bool)
      requires Valid()
      modifies this
      ensures ok == (blocks * size == 0 || old(at) + blocks * size <= |input|)
      ensures ok && blocks * size == 0 ==> Valid() && at == old(at) && Image() == old(Image())
      ensures ok && blocks * size != 0 ==>
                Valid() && at == old(at) + blocks * size && Image() == old(Image()) + input[old(at)..at]
    {
      hide Crc32, IsTable, Resize;
      var len := blocks * size;
      ghost var image := Image();
      ghost var from := at;
      while len > 0
        invariant 0 <= len <= blocks * size && at == from + (blocks * size - len) && Valid()
        invariant len == blocks * size ==> Image() == image
        invariant len < blocks * size ==> at <= |input| && Image() == image + input[from..at]
      {
        var chunk := if len > COPY_BUF_SIZE then COPY_BUF_SIZE else len;
        if at + chunk > |input| {
          return false;
        }
        var copybuf := input[at..at + chunk];
        CrcConcat(tab, 0, Image(), copybuf);
        crc32 := SparseCrc32(tab, crc32, copybuf);
        Write(copybuf);
        assert input[from..at + chunk] == input[from..at] + copybuf;
        at := at + chunk;
        len := len - chunk;
      }
      return true;
    }

    /** Seeks, and returns how far the last one went. */
    method SeekOver(whole: nat) returns (skipChunk: nat)
      requires |out| <= outPos
      modifies this`outPos
      ensures |out| <= outPos && Image() == old(Image()) + ZeroBytes(whole) && skipChunk == LastSeek(whole)
    {
      var len := whole;
      skipChunk := 0;
      while len > 0
        invariant 0 <= len <= whole && outPos == old(outPos) + (whole - len)
        invariant if len > 0 then LastSeek(len) == LastSeek(whole) else skipChunk == LastSeek(whole)
      {
        skipChunk := if len > SEEK_LIMIT then SEEK_LIMIT else len;
        outPos := outPos + skipChunk;
        len := len - skipChunk;
      }
      SeekGoesOn(out, old(outPos), whole);
    }

    /** Accounts for skipped zeros in equal steps. */
    method CrcSkipped(whole: nat, size: nat, lastSeek: nat, ghost image: seq<byte>)
      requires IsTable(tab) && crc32 == Crc32(tab, 0, image) && lastSeek == LastSeek(whole) && StepsFit(whole, size)
      modifies this`crc32
      ensures crc32 == Crc32(tab, 0, image + ZeroBytes(whole))
    {
      hide Crc32, IsTable, LastSeek;
      var len, skipChunk := whole, lastSeek;
      assert image + ZeroBytes(0) == image;
      while len > 0
        invariant 0 <= len <= whole && crc32 == Crc32(tab, 0, image + ZeroBytes(whole - len))
        invariant len > 0 ==> size > 0 && skipChunk > 0 && len % SkipStep(whole, size) == 0
        invariant (if skipChunk > size then size else skipChunk) == SkipStep(whole, size)
      {
        skipChunk := if skipChunk > size then size else skipChunk;
        FullStep(len, skipChunk);
        ghost var before := image + ZeroBytes(whole - len);
        assert before + ZeroBytes(skipChunk) == image + ZeroBytes(whole - (len - skipChunk));
        CrcConcat(tab, 0, before, ZeroBytes(skipChunk));
        assert ZeroBytes(size)[..skipChunk] == ZeroBytes(skipChunk);
        crc32 := SparseCrc32(tab, crc32, ZeroBytes(size)[..skipChunk]);
        len := len - skipChunk;
      }
    }

    /** Passes over blocks that are zero. */
    method ProcessSkipChunk(blocks: nat, size: nat)
      requires Valid() && StepsFit(blocks * size, size)
      modifies this`outPos, this`crc32
      ensures Valid() && Image() == old(Image()) + ZeroBytes(blocks * size)
    {
      hide Crc32, IsTable, Resize, LastSeek, SkipStep;
      var skipChunk := SeekOver(blocks * size);
      CrcSkipped(blocks * size, size, skipChunk, old(Image()));
    }

    /** What has been read stands for what has been written. */
    ghost predicate Done(p: Progress)
      reads this
    {
      Valid() && at == p.at && Image() == p.image
    }

    /** What a chunk stands for, its header having been read. */
    method ProcessBody(c: Chunk, h: Header, ghost p: Progress) returns (ok: bool)
      requires Valid() && Image() == p.image
      requires c.kind == DONT_CARE && c.total == h.chunkSize ==> StepsFit(c.blocks * h.blockSize, h.blockSize)
      modifies this
      ensures var r := ReadBody(input, old(at), c, Sizes(h.chunkSize, h.blockSize), p);
              ok == r.Some? && (ok ==> Done(r.value) && p.blocks + c.blocks == r.value.blocks)
    {
      hide Crc32, IsTable, Resize, StepsFit;
      if c.kind == RAW {
        WordSum(h.chunkSize, c.blocks * h.blockSize);
        if c.total != (h.chunkSize + c.blocks * h.blockSize % U32) % U32 {
          return false;
        }
        ok := ProcessRawChunk(c.blocks, h.blockSize);
      } else if c.kind == DONT_CARE {
        if c.total != h.chunkSize {
          return false;
        }
        ProcessSkipChunk(c.blocks, h.blockSize);
        ok := true;
      } else {
        ok := false;
      }
    }

    /** One chunk, header and all. */
    method ProcessChunk(h: Header, ghost p: Progress) returns (ok: bool, blocks: nat)
      requires Done(p) && SkipFits(input, Sizes(h.chunkSize, h.blockSize), p)
      modifies this
      ensures var r := ReadChunk(input, Sizes(h.chunkSize, h.blockSize), p);
              ok == r.Some? && (ok ==> Done(r.value) && p.blocks + blocks == r.value.blocks)
    {
      hide Crc32, IsTable, Resize, DecodeChunk, StepsFit, ReadBody;
      if at + CHUNK_LEN > |input| {
        return false, 0;
      }
      var c := DecodeChunk(input[at..at + CHUNK_LEN]);
      at := at + CHUNK_LEN;
      if h.chunkSize > CHUNK_LEN {
        at := at + (h.chunkSize - CHUNK_LEN);
      }
      ok := ProcessBody(c, h, p);
      blocks := c.blocks;
    }

    /** All chunks. */
    method ProcessChunks(h: Header) returns (ok: bool, totalBlocks: nat)
      requires Valid() && at == Start(h) && Image() == []
      requires Steady(input, Start(h), Sizes(h.chunkSize, h.blockSize), h.totalChunks)
      modifies this
      ensures var r := ReadChunks(input, Start(h), Sizes(h.chunkSize, h.blockSize), h.totalChunks);
              ok == r.Some? && (ok ==> Done(r.value) && totalBlocks == r.value.blocks % U32)
    {
      hide Crc32, IsTable, Resize, ReadChunk, Steady, SkipFits;
      ghost var z := Sizes(h.chunkSize, h.blockSize);
      ghost var p := Progress(at, 0, []);
      totalBlocks := 0;
      var i := 0;
      while i < h.totalChunks
        invariant 0 <= i <= h.totalChunks && ReadChunks(input, Start(h), z, i) == Some(p) && Done(p)
        invariant totalBlocks == p.blocks % U32
      {
        var blocks;
        SteadyAt(input, Start(h), z, i, h.totalChunks);
        ok, blocks := ProcessChunk(h, p);
        if !ok {
          NoFurther(input, Start(h), z, i + 1, h.totalChunks);
          return false, 0;
        }
        p := ReadChunk(input, z, p).value;
        totalBlocks := (totalBlocks + blocks) % U32;
        i := i + 1;
      }
      return true, totalBlocks;
    }
  }

  /** Sums of words may wrap early or late. */
  lemma WordSum(a: nat, b: nat)
    ensures (a + b % U32) % U32 == (a + b) % U32
  {
  }

  ghost predicate PowerOfTwo(size: nat)
  {
    exists k: nat :: Pow2(k) == size
  }

  lemma StepFits(blocks: nat, size: nat)
    requires PowerOfTwo(size) && size < U32
    ensures StepsFit(blocks * size, size)
  {
    var k: nat :| Pow2(k) == size;
    if blocks > 0 {
      if k >= 32 {
        Pow2Mono(32, k);
        assert Pow2(32) == 2 * Pow2(31);
        Pow31();
      }
      PowerStep(blocks, k);
      assert blocks * size == size * blocks;
      Quotient(blocks * size, size, blocks, 0);
    }
  }

  /** If the next chunk skips blocks, the steps over them meet its end. */
  predicate SkipFits(file: seq<byte>, z: Sizes, p: Progress)
  {
    p.at + CHUNK_LEN <= |file| ==>
      var c := DecodeChunk(file[p.at..p.at + CHUNK_LEN]);
      c.kind == DONT_CARE && c.total == z.chunk ==> StepsFit(c.blocks * z.block, z.block)
  }

  /** So do the steps over all skipped blocks up to the `n`-th chunk. */
  predicate Steady(file: seq<byte>, start: nat, z: Sizes, n: nat)
  {
    n == 0
    || (Steady(file, start, z, n - 1)
        && (ReadChunks(file, start, z, n - 1).Some? ==> SkipFits(file, z, ReadChunks(file, start, z, n - 1).value)))
  }

  lemma {:induction false} SteadyAt(file: seq<byte>, start: nat, z: Sizes, i: nat, n: nat)
    requires Steady(file, start, z, n) && i < n
    ensures ReadChunks(file, start, z, i).Some? ==> SkipFits(file, z, ReadChunks(file, start, z, i).value)
  {
    if i < n - 1 {
      SteadyAt(file, start, z, i, n - 1);
    }
  }

  /** Block sizes that are powers of two are always met. */
  lemma {:induction false} PowerSteady(file: seq<byte>, start: nat, z: Sizes, n: nat)
    requires PowerOfTwo(z.block) && z.block < U32
    ensures Steady(file, start, z, n)
  {
    hide PowerOfTwo, StepsFit, ReadChunks, DecodeChunk;
    if n > 0 {
      PowerSteady(file, start, z, n - 1);
      if ReadChunks(file, start, z, n - 1).Some? {
        var at := ReadChunks(file, start, z, n - 1).value.at;
        if at + CHUNK_LEN <= |file| {
          StepFits(DecodeChunk(file[at..at + CHUNK_LEN]).blocks, z.block);
        }
      }
    }
  }

  lemma {:induction false} NoFurther(input: seq<byte>, start: nat, z: Sizes, n: nat, m: nat)
    requires ReadChunks(input, start, z, n).None? && n <= m
    ensures ReadChunks(input, start, z, m).None?
  {
    if n < m {
      NoFurther(input, start, z, n, m - 1);
    }
  }

  function Size(blocks: nat, size: nat): nat { blocks * size }

  /** The outcome of rebuilding: successful exactly if the file can be read, and the number of blocks and the checksum
      are right. */
  ghost predicate Outcome(input: seq<byte>, tab: seq<nat>, ok: bool, out: seq<byte>)
    requires IsTable(tab)
  {
    var m := Meaning(input);
    if m.None? then !ok
    else
      var h := DecodeHeader(input);
      && ok == (h.totalBlocks == m.value.blocks % U32 && h.checksum == Crc32(tab, 0, m.value.image))
      && out == Resize(m.value.image, Size(m.value.blocks % U32, h.blockSize))
  }

  /** The loops over the skipped blocks of a file end. */
  predicate Ends(input: seq<byte>)
  {
    Readable(input) ==>
      var h := DecodeHeader(input);
      Steady(input, Start(h), Sizes(h.chunkSize, h.blockSize), h.totalChunks)
  }

  /** Rebuilds the image. The loops over skipped blocks must end, as they do if the block size is a power of two. */
  method Simg2img(input: seq<byte>, tab: seq<nat>) returns (ok: bool, out: seq<byte>)
    requires IsTable(tab) && Ends(input)
    ensures Outcome(input, tab, ok, out)
  {
    hide Crc32, IsTable, ReadChunks, Resize, DecodeHeader, Steady;
    if |input| < HEADER_LEN {
      return false, [];
    }
    var h := DecodeHeader(input);
    if h.magic != MAGIC || h.major != 1 {
      return false, [];
    }
    var r := new Rebuilder(input, tab);
    r.at := HEADER_LEN;
    if h.headerSize > HEADER_LEN {
      r.at := h.headerSize;
    }
    var blocks;
    ok, blocks := r.ProcessChunks(h);
    if !ok {
      return false, r.out;
    }
    out := Resize(r.out, Size(blocks, h.blockSize));
    ResizeTwice(r.out, r.outPos, Size(blocks, h.blockSize));
    ok := h.totalBlocks == blocks && h.checksum == r.crc32;
  }

  lemma SeekGoesOn(out: seq<byte>, pos: nat, n: nat)
    requires |out| <= pos
    ensures Resize(out, pos + n) == Resize(out, pos) + ZeroBytes(n)
  {
  }

  lemma FullStep(len: nat, step: nat)
    requires 0 < step && 0 < len && len % step == 0
    ensures step <= len && (len - step) % step == 0
  {
    var q := len / step;
    assert len == step * q;
    MulMono(step, 1, if q >= 1 then q else 1);
    assert step * (q - 1) == step * q - step;
    Quotient(len - step, step, q - 1, 0);
  }

  /** Filling up the last gap and cutting off is one change of size. */
  lemma ResizeTwice(out: seq<byte>, pos: nat, n: nat)
    requires |out| <= pos
    ensures Resize(Resize(out, pos), n) == Resize(out, n)
  {
  }
}
