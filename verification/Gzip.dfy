/** Compression of a whole input. */
module Gzip {
  import opened Bits
  import opened LittleEndian
  import opened Crc32s
  import opened BitWriters
  import opened Options
  import opened Rfc1951
  import opened Rfc1952
  import opened BlockCoders
  import opened Hashing
  import opened HashChains
  import opened LongestMatches
  import opened Matchers
  import opened Sources
  import opened Progress
  import opened Repetitions
  import opened Deflating

  /** The three memory configurations. */
  datatype Memory = Small | Medium | Big {
    function HashBits(): (bits: nat)
      ensures Hashing.HashBits(bits)
    {
      match this
      case Small => 13
      case Medium => 14
      case Big => 15
    }

    function InBufSize(): nat
    {
      if this.Small? then 0x2000 else 0x8000
    }

    function OutBufSize(): nat
    {
      if this.Small? then 8192 else 16384
    }

    function LitBufSize(): (n: nat)
      ensures n % 8 == 0 && 0 < n <= 0x8000 && n <= InBufSize()
    {
      match this
      case Small => 0x2000
      case Medium => 0x4000
      case Big => 0x8000
    }

    function DistBufSize(): nat
    {
      if this.Small? then 0x2000 else 0x8000
    }
  }

  /** Empties the hash table. */
  method ClearHead(m: Matcher)
    requires m.Shape()
    modifies m.head
    ensures forall h :: 0 <= h < m.head.Length ==> m.head[h] == 0
  {
    var n := 0;
    while n < m.head.Length
      invariant 0 <= n <= m.head.Length && forall h :: 0 <= h < n ==> m.head[h] == 0
    {
      m.head[n] := 0;
      n := n + 1;
    }
  }

  /** Starts the rolling hash with the first two bytes. */
  method StartHash(m: Matcher)
    requires m.Shape() && m.strstart == 0
    modifies m`insH
    ensures Rolled(m.insH, m.window[0], m.window[1], m.bits)
  {
    hide UpdateHash, Agree;
    m.insH := 0;
    var j := 0;
    m.insH := UpdateHash(m.insH, m.window[0], m.bits);
    m.insH := UpdateHash(m.insH, m.window[1], m.bits);
    AgreeReflexive(m.insH, 10);
  }

  /** Reads the first piece of the input into the window. */
  method FirstRead(m: Matcher, src: Source)
    requires m.Shape() && src.Valid() && src.pos == 0 && !src.failed
    modifies m`strstart, m`blockStart, m`lookahead, m`eofile, m`base, m`noticed, m.window, src
    ensures m.Filled(src) && m.strstart == 0 && m.blockStart == 0 && m.base == 0 && m.noticed == 0
    ensures m.eofile <==> m.lookahead == 0
    ensures if m.eofile then src.failed || src.pos == |src.input| else !src.failed
  {
    hide Source.Accounted;
    m.strstart, m.blockStart, m.base, m.noticed := 0, 0, 0, 0;
    var n;
    ghost var added;
    n, added := src.Read(m.window, 0, 2 * WSIZE);
    m.eofile := n == 0 || n == -1;
    m.lookahead := if m.eofile then 0 else n;
    assert m.window[..m.lookahead] == added;
  }

  /** Initializes the search for matches. */
  method LmInit(m: Matcher, src: Source)
    requires m.Shape() && src.Valid() && src.pos == 0 && !src.failed && m.matchStart == 0 && m.searches == [] && !m.outside
    modifies m, m.window, m.prev, m.head, src
    ensures m.searches == [] && !m.outside && m.noticed == 0
    ensures m.Filled(src) && (m.lookahead > 0 ==> Ready(m, src)) && (m.lookahead == 0 ==> m.eofile)
    ensures m.strstart == 0 && m.blockStart == 0 && m.base == 0
    ensures m.eofile ==> src.failed || src.pos == |src.input|
  {
    hide Chains, Holding, Rolled, Source.Accounted;
    ClearHead(m);
    FirstRead(m, src);
    if m.eofile {
      return;
    }
    NoChains(m.window[..], m.prev[..], m.head[..], m.bits);
    while m.lookahead < MIN_LOOKAHEAD && !m.eofile
      invariant m.Filled(src) && Chains(m.window[..], m.prev[..], m.head[..], m.strstart, m.bits)
      invariant m.strstart == 0 && m.blockStart == 0 && m.base == 0 && m.lookahead > 0 && m.matchStart == 0
      invariant m.searches == [] && !m.outside && m.noticed == 0
      invariant m.eofile ==> src.failed || src.pos == |src.input|
      invariant m.eofile ==> m.lookahead <= WINDOW_SIZE - 2
      decreases MIN_LOOKAHEAD - m.lookahead, !m.eofile
    {
      ghost var slid := m.FillWindow(src);
    }
    StartHash(m);
  }

  /** A coder that has sent nothing after the head of the file. */
  method NewCoder(memory: Memory, head: seq<byte>) returns (c: BlockCoder)
    ensures fresh(c.Footprint()) && Coded(c, [], []) && c.tb.HasRoom() && c.w.head == head
  {
    hide Decoding, c.Shape, c.Ready;
    c := NewBlockCoder(head, memory.OutBufSize(), memory.InBufSize(), memory.LitBufSize(), memory.DistBufSize());
    DecodingStarts();
    NothingToExpand([]);
    RoomAtStart(c);
  }

  lemma RoomAtStart(c: BlockCoder)
    requires c.Shape() && c.Ready([]) && c.tb.litBufSize > 1 && c.tb.distBufSize > 0
    ensures c.tb.HasRoom() && c.tb.tokens == []
  {
  }

  // ---------- The file ----------

  const DEFLATE_FLAGS: nat := 2
  const UNIX: nat := 3

  /** What stands before the blocks: identification, method, no flags, the time, how it was compressed, and where. */
  function Head(timeStamp: nat): (s: seq<byte>)
    ensures |s| == 10
  {
    Le32(0x0008_8b1f) + Le32(timeStamp % U32) + [DEFLATE_FLAGS, UNIX]
  }

  /** The file is the head, blocks that decode to `text`, and the checksum and size of the text. */
  ghost predicate Member(file: seq<byte>, timeStamp: nat, blocks: seq<byte>, text: seq<byte>)
  {
    && Inflates(ByteBits(blocks), text)
    && file == Head(timeStamp) + blocks + Le32(Crc(text)) + Le32(|text| % U32)
  }

  lemma HeadBytes(timeStamp: nat)
    ensures Head(timeStamp)[..4] == [0x1f, 0x8b, 8, 0]
  {
    assert Le32(0x0008_8b1f) == [0x1f, 0x8b, 8, 0];
  }

  /** Such a file decodes to the text, with the right checksum and size. */
  lemma MemberDecodes(file: seq<byte>, timeStamp: nat, blocks: seq<byte>, text: seq<byte>)
    requires Member(file, timeStamp, blocks, text)
    ensures Gunzip(file) == Some(text)
  {
    hide Head, Crc, InflateFrom, ByteBits, Le32, Get32;
    HeadBytes(timeStamp);
    var head, crc, size := Head(timeStamp), Le32(Crc(text)), Le32(|text| % U32);
    assert file[..4] == head[..4];
    assert file[0] == head[..4][0] && file[1] == head[..4][1] && file[2] == head[..4][2] && file[3] == head[..4][3];
    assert file[10..] == blocks + (crc + size);
    ByteBitsAppend(blocks, crc + size);
    var p: nat :| AlignUp(p) == |ByteBits(blocks)| && EndsAt(ByteBits(blocks), text, p);
    var at := 10 + |blocks|;
    assert InflateFrom(ByteBits(file[10..]), 0, []) == Some((text, p)) && TrailerAt(p) == at;
    assert file[at..at + 4] == crc && file[at + 4..at + 8] == size;
    Get32Le(file, at, Crc(text));
    Get32Le(file, at + 4, |text| % U32);
  }

  /** Compresses the input with a new matcher and a new coder. */
  method Run(m: Matcher, c: BlockCoder, src: Source, ghost timeStamp: nat) returns (out: seq<byte>, ghost blocks: seq<byte>)
    requires Deflating.Apart(m, src, c) && m.Shape() && src.Valid() && src.pos == 0 && !src.failed && m.matchStart == 0
    requires m.searches == [] && !m.outside
    requires Coded(c, [], []) && c.tb.HasRoom() && c.w.head == Head(timeStamp)
    modifies m, m.window, m.prev, m.head, src, c.Footprint()
    ensures src.Valid() && Member(out, timeStamp, blocks, src.Taken()) && (src.failed || src.Taken() == src.input)
    ensures m.eofile && m.base + m.strstart == |src.Taken()| && exists n :: Course(PlaceOf(m, src), src.input, n)
  {
    hide Inflates, ByteBits, Coded, Holding, Ready, Head, Crc, Table, Register, Le32, Source.Accounted, Course;
    LmInit(m, src);
    NothingPending(src.Taken(), 0, 0, m.matchStart);
    CourseStarts(PlaceOf(m, src), src.input);
    assert src.Taken()[..0] == [];
    var bytes := Deflate(m, c, src);
    ghost var n :| Course(PlaceOf(m, src), src.input, n);
    blocks := c.w.Out();
    CrcOfTaken(src);
    ghost var last := PlaceOf(m, src);
    out := WriteTrailer(c.w, src.crc, src.isize);
    assert PlaceOf(m, src) == last && Course(last, src.input, n);
  }

  lemma CourseStarts(p: Place, input: seq<byte>)
    requires p.base == 0 && p.strstart == 0 && p.searches == [] && !p.outside && p.noticed == 0
    ensures Course(p, input, 2)
  {
    assert !Beyond([], 0);
  }

  lemma CrcOfTaken(src: Source)
    requires src.Valid()
    ensures src.crc < WORDS && Xor(src.crc, ONES) == Crc(src.Taken()) && src.isize == |src.Taken()| % U32
  {
    hide Register, Table, Xor;
  }

  /** Writes the complement of the checksum register and the size, and what is left in the output buffer. */
  method WriteTrailer(w: BitWriter, crc: nat, isize: nat) returns (out: seq<byte>)
    requires w.Valid() && crc < WORDS && isize < U32
    modifies w, w.outbuf
    ensures out == w.head + old(w.Out()) + Le32(Xor(crc, ONES)) + Le32(isize)
  {
    hide Le32, Xor;
    WordBound(crc, ONES);
    w.Put32bit(Xor(crc, ONES));
    w.Put32bit(isize);
    assert w.All() == w.head + w.Out();
    w.FlushOutbuf();
    out := w.written;
  }

  /** Compresses `input`, which arrives in the pieces that `plan` describes. What a decoder
      recovers from the file is what could be read: everything, unless a read failed. `last` tells where the matcher ended
      and what it searched for. */
  method Zip(memory: Memory, timeStamp: nat, input: seq<byte>, plan: seq<int>) returns (out: seq<byte>, read: nat, ghost last: Place)
    ensures read <= |input| && Gunzip(out) == Some(input[..read])
    ensures (forall i :: 0 <= i < |plan| ==> plan[i] >= 0) ==> Gunzip(out) == Some(input) && !last.failed && read == |input|
    ensures last.text == input[..read] && Finished(last, input)
  {
    hide Gunzip, Coded, Head, Table, Register, Member, Course;
    var tab := FillTable();
    var src := new Source(input, plan, tab);
    var m := new Matcher(memory.HashBits());
    var c := NewCoder(memory, Head(timeStamp));
    ghost var blocks;
    out, blocks := Run(m, c, src, timeStamp);
    MemberDecodes(out, timeStamp, blocks, src.Taken());
    read := src.pos;
    last := PlaceOf(m, src);
  }

  /** The place at the end of a run. */
  ghost predicate Finished(last: Place, input: seq<byte>)
  {
    last.eofile && last.base + last.strstart == |last.text| && exists n :: Course(last, input, n)
  }
}
