/** From queued pieces to a sparse file and back to the image. */
module SparseImages {
  import opened Bits
  import opened LittleEndian
  import opened SparseFormat
  import opened Crc32s
  import opened SparseCrcs
  import opened BlockQueues
  import opened SparseWriters
  import opened Simg2imgs

  // ---------- What an image shows ----------

  function Off(p: Piece, bits: nat): nat { p.block * Pow2(bits) }

  function End(p: Piece, bits: nat): nat { Off(p, bits) + RoundUp(|p.data|, bits) }

  /** The pieces take different blocks. */
  ghost predicate Apart(s: seq<Piece>, bits: nat)
  {
    Distinct(s) && forall p, q :: p in s && q in s && p.block < q.block ==> End(p, bits) <= Off(q, bits)
  }

  predicate Covers(p: Piece, bits: nat, i: int)
  {
    Off(p, bits) <= i < Off(p, bits) + |p.data|
  }

  predicate ShowsPiece(image: seq<byte>, p: Piece, bits: nat)
  {
    Off(p, bits) + |p.data| <= |image| && image[Off(p, bits)..Off(p, bits) + |p.data|] == p.data
  }

  ghost predicate Covered(s: set<Piece>, bits: nat, i: int)
  {
    exists p :: p in s && Covers(p, bits, i)
  }

  /** The image shows all these pieces, and zeros elsewhere. */
  ghost predicate Shows(image: seq<byte>, s: set<Piece>, bits: nat)
  {
    && (forall p :: p in s ==> ShowsPiece(image, p, bits))
    && (forall i :: 0 <= i < |image| && !Covered(s, bits, i) ==> image[i] == 0)
  }

  /** Only one image of a given length does. */
  lemma ShowsUnique(a: seq<byte>, b: seq<byte>, s: set<Piece>, bits: nat)
    requires Shows(a, s, bits) && Shows(b, s, bits) && |a| == |b|
    ensures a == b
  {
    forall i | 0 <= i < |a|
      ensures a[i] == b[i]
    {
      if Covered(s, bits, i) {
        var p :| p in s && Covers(p, bits, i);
        ShownAt(a, p, bits, i);
        ShownAt(b, p, bits, i);
      }
    }
  }

  lemma ShownAt(a: seq<byte>, p: Piece, bits: nat, i: nat)
    requires ShowsPiece(a, p, bits) && Covers(p, bits, i)
    ensures a[i] == p.data[i - Off(p, bits)]
  {
    assert a[i] == a[Off(p, bits)..Off(p, bits) + |p.data|][i - Off(p, bits)];
  }

  /** What the writer does with data at the next free place or behind it. */
  lemma StepShows(image: seq<byte>, s: set<Piece>, p: Piece, gap: nat, pad: nat, bits: nat)
    requires Shows(image, s, bits) && Off(p, bits) == |image| + gap
    ensures Shows(image + ZeroBytes(gap) + p.data + ZeroBytes(pad), s + {p}, bits)
  {
    var more := image + ZeroBytes(gap) + p.data + ZeroBytes(pad);
    forall q | q in s + {p}
      ensures ShowsPiece(more, q, bits)
    {
      if q in s {
        assert ShowsPiece(image, q, bits);
        assert more[Off(q, bits)..Off(q, bits) + |q.data|] == image[Off(q, bits)..Off(q, bits) + |q.data|];
      }
    }
    forall i | 0 <= i < |more| && !Covered(s + {p}, bits, i)
      ensures more[i] == 0
    {
      assert p in s + {p} && !Covers(p, bits, i);
      assert forall q :: q in s ==> q in s + {p};
    }
  }

  lemma ZerosShow(image: seq<byte>, s: set<Piece>, n: nat, bits: nat)
    requires Shows(image, s, bits)
    ensures Shows(image + ZeroBytes(n), s, bits)
  {
    var more := image + ZeroBytes(n);
    forall q | q in s
      ensures ShowsPiece(more, q, bits)
    {
      assert ShowsPiece(image, q, bits);
      assert more[Off(q, bits)..Off(q, bits) + |q.data|] == image[Off(q, bits)..Off(q, bits) + |q.data|];
    }
  }

  // ---------- Which pieces are written ----------

  /** Pieces from files must have bytes and end before the image does. */
  predicate Accepted(p: Piece, bits: nat, len: nat)
  {
    if p.fromFile then p.data != [] && Off(p, bits) + |p.data| < len else Off(p, bits) + |p.data| <= len
  }

  ghost function AllAccepted(s: seq<Piece>, bits: nat, len: nat): set<Piece>
  {
    set p | p in s && Accepted(p, bits, len)
  }

  predicate AllZero(s: seq<byte>)
  {
    forall i :: 0 <= i < |s| ==> s[i] == 0
  }

  /** A piece that is shown: it fits, and it is not from a file and up to the end of the image, or it is all zeros. */
  predicate Expected(p: Piece, bits: nat, len: nat)
  {
    && Off(p, bits) + |p.data| <= len
    && (p.fromFile && Off(p, bits) + |p.data| == len ==> AllZero(p.data))
  }

  /** Pieces that take different blocks do not overlap. */
  lemma NoOverlap(s: seq<Piece>, bits: nat, p: Piece, q: Piece, i: nat)
    requires Apart(s, bits) && p in s && q in s && Covers(p, bits, i) && Covers(q, bits, i)
    ensures p == q
  {
    RoundUpIs(|p.data|, bits);
    RoundUpIs(|q.data|, bits);
    if p.block == q.block {
      var j :| 0 <= j < |s| && s[j] == p;
      var k :| 0 <= k < |s| && s[k] == q;
    }
  }

  /** The image that shows the accepted pieces shows all of them exactly if each is expected. */
  lemma ShowsAllIff(image: seq<byte>, s: seq<Piece>, bits: nat, len: nat)
    requires Apart(s, bits) && |image| == len && Shows(image, AllAccepted(s, bits, len), bits)
    ensures (forall p :: p in s ==> ShowsPiece(image, p, bits)) <==> (forall p :: p in s ==> Expected(p, bits, len))
  {
    forall p | p in s
      ensures ShowsPiece(image, p, bits) <==> Expected(p, bits, len)
    {
      if !Accepted(p, bits, len) {
        RefusedIsZero(image, s, bits, len, p);
      }
    }
  }

  /** Where a refused piece would be, the image is zero. */
  lemma AllZeroThere(image: seq<byte>, s: seq<Piece>, bits: nat, len: nat, p: Piece)
    requires Apart(s, bits) && |image| == len && Shows(image, AllAccepted(s, bits, len), bits)
    requires p in s && !Accepted(p, bits, len) && Off(p, bits) + |p.data| <= len
    ensures image[Off(p, bits)..Off(p, bits) + |p.data|] == ZeroBytes(|p.data|)
  {
    forall i | 0 <= i < |image| && Covers(p, bits, i)
      ensures image[i] == 0
    {
      if Covered(AllAccepted(s, bits, len), bits, i) {
        var q :| q in AllAccepted(s, bits, len) && Covers(q, bits, i);
        NoOverlap(s, bits, p, q, i);
        assert false;
      }
    }
    var off := Off(p, bits);
    var part := image[off..off + |p.data|];
    forall i | 0 <= i < |part|
      ensures part[i] == 0
    {
      assert Covers(p, bits, off + i) && part[i] == image[off + i];
    }
  }

  lemma RefusedIsZero(image: seq<byte>, s: seq<Piece>, bits: nat, len: nat, p: Piece)
    requires Apart(s, bits) && |image| == len && Shows(image, AllAccepted(s, bits, len), bits)
    requires p in s && !Accepted(p, bits, len)
    ensures ShowsPiece(image, p, bits) <==> Expected(p, bits, len)
  {
    if Off(p, bits) + |p.data| <= len {
      AllZeroThere(image, s, bits, len, p);
      assert ZeroBytes(|p.data|) == p.data <==> AllZero(p.data);
    }
  }

  // ---------- Writing the queue ----------

  /** The sizes of pieces fit the integers of the source. */
  predicate SizesFit(s: seq<Piece>, bits: nat)
  {
    forall p :: p in s ==> |p.data| + Pow2(bits) < INT_LIMIT
  }

  /** What has been written: the accepted ones among these pieces, and nothing that takes the place of `next` ones. */
  ghost predicate Written(w: SparseFile, s: seq<Piece>, next: seq<Piece>)
    reads w
  {
    && w.Valid() && |w.image| == w.curOutPtr <= w.len && w.len % w.BlockSize() == 0
    && Shows(w.image, AllAccepted(s, w.bits, w.len), w.bits)
    && (forall p :: p in next ==> w.curOutPtr <= Off(p, w.bits))
    && w.chunkCnt <= 2 * |s|
  }

  lemma OneMore(s: seq<Piece>, p: Piece, bits: nat, len: nat)
    ensures AllAccepted(s + [p], bits, len) == AllAccepted(s, bits, len) + if Accepted(p, bits, len) then {p} else {}
  {
  }

  /** What writing a piece makes of an image. */
  function With(image: seq<byte>, p: Piece, off: nat, bits: nat): seq<byte>
    requires |image| <= off && |p.data| <= RoundUp(|p.data|, bits)
  {
    image + ZeroBytes(off - |image|) + p.data + ZeroBytes(RoundUp(|p.data|, bits) - |p.data|)
  }

  /** Hands a piece over to the writer for its kind. */
  method Send(w: SparseFile, p: Piece)
    requires w.Valid() && |p.data| + Pow2(w.bits) < INT_LIMIT && w.curOutPtr <= Off(p, w.bits)
    modifies w
    ensures w.Valid() && |p.data| <= RoundUp(|p.data|, w.bits)
    ensures Accepted(p, w.bits, w.len) ==>
              && w.image == With(old(w.image), p, Off(p, w.bits), w.bits)
              && w.curOutPtr == End(p, w.bits) && w.chunkCnt <= old(w.chunkCnt) + 2
    ensures !Accepted(p, w.bits, w.len) ==> unchanged(w)
  {
    hide RoundUp, Off, Pow2, Crc32, ReadChunks, IsTable;
    OnGrid(p, w.bits);
    var off := Off(p, w.bits);
    if p.fromFile {
      var _ := w.WriteDataFile(off, p.data);
    } else {
      var _ := w.WriteDataBlock(off, p.data);
    }
  }

  /** Writes a piece from memory or from a file. */
  method WritePiece(w: SparseFile, p: Piece, ghost s: seq<Piece>, ghost next: seq<Piece>)
    requires Written(w, s, [p] + next) && |p.data| + Pow2(w.bits) < INT_LIMIT
    requires forall q :: q in next ==> End(p, w.bits) <= Off(q, w.bits)
    modifies w
    ensures Written(w, s + [p], next)
  {
    assert p in [p] + next && forall q :: q in next ==> q in [p] + next;
    hide Shows, AllAccepted, SparseFile.Valid, RoundUp, Off, Pow2, Accepted;
    OneMore(s, p, w.bits, w.len);
    OnGrid(p, w.bits);
    WithShows(w.image, AllAccepted(s, w.bits, w.len), p, w.bits);
    EndInside(p, w.bits, w.len);
    Send(w, p);
    assert AllAccepted(s, w.bits, w.len) + {} == AllAccepted(s, w.bits, w.len);
  }

  lemma WithShows(image: seq<byte>, s: set<Piece>, p: Piece, bits: nat)
    requires Shows(image, s, bits) && |image| <= Off(p, bits) && |p.data| <= RoundUp(|p.data|, bits)
    ensures Shows(With(image, p, Off(p, bits), bits), s + {p}, bits)
    ensures |With(image, p, Off(p, bits), bits)| == End(p, bits)
  {
    hide Shows, RoundUp, Off;
    StepShows(image, s, p, Off(p, bits) - |image|, RoundUp(|p.data|, bits) - |p.data|, bits);
  }

  lemma OnGrid(p: Piece, bits: nat)
    ensures Off(p, bits) % Pow2(bits) == 0 && |p.data| <= RoundUp(|p.data|, bits)
  {
    RoundUpIs(|p.data|, bits);
    assert Off(p, bits) == Pow2(bits) * p.block;
    Quotient(Off(p, bits), Pow2(bits), p.block, 0);
  }

  /** Rounding up does not go beyond the end of an image of whole blocks. */
  lemma EndInside(p: Piece, bits: nat, len: nat)
    requires len % Pow2(bits) == 0
    ensures Accepted(p, bits, len) ==> End(p, bits) <= len
  {
    RoundUpIs(|p.data|, bits);
    assert Off(p, bits) == Pow2(bits) * p.block;
    hide RoundUp;
    if Accepted(p, bits, len) {
      GridEnd(Off(p, bits), p.block, RoundUp(|p.data|, bits), |p.data|, len, Pow2(bits));
    }
  }

  lemma GridEnd(off: nat, block: nat, up: nat, n: nat, len: nat, size: nat)
    requires size > 0 && len % size == 0 && off == size * block && up % size == 0
    requires n <= up < n + size && off + n <= len
    ensures off + up <= len
  {
    var k, m := len / size, up / size;
    assert len == size * k && up == size * m;
    assert size * (block + m) == size * block + size * m;
    assert size * (k + 1) == size * k + size;
    if block + m > k {
      MulMono(size, k + 1, block + m);
    }
  }

  /** In ascending order, without overlap, and with sizes that fit. */
  ghost predicate Ready(s: seq<Piece>, bits: nat)
  {
    Sorted(s) && Apart(s, bits) && SizesFit(s, bits)
  }

  lemma Later(s: seq<Piece>, bits: nat, i: nat, j: nat)
    requires Ready(s, bits) && i < j < |s|
    ensures End(s[i], bits) <= Off(s[j], bits)
  {
    hide Off, End;
    assert s[i].block <= s[j].block && s[i].block != s[j].block;
    assert s[i] in s && s[j] in s;
  }

  lemma LaterBehind(s: seq<Piece>, bits: nat, k: nat)
    requires Ready(s, bits) && k < |s|
    ensures |s[k].data| + Pow2(bits) < INT_LIMIT && s[k..] == [s[k]] + s[k + 1..] && s[..k + 1] == s[..k] + [s[k]]
    ensures forall q :: q in s[k + 1..] ==> End(s[k], bits) <= Off(q, bits)
  {
    hide Off, End, Sorted, Apart;
    assert s[k] in s;
    forall q | q in s[k + 1..]
      ensures End(s[k], bits) <= Off(q, bits)
    {
      var j :| 0 <= j < |s[k + 1..]| && s[k + 1..][j] == q;
      Later(s, bits, k, k + 1 + j);
    }
  }

  method WriteNext(w: SparseFile, p: Piece, ghost s: seq<Piece>, ghost k: nat)
    requires Ready(s, w.bits) && k < |s| && p == s[k] && Written(w, s[..k], s[k..])
    modifies w
    ensures Written(w, s[..k + 1], s[k + 1..])
  {
    hide Ready, Written, End, Off;
    LaterBehind(s, w.bits, k);
    WritePiece(w, p, s[..k], s[k + 1..]);
  }

  /** Writes the pieces of the queue one after the other. */
  method ForEachDataBlock(q: BlockQueue, w: SparseFile, ghost before: seq<Piece>)
    requires q.Valid() && Ready(before + q.Contents(), w.bits) && Written(w, before, q.Contents())
    requires w !in q.Own() + {q}
    modifies w
    ensures Written(w, before + q.Contents(), [])
  {
    hide Ready, Sorted, Shows, Written, SparseFile.Valid, RoundUp, Off, End, Pow2;
    ghost var nodes, d := q.nodes, |before|;
    ghost var s := before + Pieces(nodes);
    ghost var k: nat := 0;
    var db := q.first;
    assert s[..d] == before && s[d..] == Pieces(nodes);
    while db != null
      invariant k <= |nodes| && db == (if k < |nodes| then nodes[k] else null)
      invariant forall i :: 0 <= i < |nodes| ==> nodes[i].next == After(nodes, i)
      invariant Written(w, s[..d + k], s[d + k..])
      decreases |nodes| - k
    {
      assert s[d + k] == Pieces(nodes)[k] == db.piece;
      WriteNext(w, db.piece, s, d + k);
      assert db.next == After(nodes, k);
      db, k := db.next, k + 1;
    }
    assert s[..d + k] == s && s[d + k..] == [];
  }

  // ---------- The whole image ----------

  /** The superblock, 1024 bytes behind the beginning. */
  function Super(sb: seq<byte>, bits: nat): Piece
    requires |sb| == 1024 && 10 <= bits <= 12
  {
    if bits > 10 then Piece(0, (ZeroBytes(1024) + sb + ZeroBytes(2048))[..if bits == 11 then 2048 else 4096], false)
    else Piece(1, sb, false)
  }

  /** The block group descriptors, in the blocks after the one of the superblock. */
  function Descriptors(desc: seq<byte>, bits: nat): Piece
  {
    Piece((if bits > 10 then 0 else 1) + 1, desc, false)
  }

  function WithHeads(sb: seq<byte>, desc: seq<byte>, bits: nat, pieces: seq<Piece>): seq<Piece>
    requires |sb| == 1024 && 10 <= bits <= 12
  {
    [Super(sb, bits), Descriptors(desc, bits)] + pieces
  }

  /** The file stands for an image of `len` bytes that shows these pieces, and its header is right. */
  ghost predicate FileShows(file: seq<byte>, tab: seq<nat>, bits: nat, len: nat, s: set<Piece>)
    requires IsTable(tab)
  {
    var m := Meaning(file);
    && m.Some? && |m.value.image| == len && Shows(m.value.image, s, bits) && m.value.blocks == len / Pow2(bits)
    && DecodeHeader(file) == HeaderFor(len, Pow2(bits), DecodeHeader(file).totalChunks, Crc32(tab, 0, m.value.image))
  }

  /** Fills up the image and completes the header. */
  method Finish(w: SparseFile, ghost s: seq<Piece>) returns (file: seq<byte>)
    requires Written(w, s, []) && |s| < 0x2000_0000 && w.BlockSize() <= 4096
    modifies w
    ensures IsTable(w.tab) && FileShows(file, w.tab, w.bits, w.len, AllAccepted(s, w.bits, w.len))
  {
    hide Shows, AllAccepted, Pow2, Crc32, ReadChunks, IsTable, DecodeHeader;
    ZerosShow(w.image, AllAccepted(s, w.bits, w.len), w.len - |w.image|, w.bits);
    w.PadOutputFile(w.len);
    w.CloseOutputFile();
    file := w.file;
  }

  /** Writes superblock, descriptors and queue, fills up the image and completes the header. */
  method WriteExt4Image(sb: seq<byte>, desc: seq<byte>, q: BlockQueue, bits: nat, len: nat, tab: seq<nat>)
    returns (file: seq<byte>)
    requires |sb| == 1024 && 10 <= bits <= 12 && IsTable(tab)
    requires len / Pow2(bits) < U32 && len % Pow2(bits) == 0
    requires q.Valid() && Ready(WithHeads(sb, desc, bits, q.Contents()), bits) && |q.nodes| < 0x1000_0000
    ensures FileShows(file, tab, bits, len, AllAccepted(WithHeads(sb, desc, bits, q.Contents()), bits, len))
  {
    hide Ready, Sorted, Shows, AllAccepted, SparseFile.Valid, BlockQueue.Valid, RoundUp, Off, End, Pow2, Super;
    hide Descriptors, FileShows, IsTable;
    BlockSizes(bits);
    var w := new SparseFile(bits, len, tab);
    ghost var all := WithHeads(sb, desc, bits, q.Contents());
    NothingShows(w, all);
    LaterBehind(all, bits, 0);
    LaterBehind(all, bits, 1);
    assert all[1..][1..] == all[2..] == q.Contents() && all[0..] == all && all[..2] == [all[0]] + [all[1]];
    WritePiece(w, Super(sb, bits), [], all[1..]);
    assert [] + [all[0]] == [all[0]];
    WritePiece(w, Descriptors(desc, bits), [all[0]], all[2..]);
    ForEachDataBlock(q, w, all[..2]);
    assert all[..2] + q.Contents() == all;
    file := Finish(w, all);
  }

  lemma BlockSizes(bits: nat)
    requires 10 <= bits <= 12
    ensures 1024 <= Pow2(bits) <= 4096
  {
    assert Pow2(10) == 1024 && Pow2(11) == 2048 && Pow2(12) == 4096;
  }

  lemma NothingShows(w: SparseFile, next: seq<Piece>)
    requires w.Valid() && w.image == [] && w.curOutPtr == 0 && w.chunkCnt == 0 && w.len % w.BlockSize() == 0
    ensures Written(w, [], next)
  {
  }

  /** Pieces that may be queued in any order: they come after the descriptors and take different blocks. */
  ghost predicate Queueable(sb: seq<byte>, desc: seq<byte>, bits: nat, pieces: seq<Piece>)
    requires |sb| == 1024 && 10 <= bits <= 12
  {
    && Apart(WithHeads(sb, desc, bits, pieces), bits) && SizesFit(WithHeads(sb, desc, bits, pieces), bits)
    && forall p :: p in pieces ==> Descriptors(desc, bits).block < p.block
  }

  lemma SameMembers(s: seq<Piece>, t: seq<Piece>, p: Piece)
    requires multiset(s) == multiset(t)
    ensures p in s <==> p in t
  {
    assert p in s <==> p in multiset(s);
    assert p in t <==> p in multiset(t);
  }

  lemma DistinctAfter(heads: seq<Piece>, s: seq<Piece>)
    requires Distinct(heads) && Distinct(s) && forall p, q :: p in heads && q in s ==> p.block < q.block
    ensures Distinct(heads + s)
  {
  }

  lemma SortedAfter(heads: seq<Piece>, s: seq<Piece>)
    requires Sorted(heads) && Sorted(s) && forall p, q :: p in heads && q in s ==> p.block < q.block
    ensures Sorted(heads + s)
  {
  }

  /** Queueing makes the pieces ready to be written, and loses none. */
  lemma QueuedReady(sb: seq<byte>, desc: seq<byte>, bits: nat, pieces: seq<Piece>)
    requires |sb| == 1024 && 10 <= bits <= 12 && Queueable(sb, desc, bits, pieces)
    ensures Ready(WithHeads(sb, desc, bits, InsertAll(pieces)), bits)
    ensures forall p :: p in WithHeads(sb, desc, bits, InsertAll(pieces)) <==> p in WithHeads(sb, desc, bits, pieces)
  {
    hide RoundUp, Off, End, Pow2, InsertAll;
    var s, t := WithHeads(sb, desc, bits, pieces), WithHeads(sb, desc, bits, InsertAll(pieces));
    var heads := [Super(sb, bits), Descriptors(desc, bits)];
    assert s[2..] == pieces && heads[0].block < heads[1].block;
    forall i, j | 0 <= i < j < |pieces|
      ensures pieces[i].block != pieces[j].block
    {
      assert s[i + 2].block != s[j + 2].block;
    }
    InsertAllDistinct(pieces);
    InsertAllSorts(pieces);
    forall p
      ensures p in InsertAll(pieces) <==> p in pieces
    {
      SameMembers(InsertAll(pieces), pieces, p);
    }
    DistinctAfter(heads, InsertAll(pieces));
    SortedAfter(heads, InsertAll(pieces));
    forall p
      ensures p in t <==> p in s
    {
      assert p in t <==> p in heads || p in InsertAll(pieces);
      assert p in s <==> p in heads || p in pieces;
    }
  }

  /** A file that is right is rebuilt with success. */
  lemma FileRebuilds(file: seq<byte>, tab: seq<nat>, bits: nat, len: nat, s: set<Piece>, ok: bool, out: seq<byte>)
    requires IsTable(tab) && FileShows(file, tab, bits, len, s) && Outcome(file, tab, ok, out)
    requires len / Pow2(bits) < U32 && len % Pow2(bits) == 0
    ensures ok && |out| == len && Shows(out, s, bits)
  {
    hide Shows, Crc32, IsTable, DecodeHeader, ReadChunks;
    Exact(len, Pow2(bits));
    var image := Meaning(file).value.image;
    assert image[..len] == image;
  }

  /** Queueing in any order, writing and rebuilding: `simg2img` succeeds, and its image shows what was accepted. */
  method BuildAndRebuild(sb: seq<byte>, desc: seq<byte>, pieces: seq<Piece>, bits: nat, len: nat, tab: seq<nat>)
    returns (ok: bool, image: seq<byte>)
    requires |sb| == 1024 && 10 <= bits <= 12 && IsTable(tab)
    requires len / Pow2(bits) < U32 && len % Pow2(bits) == 0 && |pieces| < 0x1000_0000
    requires Queueable(sb, desc, bits, pieces)
    ensures ok && |image| == len && Shows(image, AllAccepted(WithHeads(sb, desc, bits, pieces), bits, len), bits)
  {
    hide Ready, Apart, Sorted, Shows, RoundUp, Off, End, Super, Descriptors, FileShows, IsTable, WithHeads, Queueable;
    hide Outcome, InsertAll, BlockQueue.Valid, Ends;
    var q := QueueAll(pieces);
    QueuedReady(sb, desc, bits, pieces);
    SameLength(pieces);
    var file := WriteExt4Image(sb, desc, q, bits, len, tab);
    ghost var s := AllAccepted(WithHeads(sb, desc, bits, pieces), bits, len);
    assert AllAccepted(WithHeads(sb, desc, bits, q.Contents()), bits, len) == s;
    ReadableFile(file, tab, bits, len, s);
    ok, image := Simg2img(file, tab);
    FileRebuilds(file, tab, bits, len, s, ok, image);
  }

  lemma SameLength(pieces: seq<Piece>)
    ensures |InsertAll(pieces)| == |pieces|
  {
    InsertAllSorts(pieces);
    assert |multiset(InsertAll(pieces))| == |multiset(pieces)|;
  }

  lemma ReadableFile(file: seq<byte>, tab: seq<nat>, bits: nat, len: nat, s: set<Piece>)
    requires IsTable(tab) && FileShows(file, tab, bits, len, s)
    ensures Ends(file)
  {
    hide Shows, Crc32, IsTable, ReadChunks, Steady;
    var h := DecodeHeader(file);
    assert PowerOfTwo(h.blockSize);
    PowerSteady(file, Start(h), Sizes(h.chunkSize, h.blockSize), h.totalChunks);
  }

  lemma OneBlock(p: Piece)
    requires |p.data| == 1024
    ensures Off(p, 10) == 1024 * p.block && End(p, 10) == 1024 * (p.block + 1)
  {
    assert Pow2(10) == 1024;
    hide Pow2, RoundUp;
    RoundUpIs(1024, 10);
  }

  /** Four blocks: the piece from a file on the last one is refused, whatever its bytes. */
  lemma LastBlockRefused(sb: seq<byte>, desc: seq<byte>, data: seq<byte>)
    requires |sb| == |desc| == |data| == 1024
    ensures Queueable(sb, desc, 10, [Piece(3, data, true)])
    ensures Piece(3, data, true) in WithHeads(sb, desc, 10, [Piece(3, data, true)])
    ensures Off(Piece(3, data, true), 10) == 3072 && !Accepted(Piece(3, data, true), 10, 4096)
  {
    var p, q, r := Piece(1, sb, false), Piece(2, desc, false), Piece(3, data, true);
    OneBlock(p);
    OneBlock(q);
    OneBlock(r);
    assert Pow2(10) == 1024;
    hide Off, End, Pow2, RoundUp;
    assert WithHeads(sb, desc, 10, [r]) == [p, q, r];
  }

  /** A block from a file at the end of an image is lost: it comes back as zeros. */
  method LastBlockIsLost(sb: seq<byte>, desc: seq<byte>, data: seq<byte>, tab: seq<nat>) returns (image: seq<byte>)
    requires |sb| == |desc| == |data| == 1024 && IsTable(tab)
    ensures |image| == 4096 && image[3072..] == ZeroBytes(1024)
  {
    hide Queueable, Accepted, Shows, AllAccepted, Off, WithHeads, IsTable;
    LastBlockRefused(sb, desc, data);
    assert Pow2(10) == 1024;
    hide Pow2;
    var ok;
    ok, image := BuildAndRebuild(sb, desc, [Piece(3, data, true)], 10, 4096, tab);
    LastBytes(image, sb, desc, data);
  }

  lemma LastBytes(image: seq<byte>, sb: seq<byte>, desc: seq<byte>, data: seq<byte>)
    requires |sb| == |desc| == |data| == 1024 && |image| == 4096
    requires Shows(image, AllAccepted(WithHeads(sb, desc, 10, [Piece(3, data, true)]), 10, 4096), 10)
    ensures image[3072..] == ZeroBytes(1024)
  {
    hide Accepted, Shows, AllAccepted, Off, WithHeads, Pow2, Apart;
    var p := Piece(3, data, true);
    LastBlockRefused(sb, desc, data);
    AllZeroThere(image, WithHeads(sb, desc, 10, [p]), 10, 4096, p);
    assert image[3072..4096] == image[3072..];
  }
}
