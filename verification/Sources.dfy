/** The input: a byte string that arrives in pieces of any size. */
module Sources {
  import opened Bits
  import opened LittleEndian
  import opened Crc32s

  class Source {
    const input: seq<byte>
    /** How many bytes the successive reads return if they can; a negative number makes a read fail. */
    const plan: seq<int>
    var pos: nat
    var turn: nat
    var failed: bool
    const tab: seq<nat>
    /** The checksum register and the number of bytes, modulo 2^32, of what has been read. */
    var crc: nat
    var isize: nat

    constructor (input: seq<byte>, plan: seq<int>, tab: seq<nat>)
      requires tab == Table()
      ensures Valid() && pos == 0 && !failed && this.input == input && this.plan == plan
    {
      this.input, this.plan, this.tab, pos, turn, failed := input, plan, tab, 0, 0, false;
      crc, isize := ONES, 0;
    }

    ghost predicate Valid()
      reads this
    {
      && pos <= |input| && (failed ==> exists i :: 0 <= i < |plan| && plan[i] < 0)
      && Accounted()
    }

    /** The checksum and the size are those of what has been read. */
    ghost predicate Accounted()
      requires pos <= |input|
      reads `pos, `crc, `isize
    {
      tab == Table() && crc == Register(ONES, input[..pos]) && isize == pos % U32
    }

    /** The bytes read so far. */
    ghost function Taken(): seq<byte>
      requires Valid()
      reads this
    {
      input[..pos]
    }

    /** Reads at most `size` bytes to `buf[off..]`: 0 at the end of the input, -1 on failure. */
    method Read(buf: array<byte>, off: nat, size: nat) returns (n: int, ghost added: seq<byte>)
      requires Valid() && off + size <= buf.Length && 0 < size
      modifies this, buf
      ensures Valid() && -1 <= n <= size && |added| == (if n < 0 then 0 else n)
      ensures Taken() == old(Taken()) + added
      ensures buf[..] == old(buf[..off]) + added + old(buf[off + |added|..])
      ensures if n == -1 then failed else failed == old(failed)
      ensures n == 0 ==> pos == |input|
    {
      hide Accounted;
      n, added := |input| - pos, [];
      if n > size {
        n := size;
      }
      if turn < |plan| {
        if plan[turn] < 0 {
          assert 0 <= turn < |plan| && plan[turn] < 0;
          failed := true;
          assert buf[..] == buf[..off] + added + buf[off..];
          assert input[..pos] == input[..pos] + added;
          n := -1;
          return;
        }
        if 0 < plan[turn] < n {
          n := plan[turn];
        }
        turn := turn + 1;
      }
      added := Deliver(buf, off, n);
    }

    method Deliver(buf: array<byte>, off: nat, n: nat) returns (ghost added: seq<byte>)
      requires Valid() && pos + n <= |input| && off + n <= buf.Length
      modifies this`pos, this`crc, this`isize, buf
      ensures Valid() && pos == old(pos) + n && |added| == n && Taken() == old(Taken()) + added
      ensures buf[..] == old(buf[..off]) + added + old(buf[off + n..])
    {
      hide Accounted;
      added := input[pos..pos + n];
      CopyIn(buf, off, pos, n);
      Account(n);
    }

    /** Adds the bytes read to the checksum and the size. */
    method Account(n: nat)
      requires Valid() && pos + n <= |input|
      modifies this`pos, this`crc, this`isize
      ensures Valid() && pos == old(pos) + n
    {
      hide Register, Table, Feed, IsTable;
      var part := input[pos..pos + n];
      assert input[..pos + n] == input[..pos] + part;
      IsTheTable(tab);
      RegisterGoesOn(input[..pos], part);
      crc := BlockEndian0(crc, part, tab);
      isize := (isize + n) % U32;
      pos := pos + n;
    }

    lemma IsTheTable(tab: seq<nat>)
      requires tab == Table()
      ensures IsTable(tab)
    {
    }

    lemma RegisterGoesOn(s: seq<byte>, part: seq<byte>)
      ensures Register(ONES, s) < WORDS && Feed(Table(), Register(ONES, s), part) == Register(ONES, s + part)
    {
      hide Register, Table, Feed;
      FeedIsRegister(ONES, s);
      FeedIsRegister(ONES, s + part);
      FeedConcat(Table(), ONES, s, part);
    }

    method CopyIn(buf: array<byte>, off: nat, start: nat, n: nat)
      requires off + n <= buf.Length && start + n <= |input|
      modifies buf
      ensures buf[..] == old(buf[..off]) + input[start..start + n] + old(buf[off + n..])
    {
      ghost var before := buf[..];
      var i := 0;
      while i < n
        invariant 0 <= i <= n
        invariant forall k :: 0 <= k < buf.Length ==> buf[k] == if off <= k < off + i then input[start + k - off] else before[k]
      {
        buf[off + i] := input[start + i];
        i := i + 1;
      }
    }
  }
}
