/** The gzip format as RFC 1952 defines it: what a file means. */
module Rfc1952 {
  import opened Bits
  import opened LittleEndian
  import opened Crc32s
  import opened Options
  import opened Rfc1951

  /** Where the checksum of a member begins that has no optional fields: after ten bytes of header and the blocks. */
  function TrailerAt(end: nat): (n: nat)
    ensures n >= 10
  {
    10 + AlignUp(end) / 8
  }

  /** The meaning of a file of one member without optional fields (sections 2.2 and 2.3): identification, method 8 and no
      flags, the blocks, and the checksum and size of their output. */
  function Gunzip(file: seq<byte>): Option<seq<byte>>
  {
    if |file| < 18 || file[0] != 0x1f || file[1] != 0x8b || file[2] != 8 || file[3] != 0 then None
    else
      var (out, end) :- InflateFrom(ByteBits(file[10..]), 0, []);
      var at := TrailerAt(end);
      if |file| == at + 8 && Get32(file, at) == Crc(out) && Get32(file, at + 4) == |out| % U32 then Some(out) else None
  }
}
