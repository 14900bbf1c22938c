/** The LZO1X format: how a compressed block is decoded. */
module Lzo1x {
  import opened Bits
  import opened Options
  import opened Rfc1951

  /** What the last instruction was decides what an opcode below 16 means. */
  datatype Mode =
    | Top         // after a match without literals: a literal run
    | AfterRun    // after a literal run: a match of 3 bytes, more than 0x800 back
    | AfterShort  // after a match with literals: a match of 2 bytes

  /** The head of an instruction; `size` is the number of its bytes. */
  datatype Head =
    | RunHead(count: nat, size: nat)
    | MatchHead(length: nat, distance: nat, size: nat)
    | EofHead(size: nat)

  /** A length continued in further bytes: each zero stands for 255. */
  function Extension(s: seq<byte>, i: nat, value: nat): (r: Option<(nat, nat)>)
    decreases |s| - i
    ensures r.Some? ==> value < r.value.0 && i < r.value.1 <= |s|
  {
    if i >= |s| then None
    else if s[i] == 0 then Extension(s, i + 1, value + 255)
    else Some((value + s[i], i + 1))
  }

  /** A length in `t`, or continued from byte 1 on if `t` is 0. */
  function Length(s: seq<byte>, t: nat, base: nat): (r: Option<(nat, nat)>)
    ensures r.Some? ==> 1 <= r.value.1 && (1 <= |s| ==> r.value.1 <= |s|) && (1 <= base ==> 1 <= r.value.0)
  {
    if t == 0 then Extension(s, 1, base) else Some((t, 1))
  }

  /** The two offset bytes of a long match. */
  function Offset(s: seq<byte>, i: nat): nat
    requires i + 2 <= |s|
  {
    s[i] as int / 4 + 64 * s[i + 1] as int
  }

  function ReadHead(s: seq<byte>, mode: Mode): (r: Option<Head>)
    ensures r.Some? ==> r.value.size <= |s| && (r.value.RunHead? ==> r.value.count >= 4 && r.value.size >= 1)
    ensures r.Some? && r.value.MatchHead? ==> r.value.size >= 2 && r.value.length >= 2 && r.value.distance >= 1
  {
    if s == [] then None
    else
      var t: nat := s[0];
      if t >= 64 then
        if |s| < 2 then None else Some(MatchHead(t / 32 + 1, 1 + t / 4 % 8 + 8 * s[1] as int, 2))
      else if t >= 32 then
        var (length, i) :- Length(s, t % 32, 31);
        if |s| < i + 2 then None else Some(MatchHead(length + 2, 1 + Offset(s, i), i + 2))
      else if t >= 16 then
        var (length, i) :- Length(s, t % 8, 7);
        if |s| < i + 2 then None
        else
          var back: nat := (if t % 16 >= 8 then 0x4000 else 0) + Offset(s, i);
          if back == 0 then Some(EofHead(i + 2)) else Some(MatchHead(length + 2, back + 0x4000, i + 2))
      else
        match mode
        case Top =>
          var (count, i) :- Length(s, t, 15);
          Some(RunHead(count + 3, i))
        case AfterRun =>
          if |s| < 2 then None else Some(MatchHead(3, 0x801 + t / 4 + 4 * s[1] as int, 2))
        case AfterShort =>
          if |s| < 2 then None else Some(MatchHead(2, 1 + t / 4 + 4 * s[1] as int, 2))
  }

  /** The number of literals after a match is in the last byte but one of its head. */
  function Following(s: seq<byte>, size: nat): nat
    requires 2 <= size <= |s|
  {
    s[size - 2] % 4
  }

  function ModeAfter(literals: nat): Mode
  {
    if literals == 0 then Top else AfterShort
  }

  /** The output for the instructions `s` after the output `out`, and how many bytes follow the end code. */
  function Decode(s: seq<byte>, mode: Mode, out: seq<byte>): Option<(seq<byte>, nat)>
    decreases |s|
  {
    var head :- ReadHead(s, mode);
    match head
    case EofHead(size) => Some((out, |s| - size))
    case RunHead(count, size) =>
      if |s| < size + count then None
      else Decode(s[size + count..], AfterRun, out + s[size..size + count])
    case MatchHead(length, distance, size) =>
      var n := Following(s, size);
      if |s| < size + n || distance > |out| then None
      else Decode(s[size + n..], ModeAfter(n), CopyBack(out, length, distance) + s[size..size + n])
  }

  /** The whole block: a first byte above 17 stands for literals. */
  function DecodeBlock(s: seq<byte>): Option<(seq<byte>, nat)>
  {
    if s == [] then None
    else if s[0] > 17 then
      var n := s[0] - 17;
      if |s| < 1 + n then None
      else Decode(s[1 + n..], if n < 4 then AfterShort else AfterRun, s[1..1 + n])
    else Decode(s, Top, [])
  }
}
