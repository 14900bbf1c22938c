/** The DEFLATE format as RFC 1951 defines it: what a bit stream means.

    Nothing here is taken from the compressor. A decoder is a function from a
    bit stream and a position to a value and the position after it. */
module Rfc1951 {
  import opened Bits
  import opened Options

  // ---------- Section 3.2.2: canonical codes from code lengths ----------

  /** How many symbols have a code of `b` bits. */
  function Count(lens: seq<nat>, b: nat): (c: nat)
    ensures c <= |lens|
  {
    if lens == [] then 0
    else Count(lens[..|lens| - 1], b) + (if lens[|lens| - 1] == b then 1 else 0)
  }

  /** The first code of `b` bits (step 2 of the algorithm). */
  function FirstCode(lens: seq<nat>, b: nat): nat
  {
    if b == 0 then 0
    else 2 * (FirstCode(lens, b - 1) + (if b == 1 then 0 else Count(lens, b - 1)))
  }

  /** The code of symbol `n` (step 3): consecutive values within one length. */
  function CodeOf(lens: seq<nat>, n: nat): nat
    requires n < |lens|
  {
    FirstCode(lens, lens[n]) + Count(lens[..n], lens[n])
  }

  /** Codes are packed most significant bit first (section 3.1.1). */
  function CodeBits(lens: seq<nat>, n: nat): (bs: seq<bool>)
    requires n < |lens|
    ensures |bs| == lens[n]
  {
    Msb(CodeOf(lens, n), lens[n])
  }

  // ---------- Reading from a bit stream ----------

  /** The bits `e` occur in `bits` at position `pos`. */
  predicate At(bits: seq<bool>, pos: nat, e: seq<bool>)
  {
    pos + |e| <= |bits| && bits[pos..pos + |e|] == e
  }

  /** An `n`-bit number, least significant bit first. */
  function ReadField(bits: seq<bool>, pos: nat, n: nat): (r: Option<(nat, nat)>)
    ensures r.Some? ==> r.value.1 == pos + n <= |bits|
  {
    if pos + n <= |bits| then Some((Val(bits[pos..pos + n]), pos + n)) else None
  }

  /** The symbol whose code comes next, looking at the symbols from `n` on. */
  function ReadSymbolFrom(lens: seq<nat>, bits: seq<bool>, pos: nat, n: nat): (r: Option<(nat, nat)>)
    requires n <= |lens|
    decreases |lens| - n
    ensures r.Some? ==> r.value.0 < |lens| && pos < r.value.1 <= |bits|
  {
    if n == |lens| then None
    else if lens[n] > 0 && At(bits, pos, CodeBits(lens, n)) then Some((n, pos + lens[n]))
    else ReadSymbolFrom(lens, bits, pos, n + 1)
  }

  function ReadSymbol(lens: seq<nat>, bits: seq<bool>, pos: nat): (r: Option<(nat, nat)>)
    ensures r.Some? ==> r.value.0 < |lens| && pos < r.value.1 <= |bits|
  {
    ReadSymbolFrom(lens, bits, pos, 0)
  }

  function ReadBytes(bits: seq<bool>, pos: nat, n: nat): (r: Option<(seq<byte>, nat)>)
    decreases n
    ensures r.Some? ==> r.value.1 == pos + 8 * n
  {
    if n == 0 then Some(([], pos))
    else
      var (b, p) :- ReadField(bits, pos, 8);
      assert Pow2(8) == 256;
      var (rest, q) :- ReadBytes(bits, p, n - 1);
      Some(([b as byte] + rest, q))
  }

  // ---------- Section 3.2.3 and 3.2.5: literals, lengths and distances ----------

  /** An element of the compressed data: a literal byte or a pointer back. */
  datatype Token = Literal(value: byte) | Copy(length: nat, distance: nat)

  const END_OF_BLOCK: nat := 256

  const LENGTH_BASE: seq<nat> :=
    [3, 4, 5, 6, 7, 8, 9, 10, 11, 13, 15, 17, 19, 23, 27, 31, 35, 43, 51, 59, 67, 83, 99, 115, 131, 163, 195, 227, 258]

  const LENGTH_EXTRA: seq<nat> :=
    [0, 0, 0, 0, 0, 0, 0, 0, 1, 1, 1, 1, 2, 2, 2, 2, 3, 3, 3, 3, 4, 4, 4, 4, 5, 5, 5, 5, 0]

  const DISTANCE_BASE: seq<nat> :=
    [1, 2, 3, 4, 5, 7, 9, 13, 17, 25, 33, 49, 65, 97, 129, 193, 257, 385, 513, 769,
     1025, 1537, 2049, 3073, 4097, 6145, 8193, 12289, 16385, 24577]

  const DISTANCE_EXTRA: seq<nat> :=
    [0, 0, 0, 0, 1, 1, 2, 2, 3, 3, 4, 4, 5, 5, 6, 6, 7, 7, 8, 8, 9, 9, 10, 10, 11, 11, 12, 12, 13, 13]

  /** The output extended by `length` bytes, each equal to the one `distance` back. */
  function CopyBack(out: seq<byte>, length: nat, distance: nat): (r: seq<byte>)
    requires 1 <= distance <= |out|
    decreases length
    ensures |r| == |out| + length
  {
    if length == 0 then out
    else CopyBack(out + [out[|out| - distance]], length - 1, distance)
  }

  function Apply(out: seq<byte>, t: Token): Option<seq<byte>>
  {
    match t
    case Literal(b) => Some(out + [b])
    case Copy(length, distance) =>
      if 1 <= distance <= |out| then Some(CopyBack(out, length, distance)) else None
  }

  /** The meaning of a token sequence after the output `history`. */
  function Expand(history: seq<byte>, tokens: seq<Token>): Option<seq<byte>>
  {
    if tokens == [] then Some(history)
    else
      var out :- Expand(history, tokens[..|tokens| - 1]);
      Apply(out, tokens[|tokens| - 1])
  }

  /** The next token, or `None` inside at the end of the block. */
  function ReadToken(litLens: seq<nat>, distLens: seq<nat>, bits: seq<bool>, pos: nat)
    : (r: Option<(Option<Token>, nat)>)
    ensures r.Some? ==> pos < r.value.1 <= |bits|
  {
    var (s, p) :- ReadSymbol(litLens, bits, pos);
    if s < END_OF_BLOCK then Some((Some(Literal(s)), p))
    else if s == END_OF_BLOCK then Some((None, p))
    else if s - 257 >= |LENGTH_BASE| then None
    else
      var (more, p) :- ReadField(bits, p, LENGTH_EXTRA[s - 257]);
      var (d, p) :- ReadSymbol(distLens, bits, p);
      if d >= |DISTANCE_BASE| then None
      else
        var (far, p) :- ReadField(bits, p, DISTANCE_EXTRA[d]);
        Some((Some(Copy(LENGTH_BASE[s - 257] + more, DISTANCE_BASE[d] + far)), p))
  }

  /** The tokens up to the end-of-block symbol, applied to the output so far. */
  function ReadTokens(litLens: seq<nat>, distLens: seq<nat>, bits: seq<bool>, pos: nat, out: seq<byte>)
    : (r: Option<(seq<byte>, nat)>)
    decreases |bits| - pos
    ensures r.Some? ==> pos < r.value.1 <= |bits|
  {
    var (token, p) :- ReadToken(litLens, distLens, bits, pos);
    match token
    case None => Some((out, p))
    case Some(t) =>
      var out' :- Apply(out, t);
      ReadTokens(litLens, distLens, bits, p, out')
  }

  // ---------- Section 3.2.6: fixed codes ----------

  function FixedLiteralLength(n: nat): nat
  {
    if n <= 143 then 8 else if n <= 255 then 9 else if n <= 279 then 7 else 8
  }

  function FixedLiteralLengths(): (s: seq<nat>)
    ensures |s| == 288
  {
    seq(288, n requires 0 <= n < 288 => FixedLiteralLength(n))
  }

  function FixedDistanceLengths(): (s: seq<nat>)
    ensures |s| == 32
  {
    seq(32, _ => 5)
  }

  // ---------- Section 3.2.7: dynamic codes ----------

  const CODE_LENGTH_ORDER: seq<nat> := [16, 17, 18, 0, 8, 7, 9, 6, 10, 5, 11, 4, 12, 3, 13, 2, 14, 1, 15]

  /** The code lengths of the code length alphabet: `n` 3-bit numbers from rank `k` on. */
  function ReadCodeLengthLengths(bits: seq<bool>, pos: nat, k: nat, n: nat, acc: seq<nat>): (r: Option<(seq<nat>, nat)>)
    requires k <= n <= 19 && |acc| == 19
    decreases n - k
    ensures r.Some? ==> |r.value.0| == 19 && pos <= r.value.1
  {
    if k == n then Some((acc, pos))
    else
      var (v, p) :- ReadField(bits, pos, 3);
      ReadCodeLengthLengths(bits, p, k + 1, n, acc[CODE_LENGTH_ORDER[k] := v])
  }

  function Repeat(v: nat, n: nat): seq<nat> { seq(n, _ => v) }

  /** Run-length coded code lengths until there are `total` of them. */
  function ReadLengths(codeLens: seq<nat>, bits: seq<bool>, pos: nat, total: nat, acc: seq<nat>)
    : (r: Option<(seq<nat>, nat)>)
    decreases |bits| - pos
    ensures r.Some? ==> |r.value.0| == total && pos <= r.value.1
  {
    if |acc| == total then Some((acc, pos))
    else if |acc| > total then None
    else
      var (s, p) :- ReadSymbol(codeLens, bits, pos);
      if s < 16 then ReadLengths(codeLens, bits, p, total, acc + [s])
      else if s == 16 then
        var (n, p) :- ReadField(bits, p, 2);
        if acc == [] then None
        else ReadLengths(codeLens, bits, p, total, acc + Repeat(acc[|acc| - 1], 3 + n))
      else if s == 17 then
        var (n, p) :- ReadField(bits, p, 3);
        ReadLengths(codeLens, bits, p, total, acc + Repeat(0, 3 + n))
      else if s == 18 then
        var (n, p) :- ReadField(bits, p, 7);
        ReadLengths(codeLens, bits, p, total, acc + Repeat(0, 11 + n))
      else None
  }

  /** The two code length sequences at the head of a dynamic block. */
  function ReadCodes(bits: seq<bool>, pos: nat): (r: Option<(seq<nat>, seq<nat>, nat)>)
    ensures r.Some? ==> pos <= r.value.2
  {
    var (hlit, p) :- ReadField(bits, pos, 5);
    var (hdist, p) :- ReadField(bits, p, 5);
    var (hclen, p) :- ReadField(bits, p, 4);
    assert Pow2(4) == 16;
    var n := hclen + 4;
    if n > 19 then None
    else
      var (codeLens, p) :- ReadCodeLengthLengths(bits, p, 0, n, Repeat(0, 19));
      var (lens, p) :- ReadLengths(codeLens, bits, p, hlit + 257 + hdist + 1, []);
      Some((lens[..hlit + 257], lens[hlit + 257..], p))
  }

  // ---------- Section 3.2.3 and 3.2.4: blocks ----------

  function AlignUp(pos: nat): (p: nat)
    ensures pos <= p < pos + 8 && p % 8 == 0
  {
    pos + (8 - pos % 8) % 8
  }

  /** A block after its header: its output appended to `out`. */
  function ReadBody(kind: nat, bits: seq<bool>, pos: nat, out: seq<byte>): (r: Option<(seq<byte>, nat)>)
    ensures r.Some? ==> pos <= r.value.1
  {
    if kind == 0 then
      var (len, p) :- ReadField(bits, AlignUp(pos), 16);
      var (nlen, p) :- ReadField(bits, p, 16);
      if nlen != 0xffff - len then None
      else
        var (data, p) :- ReadBytes(bits, p, len);
        Some((out + data, p))
    else if kind == 1 then
      ReadTokens(FixedLiteralLengths(), FixedDistanceLengths(), bits, pos, out)
    else if kind == 2 then
      var (litLens, distLens, p) :- ReadCodes(bits, pos);
      ReadTokens(litLens, distLens, bits, p, out)
    else None
  }

  /** One block: whether it is the last, the output after it, the position after it. */
  function ReadBlock(bits: seq<bool>, pos: nat, out: seq<byte>): (r: Option<(bool, seq<byte>, nat)>)
    ensures r.Some? ==> pos < r.value.2
  {
    var (final, p) :- ReadField(bits, pos, 1);
    var (kind, p) :- ReadField(bits, p, 2);
    var (out', p) :- ReadBody(kind, bits, p, out);
    Some((final == 1, out', p))
  }

  /** Decompression from a block boundary on: the whole output, and the position after the last block. */
  function InflateFrom(bits: seq<bool>, pos: nat, out: seq<byte>): Option<(seq<byte>, nat)>
    decreases |bits| - pos
  {
    if pos >= |bits| then None
    else
      var (final, out', p) :- ReadBlock(bits, pos, out);
      if final then Some((out', p)) else InflateFrom(bits, p, out')
  }
}
