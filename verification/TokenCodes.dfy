/** Literals, lengths and distances as bits, and how they are read back. */
module TokenCodes {
  import opened Bits
  import opened Options
  import opened Rfc1951
  import opened PrefixCodes
  import opened Streams

  /** The tables of section 3.2.5 of RFC 1951 are gapless. */
  lemma LengthTable(c: nat)
    requires c < 28
    ensures LENGTH_BASE[c] + Pow2(LENGTH_EXTRA[c]) == if c == 27 then 259 else LENGTH_BASE[c + 1]
  {
    assert Pow2(1) == 2 && Pow2(2) == 4 && Pow2(3) == 8 && Pow2(4) == 16 && Pow2(5) == 32;
  }

  lemma DistanceTable(c: nat)
    requires c < 30
    ensures DISTANCE_BASE[c] + Pow2(DISTANCE_EXTRA[c]) == if c == 29 then 32769 else DISTANCE_BASE[c + 1]
  {
    Pow2Values();
  }

  /** The greatest code up to `c` whose first length is at most `length`. */
  function LengthCodeUpTo(length: nat, c: nat): (r: nat)
    requires 3 <= length && c < 28
    ensures r <= c && LENGTH_BASE[r] <= length && (r < c ==> length < LENGTH_BASE[r + 1])
  {
    if LENGTH_BASE[c] <= length then c else LengthCodeUpTo(length, c - 1)
  }

  /** The code of a match length: 258 has its own, although 284 could express it too. */
  function LengthCode(length: nat): (r: nat)
    requires 3 <= length <= 258
    ensures r < 29
  {
    if length == 258 then 28 else LengthCodeUpTo(length, 27)
  }

  function DistanceCodeUpTo(distance: nat, c: nat): (r: nat)
    requires 1 <= distance && c < 30
    ensures r <= c && DISTANCE_BASE[r] <= distance && (r < c ==> distance < DISTANCE_BASE[r + 1])
  {
    if DISTANCE_BASE[c] <= distance then c else DistanceCodeUpTo(distance, c - 1)
  }

  function DistanceCode(distance: nat): (r: nat)
    requires 1 <= distance <= 32768
    ensures r < 30
  {
    DistanceCodeUpTo(distance, 29)
  }

  /** The length is the base of its code plus a number that fits the extra bits. */
  lemma LengthFits(length: nat)
    requires 3 <= length <= 258
    ensures var c := LengthCode(length);
      LENGTH_BASE[c] <= length < LENGTH_BASE[c] + Pow2(LENGTH_EXTRA[c])
  {
    if length < 258 {
      LengthTable(LengthCode(length));
    }
  }

  lemma DistanceFits(distance: nat)
    requires 1 <= distance <= 32768
    ensures var c := DistanceCode(distance);
      DISTANCE_BASE[c] <= distance < DISTANCE_BASE[c] + Pow2(DISTANCE_EXTRA[c])
  {
    DistanceTable(DistanceCode(distance));
  }

  /** What the compressor sends: literals, and matches of 3 to 258 bytes at 1 to 32768. */
  predicate Sane(t: Token)
  {
    match t
    case Literal(_) => true
    case Copy(length, distance) => 3 <= length <= 258 && 1 <= distance <= 32768
  }

  /** The literal/length symbol of a token. */
  function LitSymbol(t: Token): (s: nat)
    requires Sane(t)
    ensures s < 286
  {
    match t
    case Literal(b) => b
    case Copy(length, _) => 257 + LengthCode(length)
  }

  function DistSymbol(t: Token): (s: nat)
    requires Sane(t) && t.Copy?
    ensures s < 30
  {
    DistanceCode(t.distance)
  }

  ghost predicate TokenCoded(ll: seq<nat>, dl: seq<nat>, t: Token)
  {
    && Sane(t) && LitSymbol(t) < |ll| && ll[LitSymbol(t)] > 0
    && (t.Copy? ==> DistSymbol(t) < |dl| && dl[DistSymbol(t)] > 0)
  }

  ghost function CopyTail(ll: seq<nat>, dl: seq<nat>, length: nat, distance: nat): (bs: seq<bool>)
    requires TokenCoded(ll, dl, Copy(length, distance))
  {
    var (c, d) := (LengthCode(length), DistanceCode(distance));
    Lsb(length - LENGTH_BASE[c], LENGTH_EXTRA[c]) + (CodeBits(dl, d) + Lsb(distance - DISTANCE_BASE[d], DISTANCE_EXTRA[d]))
  }

  /** The bits of a token under the two codes. */
  ghost function TokenBits(ll: seq<nat>, dl: seq<nat>, t: Token): (bs: seq<bool>)
    requires TokenCoded(ll, dl, t)
    ensures |bs| >= 1
  {
    match t
    case Literal(b) => CodeBits(ll, b)
    case Copy(length, distance) => CodeBits(ll, 257 + LengthCode(length)) + CopyTail(ll, dl, length, distance)
  }

  /** The decoder reads the token that was sent. */
  lemma ReadsToken(ll: seq<nat>, dl: seq<nat>, limit: nat, bits: seq<bool>, pos: nat, t: Token)
    requires Decodable(ll, limit) && Decodable(dl, limit) && TokenCoded(ll, dl, t)
    requires At(bits, pos, TokenBits(ll, dl, t))
    ensures ReadToken(ll, dl, bits, pos) == Some((Some(t), pos + |TokenBits(ll, dl, t)|))
  {
    hide ReadToken, TokenBits, At, TokenCoded, Decodable;
    if t.Literal? {
      ReadsLiteral(ll, dl, limit, bits, pos, t.value);
    } else {
      ReadsCopy(ll, dl, limit, bits, pos, t.length, t.distance);
    }
  }

  lemma ReadsLiteral(ll: seq<nat>, dl: seq<nat>, limit: nat, bits: seq<bool>, pos: nat, b: byte)
    requires Decodable(ll, limit) && TokenCoded(ll, dl, Literal(b)) && At(bits, pos, TokenBits(ll, dl, Literal(b)))
    ensures ReadToken(ll, dl, bits, pos) == Some((Some(Literal(b)), pos + |TokenBits(ll, dl, Literal(b))|))
  {
    hide Decodable, CodeBits, ReadSymbol, At;
    SymbolRoundTrip(ll, limit, bits, pos, b);
  }

  lemma ReadsCopy(ll: seq<nat>, dl: seq<nat>, limit: nat, bits: seq<bool>, pos: nat, length: nat, distance: nat)
    requires Decodable(ll, limit) && Decodable(dl, limit) && TokenCoded(ll, dl, Copy(length, distance))
    requires At(bits, pos, TokenBits(ll, dl, Copy(length, distance)))
    ensures ReadToken(ll, dl, bits, pos)
         == Some((Some(Copy(length, distance)), pos + |TokenBits(ll, dl, Copy(length, distance))|))
  {
    hide Decodable, Lsb, CodeBits, ReadSymbol, ReadField, At, LengthCode, DistanceCode, ReadToken, TokenBits, TokenCoded,
         LENGTH_BASE, LENGTH_EXTRA, DISTANCE_BASE, DISTANCE_EXTRA;
    var c, more, ex, d, far, fx := CopyParts(ll, dl, length, distance);
    var s := 257 + c;
    CopyStands(ll, dl, limit, bits, pos, s, more, ex, d, far, fx);
    PointerIs(ll, dl, bits, pos, c, more, ex, d, far, fx, length, distance,
              pos + ll[s], pos + ll[s] + ex, pos + ll[s] + ex + dl[d], pos + ll[s] + ex + dl[d] + fx);
  }

  /** The four parts of a pointer as they are sent. */
  lemma CopyParts(ll: seq<nat>, dl: seq<nat>, length: nat, distance: nat)
    returns (c: nat, more: nat, ex: nat, d: nat, far: nat, fx: nat)
    requires TokenCoded(ll, dl, Copy(length, distance))
    ensures c == LengthCode(length) && d == DistanceCode(distance) && IsPart(c, more, ex, d, far, fx, length, distance)
    ensures 257 + c < |ll| && ll[257 + c] > 0 && d < |dl| && dl[d] > 0 && more < Pow2(ex) && far < Pow2(fx)
    ensures TokenBits(ll, dl, Copy(length, distance))
         == CodeBits(ll, 257 + c) + (Lsb(more, ex) + (CodeBits(dl, d) + Lsb(far, fx)))
    ensures |TokenBits(ll, dl, Copy(length, distance))| == ll[257 + c] + ex + dl[d] + fx
  {
    hide Lsb, CodeBits, LengthCode, DistanceCode, LENGTH_BASE, LENGTH_EXTRA, DISTANCE_BASE, DISTANCE_EXTRA;
    TableSizes();
    LengthFits(length);
    DistanceFits(distance);
    c, d := LengthCode(length), DistanceCode(distance);
    more, ex := length - LENGTH_BASE[c], LENGTH_EXTRA[c];
    far, fx := distance - DISTANCE_BASE[d], DISTANCE_EXTRA[d];
  }

  ghost predicate IsPart(c: nat, more: nat, ex: nat, d: nat, far: nat, fx: nat, length: nat, distance: nat)
  {
    && c < 29 && d < 30 && ex == LENGTH_EXTRA[c] && fx == DISTANCE_EXTRA[d]
    && length == LENGTH_BASE[c] + more && distance == DISTANCE_BASE[d] + far
  }

  /** How the decoder puts the four parts of a pointer together. */
  lemma PointerIs(ll: seq<nat>, dl: seq<nat>, bits: seq<bool>, pos: nat, c: nat, more: nat, ex: nat, d: nat, far: nat, fx: nat,
                  length: nat, distance: nat, p1: nat, p2: nat, p3: nat, p4: nat)
    requires IsPart(c, more, ex, d, far, fx, length, distance)
    requires ReadSymbol(ll, bits, pos) == Some((257 + c, p1)) && ReadField(bits, p1, ex) == Some((more, p2))
    requires ReadSymbol(dl, bits, p2) == Some((d, p3)) && ReadField(bits, p3, fx) == Some((far, p4))
    ensures ReadToken(ll, dl, bits, pos) == Some((Some(Copy(length, distance)), p4))
  {
    hide ReadSymbol, ReadField;
    TableSizes();
  }

  lemma TableSizes()
    ensures |LENGTH_BASE| == 29 && |LENGTH_EXTRA| == 29 && |DISTANCE_BASE| == 30 && |DISTANCE_EXTRA| == 30
  {
  }

  /** The four parts of a pointer as the decoder sees them. */
  lemma CopyStands(ll: seq<nat>, dl: seq<nat>, limit: nat, bits: seq<bool>, pos: nat, s: nat, more: nat, moreBits: nat,
                   d: nat, far: nat, farBits: nat)
    requires Decodable(ll, limit) && Decodable(dl, limit) && s < |ll| && ll[s] > 0 && d < |dl| && dl[d] > 0
    requires more < Pow2(moreBits) && far < Pow2(farBits)
    requires At(bits, pos, CodeBits(ll, s) + (Lsb(more, moreBits) + (CodeBits(dl, d) + Lsb(far, farBits))))
    ensures ReadSymbol(ll, bits, pos) == Some((s, pos + ll[s]))
    ensures ReadField(bits, pos + ll[s], moreBits) == Some((more, pos + ll[s] + moreBits))
    ensures ReadSymbol(dl, bits, pos + ll[s] + moreBits) == Some((d, pos + ll[s] + moreBits + dl[d]))
    ensures ReadField(bits, pos + ll[s] + moreBits + dl[d], farBits) == Some((far, pos + ll[s] + moreBits + dl[d] + farBits))
  {
    hide Decodable, Lsb, CodeBits, ReadSymbol, ReadField, At;
    AtSplit(bits, pos, CodeBits(ll, s), Lsb(more, moreBits) + (CodeBits(dl, d) + Lsb(far, farBits)));
    AtSplit(bits, pos + ll[s], Lsb(more, moreBits), CodeBits(dl, d) + Lsb(far, farBits));
    AtSplit(bits, pos + ll[s] + moreBits, CodeBits(dl, d), Lsb(far, farBits));
    SymbolRoundTrip(ll, limit, bits, pos, s);
    FieldAt(bits, pos + ll[s], more, moreBits);
    SymbolRoundTrip(dl, limit, bits, pos + ll[s] + moreBits, d);
    FieldAt(bits, pos + ll[s] + moreBits + dl[d], far, farBits);
  }

  // ---------- Token sequences ----------

  ghost predicate AllTokensCoded(ll: seq<nat>, dl: seq<nat>, ts: seq<Token>)
  {
    forall i :: 0 <= i < |ts| ==> TokenCoded(ll, dl, ts[i])
  }

  ghost function TokensBits(ll: seq<nat>, dl: seq<nat>, ts: seq<Token>): seq<bool>
    requires AllTokensCoded(ll, dl, ts)
  {
    if ts == [] then [] else TokensBits(ll, dl, ts[..|ts| - 1]) + TokenBits(ll, dl, ts[|ts| - 1])
  }

  lemma TokensBitsPush(ll: seq<nat>, dl: seq<nat>, ts: seq<Token>, n: nat)
    requires AllTokensCoded(ll, dl, ts) && n < |ts|
    ensures TokensBits(ll, dl, ts[..n + 1]) == TokensBits(ll, dl, ts[..n]) + TokenBits(ll, dl, ts[n])
  {
    assert ts[..n + 1][..n] == ts[..n];
  }

  /** The compressed data of a block: its tokens and the end-of-block symbol. */
  ghost function DataBits(ll: seq<nat>, dl: seq<nat>, ts: seq<Token>): seq<bool>
    requires AllTokensCoded(ll, dl, ts) && END_OF_BLOCK < |ll|
  {
    TokensBits(ll, dl, ts) + CodeBits(ll, END_OF_BLOCK)
  }

  lemma {:induction false} PrefixThere(ll: seq<nat>, dl: seq<nat>, bits: seq<bool>, pos: nat, ts: seq<Token>, n: nat, tail: seq<bool>)
    requires AllTokensCoded(ll, dl, ts) && n <= |ts| && At(bits, pos, TokensBits(ll, dl, ts) + tail)
    ensures At(bits, pos + |TokensBits(ll, dl, ts[..n])|, if n < |ts| then TokenBits(ll, dl, ts[n]) else tail)
  {
    hide TokenBits, TokenCoded, At, TokensBits;
    AtSplit(bits, pos, TokensBits(ll, dl, ts), tail);
    assert ts[..|ts|] == ts;
    if n < |ts| {
      TokensPrefix(ll, dl, bits, pos, ts, |ts|, n + 1);
      TokensBitsPush(ll, dl, ts, n);
      AtSplit(bits, pos, TokensBits(ll, dl, ts[..n]), TokenBits(ll, dl, ts[n]));
    }
  }

  lemma {:induction false} TokensPrefix(ll: seq<nat>, dl: seq<nat>, bits: seq<bool>, pos: nat, ts: seq<Token>, m: nat, n: nat)
    requires AllTokensCoded(ll, dl, ts) && n <= m <= |ts| && At(bits, pos, TokensBits(ll, dl, ts[..m]))
    ensures At(bits, pos, TokensBits(ll, dl, ts[..n]))
    decreases m
  {
    hide TokenBits, TokenCoded, At, TokensBits;
    if n < m {
      TokensBitsPush(ll, dl, ts, m - 1);
      AtSplit(bits, pos, TokensBits(ll, dl, ts[..m - 1]), TokenBits(ll, dl, ts[m - 1]));
      TokensPrefix(ll, dl, bits, pos, ts, m - 1, n);
    }
  }

  lemma {:induction false} ExpandPrefix(history: seq<byte>, ts: seq<Token>, n: nat)
    requires Expand(history, ts).Some? && n <= |ts|
    ensures Expand(history, ts[..n]).Some?
    decreases |ts|
  {
    if n < |ts| {
      ExpandPrefix(history, ts[..|ts| - 1], n);
      assert ts[..|ts| - 1][..n] == ts[..n];
    } else {
      assert ts[..n] == ts;
    }
  }

  /** The decoder expands the tokens that were sent, from the n-th on. */
  lemma {:induction false} ReadsTokensFrom(ll: seq<nat>, dl: seq<nat>, limit: nat, bits: seq<bool>, pos: nat,
                                           history: seq<byte>, ts: seq<Token>, n: nat)
    requires Decodable(ll, limit) && Decodable(dl, limit) && AllTokensCoded(ll, dl, ts) && n <= |ts|
    requires END_OF_BLOCK < |ll| && ll[END_OF_BLOCK] > 0
    requires At(bits, pos, DataBits(ll, dl, ts)) && Expand(history, ts).Some?
    requires Expand(history, ts[..n]).Some?
    ensures ReadTokens(ll, dl, bits, pos + |TokensBits(ll, dl, ts[..n])|, Expand(history, ts[..n]).value)
         == Some((Expand(history, ts).value, pos + |DataBits(ll, dl, ts)|))
    decreases |ts| - n
  {
    hide Decodable, TokenBits, TokenCoded, At, CodeBits, ReadToken, Apply;
    PrefixThere(ll, dl, bits, pos, ts, n, CodeBits(ll, END_OF_BLOCK));
    var p := pos + |TokensBits(ll, dl, ts[..n])|;
    if n == |ts| {
      assert ts[..n] == ts;
      ReadsEnd(ll, dl, limit, bits, p);
    } else {
      ExpandPrefix(history, ts, n + 1);
      assert ts[..n + 1][..n] == ts[..n];
      ReadsToken(ll, dl, limit, bits, p, ts[n]);
      TokensBitsPush(ll, dl, ts, n);
      ReadsTokensFrom(ll, dl, limit, bits, pos, history, ts, n + 1);
    }
  }

  lemma ReadsEnd(ll: seq<nat>, dl: seq<nat>, limit: nat, bits: seq<bool>, pos: nat)
    requires Decodable(ll, limit) && END_OF_BLOCK < |ll| && ll[END_OF_BLOCK] > 0
    requires At(bits, pos, CodeBits(ll, END_OF_BLOCK))
    ensures ReadToken(ll, dl, bits, pos) == Some((None, pos + ll[END_OF_BLOCK]))
  {
    SymbolRoundTrip(ll, limit, bits, pos, END_OF_BLOCK);
  }

  /** The compressed data of a block decodes to the expansion of its tokens. */
  lemma DataRoundTrip(ll: seq<nat>, dl: seq<nat>, limit: nat, bits: seq<bool>, pos: nat, history: seq<byte>, ts: seq<Token>)
    requires Decodable(ll, limit) && Decodable(dl, limit) && AllTokensCoded(ll, dl, ts)
    requires END_OF_BLOCK < |ll| && ll[END_OF_BLOCK] > 0
    requires At(bits, pos, DataBits(ll, dl, ts)) && Expand(history, ts).Some?
    ensures ReadTokens(ll, dl, bits, pos, history) == Some((Expand(history, ts).value, pos + |DataBits(ll, dl, ts)|))
  {
    assert ts[..0] == [];
    assert Expand(history, ts[..0]) == Some(history);
    ReadsTokensFrom(ll, dl, limit, bits, pos, history, ts, 0);
  }
}
