/** The buffers in which the tokens of a block wait until the block is flushed. */
module TokenBuffers {
  import opened Bits
  import opened Rfc1951
  import opened PrefixCodes
  import opened TokenCodes
  import opened TokenCosts

  // ---------- What the buffers hold ----------

  /** A literal, or a match length less 3. */
  function LitByte(t: Token): byte
    requires Sane(t)
  {
    match t
    case Literal(b) => b
    case Copy(length, _) => length - 3
  }

  /** The distances less one, in order. */
  function Distances(ts: seq<Token>): (d: seq<nat>)
    ensures |d| <= |ts|
  {
    if ts == [] then []
    else
      var (d, t) := (Distances(ts[..|ts| - 1]), ts[|ts| - 1]);
      if t.Copy? && t.distance > 0 then d + [t.distance - 1] else d
  }

  /** Which tokens are matches. */
  function Marks(ts: seq<Token>): (m: seq<bool>)
    ensures |m| == |ts|
  {
    seq(|ts|, i requires 0 <= i < |ts| => ts[i].Copy?)
  }

  /** The tokens whose marks share byte `k` of the flags. */
  function Group(ts: seq<Token>, k: nat): seq<Token>
    requires 8 * k <= |ts|
  {
    ts[8 * k..if 8 * k + 8 < |ts| then 8 * k + 8 else |ts|]
  }

  lemma {:induction false} ValPush(bs: seq<bool>, b: bool)
    ensures Val(bs + [b]) == Val(bs) + (if b then Pow2(|bs|) else 0)
  {
    if bs != [] {
      ValPush(bs[1..], b);
      assert (bs + [b])[1..] == bs[1..] + [b];
    }
  }

  lemma DistancesPush(ts: seq<Token>, t: Token)
    requires Sane(t)
    ensures Distances(ts + [t]) == Distances(ts) + if t.Copy? then [t.distance - 1] else []
  {
    assert (ts + [t])[..|ts|] == ts;
  }

  lemma {:induction false} DistancesPrefix(ts: seq<Token>, n: nat)
    requires n <= |ts|
    ensures |Distances(ts[..n])| <= |Distances(ts)|
    ensures Distances(ts)[..|Distances(ts[..n])|] == Distances(ts[..n])
  {
    if n < |ts| {
      DistancesPrefix(ts[..|ts| - 1], n);
      assert ts[..|ts| - 1][..n] == ts[..n];
    } else {
      assert ts[..n] == ts;
    }
  }

  // ---------- The invariant of the buffers, on their contents ----------

  ghost predicate Symbols(lBuf: seq<byte>, ts: seq<Token>)
  {
    AllSane(ts) && |ts| <= |lBuf| && forall i :: 0 <= i < |ts| ==> lBuf[i] == LitByte(ts[i])
  }

  ghost predicate Pointers(dBuf: seq<nat>, lastDist: nat, ts: seq<Token>)
  {
    lastDist == |Distances(ts)| <= |dBuf| && dBuf[..lastDist] == Distances(ts)
  }

  /** The full bytes of flags are saved, the marks of the remaining tokens are in `flags`. */
  ghost predicate Flagged(flagBuf: seq<nat>, lastFlags: nat, flags: nat, flagBit: nat, ts: seq<Token>)
  {
    && 8 * lastFlags <= |ts| < 8 * lastFlags + 8 && lastFlags < |flagBuf|
    && (forall k :: 0 <= k < lastFlags ==> flagBuf[k] == Val(Marks(Group(ts, k))))
    && flags == Val(Marks(Group(ts, lastFlags))) && flagBit == Pow2(|ts| - 8 * lastFlags)
  }

  /** All marks are in the flag buffer. */
  ghost predicate AllFlagged(flagBuf: seq<nat>, ts: seq<Token>)
  {
    forall k: nat :: 8 * k < |ts| ==> k < |flagBuf| && flagBuf[k] == Val(Marks(Group(ts, k)))
  }

  lemma GroupStable(ts: seq<Token>, t: Token, k: nat)
    requires 8 * k + 8 <= |ts|
    ensures Group(ts + [t], k) == Group(ts, k)
  {
  }

  lemma SymbolPush(lBuf: seq<byte>, lBuf': seq<byte>, ts: seq<Token>, t: Token)
    requires Symbols(lBuf, ts) && |ts| < |lBuf| && Sane(t) && lBuf' == lBuf[|ts| := LitByte(t)]
    ensures Symbols(lBuf', ts + [t])
  {
  }

  /** One more mark, before a full byte is saved. */
  lemma FlagPush(flagBuf: seq<nat>, lastFlags: nat, flags: nat, flagBit: nat, ts: seq<Token>, t: Token) returns (flags': nat)
    requires Flagged(flagBuf, lastFlags, flags, flagBit, ts)
    ensures flags' == if t.Copy? then Or(flags, flagBit) else flags
    ensures flags' == Val(Marks(Group(ts + [t], lastFlags))) && |Group(ts + [t], lastFlags)| == |ts| + 1 - 8 * lastFlags
    ensures forall k :: 0 <= k < lastFlags ==> flagBuf[k] == Val(Marks(Group(ts + [t], k)))
  {
    hide Val;
    var g := Group(ts, lastFlags);
    assert Group(ts + [t], lastFlags) == g + [t];
    assert Marks(g + [t]) == Marks(g) + [t.Copy?];
    ValPush(Marks(g), t.Copy?);
    ShlOne(|g|);
    OrDisjoint(flags, 1, |g|);
    flags' := if t.Copy? then Or(flags, flagBit) else flags;
    forall k | 0 <= k < lastFlags
      ensures flagBuf[k] == Val(Marks(Group(ts + [t], k)))
    {
      GroupStable(ts, t, k);
    }
  }

  lemma FlagsKept(flagBuf: seq<nat>, lastFlags: nat, flags: nat, flagBit: nat, ts: seq<Token>)
    requires 8 * lastFlags < |ts| < 8 * lastFlags + 8 && lastFlags < |flagBuf|
    requires forall k :: 0 <= k < lastFlags ==> flagBuf[k] == Val(Marks(Group(ts, k)))
    requires flags == Val(Marks(Group(ts, lastFlags))) && flagBit == Pow2(|ts| - 8 * lastFlags)
    ensures Flagged(flagBuf, lastFlags, flags, flagBit, ts)
  {
  }

  lemma FlagsSaved(flagBuf: seq<nat>, flagBuf': seq<nat>, lastFlags: nat, flags: nat, ts: seq<Token>)
    requires |ts| == 8 * lastFlags + 8 && lastFlags + 1 < |flagBuf| && flagBuf' == flagBuf[lastFlags := flags]
    requires forall k :: 0 <= k < lastFlags ==> flagBuf[k] == Val(Marks(Group(ts, k)))
    requires flags == Val(Marks(Group(ts, lastFlags)))
    ensures Flagged(flagBuf', lastFlags + 1, 0, 1, ts)
  {
    assert Group(ts, lastFlags + 1) == [];
  }

  class TokenBuffer {
    const lBuf: array<byte>
    const dBuf: array<nat>
    const flagBuf: array<nat>
    const litBufSize: nat
    const distBufSize: nat
    var lastLit: nat
    var lastDist: nat
    var lastFlags: nat
    var flags: nat
    var flagBit: nat
    /** The tokens saved since the block began. */
    ghost var tokens: seq<Token>

    constructor (lBufSize: nat, litBufSize: nat, distBufSize: nat)
      requires litBufSize <= lBufSize && litBufSize % 8 == 0 && 0 < litBufSize <= 0x8000 && 0 < distBufSize
      ensures Sized() && Holds([]) && fresh(Own())
      ensures this.litBufSize == litBufSize && this.distBufSize == distBufSize
    {
      lBuf, dBuf, flagBuf := new byte[lBufSize], new nat[distBufSize], new nat[litBufSize / 8];
      this.litBufSize, this.distBufSize := litBufSize, distBufSize;
      lastLit, lastDist, lastFlags, flags, flagBit := 0, 0, 0, 0, 1;
      tokens := [];
    }

    ghost function Own(): set<object> { {this, lBuf, dBuf, flagBuf} }

    ghost predicate Sized()
    {
      && litBufSize <= lBuf.Length && litBufSize % 8 == 0 && 0 < litBufSize <= 0x8000 && 0 < distBufSize == dBuf.Length
      && litBufSize == 8 * flagBuf.Length && dBuf != flagBuf
    }

    /** The buffers represent `ts`. */
    ghost predicate Holds(ts: seq<Token>)
      requires Sized()
      reads this, lBuf, dBuf, flagBuf
    {
      && tokens == ts && lastLit == |ts| < litBufSize && Symbols(lBuf[..], ts)
      && Pointers(dBuf[..], lastDist, ts) && Flagged(flagBuf[..], lastFlags, flags, flagBit, ts)
    }

    /** There is room for one more token. */
    ghost predicate HasRoom()
      reads this
    {
      lastLit < litBufSize - 1 && lastDist < distBufSize
    }

    /** Saves a literal (`dist == 0`) or a match of length `lc + 3`. */
    method Save(dist: nat, lc: byte, ghost t: Token)
      requires Sized() && Holds(tokens) && HasRoom() && Sane(t) && lc == LitByte(t)
      requires dist == if t.Copy? then t.distance else 0
      modifies this, lBuf, dBuf, flagBuf
      ensures Holds(old(tokens) + [t])
    {
      SaveSymbol(dist, lc, t);
      SaveFlag(dist != 0, t);
      tokens := tokens + [t];
    }

    method SaveSymbol(dist: nat, lc: byte, ghost t: Token)
      requires Sized() && Holds(tokens) && HasRoom() && Sane(t) && lc == LitByte(t)
      requires dist == if t.Copy? then t.distance else 0
      modifies `lastLit, `lastDist, lBuf, dBuf
      ensures lastLit == old(lastLit) + 1 && Symbols(lBuf[..], tokens + [t]) && Pointers(dBuf[..], lastDist, tokens + [t])
    {
      hide LitByte, Flagged;
      SymbolPush(lBuf[..], lBuf[..][lastLit := lc], tokens, t);
      DistancesPush(tokens, t);
      lBuf[lastLit] := lc;
      lastLit := lastLit + 1;
      if dist != 0 {
        ghost var d := dBuf[..lastDist];
        dBuf[lastDist] := dist - 1;
        lastDist := lastDist + 1;
        assert dBuf[..lastDist] == d + [dist - 1];
      }
    }

    method SaveFlag(isMatch: bool, ghost t: Token)
      requires Sized() && Flagged(flagBuf[..], lastFlags, flags, flagBit, tokens) && isMatch == t.Copy?
      requires lastLit == |tokens| + 1 < litBufSize
      modifies `lastFlags, `flags, `flagBit, flagBuf
      ensures Flagged(flagBuf[..], lastFlags, flags, flagBit, tokens + [t])
    {
      hide Val, Group, Marks, Flagged;
      ghost var before, ts, f := flagBuf[..], tokens + [t], lastFlags;
      ghost var flags' := FlagPush(before, f, flags, flagBit, tokens, t);
      if isMatch {
        flags := Or(flags, flagBit);
      }
      FlagBitStep(before, f, old(flags), flagBit, tokens);
      flagBit := flagBit * 2 % 256;
      if lastLit % 8 == 0 {
        flagBuf[lastFlags] := flags;
        lastFlags := lastFlags + 1;
        assert flagBuf[..] == before[f := flags];
        FlagsSaved(before, flagBuf[..], f, flags, ts);
        flags := 0;
        flagBit := 1;
      } else {
        FlagsKept(before, f, flags, flagBit, ts);
      }
    }

    /** Saves the flags of the last tokens. */
    method SaveLastFlags()
      requires Sized() && Holds(tokens)
      modifies flagBuf
      ensures Symbols(lBuf[..], tokens) && Pointers(dBuf[..], lastDist, tokens) && AllFlagged(flagBuf[..], tokens)
    {
      hide Val, Group, Marks, LitByte;
      flagBuf[lastFlags] := flags;
    }

    method Clear()
      requires Sized()
      modifies this
      ensures Holds([])
    {
      lastLit, lastDist, lastFlags, flags, flagBit := 0, 0, 0, 0, 1;
      tokens := [];
    }
  }

  lemma FlagBitStep(flagBuf: seq<nat>, lastFlags: nat, flags: nat, flagBit: nat, ts: seq<Token>)
    requires Flagged(flagBuf, lastFlags, flags, flagBit, ts)
    ensures lastFlags < |flagBuf| && 8 * lastFlags <= |ts| < 8 * lastFlags + 8
    ensures (|ts| + 1) % 8 == 0 <==> |ts| + 1 == 8 * lastFlags + 8
    ensures |ts| + 1 < 8 * lastFlags + 8 ==> flagBit * 2 % 256 == Pow2(|ts| + 1 - 8 * lastFlags)
  {
    var n := |ts| - 8 * lastFlags;
    if n < 7 {
      assert flagBit * 2 == Pow2(n + 1);
      Pow2Mono(n + 1, 7);
      Pow2Values();
    }
  }
}
