/** A block for which symbol 2 is forced into the distance tree. */
module ForcedCodes {
  import opened Bits
  import opened Options
  import opened Rfc1951
  import opened TokenCodes
  import opened TokenCosts
  import opened CodeTables
  import opened TreeBuilders
  import opened Heaps

  /** All distances are 2, and there is one. */
  ghost predicate OnlyDistanceTwo(ts: seq<Token>)
  {
    && (forall i :: 0 <= i < |ts| ==> Sane(ts[i]) && (ts[i].Copy? ==> ts[i].distance == 2))
    && SomeCopy(ts)
  }

  lemma DistanceTwoIsSymbolOne(length: nat)
    requires 3 <= length <= 258
    ensures Sane(Copy(length, 2)) && DistSymbol(Copy(length, 2)) == 1
  {
    assert DISTANCE_BASE[1] <= 2 < DistanceEnd(1);
    hide DISTANCE_BASE, DistanceEnd, DistanceCodeUpTo;
    DistanceCodeIs(2, 1, 29);
  }

  /** Only symbol 1 is counted, and it is if there is a match. */
  predicate OnlyOne(f: seq<nat>, some: bool)
  {
    |f| == 30 && (forall c :: 0 <= c < 30 && c != 1 ==> f[c] == 0) && (some <==> f[1] != 0)
  }

  ghost predicate SomeCopy(ts: seq<Token>)
  {
    exists i :: 0 <= i < |ts| && ts[i].Copy?
  }

  lemma SomeCopyNext(ts: seq<Token>)
    requires ts != []
    ensures SomeCopy(ts) <==> SomeCopy(ts[..|ts| - 1]) || ts[|ts| - 1].Copy?
  {
    var init := ts[..|ts| - 1];
    assert forall i :: 0 <= i < |init| ==> init[i] == ts[i];
  }

  lemma CountOne(f: seq<nat>, some: bool)
    requires OnlyOne(f, some)
    ensures OnlyOne(f[1 := f[1] + 1], true)
  {
  }

  lemma {:induction false} OnlySymbolOne(ts: seq<Token>)
    requires forall i :: 0 <= i < |ts| ==> Sane(ts[i]) && (ts[i].Copy? ==> ts[i].distance == 2)
    ensures OnlyOne(DistFreq(ts), SomeCopy(ts))
  {
    if ts != [] {
      var init, t := ts[..|ts| - 1], ts[|ts| - 1];
      OnlySymbolOne(init);
      SomeCopyNext(ts);
      if t.Copy? {
        DistanceTwoIsSymbolOne(t.length);
        hide OnlyOne, SomeCopy, DistSymbol;
        assert t == Copy(t.length, 2);
        CountOne(DistFreq(init), SomeCopy(init));
      }
    }
  }

  /** When all distances of a block are 2, the first code forced into its distance tree is 2. */
  lemma ForcesTwo(ts: seq<Token>, h: seq<nat>, len: nat, maxCode: int, code: nat)
    requires OnlyDistanceTwo(ts) && len < 2 <= |h| && Greatest(DistFreq(ts), 30, maxCode)
    requires Content(h, len) == multiset(Leaves(DistFreq(ts), 30)) && code == if maxCode < 2 then maxCode + 1 else 0
    ensures code == 2
  {
    OnlySymbolOne(ts);
    assert Leaves(DistFreq(ts), 30) == {1};
    ForcedIsTwo(h, len, DistFreq(ts), 30, maxCode, code);
  }

  /** A block for the bytes x a b a b a is of this kind. (The very first byte of the input is never matched.) */
  lemma SuchABlock(x: byte, a: byte, b: byte)
    ensures var ts := [Literal(x), Literal(a), Literal(b), Copy(3, 2)];
      Expand([], ts) == Some([x, a, b, a, b, a]) && OnlyDistanceTwo(ts)
  {
    var ts := [Literal(x), Literal(a), Literal(b), Copy(3, 2)];
    assert ts[3].Copy?;
    var ts0: seq<Token> := [];
    var ts1, ts2 := ts0 + [Literal(x)], ts0 + [Literal(x)] + [Literal(a)];
    var ts3 := ts2 + [Literal(b)];
    assert ts3 + [Copy(3, 2)] == ts;
    var out: seq<byte> := [];
    assert Expand([], ts0) == Some(out) && out + [x] == [x] && [x] + [a] == [x, a] && [x, a] + [b] == [x, a, b];
    ExpandNext(ts0, Literal(x));
    ExpandNext(ts1, Literal(a));
    ExpandNext(ts2, Literal(b));
    assert Expand([], ts3) == Some([x, a, b]);
    ExpandNext(ts3, Copy(3, 2));
    TwoRepeated(x, a, b);
  }

  lemma TwoRepeated(x: byte, a: byte, b: byte)
    ensures CopyBack([x, a, b], 3, 2) == [x, a, b, a, b, a]
  {
    assert [x, a, b] + [a] == [x, a, b, a] && [x, a, b, a] + [b] == [x, a, b, a, b];
    assert [x, a, b, a, b] + [a] == [x, a, b, a, b, a];
    assert CopyBack([x, a, b, a, b], 1, 2) == CopyBack([x, a, b, a, b, a], 0, 2);
    assert CopyBack([x, a, b, a], 2, 2) == CopyBack([x, a, b, a, b], 1, 2);
    assert CopyBack([x, a, b], 3, 2) == CopyBack([x, a, b, a], 2, 2);
  }

  lemma ExpandNext(ts: seq<Token>, t: Token)
    ensures Expand([], ts + [t]) == if Expand([], ts).Some? then Apply(Expand([], ts).value, t) else None
  {
    assert (ts + [t])[..|ts|] == ts;
  }
}
