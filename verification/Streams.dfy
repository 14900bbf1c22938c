/** Finding encoded values in a bit stream. */
module Streams {
  import opened Bits
  import opened Options
  import opened Rfc1951

  lemma AtSplit(bits: seq<bool>, pos: nat, a: seq<bool>, b: seq<bool>)
    requires At(bits, pos, a + b)
    ensures At(bits, pos, a) && At(bits, pos + |a|, b)
  {
    var s := bits[pos..pos + |a| + |b|];
    assert s == a + b;
    assert bits[pos..pos + |a|] == s[..|a|];
    assert bits[pos + |a|..pos + |a| + |b|] == s[|a|..];
  }

  lemma FieldAt(bits: seq<bool>, pos: nat, v: nat, n: nat)
    requires At(bits, pos, Lsb(v, n)) && v < Pow2(n)
    ensures ReadField(bits, pos, n) == Some((v, pos + n))
  {
    ValLsb(v, n);
  }

  /** What has been sent can be found, whatever follows. */
  lemma SentIsThere(sent: seq<bool>, e: seq<bool>, rest: seq<bool>)
    ensures At(sent + e + rest, |sent|, e)
  {
  }
}
