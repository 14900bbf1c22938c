/** What the counted tokens of a block cost under a pair of codes. */
module TokenCosts {
  import opened Rfc1951
  import opened Sums
  import opened BitLengths
  import opened CodeLengthReading
  import opened TokenCodes

  /** How often each literal/length symbol is sent, the end-of-block symbol included. */
  function LitFreq(ts: seq<Token>): (f: seq<nat>)
    ensures |f| == 286
  {
    if ts == [] then seq(286, i => if i == END_OF_BLOCK then 1 else 0)
    else
      var (f, t) := (LitFreq(ts[..|ts| - 1]), ts[|ts| - 1]);
      if Sane(t) then f[LitSymbol(t) := f[LitSymbol(t)] + 1] else f
  }

  /** How often each distance symbol is sent. */
  function DistFreq(ts: seq<Token>): (f: seq<nat>)
    ensures |f| == 30
  {
    if ts == [] then seq(30, _ => 0)
    else
      var (f, t) := (DistFreq(ts[..|ts| - 1]), ts[|ts| - 1]);
      if Sane(t) && t.Copy? then f[DistSymbol(t) := f[DistSymbol(t)] + 1] else f
  }

  ghost predicate AllSane(ts: seq<Token>)
  {
    forall i :: 0 <= i < |ts| ==> Sane(ts[i])
  }

  lemma {:induction false} FreqTotals(ts: seq<Token>)
    requires AllSane(ts)
    ensures Sum(LitFreq(ts)) == |ts| + 1 && Sum(DistFreq(ts)) <= |ts|
    ensures LitFreq(ts)[END_OF_BLOCK] >= 1
  {
    hide Sum, LitSymbol, DistSymbol;
    if ts == [] {
      NoFreqs();
    } else {
      var init, t := ts[..|ts| - 1], ts[|ts| - 1];
      FreqTotals(init);
      SumUpdate(LitFreq(init), LitSymbol(t), LitFreq(init)[LitSymbol(t)] + 1);
      if t.Copy? {
        SumUpdate(DistFreq(init), DistSymbol(t), DistFreq(init)[DistSymbol(t)] + 1);
      }
    }
  }

  lemma NoFreqs()
    ensures Sum(LitFreq([])) == 1 && Sum(DistFreq([])) == 0
  {
    var z: seq<int> := seq(286, _ => 0);
    SumConstant(z, 0);
    SumUpdate(z, END_OF_BLOCK, 1);
    assert LitFreq([]) == z[END_OF_BLOCK := 1];
    SumConstant(DistFreq([]), 0);
  }

  /** Every token sent has been counted. */
  ghost predicate CountedIn(lf: seq<nat>, df: seq<nat>, t: Token)
    requires |lf| == 286 && |df| == 30
  {
    Sane(t) ==> lf[LitSymbol(t)] > 0 && (t.Copy? ==> df[DistSymbol(t)] > 0)
  }

  lemma {:induction false} AllCounted(ts: seq<Token>)
    ensures forall i :: 0 <= i < |ts| ==> CountedIn(LitFreq(ts), DistFreq(ts), ts[i])
  {
    hide LitSymbol, DistSymbol;
    if ts != [] {
      var init := ts[..|ts| - 1];
      AllCounted(init);
      forall i | 0 <= i < |ts|
        ensures CountedIn(LitFreq(ts), DistFreq(ts), ts[i])
      {
        if i < |init| {
          assert ts[i] == init[i];
        }
      }
    }
  }

  function LitExtras(n: nat): (e: seq<nat>)
    requires n <= 286
    ensures |e| == n
  {
    seq(n, i requires 0 <= i < n => if i < 257 then 0 else LENGTH_EXTRA[i - 257])
  }

  function DistExtras(n: nat): (e: seq<nat>)
    requires n <= 30
    ensures |e| == n
  {
    seq(n, i requires 0 <= i < n => DISTANCE_EXTRA[i])
  }

  lemma TokenLength(ll: seq<nat>, dl: seq<nat>, t: Token)
    requires TokenCoded(ll, dl, t)
    ensures |TokenBits(ll, dl, t)|
         == ll[LitSymbol(t)] + LitExtras(286)[LitSymbol(t)]
            + (if t.Copy? then dl[DistSymbol(t)] + DistExtras(30)[DistSymbol(t)] else 0)
  {
    if t.Copy? {
      var c, more, ex, d, far, fx := CopyParts(ll, dl, t.length, t.distance);
    }
  }

  /** The symbols of a token lie below the lengths that are charged. */
  ghost predicate Charging(m: nat, md: nat, ts: seq<Token>)
  {
    && END_OF_BLOCK < m <= 286 && md <= 30
    && (forall i :: 0 <= i < |ts| ==> Sane(ts[i]) ==> LitSymbol(ts[i]) < m && (ts[i].Copy? ==> DistSymbol(ts[i]) < md))
  }

  lemma {:induction false} NoTokens(ll: seq<nat>, dl: seq<nat>)
    requires END_OF_BLOCK < |ll| <= 286 && |dl| <= 30
    ensures Sum(Charges(LitFreq([]), ll, LitExtras(|ll|))) == ll[END_OF_BLOCK]
    ensures Sum(Charges(DistFreq([]), dl, DistExtras(|dl|))) == 0
  {
    var c := Charges(LitFreq([]), ll, LitExtras(|ll|));
    forall i | 0 <= i < |ll|
      ensures c[i] == if i == END_OF_BLOCK then ll[i] else 0
    {
    }
    var z: seq<int> := seq(|ll|, _ => 0);
    SumConstant(z, 0);
    SumUpdate(z, END_OF_BLOCK, ll[END_OF_BLOCK]);
    assert c == z[END_OF_BLOCK := ll[END_OF_BLOCK]];
    SumConstant(Charges(DistFreq([]), dl, DistExtras(|dl|)), 0);
  }

  /** The charges for the counted tokens are exactly the bits of the block data. */
  lemma {:induction false} TokensCost(ts: seq<Token>, ll: seq<nat>, dl: seq<nat>, m: nat, md: nat)
    requires AllTokensCoded(ll, dl, ts) && Charging(m, md, ts) && m <= |ll| && md <= |dl|
    ensures Sum(Charges(LitFreq(ts), ll[..m], LitExtras(m))) + Sum(Charges(DistFreq(ts), dl[..md], DistExtras(md)))
         == |DataBits(ll, dl, ts)|
  {
    hide Sum, Charges, TokenBits, LitSymbol, DistSymbol, CodeBits, LENGTH_EXTRA, DISTANCE_EXTRA;
    if ts == [] {
      NoTokens(ll[..m], dl[..md]);
    } else {
      var init, t := ts[..|ts| - 1], ts[|ts| - 1];
      TokensCost(init, ll, dl, m, md);
      LastTokenCost(init, t, ll, dl, m, md);
      assert init + [t] == ts;
    }
  }

  lemma LastTokenCost(init: seq<Token>, t: Token, ll: seq<nat>, dl: seq<nat>, m: nat, md: nat)
    requires TokenCoded(ll, dl, t) && Sane(t) && m <= |ll| && md <= |dl| && m <= 286 && md <= 30
    requires LitSymbol(t) < m && (t.Copy? ==> DistSymbol(t) < md)
    ensures Sum(Charges(LitFreq(init + [t]), ll[..m], LitExtras(m))) + Sum(Charges(DistFreq(init + [t]), dl[..md], DistExtras(md)))
         == Sum(Charges(LitFreq(init), ll[..m], LitExtras(m))) + Sum(Charges(DistFreq(init), dl[..md], DistExtras(md)))
            + |TokenBits(ll, dl, t)|
  {
    hide Sum, Charges, TokenBits, TokenCoded, LitSymbol, DistSymbol, LENGTH_EXTRA, DISTANCE_EXTRA;
    assert (init + [t])[..|init|] == init;
    TokenLength(ll, dl, t);
    OneMoreCharge(LitFreq(init), ll[..m], LitExtras(m), LitSymbol(t));
    if t.Copy? {
      OneMoreCharge(DistFreq(init), dl[..md], DistExtras(md), DistSymbol(t));
    }
  }
}
