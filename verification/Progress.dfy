/** What has been achieved at a point of the compression: on texts, tokens and bits. */
module Progress {
  import opened Bits
  import opened Options
  import opened Rfc1951
  import opened TokenCodes
  import opened Blocks
  import opened BlockSizes
  import opened LongestMatches
  import opened Matchers

  // ---------- Blocks ----------

  /** Whatever follows, decoding `bits` from the start arrives at their end with the output `history`. */
  ghost predicate Decoding(bits: seq<bool>, history: seq<byte>)
  {
    forall rest: seq<bool> :: InflateFrom(bits + rest, 0, []) == InflateFrom(bits + rest, |bits|, history)
  }

  lemma DecodingStarts()
    ensures Decoding([], [])
  {
  }

  /** One more block that is not the last. */
  lemma DecodingStep(before: seq<bool>, history: seq<byte>, after: seq<bool>, out: seq<byte>)
    requires Decoding(before, history) && Decodes(before, after, history, false, out)
    ensures Decoding(after, out)
  {
    hide ReadBlock;
    var e := after[|before|..];
    assert after == before + e;
    forall rest: seq<bool>
      ensures InflateFrom(after + rest, 0, []) == InflateFrom(after + rest, |after|, out)
    {
      Associate(before, e, rest);
      assert InflateFrom(before + (e + rest), 0, []) == InflateFrom(before + (e + rest), |before|, history);
      assert ReadBlock(after + rest, |before|, history) == Some((false, out, |after|));
    }
  }

  /** Whatever follows, decoding `bits` gives `out` and ends in the last byte. */
  ghost predicate Inflates(bits: seq<bool>, out: seq<byte>)
  {
    exists p: nat :: AlignUp(p) == |bits| && EndsAt(bits, out, p)
  }

  ghost predicate EndsAt(bits: seq<bool>, out: seq<byte>, p: nat)
  {
    forall rest: seq<bool> :: InflateFrom(bits + rest, 0, []) == Some((out, p))
  }

  /** The last block, and the bits that complete its last byte. */
  lemma DecodingEnds(before: seq<bool>, history: seq<byte>, sent: seq<bool>, out: seq<byte>, pad: seq<bool>)
    requires Decoding(before, history) && Decodes(before, sent, history, true, out) && AlignUp(|sent|) == |sent + pad|
    ensures Inflates(sent + pad, out)
  {
    hide ReadBlock;
    var e := sent[|before|..];
    assert sent == before + e;
    forall rest: seq<bool>
      ensures InflateFrom(sent + pad + rest, 0, []) == Some((out, |sent|))
    {
      Associate(sent, pad, rest);
      Associate(before, e, pad + rest);
      assert InflateFrom(before + (e + (pad + rest)), 0, []) == InflateFrom(before + (e + (pad + rest)), |before|, history);
      assert ReadBlock(sent + (pad + rest), |before|, history) == Some((true, out, |sent|));
    }
    assert EndsAt(sent + pad, out, |sent|);
  }

  // ---------- Tokens ----------

  /** A literal, or a match of 3 to 258 bytes within the greatest distance. */
  predicate Proper(t: Token)
  {
    t.Copy? ==> 3 <= t.length <= MAX_MATCH && 1 <= t.distance <= MAX_DIST
  }

  /** All the tokens of a run are proper, and expand to `out`. */
  ghost predicate Traced(all: seq<Token>, out: seq<byte>)
  {
    (forall i :: 0 <= i < |all| ==> Proper(all[i])) && Expand([], all) == Some(out)
  }

  // ---------- Matches in the text ----------

  /** The bytes at offset `i` from `at` and from `distance` before it are equal. */
  predicate Repeats(text: seq<byte>, at: nat, distance: nat, i: nat)
    requires distance <= at && at + i < |text|
  {
    text[at + i] == text[at + i - distance]
  }

  /** The text from `at` on repeats what stands `distance` before, for `length` bytes. */
  ghost predicate Pending(text: seq<byte>, at: nat, length: nat, distance: nat)
  {
    && 3 <= length <= MAX_MATCH && 1 <= distance <= MAX_DIST && distance <= at && at + length <= |text|
    && (length == 3 ==> distance <= TOO_FAR)
    && (forall i :: 0 <= i < length ==> Repeats(text, at, distance, i))
  }

  lemma {:induction false} CopyBackRepeats(text: seq<byte>, at: nat, length: nat, distance: nat, n: nat)
    requires 1 <= distance <= at && at + length <= |text| && n <= length
    requires forall i :: 0 <= i < length ==> Repeats(text, at, distance, i)
    ensures CopyBack(text[..at + n], length - n, distance) == text[..at + length]
    decreases length - n
  {
    if n < length {
      assert Repeats(text, at, distance, n);
      assert text[..at + n] + [text[..at + n][at + n - distance]] == text[..at + n + 1];
      CopyBackRepeats(text, at, length, distance, n + 1);
    }
  }

  lemma ExpandPush(history: seq<byte>, ts: seq<Token>, t: Token)
    requires Expand(history, ts).Some?
    ensures Expand(history, ts + [t]) == Apply(Expand(history, ts).value, t)
  {
    assert (ts + [t])[..|ts|] == ts;
  }

  /** Sending a pending match extends the output by its length. */
  lemma MatchExtends(history: seq<byte>, ts: seq<Token>, text: seq<byte>, at: nat, length: nat, distance: nat)
    requires Pending(text, at, length, distance) && Expand(history, ts) == Some(text[..at])
    ensures Expand(history, ts + [Copy(length, distance)]) == Some(text[..at + length])
    ensures Sane(Copy(length, distance)) && Near(Copy(length, distance))
  {
    ExpandPush(history, ts, Copy(length, distance));
    CopyBackRepeats(text, at, length, distance, 0);
  }

  lemma LiteralExtends(history: seq<byte>, ts: seq<Token>, text: seq<byte>, at: nat)
    requires at < |text| && Expand(history, ts) == Some(text[..at])
    ensures Expand(history, ts + [Literal(text[at])]) == Some(text[..at + 1])
    ensures Sane(Literal(text[at])) && Near(Literal(text[at]))
  {
    ExpandPush(history, ts, Literal(text[at]));
    assert text[..at] + [text[at]] == text[..at + 1];
  }

  lemma PendingGrows(text: seq<byte>, text': seq<byte>, at: nat, length: nat, distance: nat)
    requires Pending(text, at, length, distance) && text <= text'
    ensures Pending(text', at, length, distance)
  {
    forall i | 0 <= i < length
      ensures Repeats(text', at, distance, i)
    {
      assert Repeats(text, at, distance, i);
    }
  }

  /** A byte of the window is a byte of the text. */
  lemma HoldsAt(win: seq<byte>, text: seq<byte>, base: nat, valid: nat, i: nat)
    requires Holding(win, text, base, valid) && i < valid
    ensures win[i] == text[base + i]
  {
    assert win[i] == win[..valid][i] == text[base..][i];
  }

  /** A match in the window that does not go beyond the text is a match in the text. */
  lemma MatchPends(win: seq<byte>, text: seq<byte>, base: nat, valid: nat, p: nat, q: nat, length: nat)
    requires Holding(win, text, base, valid) && p < q <= p + MAX_DIST && q + MAX_MATCH <= |win|
    requires 3 <= length <= MatchLength(win, p, q) && q + length <= valid && (length == 3 ==> q - p <= TOO_FAR)
    ensures Pending(text, base + q, length, q - p)
  {
    hide MatchLength;
    var at, distance := base + q, q - p;
    forall i | 0 <= i < length
      ensures Repeats(text, at, distance, i)
    {
      assert Same(win, p, q, i);
      HoldsAt(win, text, base, valid, p + i);
      HoldsAt(win, text, base, valid, q + i);
    }
  }

  /** The part of the text in the window that has not been flushed. */
  lemma WindowText(win: seq<byte>, text: seq<byte>, base: nat, valid: nat, start: nat, end: nat)
    requires Holding(win, text, base, valid) && start <= end <= valid
    ensures win[start..end] == text[base + start..base + end]
  {
    assert win[start..end] == win[..valid][start..end];
    assert text[base + start..base + end] == text[base..][start..end];
  }

  /** A pending match extends what all tokens expand to. */
  lemma MatchTraced(all: seq<Token>, text: seq<byte>, at: nat, length: nat, distance: nat)
    requires Pending(text, at, length, distance) && Traced(all, text[..at])
    ensures Traced(all + [Copy(length, distance)], text[..at + length])
  {
    hide Expand, Repeats;
    MatchExtends([], all, text, at, length, distance);
  }

  lemma LiteralTraced(all: seq<Token>, text: seq<byte>, at: nat)
    requires at < |text| && Traced(all, text[..at])
    ensures Traced(all + [Literal(text[at])], text[..at + 1])
  {
    hide Expand;
    LiteralExtends([], all, text, at);
  }
}
