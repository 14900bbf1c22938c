/** Strings of three bytes that occur again in a text. */
module Repetitions {
  import opened Bits
  import opened HashChains
  import opened LongestMatches

  /** The last position at which a whole lookahead is inside the window. */
  const BOUND: nat := WINDOW_SIZE - MIN_LOOKAHEAD

  /** The three bytes at `i` occur again at `q`. */
  predicate SameThree(text: seq<byte>, i: nat, q: nat)
  {
    i < q && q + 3 <= |text| && text[i] == text[q] && text[i + 1] == text[q + 1] && text[i + 2] == text[q + 2]
  }

  /** What stands at `q` has stood before. */
  ghost predicate Repeated(text: seq<byte>, q: nat)
  {
    exists i: nat :: SameThree(text, i, q)
  }

  /** What stands at `q` has stood before, not at the very beginning and not too far away. */
  ghost predicate RepeatedNear(text: seq<byte>, q: nat)
  {
    exists i: nat :: 0 < i && q - i < MAX_DIST && SameThree(text, i, q)
  }

  /** Nothing before `n` has stood before. */
  ghost predicate FreshUpTo(text: seq<byte>, n: nat)
  {
    forall q: nat :: q < n ==> !Repeated(text, q)
  }

  lemma FreshNext(text: seq<byte>, n: nat)
    requires FreshUpTo(text, n) && !Repeated(text, n)
    ensures FreshUpTo(text, n + 1)
  {
  }

  /** A repetition in a part is one in the text. */
  lemma RepeatedIn(part: seq<byte>, text: seq<byte>, q: nat)
    requires part <= text && Repeated(part, q)
    ensures Repeated(text, q)
  {
    var i: nat :| SameThree(part, i, q);
    assert SameThree(text, i, q);
  }

  /** A repetition in the text is one in a part that reaches far enough. */
  lemma NearIn(part: seq<byte>, text: seq<byte>, q: nat)
    requires part <= text && q + 3 <= |part| && RepeatedNear(text, q)
    ensures RepeatedNear(part, q)
  {
    var i: nat :| 0 < i && q - i < MAX_DIST && SameThree(text, i, q);
    assert SameThree(part, i, q);
  }

  // ---------- Searches and the end of the window ----------

  /** A string has been searched for where no whole lookahead is left in the window that begins at `base`. */
  ghost predicate Beyond(searches: seq<nat>, base: nat)
  {
    exists i :: 0 <= i < |searches| && searches[i] > base + BOUND
  }

  /** Whether a search was outside is known: never before the end of the input, afterwards exactly if one lies beyond the
      bound in the last window; not if the window slid when the end was met. */
  ghost predicate Watched(searches: seq<nat>, outside: bool, ended: bool, noticed: nat, base: nat, size: nat)
  {
    && base % WSIZE == 0 && (forall i :: 0 <= i < |searches| ==> searches[i] < size)
    && (!ended ==> !outside && !Beyond(searches, base))
    && (ended ==> (outside <==> Beyond(searches, base)) && (noticed >= WSIZE + MAX_DIST ==> size <= base + BOUND))
    && (outside ==> size <= base + WINDOW_SIZE - 2)
  }

  lemma WatchedSearch(searches: seq<nat>, outside: bool, ended: bool, noticed: nat, base: nat, size: nat, strstart: nat)
    requires Watched(searches, outside, ended, noticed, base, size) && base + strstart < size
    requires if ended then size <= base + WINDOW_SIZE - 2 else strstart <= BOUND
    ensures Watched(searches + [base + strstart], outside || strstart > BOUND, ended, noticed, base, size)
  {
    var more := searches + [base + strstart];
    if Beyond(searches, base) {
      var i :| 0 <= i < |searches| && searches[i] > base + BOUND;
      assert more[i] > base + BOUND;
    }
    assert more[|searches|] == base + strstart;
    if Beyond(more, base) {
      var i :| 0 <= i < |more| && more[i] > base + BOUND;
      assert i < |searches| ==> searches[i] > base + BOUND;
    }
  }

  /** Reading on, with a slide exactly where there is no room for a lookahead. */
  lemma WatchedRefill(searches: seq<nat>, ended: bool, noticed: nat, base: nat, size: nat, slid: nat, size': nat)
    requires Watched(searches, false, false, noticed, base, size) && size <= size'
    requires slid == 0 || slid == WSIZE
    requires ended && noticed >= WSIZE + MAX_DIST ==> size' <= base + slid + BOUND
    ensures Watched(searches, false, ended, noticed, base + slid, size')
  {
    assert forall i :: 0 <= i < |searches| && searches[i] > base + slid + BOUND ==> searches[i] > base + BOUND;
  }

  // ---------- While nothing has been repeated ----------

  /** Up to `pos` a string has been searched for wherever the text is fresh and then repeats something near. In a text that
      is fresh that far and fits the window, the window has not slid, and the end is met before the bound is passed. */
  ghost predicate Straight(input: seq<byte>, pos: nat, ended: bool, base: nat, searches: seq<nat>)
  {
    && (forall q: nat {:trigger RepeatedNear(input, q)} ::
          q < pos && FreshUpTo(input, q) && RepeatedNear(input, q) ==> q in searches)
    && (|input| <= WINDOW_SIZE - 2 && FreshUpTo(input, pos) ==> base == 0)
    && (|input| <= WINDOW_SIZE - 2 && pos > BOUND && FreshUpTo(input, BOUND + 1) ==> ended && base == 0)
  }

  /** What one position adds to the searches. */
  ghost predicate Noted(before: seq<nat>, after: seq<nat>, text: seq<byte>, pos: nat, near: bool, previous: nat, found: nat)
  {
    && before <= after
    && (near && previous < MAX_LAZY_MATCH && RepeatedNear(text, pos) ==> pos in after)
    && (found >= MIN_MATCH && found > previous ==> Repeated(text, pos))
  }

  lemma LessFresh(text: seq<byte>, m: nat, n: nat)
    requires m <= n && FreshUpTo(text, n)
    ensures FreshUpTo(text, m)
  {
  }

  /** One round: fresh text is passed byte by byte, with lengths below 3. */
  lemma StraightRound(input: seq<byte>, text: seq<byte>, pos: nat, previous: nat, ended: bool, base: nat, searches: seq<nat>,
                      found: nat, pos': nat, length: nat, slid: nat, ended': bool, searches': seq<nat>)
    requires Straight(input, pos, ended, base, searches) && (FreshUpTo(input, pos) ==> previous <= 2)
    requires text <= input && (if ended then text == input else pos + MIN_LOOKAHEAD <= |text|) && pos < pos'
    requires Noted(searches, searches', text, pos, true, previous, found)
    requires previous < MIN_MATCH ==> pos' == pos + 1 && length == found
    requires slid > 0 ==> !ended && pos' >= base + WSIZE + MAX_DIST
    requires ended ==> ended'
    ensures Straight(input, pos', ended', base + slid, searches') && (FreshUpTo(input, pos') ==> length <= 2)
  {
    hide Repeated, RepeatedNear, FreshUpTo;
    forall q: nat {:trigger RepeatedNear(input, q)} | q < pos' && FreshUpTo(input, q) && RepeatedNear(input, q)
      ensures q in searches'
    {
      if q >= pos {
        LessFresh(input, pos, q);
        NearFits(input, q);
        NearIn(text, input, q);
      }
    }
    if FreshUpTo(input, pos') {
      LessFresh(input, pos, pos');
      NotRepeated(input, pos', pos);
      if Repeated(text, pos) {
        RepeatedIn(text, input, pos);
      }
    }
    if pos' > BOUND && FreshUpTo(input, BOUND + 1) && pos <= BOUND {
      LessFresh(input, pos, BOUND + 1);
    }
  }

  lemma NearFits(text: seq<byte>, q: nat)
    requires RepeatedNear(text, q)
    ensures q + 3 <= |text|
  {
  }

  lemma NotRepeated(text: seq<byte>, n: nat, q: nat)
    requires FreshUpTo(text, n) && q < n
    ensures !Repeated(text, q)
  {
  }
}
