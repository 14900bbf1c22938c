/** The search for the longest match along a hash chain. */
module LongestMatches {
  import opened Bits
  import opened Hashing
  import opened HashChains

  const MIN_MATCH: nat := 3
  const MAX_MATCH: nat := 258
  const MIN_LOOKAHEAD: nat := MAX_MATCH + MIN_MATCH + 1
  const MAX_DIST: nat := WSIZE - MIN_LOOKAHEAD
  const WINDOW_SIZE: nat := 2 * WSIZE

  const MAX_CHAIN_LENGTH: nat := 4096
  const MAX_LAZY_MATCH: nat := 258
  const GOOD_MATCH: nat := 32
  const NICE_MATCH: nat := 258

  /** The value of an unsigned 32-bit variable to which `x` is assigned. */
  function Uint32(x: int): (r: nat)
    ensures r < 0x1_0000_0000 && (0 <= x < 0x1_0000_0000 ==> r == x)
  {
    x % 0x1_0000_0000
  }

  /** The bytes `k` positions after `p` and `q` are equal. */
  predicate Same(win: seq<byte>, p: nat, q: nat, k: nat)
    requires p + k < |win| && q + k < |win|
  {
    win[p + k] == win[q + k]
  }

  /** How many bytes from offset `i` on are equal at `p` and `q`, counted up to offset 258. */
  function Common(win: seq<byte>, p: nat, q: nat, i: nat): (r: nat)
    requires p + MAX_MATCH <= |win| && q + MAX_MATCH <= |win| && i <= MAX_MATCH
    ensures i <= r <= MAX_MATCH
    ensures forall k :: i <= k < r ==> Same(win, p, q, k)
    ensures r < MAX_MATCH ==> !Same(win, p, q, r)
    decreases MAX_MATCH - i
  {
    if i == MAX_MATCH || !Same(win, p, q, i) then i else Common(win, p, q, i + 1)
  }

  /** The length of the match between two positions. */
  function MatchLength(win: seq<byte>, p: nat, q: nat): (r: nat)
    requires p + MAX_MATCH <= |win| && q + MAX_MATCH <= |win|
    ensures r <= MAX_MATCH
    ensures forall k :: 0 <= k < r ==> Same(win, p, q, k)
    ensures r < MAX_MATCH ==> !Same(win, p, q, r)
  {
    Common(win, p, q, 0)
  }

  lemma MatchLengthIs(win: seq<byte>, p: nat, q: nat, r: nat)
    requires p + MAX_MATCH <= |win| && q + MAX_MATCH <= |win| && r <= MAX_MATCH
    requires forall k :: 0 <= k < r ==> Same(win, p, q, k)
    requires r < MAX_MATCH ==> !Same(win, p, q, r)
    ensures MatchLength(win, p, q) == r
  {
    hide MatchLength;
    var m := MatchLength(win, p, q);
    assert m < MAX_MATCH ==> !Same(win, p, q, m);
    assert r < MAX_MATCH ==> !Same(win, p, q, r);
  }

  /** A mismatch bounds the length of the match. */
  lemma Mismatch(win: seq<byte>, p: nat, q: nat, i: nat)
    requires p + MAX_MATCH <= |win| && q + MAX_MATCH <= |win| && i < MAX_MATCH && !Same(win, p, q, i)
    ensures MatchLength(win, p, q) <= i
  {
    hide MatchLength;
  }

  /** The next candidate on the chain. */
  function NextOn(prev: seq<Pos>, cur: nat): nat
    requires |prev| == WSIZE
  {
    prev[Slot(cur)]
  }

  /** The positions a search visits from `cur` on: those above `limit`, at most `chain` of them. */
  function Candidates(prev: seq<Pos>, cur: nat, limit: nat, chain: nat): (s: seq<nat>)
    requires |prev| == WSIZE
    decreases chain
  {
    if chain == 0 then []
    else [cur] + (if NextOn(prev, cur) > limit then Candidates(prev, NextOn(prev, cur), limit, chain - 1) else [])
  }

  /** No candidate in `s` matches more than `best` bytes. */
  ghost predicate NoneBetter(win: seq<byte>, s: seq<nat>, q: nat, best: nat)
    requires q + MAX_MATCH <= |win|
  {
    forall k :: 0 <= k < |s| ==> s[k] < q && MatchLength(win, s[k], q) <= best
  }

  /** `cur` can be matched with `q`: near enough, and with the same hash. */
  ghost predicate Candidate(win: seq<byte>, cur: nat, q: nat, bits: nat)
  {
    0 < cur < q <= cur + MAX_DIST && q + 2 < |win| && Key(win, cur, bits) == Key(win, q, bits)
  }

  /** The search limit for position `q`. */
  function Limit(q: nat): nat
  {
    if q > MAX_DIST then q - MAX_DIST else 0
  }

  lemma NextCandidate(win: seq<byte>, prev: seq<Pos>, cur: nat, q: nat, bits: nat)
    requires Links(win, prev, q + 1, bits) && Candidate(win, cur, q, bits) && NextOn(prev, cur) > Limit(q)
    ensures Candidate(win, NextOn(prev, cur), q, bits) && NextOn(prev, cur) < cur
  {
    hide Key;
    assert LinkOf(win, cur, prev[Slot(cur)], bits);
  }

  /** The whole chain consists of candidates, each further back. */
  lemma {:induction false} ChainKeeps(win: seq<byte>, prev: seq<Pos>, cur: nat, q: nat, chain: nat, bits: nat)
    requires Links(win, prev, q + 1, bits) && Candidate(win, cur, q, bits)
    ensures forall k :: 0 <= k < |Candidates(prev, cur, Limit(q), chain)| ==> Candidate(win, Candidates(prev, cur, Limit(q), chain)[k], q, bits)
    decreases chain
  {
    hide Candidate, Limit;
    if chain > 0 && NextOn(prev, cur) > Limit(q) {
      NextCandidate(win, prev, cur, q, bits);
      ChainKeeps(win, prev, NextOn(prev, cur), q, chain - 1, bits);
    }
  }

  /** The third bytes need not be compared. */
  lemma ThirdEqual(win: seq<byte>, cur: nat, q: nat, bits: nat)
    requires HashBits(bits) && Candidate(win, cur, q, bits) && win[cur] == win[q] && win[cur + 1] == win[q + 1]
    ensures win[cur + 2] == win[q + 2]
  {
    ThirdByte(win[q], win[q + 1], win[cur + 2], win[q + 2], bits);
  }

  /** The number of equal bytes at `cur` and `q`, of which the first three are known to be equal.
      The end is checked after every eighth comparison only. */
  method Extend(window: array<byte>, cur: nat, q: nat) returns (len: nat)
    requires cur < q && q + MAX_MATCH < window.Length
    requires Same(window[..], cur, q, 0) && Same(window[..], cur, q, 1) && Same(window[..], cur, q, 2)
    ensures len == MatchLength(window[..], cur, q)
  {
    hide MatchLength, Same;
    ghost var win := window[..];
    var scan, equal := 2, true;
    while equal && scan < MAX_MATCH
      invariant 2 <= scan <= MAX_MATCH && (equal ==> scan % 8 == 2)
      invariant forall k :: 0 <= k < scan ==> Same(win, cur, q, k)
      invariant equal <==> Same(win, cur, q, scan)
      decreases MAX_MATCH - scan, equal
    {
      ghost var from := scan;
      var count := 0;
      while equal && count < 8
        invariant 0 <= count <= 8 && from <= scan <= from + count && (equal ==> scan == from + count)
        invariant forall k :: 0 <= k < scan ==> Same(win, cur, q, k)
        invariant equal <==> Same(win, cur, q, scan)
        invariant count > 0 ==> scan > from
      {
        scan := scan + 1;
        equal := Equal(window, cur, q, scan);
        count := count + 1;
      }
    }
    len := scan;
    MatchLengthIs(win, cur, q, len);
  }

  method Equal(window: array<byte>, cur: nat, q: nat, k: nat) returns (equal: bool)
    requires cur + k < window.Length && q + k < window.Length
    ensures equal <==> Same(window[..], cur, q, k)
  {
    equal := window[q + k] == window[cur + k];
  }
}
