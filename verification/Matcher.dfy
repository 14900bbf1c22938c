/** The sliding window and the search for matches in it. */
module Matchers {
  import opened Bits
  import opened Hashing
  import opened HashChains
  import opened LongestMatches
  import opened Sources

  /** The window holds the last bytes of `text`, the first of them at position 0; `valid` of its bytes are text. */
  ghost predicate Holding(win: seq<byte>, text: seq<byte>, base: nat, valid: nat)
  {
    && |win| == WINDOW_SIZE + MIN_LOOKAHEAD && valid <= WINDOW_SIZE && |text| == base + valid
    && win[..valid] == text[base..]
  }

  lemma HoldingSize(win: seq<byte>, text: seq<byte>, base: nat, valid: nat)
    requires Holding(win, text, base, valid)
    ensures |text| == base + valid && valid <= WINDOW_SIZE && |win| == WINDOW_SIZE + MIN_LOOKAHEAD
  {
  }

  /** The best match among the candidates is known: `best`, at `at` if it is longer than `previous`. */
  ghost predicate Best(win: seq<byte>, cs: seq<nat>, q: nat, previous: nat, best: nat, at: nat)
    requires q + MAX_MATCH <= |win|
  {
    && NoneBetter(win, cs, q, best) && previous <= best <= MAX_MATCH
    && (best > previous ==> at in cs && at < q && MatchLength(win, at, q) == best)
  }

  lemma BestPush(win: seq<byte>, cs: seq<nat>, q: nat, previous: nat, best: nat, at: nat, c: nat, len: nat)
    requires q + MAX_MATCH <= |win| && Best(win, cs, q, previous, best, at) && c < q && len <= MAX_MATCH
    requires MatchLength(win, c, q) <= (if len > best then len else best) && (len > best ==> MatchLength(win, c, q) == len)
    ensures Best(win, cs + [c], q, previous, if len > best then len else best, if len > best then c else at)
  {
    hide MatchLength;
    var cs' := cs + [c];
    assert cs'[|cs|] == c;
    if best > previous {
      var k :| 0 <= k < |cs| && cs[k] == at;
      assert cs'[k] == at;
    }
  }

  /** Nothing is better than a match of the maximal length. */
  lemma BestOfAll(win: seq<byte>, seen: seq<nat>, all: seq<nat>, q: nat, previous: nat, at: nat)
    requires q + MAX_MATCH <= |win| && Best(win, seen, q, previous, MAX_MATCH, at)
    requires |seen| <= |all| && all[..|seen|] == seen && forall k :: 0 <= k < |all| ==> all[k] < q
    ensures Best(win, all, q, previous, MAX_MATCH, at)
  {
    hide MatchLength;
    if at in seen {
      var k :| 0 <= k < |seen| && seen[k] == at;
      assert all[k] == all[..|seen|][k] == at;
    }
  }

  lemma ChainIsBefore(win: seq<byte>, prev: seq<Pos>, cur: nat, q: nat, chain: nat, bits: nat)
    requires Links(win, prev, q + 1, bits) && Candidate(win, cur, q, bits)
    ensures var cs := Candidates(prev, cur, Limit(q), chain); forall k :: 0 <= k < |cs| ==> cs[k] < q
  {
    hide Candidates, Key, Limit;
    ChainKeeps(win, prev, cur, q, chain, bits);
  }

  lemma CandidatesStep(prev: seq<Pos>, cur: nat, limit: nat, chain: nat) returns (rest: seq<nat>)
    requires |prev| == WSIZE && chain > 0
    ensures rest == if NextOn(prev, cur) > limit then Candidates(prev, NextOn(prev, cur), limit, chain - 1) else []
    ensures Candidates(prev, cur, limit, chain) == [cur] + rest
    ensures chain == 1 ==> rest == []
  {
    rest := if NextOn(prev, cur) > limit then Candidates(prev, NextOn(prev, cur), limit, chain - 1) else [];
  }

  /** The search has visited the candidates `seen` of `all` and comes to `cur`. */
  ghost predicate Searching(win: seq<byte>, prev: seq<Pos>, all: seq<nat>, seen: seq<nat>, cur: nat, chain: nat, q: nat, bits: nat,
                            previous: nat, best: nat, at: nat)
  {
    && q + MAX_MATCH <= |win| && Links(win, prev, q + 1, bits) && Candidate(win, cur, q, bits)
    && all == seen + Candidates(prev, cur, Limit(q), chain) && (forall k :: 0 <= k < |all| ==> all[k] < q)
    && Best(win, seen, q, previous, best, at)
  }

  lemma CandidateBefore(win: seq<byte>, cur: nat, q: nat, bits: nat)
    requires Candidate(win, cur, q, bits)
    ensures 0 < cur < q
  {
  }

  lemma StartSearch(win: seq<byte>, prev: seq<Pos>, cur: nat, q: nat, chain: nat, bits: nat, previous: nat, at: nat)
    requires q + MAX_MATCH <= |win| && Links(win, prev, q + 1, bits) && Candidate(win, cur, q, bits) && previous < MAX_MATCH
    ensures Searching(win, prev, Candidates(prev, cur, Limit(q), chain), [], cur, chain, q, bits, previous, previous, at)
  {
    hide Candidates, Limit, Key, Candidate;
    ChainIsBefore(win, prev, cur, q, chain, bits);
    assert [] + Candidates(prev, cur, Limit(q), chain) == Candidates(prev, cur, Limit(q), chain);
  }

  /** One candidate of length `len` (if better than `best`): the search goes on, or the best of all is known. */
  lemma SearchStep(win: seq<byte>, prev: seq<Pos>, all: seq<nat>, seen: seq<nat>, cur: nat, chain: nat, q: nat, bits: nat,
                   previous: nat, best: nat, at: nat, len: nat)
    requires Searching(win, prev, all, seen, cur, chain, q, bits, previous, best, at) && chain > 0 && cur < q && q + MAX_MATCH <= |win|
    requires len <= MAX_MATCH && MatchLength(win, cur, q) <= (if len > best then len else best)
    requires len > best ==> MatchLength(win, cur, q) == len
    ensures |prev| == WSIZE
    ensures var (best', at', next) := (if len > best then len else best, if len > best then cur else at, NextOn(prev, cur));
      if best' == MAX_MATCH || !(next > Limit(q) && chain != 1) then Best(win, all, q, previous, best', at')
      else 0 < next < q && Candidate(win, next, q, bits) && Searching(win, prev, all, seen + [cur], next, chain - 1, q, bits, previous, best', at')
  {
    hide MatchLength, Candidates, Limit, Key, Candidate, Best;
    var rest := CandidatesStep(prev, cur, Limit(q), chain);
    BestPush(win, seen, q, previous, best, at, cur, len);
    assert seen + ([cur] + rest) == seen + [cur] + rest;
    var (best', at', next) := (if len > best then len else best, if len > best then cur else at, NextOn(prev, cur));
    if best' == MAX_MATCH {
      BestOfAll(win, seen + [cur], all, q, previous, at');
    } else if next > Limit(q) && chain != 1 {
      NextCandidate(win, prev, cur, q, bits);
      CandidateBefore(win, next, q, bits);
    } else {
      assert rest == [];
      assert all == seen + [cur];
    }
  }

  class Matcher {
    const bits: nat
    const window: array<byte>
    const prev: array<Pos>
    const head: array<Pos>
    var blockStart: int
    var insH: nat
    var prevLength: nat
    var strstart: nat
    var matchStart: nat
    var lookahead: nat
    var eofile: bool
    /** How many bytes of the input have left the window. */
    ghost var base: nat
    /** Where in the input strings have been searched for, and whether it was ever too near to the end of the window for a
        whole lookahead, which the debug assertion of `longest_match` excludes. */
    ghost var searches: seq<nat>
    ghost var outside: bool
    /** Where the refill that met the end of the input began. */
    ghost var noticed: nat

    constructor (bits: nat)
      requires HashBits(bits)
      ensures Shape() && this.bits == bits && matchStart == 0 && searches == [] && !outside && fresh(window) && fresh(prev) && fresh(head)
    {
      this.bits, matchStart, searches, outside := bits, 0, [], false;
      window := new byte[WINDOW_SIZE + MIN_LOOKAHEAD](_ => 0);
      prev, head := new Pos[WSIZE](_ => 0), new Pos[Pow2(bits)](_ => 0);
    }

    ghost predicate Shape()
    {
      && HashBits(bits) && window.Length == WINDOW_SIZE + MIN_LOOKAHEAD && prev.Length == WSIZE && head.Length == Pow2(bits)
      && prev != head
    }

    /** The positions before `n` are in the hash chains, and the rolling hash is ready for `n`. */
    ghost predicate Inserted(n: nat)
      requires Shape()
      reads this, window, prev, head
    {
      n + 2 <= WINDOW_SIZE && Chains(window[..], prev[..], head[..], n, bits) && Rolled(insH, window[n], window[n + 1], bits)
    }

    /** Inserts the string at `s` and returns the previous head of its chain. */
    method InsertString(s: nat) returns (hashHead: nat)
      requires Shape() && Inserted(s) && s + 3 <= WINDOW_SIZE
      modifies `insH, prev, head
      ensures Inserted(s + 1) && HeadOf(window[..], s, hashHead, Key(window[..], s, bits), bits)
      ensures var key := Key(window[..], s, bits);
        && key < head.Length && hashHead == old(head[..])[key]
        && prev[..] == old(prev[..])[Slot(s) := hashHead] && head[..] == old(head[..])[key := s]
    {
      hide UpdateHash, Rolled, Hash3, Pow2, Chains;
      ghost var win, p: seq<Pos>, h: seq<Pos> := window[..], prev[..], head[..];
      Roll(insH, window[s], window[s + 1], window[s + 2], bits);
      insH := UpdateHash(insH, window[s + 2], bits);
      InsertKeeps(win, p, h, s, bits, insH);
      hashHead := head[insH];
      prev[Slot(s)] := head[insH];
      head[insH] := s;
      assert prev[..] == p[Slot(s) := h[insH]] && head[..] == h[insH := s];
    }

    /** Finds the longest match for the string at `strstart`, looking at the chain from `curMatch` on.
        Matches no longer than `prevLength` are discarded. */
    method LongestMatch(curMatch: nat) returns (bestLen: nat)
      requires Shape() && Links(window[..], prev[..], strstart + 1, bits) && strstart + 3 <= WINDOW_SIZE
      requires Candidate(window[..], curMatch, strstart, bits) && 1 <= prevLength < MAX_LAZY_MATCH
      modifies `matchStart, `searches, `outside
      ensures searches == old(searches) + [base + strstart]
      ensures outside == (old(outside) || strstart > WINDOW_SIZE - MIN_LOOKAHEAD)
      ensures var chain := if prevLength >= GOOD_MATCH then MAX_CHAIN_LENGTH / 4 else MAX_CHAIN_LENGTH;
        Best(window[..], Candidates(prev[..], curMatch, Limit(strstart), chain), strstart, prevLength, bestLen, matchStart)
      ensures bestLen == prevLength ==> matchStart == old(matchStart)
    {
      hide Links, MatchLength, Candidates, Limit, Key, Candidate, Best, Searching;
      searches := searches + [base + strstart];
      outside := outside || strstart > WINDOW_SIZE - MIN_LOOKAHEAD;
      CandidateBefore(window[..], curMatch, strstart, bits);
      ghost var win, links: seq<Pos> := window[..], prev[..];
      var chainLength := MAX_CHAIN_LENGTH;
      bestLen := prevLength;
      if prevLength >= GOOD_MATCH {
        chainLength := chainLength / 4;
      }
      var cur: nat, lowest := curMatch, Limit(strstart);
      ghost var all, seen: seq<nat> := Candidates(links, cur, Limit(strstart), chainLength), [];
      StartSearch(win, links, cur, strstart, chainLength, bits, prevLength, matchStart);
      while true
        invariant 1 <= prevLength <= bestLen < MAX_MATCH && chainLength > 0 && 0 < cur < strstart && Candidate(win, cur, strstart, bits)
        invariant Searching(win, links, all, seen, cur, chainLength, strstart, bits, prevLength, bestLen, matchStart)
        invariant bestLen == prevLength ==> matchStart == old(matchStart)
        invariant searches == old(searches) + [base + strstart]
        invariant outside == (old(outside) || strstart > WINDOW_SIZE - MIN_LOOKAHEAD)
        decreases chainLength
      {
        var len := Try(cur, bestLen);
        SearchStep(win, links, all, seen, cur, chainLength, strstart, bits, prevLength, bestLen, matchStart, len);
        seen := seen + [cur];
        if len > bestLen {
          matchStart := cur;
          bestLen := len;
          if len >= NICE_MATCH {
            return;
          }
        }
        cur := prev[Slot(cur)];
        chainLength := chainLength - 1;
        if !(cur > lowest && chainLength != 0) {
          return;
        }
      }
    }

    /** The length of the match with `cur`, if it may exceed `bestLen`. */
    method Try(cur: nat, bestLen: nat) returns (len: nat)
      requires Shape() && strstart + 3 <= WINDOW_SIZE && Candidate(window[..], cur, strstart, bits) && 1 <= bestLen < MAX_MATCH
      ensures len <= MAX_MATCH && MatchLength(window[..], cur, strstart) <= (if len > bestLen then len else bestLen)
      ensures len > bestLen ==> MatchLength(window[..], cur, strstart) == len
    {
      hide MatchLength, Key;
      ghost var win := window[..];
      if window[cur + bestLen] != window[strstart + bestLen] {
        Mismatch(win, cur, strstart, bestLen);
        return 0;
      }
      if window[cur + bestLen - 1] != window[strstart + bestLen - 1] {
        Mismatch(win, cur, strstart, bestLen - 1);
        return 0;
      }
      if window[cur] != window[strstart] {
        Mismatch(win, cur, strstart, 0);
        return 0;
      }
      if window[cur + 1] != window[strstart + 1] {
        Mismatch(win, cur, strstart, 1);
        return 0;
      }
      ThirdEqual(win, cur, strstart, bits);
      len := Extend(window, cur, strstart);
    }

    /** The window holds the end of what has been read. */
    ghost predicate Filled(src: Source)
      reads this, window, src
    {
      Shape() && src.Valid() && Holding(window[..], src.Taken(), base, strstart + lookahead)
    }

    /** Reads up to `more` bytes to the end of the text in the window. */
    method ReadMore(src: Source, more: nat)
      requires Filled(src) && Chains(window[..], prev[..], head[..], strstart, bits) && !eofile
      requires 0 < more <= WINDOW_SIZE - (strstart + lookahead) && (strstart > 0 ==> lookahead >= 2)
      modifies `eofile, `lookahead, window, src
      ensures Filled(src) && Chains(window[..], prev[..], head[..], strstart, bits)
      ensures window[..strstart + old(lookahead)] == old(window[..strstart + lookahead])
      ensures if eofile then lookahead == old(lookahead) else lookahead > old(lookahead)
      ensures old(src.Taken()) <= src.Taken() && (if eofile then src.failed || src.pos == |src.input| else src.failed == old(src.failed))
      ensures old(src.failed) ==> src.failed
    {
      hide Chains, Holding, src.Taken, Source.Accounted;
      ghost var win, text, valid := window[..], src.Taken(), strstart + lookahead;
      var n;
      ghost var added;
      n, added := src.Read(window, strstart + lookahead, more);
      ReadHolds(win, window[..], text, base, valid, added);
      if n == 0 || n == -1 {
        eofile := true;
      } else {
        lookahead := lookahead + n;
      }
      ReadKeepsChains(win, window[..], prev[..], head[..], strstart, valid, bits);
    }

    /** Makes room if necessary and reads more input; returns how far the window slid. */
    method FillWindow(src: Source) returns (ghost slid: nat)
      requires Filled(src) && Chains(window[..], prev[..], head[..], strstart, bits) && !eofile
      requires lookahead < MIN_LOOKAHEAD && 0 < strstart + lookahead && (strstart > 0 ==> lookahead >= 2)
      requires matchStart < 0x1_0000_0000
      modifies this, window, prev, head, src
      ensures Filled(src) && Chains(window[..], prev[..], head[..], strstart, bits)
      ensures (slid == 0 || slid == WSIZE) && strstart == old(strstart) - slid && base == old(base) + slid
      ensures blockStart == old(blockStart) - slid && matchStart == Uint32(old(matchStart) - slid)
      ensures insH == old(insH) && prevLength == old(prevLength) && (slid > 0 ==> strstart >= MAX_DIST)
      ensures slid > 0 <==> old(strstart) >= WSIZE + MAX_DIST
      ensures searches == old(searches) && outside == old(outside) && noticed == old(strstart)
      ensures window[..strstart + old(lookahead)] == old(window[..strstart + lookahead])[slid..]
      ensures if eofile then lookahead == old(lookahead) && strstart + lookahead <= WINDOW_SIZE - 2 else lookahead > old(lookahead)
      ensures old(src.Taken()) <= src.Taken() && (if eofile then src.failed || src.pos == |src.input| else src.failed == old(src.failed))
      ensures old(src.failed) ==> src.failed
    {
      hide Chains, Uint32, Source.Accounted, Holding;
      HoldingSize(window[..], src.Taken(), base, strstart + lookahead);
      ghost var win, valid := window[..], strstart + lookahead;
      noticed := strstart;
      var more := WINDOW_SIZE - lookahead - strstart;
      slid := 0;
      if strstart >= WSIZE + MAX_DIST {
        SlideWindow();
        SlideHolds(win, window[..], src.Taken(), base - WSIZE, valid);
        more := more + WSIZE;
        slid := WSIZE;
      }
      HoldingSize(window[..], src.Taken(), base, strstart + lookahead);
      ReadMore(src, more);
      HoldingSize(window[..], src.Taken(), base, strstart + lookahead);
    }

    /** Moves the upper half of the window to the lower half. */
    method SlideWindow()
      requires Shape() && Chains(window[..], prev[..], head[..], strstart, bits) && WSIZE <= strstart <= WINDOW_SIZE - 2
      modifies this`matchStart, this`strstart, this`blockStart, this`base, window, prev, head
      ensures strstart == old(strstart) - WSIZE && blockStart == old(blockStart) - WSIZE && base == old(base) + WSIZE
      ensures matchStart == Uint32(old(matchStart) - WSIZE)
      ensures Chains(window[..], prev[..], head[..], strstart, bits)
      ensures window[..] == old(window[WSIZE..2 * WSIZE] + window[WSIZE..])
    {
      hide Chains, Uint32;
      ghost var win, links: seq<Pos>, heads: seq<Pos> := window[..], prev[..], head[..];
      MoveHalf();
      matchStart := Uint32(matchStart - WSIZE);
      strstart := strstart - WSIZE;
      blockStart := blockStart - WSIZE;
      base := base + WSIZE;
      SlideAll(head);
      SlideAll(prev);
      MovedHalf(win, window[..]);
      SlideKeeps(win, window[..], links, prev[..], heads, head[..], strstart + WSIZE, bits);
    }

    /** Copies the upper half of the window over the lower half. */
    method MoveHalf()
      requires Shape()
      modifies window
      ensures window[..] == old(window[WSIZE..2 * WSIZE] + window[WSIZE..])
    {
      ghost var win, moved := window[..], window[WSIZE..2 * WSIZE] + window[WSIZE..];
      var i := 0;
      while i < WSIZE
        invariant 0 <= i <= WSIZE
        invariant forall k :: 0 <= k < window.Length ==> window[k] == if k < i then moved[k] else win[k]
      {
        assert moved[i] == win[i + WSIZE];
        window[i] := window[i + WSIZE];
        i := i + 1;
      }
    }
  }

  /** What a read leaves in the window. */
  lemma ReadHolds(win: seq<byte>, win': seq<byte>, text: seq<byte>, base: nat, valid: nat, more: seq<byte>)
    requires Holding(win, text, base, valid) && valid + |more| <= WINDOW_SIZE
    requires win' == win[..valid] + more + win[valid + |more|..]
    ensures Holding(win', text + more, base, valid + |more|) && win'[..valid] == win[..valid]
  {
    assert win'[..valid + |more|] == win[..valid] + more;
    assert (text + more)[base..] == text[base..] + more;
  }

  lemma ReadKeepsChains(win: seq<byte>, win': seq<byte>, prev: seq<Pos>, head: seq<Pos>, n: nat, valid: nat, bits: nat)
    requires Chains(win, prev, head, n, bits) && |win'| == |win| && valid <= |win| && win'[..valid] == win[..valid]
    requires n > 0 ==> n + 2 <= valid
    ensures Chains(win', prev, head, n, bits)
  {
    hide Chains;
    if n > 0 {
      PrefixOfPrefix(win, win', valid, n + 2);
    }
    ReadKeeps(win, win', prev, head, n, bits);
  }

  lemma SlideHolds(win: seq<byte>, win': seq<byte>, text: seq<byte>, base: nat, valid: nat)
    requires Holding(win, text, base, valid) && WSIZE <= valid
    requires win' == win[WSIZE..2 * WSIZE] + win[WSIZE..]
    ensures Holding(win', text, base + WSIZE, valid - WSIZE) && win'[..valid - WSIZE] == win[WSIZE..valid]
  {
    assert win'[..valid - WSIZE] == win[..valid][WSIZE..];
    assert text[base + WSIZE..] == text[base..][WSIZE..];
  }

  lemma PrefixOfPrefix(win: seq<byte>, win': seq<byte>, m: nat, n: nat)
    requires n <= m <= |win| && |win'| == |win| && win'[..m] == win[..m]
    ensures win'[..n] == win[..n]
  {
    assert win'[..m][..n] == win'[..n] && win[..m][..n] == win[..n];
  }

  lemma MovedHalf(win: seq<byte>, win': seq<byte>)
    requires 2 * WSIZE <= |win| && win' == win[WSIZE..2 * WSIZE] + win[WSIZE..]
    ensures |win'| == |win| && forall i :: 0 <= i < WSIZE ==> win'[i] == win[i + WSIZE]
  {
  }

  /** Adjusts the positions in a table; those in the lower half are forgotten. */
  method SlideAll(a: array<Pos>)
    modifies a
    ensures AllSlid(old(a[..]), a[..])
  {
    ghost var before: seq<Pos> := a[..];
    var n := 0;
    while n < a.Length
      invariant 0 <= n <= a.Length
      invariant forall k :: 0 <= k < a.Length ==> a[k] == if k < n then Slid(before[k]) else before[k]
    {
      var m := a[n];
      a[n] := if m >= WSIZE then m - WSIZE else 0;
      n := n + 1;
    }
  }
}
