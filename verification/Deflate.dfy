/** Lazy matching: from a window of input to tokens, blocks and bits. */
module Deflating {
  import opened Bits
  import opened BitWriters
  import opened Options
  import opened Rfc1951
  import opened TokenCodes
  import opened TokenBuffers
  import opened BlockCoders
  import opened Blocks
  import opened BlockSizes
  import opened Hashing
  import opened HashChains
  import opened LongestMatches
  import opened Matchers
  import opened Sources
  import opened Progress
  import opened Repetitions

  /** The coder's objects are none of the matcher's and not the input. */
  ghost predicate Apart(m: Matcher, src: Source, c: BlockCoder)
  {
    && m !in c.Footprint() && m.window !in c.Footprint() && m.prev !in c.Footprint() && m.head !in c.Footprint()
    && src !in c.Footprint()
  }

  /** The flushed blocks decode to `history`, and the waiting tokens extend it to `out`. */
  ghost predicate Coded(c: BlockCoder, history: seq<byte>, out: seq<byte>)
    reads c, c.l.staticLen, c.d.staticLen, c.w, c.w.outbuf, c.tb, c.tb.lBuf, c.tb.dBuf, c.tb.flagBuf, c.b, c.l.fc, c.d.fc, c.bl.fc
  {
    && c.Open(c.tb.tokens) && Decoding(c.w.Bits(), history) && Expand(history, c.tb.tokens) == Some(out)
    && Traced(c.all, out)
  }

  /** The waiting block begins where `history` ends. */
  ghost predicate BlockAt(m: Matcher, history: seq<byte>, text: seq<byte>)
    reads m
  {
    m.base + m.blockStart == |history| && m.blockStart <= m.strstart && history <= text
  }

  /** The window is ready for the next position. */
  ghost predicate Ready(m: Matcher, src: Source)
    reads m, m.window, m.prev, m.head, src
  {
    && m.Filled(src) && m.Inserted(m.strstart) && m.matchStart < 0x1_0000_0000
    && (if m.eofile then m.strstart + m.lookahead <= WINDOW_SIZE - 2 else m.lookahead >= MIN_LOOKAHEAD)
  }

  /** Before the end of the input the lookahead is inside the window. */
  lemma InsideUnlessEnded(m: Matcher, src: Source)
    requires Ready(m, src) && !m.eofile
    ensures m.strstart <= WINDOW_SIZE - MIN_LOOKAHEAD
  {
  }

  /** How far a chain is followed. */
  function ChainLength(previous: nat): nat
  {
    if previous >= GOOD_MATCH then MAX_CHAIN_LENGTH / 4 else MAX_CHAIN_LENGTH
  }

  /** A match is cut off at the end of the text, and one of 3 bytes that is too far away is dropped. */
  function Clipped(best: nat, lookahead: nat, q: nat, at: nat): nat
  {
    var length := if best > lookahead then lookahead else best;
    if length == MIN_MATCH && Uint32(q - at) > TOO_FAR then length - 1 else length
  }

  /** The length found at `q`: of the best candidate on the chain, if it is worth searching. */
  ghost predicate Found(win: seq<byte>, prev: seq<Pos>, q: nat, hashHead: nat, previous: nat, lookahead: nat, at: nat, length: nat)
    requires q + MAX_MATCH <= |win| && |prev| == WSIZE
  {
    if hashHead == 0 || previous >= MAX_LAZY_MATCH || q - hashHead > MAX_DIST then length == MIN_MATCH - 1
    else exists best: nat ::
      Best(win, Candidates(prev, hashHead, Limit(q), ChainLength(previous)), q, previous, best, at)
      && length == Clipped(best, lookahead, q, at)
  }

  /** Whether a search for a longer match is begun. */
  predicate Searchable(q: nat, hashHead: nat, previous: nat)
  {
    hashHead != 0 && previous < MAX_LAZY_MATCH && q - hashHead <= MAX_DIST
  }

  /** The longest match at `strstart`, unless it is no better than the previous one. */
  method FindMatch(m: Matcher, src: Source, hashHead: nat) returns (matchLength: nat)
    requires m.Filled(src) && m.Inserted(m.strstart + 1) && m.strstart + 3 <= WINDOW_SIZE
    requires HeadOf(m.window[..], m.strstart, hashHead, Key(m.window[..], m.strstart, m.bits), m.bits)
    requires 2 <= m.prevLength <= MAX_MATCH && 1 <= m.lookahead && m.matchStart < 0x1_0000_0000
    modifies m`matchStart, m`searches, m`outside
    ensures m.searches == old(m.searches) + if Searchable(m.strstart, hashHead, m.prevLength) then [m.base + m.strstart] else []
    ensures m.outside == (old(m.outside) || (Searchable(m.strstart, hashHead, m.prevLength) && m.strstart > BOUND))
    ensures Found(m.window[..], m.prev[..], m.strstart, hashHead, m.prevLength, m.lookahead, m.matchStart, matchLength)
    ensures matchLength <= MAX_MATCH && m.matchStart < 0x1_0000_0000 && (matchLength >= 2 || matchLength == m.lookahead)
    ensures matchLength >= MIN_MATCH && matchLength > m.prevLength ==>
      m.matchStart < m.strstart && Pending(src.Taken(), m.base + m.strstart, matchLength, m.strstart - m.matchStart)
  {
    hide Links, Heads, Rolled, MatchLength, Candidates, Key, Pending, Uint32, NoneBetter, Holding, Source.Accounted;
    HoldingSize(m.window[..], src.Taken(), m.base, m.strstart + m.lookahead);
    ghost var win, q := m.window[..], m.strstart;
    matchLength := MIN_MATCH - 1;
    if hashHead != 0 && m.prevLength < MAX_LAZY_MATCH && m.strstart - hashHead <= MAX_DIST {
      matchLength := m.LongestMatch(hashHead);
      ghost var best := matchLength;
      if best > m.prevLength {
        FoundIsCandidate(win, m.prev[..], hashHead, q, m.prevLength, best, m.matchStart, m.bits);
      }
      if matchLength > m.lookahead {
        matchLength := m.lookahead;
      }
      if matchLength == MIN_MATCH && Uint32(m.strstart - m.matchStart) > TOO_FAR {
        matchLength := matchLength - 1;
      }
      assert matchLength == Clipped(best, m.lookahead, q, m.matchStart);
      if matchLength >= MIN_MATCH && matchLength > m.prevLength {
        MatchPends(win, src.Taken(), m.base, q + m.lookahead, m.matchStart, q, matchLength);
      }
    }
  }

  /** A better match found on the chain is near enough. */
  lemma FoundIsCandidate(win: seq<byte>, prev: seq<Pos>, cur: nat, q: nat, previous: nat, best: nat, at: nat, bits: nat)
    requires q + MAX_MATCH <= |win| && Links(win, prev, q + 1, bits) && Candidate(win, cur, q, bits) && best > previous
    requires var chain := if previous >= GOOD_MATCH then MAX_CHAIN_LENGTH / 4 else MAX_CHAIN_LENGTH;
      Best(win, Candidates(prev, cur, Limit(q), chain), q, previous, best, at)
    ensures at < q <= at + MAX_DIST && MatchLength(win, at, q) == best
  {
    hide Links, MatchLength, Candidates, Key;
    ChainKeeps(win, prev, cur, q, if previous >= GOOD_MATCH then MAX_CHAIN_LENGTH / 4 else MAX_CHAIN_LENGTH, bits);
  }

  /** Inserts the strings of a match whose first two are already inserted, and moves to its end. */
  method SkipMatch(m: Matcher)
    requires m.Shape() && m.Inserted(m.strstart + 1) && 3 <= m.prevLength && m.prevLength - 1 <= m.lookahead
    requires m.strstart + m.prevLength + 1 <= WINDOW_SIZE
    modifies m`lookahead, m`prevLength, m`strstart, m`insH, m.prev, m.head
    ensures m.Inserted(m.strstart)
    ensures m.strstart == old(m.strstart + m.prevLength) - 1 && m.lookahead == old(m.lookahead - m.prevLength) + 1
  {
    hide Chains, Rolled;
    ghost var end := m.strstart + m.prevLength - 1;
    m.lookahead := m.lookahead - (m.prevLength - 1);
    m.prevLength := m.prevLength - 2;
    while true
      invariant m.Inserted(m.strstart + 1) && m.prevLength > 0 && m.strstart + m.prevLength + 1 == end && end + 2 <= WINDOW_SIZE
      invariant m.lookahead == old(m.lookahead - m.prevLength) + 1
      decreases m.prevLength
    {
      m.strstart := m.strstart + 1;
      var hashHead := m.InsertString(m.strstart);
      m.prevLength := m.prevLength - 1;
      if m.prevLength == 0 {
        break;
      }
    }
    m.strstart := m.strstart + 1;
  }

  /** Flushes the waiting tokens, which stand for `data`, as a block that is not the last. */
  method Flush(c: BlockCoder, window: array<byte>, blockStart: int, storedLen: nat, ghost history: seq<byte>, ghost data: seq<byte>)
    requires window !in c.Footprint() && Coded(c, history, history + data) && |data| == storedLen
    requires blockStart >= 0 ==> blockStart + storedLen <= window.Length && window[blockStart..blockStart + storedLen] == data
    modifies c.Footprint()
    ensures Coded(c, history + data, history + data) && c.tb.HasRoom() && c.all == old(c.all)
  {
    hide Decoding, Expand, Decodes, Traced, Reported, Encoded;
    ghost var before := c.w.Bits();
    var bytes;
    ghost var sent, report;
    bytes, sent, report := c.FlushBlock(window, blockStart, storedLen, false, history, data);
    DecodingStep(before, history, sent, history + data);
    NothingToExpand(history + data);
  }

  lemma NothingToExpand(history: seq<byte>)
    ensures Expand(history, []) == Some(history)
  {
  }

  /** The text from the start of the waiting block to `strstart` is in the window, if the block still begins there. */
  lemma WaitingData(win: seq<byte>, text: seq<byte>, base: nat, valid: nat, history: seq<byte>, blockStart: int, strstart: nat)
    returns (data: seq<byte>)
    requires Holding(win, text, base, valid) && strstart <= valid && base + blockStart == |history| && blockStart <= strstart
    requires history <= text
    ensures data == text[|history|..base + strstart] && history + data == text[..base + strstart] && |data| == strstart - blockStart
    ensures blockStart >= 0 ==> blockStart + |data| <= |win| && win[blockStart..blockStart + |data|] == data
  {
    data := text[|history|..base + strstart];
    if blockStart >= 0 {
      WindowText(win, text, base, valid, blockStart, strstart);
    }
  }

  /** Flushes the waiting tokens; they stand for the text up to `strstart`. */
  method FlushUpTo(m: Matcher, c: BlockCoder, src: Source, ghost history: seq<byte>) returns (ghost out: seq<byte>)
    requires Apart(m, src, c) && m.Filled(src) && BlockAt(m, history, src.Taken())
    requires Coded(c, history, src.Taken()[..m.base + m.strstart])
    modifies c.Footprint(), m`blockStart
    ensures out == src.Taken()[..m.base + m.strstart] && Coded(c, out, out) && c.tb.HasRoom() && c.all == old(c.all)
    ensures m.Filled(src) && BlockAt(m, out, src.Taken())
  {
    hide Coded, Holding, c.Footprint, Source.Accounted;
    HoldingSize(m.window[..], src.Taken(), m.base, m.strstart + m.lookahead);
    out := src.Taken()[..m.base + m.strstart];
    ghost var data := WaitingData(m.window[..], src.Taken(), m.base, m.strstart + m.lookahead, history, m.blockStart, m.strstart);
    Flush(c, m.window, m.blockStart, m.strstart - m.blockStart, history, data);
    m.blockStart := m.strstart;
  }

  /** Saves a token and flushes nothing; the output of the waiting tokens grows to `out'`. */
  method Tally(c: BlockCoder, dist: nat, lc: byte, strstart: nat, blockStart: int, ghost t: Token,
               ghost history: seq<byte>, ghost out: seq<byte>, ghost out': seq<byte>) returns (flush: bool)
    requires Coded(c, history, out) && c.tb.HasRoom() && Sane(t) && Near(t)
    requires Expand(history, c.tb.tokens + [t]) == Some(out') && Traced(c.all + [t], out')
    requires lc == LitByte(t) && dist == if t.Copy? then t.distance else 0
    modifies c.Footprint()
    ensures Coded(c, history, out') && (!flush ==> c.tb.HasRoom()) && c.all == old(c.all) + [t]
  {
    hide Decoding, Expand, LitByte, c.w.Bits, Traced, SeemsProfitable;
    flush := c.CtTally(dist, lc, strstart, blockStart, t);
  }

  /** Saves a match. */
  method TallyMatch(c: BlockCoder, dist: nat, length: nat, strstart: nat, blockStart: int,
                    ghost history: seq<byte>, ghost text: seq<byte>, ghost at: nat) returns (flush: bool)
    requires Pending(text, at, length, dist) && Coded(c, history, text[..at]) && c.tb.HasRoom()
    modifies c.Footprint()
    ensures Coded(c, history, text[..at + length]) && (!flush ==> c.tb.HasRoom()) && c.all == old(c.all) + [Copy(length, dist)]
  {
    hide Coded, Pending, c.Footprint;
    PendingMeans(text, at, length, dist);
    TokensOf(c, history, text[..at]);
    MatchExtends(history, c.tb.tokens, text, at, length, dist);
    MatchTraced(c.all, text, at, length, dist);
    flush := Tally(c, dist, length - MIN_MATCH, strstart, blockStart, Copy(length, dist), history, text[..at], text[..at + length]);
  }

  /** Saves a literal. */
  method TallyLiteral(c: BlockCoder, b: byte, strstart: nat, blockStart: int,
                      ghost history: seq<byte>, ghost text: seq<byte>, ghost at: nat) returns (flush: bool)
    requires at < |text| && text[at] == b && Coded(c, history, text[..at]) && c.tb.HasRoom()
    modifies c.Footprint()
    ensures Coded(c, history, text[..at + 1]) && (!flush ==> c.tb.HasRoom()) && c.all == old(c.all) + [Literal(b)]
  {
    hide Coded, c.Footprint;
    TokensOf(c, history, text[..at]);
    LiteralExtends(history, c.tb.tokens, text, at);
    LiteralTraced(c.all, text, at);
    flush := Tally(c, 0, b, strstart, blockStart, Literal(b), history, text[..at], text[..at + 1]);
  }

  /** Adopts the match found at the previous position. */
  method EmitMatch(m: Matcher, c: BlockCoder, src: Source, prevMatch: nat, ghost history: seq<byte>, ghost distance: nat)
    returns (ghost history': seq<byte>)
    requires Apart(m, src, c) && m.Filled(src) && m.Inserted(m.strstart + 1) && BlockAt(m, history, src.Taken())
    requires 1 <= m.strstart && m.strstart + m.prevLength + 1 <= WINDOW_SIZE && c.tb.HasRoom()
    requires m.strstart + m.prevLength - 1 <= m.strstart + m.lookahead
    requires Pending(src.Taken(), m.base + m.strstart - 1, m.prevLength, distance)
    requires distance == Uint32(m.strstart - 1 - prevMatch)
    requires Coded(c, history, src.Taken()[..m.base + m.strstart - 1])
    modifies m`lookahead, m`prevLength, m`strstart, m`insH, m`blockStart, m.prev, m.head, c.Footprint()
    ensures m.Filled(src) && m.Inserted(m.strstart) && BlockAt(m, history', src.Taken())
    ensures m.strstart == old(m.strstart + m.prevLength) - 1 && m.lookahead == old(m.lookahead - m.prevLength) + 1
    ensures Coded(c, history', src.Taken()[..m.base + m.strstart]) && c.tb.HasRoom()
    ensures c.all == old(c.all) + [Copy(old(m.prevLength), distance)]
  {
    hide Uint32, Coded, Holding, Chains, Rolled, Pending, c.Footprint, Source.Accounted;
    ghost var text, at := src.Taken(), m.base + m.strstart - 1;
    PendingMeans(text, at, m.prevLength, distance);
    var dist := Uint32(m.strstart - 1 - prevMatch);
    var flush := TallyMatch(c, dist, m.prevLength, m.strstart, m.blockStart, history, text, at);
    SkipMatch(m);
    history' := history;
    if flush {
      history' := FlushUpTo(m, c, src, history);
    }
  }

  lemma PendingMeans(text: seq<byte>, at: nat, length: nat, distance: nat)
    requires Pending(text, at, length, distance)
    ensures 3 <= length <= MAX_MATCH && 1 <= distance <= MAX_DIST && distance <= at && at + length <= |text|
  {
  }

  lemma TokensOf(c: BlockCoder, history: seq<byte>, out: seq<byte>)
    requires Coded(c, history, out)
    ensures Expand(history, c.tb.tokens) == Some(out) && Traced(c.all, out)
  {
  }

  /** Sends the byte at the previous position as a literal. */
  method EmitLiteral(m: Matcher, c: BlockCoder, src: Source, ghost history: seq<byte>) returns (ghost history': seq<byte>)
    requires Apart(m, src, c) && m.Filled(src) && BlockAt(m, history, src.Taken()) && 1 <= m.strstart && c.tb.HasRoom()
    requires m.base + m.strstart <= |src.Taken()| && Coded(c, history, src.Taken()[..m.base + m.strstart - 1])
    modifies m`blockStart, c.Footprint()
    ensures m.Filled(src) && BlockAt(m, history', src.Taken())
    ensures Coded(c, history', src.Taken()[..m.base + m.strstart]) && c.tb.HasRoom()
    ensures c.all == old(c.all) + [Literal(src.Taken()[m.base + m.strstart - 1])]
  {
    hide Coded, Holding, c.Footprint, Source.Accounted;
    ghost var text, at := src.Taken(), m.base + m.strstart - 1;
    HoldingSize(m.window[..], text, m.base, m.strstart + m.lookahead);
    HoldsAt(m.window[..], text, m.base, m.strstart + m.lookahead, m.strstart - 1);
    var flush := TallyLiteral(c, m.window[m.strstart - 1], m.strstart, m.blockStart, history, text, at);
    history' := history;
    if flush {
      history' := FlushUpTo(m, c, src, history);
    }
  }

  /** The hash stays ready while the window slides and more is read. */
  lemma HashStays(h: nat, win: seq<byte>, win': seq<byte>, n: nat, n': nat, valid: nat, slid: nat, bits: nat)
    requires n + 2 <= valid <= |win| && slid <= n && n' == n - slid && |win'| == |win| && Rolled(h, win[n], win[n + 1], bits)
    requires win'[..valid - slid] == win[..valid][slid..]
    ensures Rolled(h, win'[n'], win'[n' + 1], bits)
  {
    hide Rolled;
    assert win'[n'] == win'[..valid - slid][n'] == win[n];
    assert win'[n' + 1] == win'[..valid - slid][n' + 1] == win[n + 1];
  }

  lemma ModTwice(x: int, a: int, b: int)
    ensures Uint32(Uint32(x - a) - b) == Uint32(x - (a + b))
  {
  }

  /** Where a matcher is in its window and in the input. */
  datatype Place = Place(text: seq<byte>, base: nat, strstart: nat, blockStart: int, matchStart: nat, prevLength: nat,
                         lookahead: nat, eofile: bool, failed: bool, pos: nat,
                         searches: seq<nat>, outside: bool, noticed: nat)

  ghost function PlaceOf(m: Matcher, src: Source): Place
    requires src.Valid()
    reads m, src
  {
    Place(src.Taken(), m.base, m.strstart, m.blockStart, m.matchStart, m.prevLength, m.lookahead, m.eofile, src.failed, src.pos,
          m.searches, m.outside, m.noticed)
  }

  /** The searches so far and the end of the window. */
  ghost predicate WatchedAt(p: Place)
  {
    Watched(p.searches, p.outside, p.eofile, p.noticed, p.base, |p.text|)
  }

  /** More has been read, and the window may have slid. */
  ghost predicate Refilled(p: Place, q: Place, slid: nat, size: nat)
  {
    && p.text <= q.text && p.lookahead <= q.lookahead && q.prevLength == p.prevLength
    && slid <= p.strstart && q.strstart == p.strstart - slid && q.base == p.base + slid
    && q.blockStart == p.blockStart - slid && q.matchStart == Uint32(p.matchStart - slid)
    && (slid > 0 ==> p.strstart >= WSIZE + MAX_DIST && q.strstart >= MAX_DIST && !p.eofile)
    && (q.eofile && !p.eofile ==> q.failed || q.pos == size) && (!q.eofile ==> q.failed == p.failed)
    && (p.eofile ==> q.eofile && q.lookahead == p.lookahead && q.text == p.text && q.failed == p.failed && q.pos == p.pos)
    && (p.failed ==> q.failed) && q.searches == p.searches
  }

  lemma RefilledTwice(p: Place, q: Place, r: Place, slid: nat, step: nat, size: nat)
    requires Refilled(p, q, slid, size) && Refilled(q, r, step, size) && !q.eofile
    ensures Refilled(p, r, slid + step, size)
  {
    hide Uint32;
    ModTwice(p.matchStart, slid, step);
  }

  lemma NotRefilled(p: Place, size: nat)
    requires p.matchStart < 0x1_0000_0000
    ensures Refilled(p, p, 0, size)
  {
  }

  lemma NotOutside(p: Place)
    requires WatchedAt(p) && !p.eofile
    ensures !p.outside && forall noticed :: Watched(p.searches, false, false, noticed, p.base, |p.text|)
  {
  }

  /** Reads once, with a slide if the window is nearly full. */
  method RefillOnce(m: Matcher, src: Source) returns (ghost slid: nat)
    requires m.Filled(src) && m.Inserted(m.strstart) && m.matchStart < 0x1_0000_0000
    requires !m.eofile && 2 <= m.lookahead < MIN_LOOKAHEAD && WatchedAt(PlaceOf(m, src))
    modifies m, m.window, m.prev, m.head, src
    ensures m.Filled(src) && m.Inserted(m.strstart) && m.matchStart < 0x1_0000_0000 && WatchedAt(PlaceOf(m, src))
    ensures if m.eofile then m.strstart + m.lookahead <= WINDOW_SIZE - 2 else m.lookahead > old(m.lookahead)
    ensures m.lookahead >= old(m.lookahead) && Refilled(old(PlaceOf(m, src)), PlaceOf(m, src), slid, |src.input|)
  {
    hide Chains, Rolled, Holding, Uint32, Source.Accounted, Watched;
    ghost var win, n, valid := m.window[..], m.strstart, m.strstart + m.lookahead;
    ghost var p := PlaceOf(m, src);
    HoldingSize(m.window[..], src.Taken(), m.base, m.strstart + m.lookahead);
    NotOutside(p);
    slid := m.FillWindow(src);
    HoldingSize(m.window[..], src.Taken(), m.base, m.strstart + m.lookahead);
    WatchedRefill(p.searches, m.eofile, m.noticed, p.base, |p.text|, slid, |src.Taken()|);
    HashStays(m.insH, win, m.window[..], n, m.strstart, valid, slid, m.bits);
  }

  /** Reads until there is enough lookahead or the input ends; returns how far the window slid. */
  method Refill(m: Matcher, src: Source) returns (ghost slid: nat)
    requires m.Filled(src) && m.Inserted(m.strstart) && m.matchStart < 0x1_0000_0000
    requires if m.eofile then m.strstart + m.lookahead <= WINDOW_SIZE - 2 else m.lookahead >= 2
    requires WatchedAt(PlaceOf(m, src))
    modifies m, m.window, m.prev, m.head, src
    ensures Ready(m, src) && WatchedAt(PlaceOf(m, src))
    ensures Refilled(old(PlaceOf(m, src)), PlaceOf(m, src), slid, |src.input|)
  {
    hide Chains, Rolled, Holding, Refilled, Source.Accounted, WatchedAt;
    slid := 0;
    ghost var place := PlaceOf(m, src);
    NotRefilled(place, |src.input|);
    while m.lookahead < MIN_LOOKAHEAD && !m.eofile
      invariant m.Filled(src) && m.Inserted(m.strstart) && m.matchStart < 0x1_0000_0000
      invariant if m.eofile then m.strstart + m.lookahead <= WINDOW_SIZE - 2 else m.lookahead >= 2
      invariant Refilled(place, PlaceOf(m, src), slid, |src.input|) && WatchedAt(PlaceOf(m, src))
      decreases MIN_LOOKAHEAD - m.lookahead, !m.eofile
    {
      ghost var before := PlaceOf(m, src);
      ghost var step := RefillOnce(m, src);
      RefilledTwice(place, before, PlaceOf(m, src), slid, step, |src.input|);
      slid := slid + step;
    }
  }

  // ---------- The main loop ----------

  /** What is pending before the string at `strstart`: the previous byte, and possibly a match that begins there. */
  ghost predicate Lazy(text: seq<byte>, pos: nat, strstart: nat, matchStart: nat, matchLength: nat, available: bool, distance: nat)
  {
    && (available ==> 1 <= strstart && 1 <= pos) && matchLength <= MAX_MATCH
    && (matchLength >= MIN_MATCH ==>
          available && Pending(text, pos - 1, matchLength, distance) && distance == Uint32(strstart - 1 - matchStart))
  }

  /** The bytes that tokens have been saved for. */
  function Emitted(pos: nat, available: bool): nat
  {
    if available && pos > 0 then pos - 1 else pos
  }

  /** Between two positions: the waiting block begins where `history` ends, and all bytes but a pending one are coded. */
  ghost predicate BetweenAt(p: Place, c: BlockCoder, matchLength: nat, available: bool, history: seq<byte>, distance: nat)
    reads c, c.l.staticLen, c.d.staticLen, c.w, c.w.outbuf, c.tb, c.tb.lBuf, c.tb.dBuf, c.tb.flagBuf, c.b, c.l.fc, c.d.fc, c.bl.fc
  {
    && p.base + p.blockStart == |history| && p.blockStart <= p.strstart && history <= p.text
    && c.tb.HasRoom() && p.base + p.strstart <= |p.text|
    && Lazy(p.text, p.base + p.strstart, p.strstart, p.matchStart, matchLength, available, distance)
    && Coded(c, history, p.text[..Emitted(p.base + p.strstart, available)])
  }

  ghost predicate Between(m: Matcher, c: BlockCoder, src: Source, matchLength: nat, available: bool, history: seq<byte>, distance: nat)
    requires src.Valid()
    reads m, src
    reads c, c.l.staticLen, c.d.staticLen, c.w, c.w.outbuf, c.tb, c.tb.lBuf, c.tb.dBuf, c.tb.flagBuf, c.b, c.l.fc, c.d.fc, c.bl.fc
  {
    BetweenAt(PlaceOf(m, src), c, matchLength, available, history, distance)
  }

  lemma ModShift(s: int, x: int, a: int)
    ensures Uint32(s - a - 1 - Uint32(x - a)) == Uint32(s - 1 - x)
  {
  }

  /** A pending match survives a slide of the window and more input. */
  lemma LazyStays(text: seq<byte>, text': seq<byte>, pos: nat, strstart: nat, matchStart: nat, matchLength: nat, available: bool,
                  distance: nat, slid: nat, strstart': nat, matchStart': nat)
    requires Lazy(text, pos, strstart, matchStart, matchLength, available, distance) && text <= text'
    requires strstart' == strstart - slid && (strstart >= 1 ==> strstart' >= 1) && matchStart' == Uint32(matchStart - slid)
    ensures Lazy(text', pos, strstart', matchStart', matchLength, available, distance)
  {
    hide Pending;
    if matchLength >= MIN_MATCH {
      PendingGrows(text, text', pos - 1, matchLength, distance);
      ModShift(strstart, matchStart, slid);
    }
  }

  /** Refills between two positions. */
  method RefillBetween(m: Matcher, c: BlockCoder, src: Source, matchLength: nat, available: bool, ghost history: seq<byte>, ghost distance: nat)
    returns (ghost slid: nat)
    requires Apart(m, src, c) && m.Filled(src) && m.Inserted(m.strstart) && m.matchStart < 0x1_0000_0000
    requires Between(m, c, src, matchLength, available, history, distance)
    requires if m.eofile then m.strstart + m.lookahead <= WINDOW_SIZE - 2 else m.lookahead >= 2
    requires WatchedAt(PlaceOf(m, src))
    modifies m, m.window, m.prev, m.head, src
    ensures Ready(m, src) && Between(m, c, src, matchLength, available, history, distance) && WatchedAt(PlaceOf(m, src))
    ensures Refilled(old(PlaceOf(m, src)), PlaceOf(m, src), slid, |src.input|)
    ensures m.base + m.strstart == old(m.base + m.strstart) && m.lookahead >= old(m.lookahead)
    ensures m.eofile && !old(m.eofile) ==> src.failed || src.pos == |src.input|
    ensures old(m.eofile) ==> m.eofile && m.lookahead == old(m.lookahead) && src.failed == old(src.failed) && src.pos == old(src.pos)
  {
    hide BetweenAt, Holding, Chains, Rolled, Source.Accounted, WatchedAt;
    ghost var p := PlaceOf(m, src);
    slid := Refill(m, src);
    BetweenStays(p, PlaceOf(m, src), slid, |src.input|, c, matchLength, available, history, distance);
  }

  lemma BetweenStays(p: Place, q: Place, slid: nat, size: nat, c: BlockCoder, matchLength: nat, available: bool, history: seq<byte>,
                     distance: nat)
    requires BetweenAt(p, c, matchLength, available, history, distance) && Refilled(p, q, slid, size)
    ensures BetweenAt(q, c, matchLength, available, history, distance)
  {
    hide Lazy, Coded, Uint32;
    LazyStays(p.text, q.text, p.base + p.strstart, p.strstart, p.matchStart, matchLength, available, distance, slid,
              q.strstart, q.matchStart);
    SamePrefix(p.text, q.text, Emitted(p.base + p.strstart, available));
  }

  lemma SamePrefix(text: seq<byte>, text': seq<byte>, n: nat)
    requires text <= text' && n <= |text|
    ensures text'[..n] == text[..n]
  {
  }

  /** Where the position and the match being considered may lie. */
  lemma Bounds(text: seq<byte>, pos: nat, strstart: nat, lookahead: nat, eofile: bool, matchStart: nat, matchLength: nat,
               available: bool, distance: nat)
    requires Lazy(text, pos, strstart, matchStart, matchLength, available, distance) && |text| == pos + lookahead
    requires if eofile then strstart + lookahead <= WINDOW_SIZE - 2 else lookahead >= MIN_LOOKAHEAD
    requires strstart + lookahead <= WINDOW_SIZE && lookahead > 0
    ensures strstart + 3 <= WINDOW_SIZE && matchLength <= MAX_MATCH && (available ==> strstart >= 1)
    ensures Usable(text, pos, strstart, lookahead, eofile, matchStart, matchLength, available, distance)
  {
  }

  /** A match that is pending can be adopted. */
  ghost predicate Usable(text: seq<byte>, pos: nat, strstart: nat, lookahead: nat, eofile: bool, matchStart: nat, matchLength: nat,
                         available: bool, distance: nat)
  {
    && (available ==> strstart >= 1 && 1 <= pos <= |text|)
    && (matchLength >= MIN_MATCH ==>
          && available && Pending(text, pos - 1, matchLength, distance) && distance == Uint32(strstart - 1 - matchStart)
          && strstart + matchLength + 1 <= WINDOW_SIZE && matchLength - 1 <= lookahead
          && (if eofile then strstart + lookahead <= WINDOW_SIZE - 2 else lookahead - (matchLength - 1) >= 2))
  }

  /** A match found at one position is pending at the next. */
  lemma NowPending(text: seq<byte>, at: nat, strstart: nat, matchStart: nat, matchLength: nat, previous: nat) returns (distance: nat)
    requires matchLength <= MAX_MATCH && (matchLength >= MIN_MATCH ==> matchLength > previous)
    requires matchLength >= MIN_MATCH && matchLength > previous ==>
      matchStart < strstart && Pending(text, at, matchLength, strstart - matchStart)
    ensures Lazy(text, at + 1, strstart + 1, matchStart, matchLength, true, distance)
  {
    distance := if matchLength >= MIN_MATCH then strstart - matchStart else 0;
  }

  /** Inserts the string at `strstart` and looks for a match that is longer than the previous one. */
  method Look(m: Matcher, src: Source, previous: nat) returns (matchLength: nat, ghost hashHead: nat)
    requires m.Filled(src) && m.Inserted(m.strstart) && m.strstart + 3 <= WINDOW_SIZE
    requires 2 <= previous <= MAX_MATCH && 1 <= m.lookahead && m.matchStart < 0x1_0000_0000
    requires WatchedAt(PlaceOf(m, src))
    requires if m.eofile then m.strstart + m.lookahead <= WINDOW_SIZE - 2 else m.strstart <= BOUND
    modifies m`insH, m`prevLength, m`matchStart, m`searches, m`outside, m.prev, m.head
    ensures WatchedAt(PlaceOf(m, src))
    ensures Noted(old(m.searches), m.searches, src.Taken(), m.base + m.strstart, m.base > 0 ==> m.strstart >= MAX_DIST,
                  previous, matchLength)
    ensures m.Filled(src) && m.Inserted(m.strstart + 1) && m.prevLength == previous
    ensures Key(m.window[..], m.strstart, m.bits) < |old(m.head[..])| && hashHead == old(m.head[..])[Key(m.window[..], m.strstart, m.bits)]
    ensures m.prev[..] == old(m.prev[..])[Slot(m.strstart) := hashHead]
    ensures Found(m.window[..], m.prev[..], m.strstart, hashHead, previous, m.lookahead, m.matchStart, matchLength)
    ensures matchLength <= MAX_MATCH && m.matchStart < 0x1_0000_0000 && (matchLength >= 2 || matchLength == m.lookahead)
    ensures matchLength >= MIN_MATCH && matchLength > previous ==>
      m.matchStart < m.strstart && Pending(src.Taken(), m.base + m.strstart, matchLength, m.strstart - m.matchStart)
  {
    hide Holding, Chains, Rolled, Pending, HeadOf, Key, Found, Source.Accounted, Watched, Noted, RepeatedNear;
    NearSearched(m.window[..], m.prev[..], m.head[..], src.Taken(), m.base, m.strstart + m.lookahead, m.strstart, m.bits);
    var head := m.InsertString(m.strstart);
    hashHead := head;
    m.prevLength := previous;
    matchLength := Search(m, src, head);
  }

  /** The search from the head of the chain, and what it adds to the searches. */
  method Search(m: Matcher, src: Source, hashHead: nat) returns (matchLength: nat)
    requires m.Filled(src) && m.Inserted(m.strstart + 1) && m.strstart + 3 <= WINDOW_SIZE
    requires HeadOf(m.window[..], m.strstart, hashHead, Key(m.window[..], m.strstart, m.bits), m.bits)
    requires 2 <= m.prevLength <= MAX_MATCH && 1 <= m.lookahead && m.matchStart < 0x1_0000_0000
    requires WatchedAt(PlaceOf(m, src))
    requires if m.eofile then m.strstart + m.lookahead <= WINDOW_SIZE - 2 else m.strstart <= BOUND
    requires RepeatedNear(src.Taken(), m.base + m.strstart) && (m.base > 0 ==> m.strstart >= MAX_DIST) ==>
      hashHead != 0 && m.strstart - hashHead <= MAX_DIST
    modifies m`matchStart, m`searches, m`outside
    ensures WatchedAt(PlaceOf(m, src))
    ensures Noted(old(m.searches), m.searches, src.Taken(), m.base + m.strstart, m.base > 0 ==> m.strstart >= MAX_DIST,
                  m.prevLength, matchLength)
    ensures Found(m.window[..], m.prev[..], m.strstart, hashHead, m.prevLength, m.lookahead, m.matchStart, matchLength)
    ensures matchLength <= MAX_MATCH && m.matchStart < 0x1_0000_0000 && (matchLength >= 2 || matchLength == m.lookahead)
    ensures matchLength >= MIN_MATCH && matchLength > m.prevLength ==>
      m.matchStart < m.strstart && Pending(src.Taken(), m.base + m.strstart, matchLength, m.strstart - m.matchStart)
  {
    hide Holding, Chains, Rolled, Pending, HeadOf, Key, Found, Source.Accounted, Watched, Noted, Searchable, RepeatedNear, Repeated,
         Matcher.Inserted;
    ghost var text, q, searches := src.Taken(), m.strstart, m.searches;
    HoldingSize(m.window[..], text, m.base, q + m.lookahead);
    WatchedSearch(searches, m.outside, m.eofile, m.noticed, m.base, |text|, q);
    matchLength := FindMatch(m, src, hashHead);
    assert searches + [] == searches;
    if matchLength >= MIN_MATCH && matchLength > m.prevLength {
      PendingRepeats(text, m.base + q, matchLength, q - m.matchStart);
    }
    NotedIs(searches, m.searches, text, m.base, q, hashHead, m.prevLength, matchLength);
  }

  /** Something near that stands at `q` again is found through the head of its chain. */
  lemma NearSearched(win: seq<byte>, prev: seq<Pos>, head: seq<Pos>, text: seq<byte>, base: nat, valid: nat, q: nat, bits: nat)
    requires Holding(win, text, base, valid) && Chains(win, prev, head, q, bits) && q + 3 <= WINDOW_SIZE
    ensures |win| > q + 2 && |head| == Pow2(bits) && Key(win, q, bits) < |head|
    ensures var h := head[Key(win, q, bits)];
      RepeatedNear(text, base + q) && (base > 0 ==> q >= MAX_DIST) ==> h != 0 && q - h <= MAX_DIST
  {
    hide Key;
    KeyBound(win, q, bits);
    if RepeatedNear(text, base + q) && (base > 0 ==> q >= MAX_DIST) {
      var i: nat :| 0 < i && base + q - i < MAX_DIST && SameThree(text, i, base + q);
      forall k | i <= k < i + 3 || base + q <= k < base + q + 3
        ensures win[k - base] == text[k]
      {
        assert win[k - base] == win[..valid][k - base] == text[base..][k - base];
      }
      HeadIsLate(win, head, q, bits, i - base);
    }
  }

  lemma PendingRepeats(text: seq<byte>, at: nat, length: nat, distance: nat)
    requires Pending(text, at, length, distance)
    ensures Repeated(text, at)
  {
    assert Repeats(text, at, distance, 0) && Repeats(text, at, distance, 1) && Repeats(text, at, distance, 2);
    assert SameThree(text, at - distance, at);
  }

  lemma NotedIs(before: seq<nat>, after: seq<nat>, text: seq<byte>, base: nat, q: nat, hashHead: nat, previous: nat, found: nat)
    requires after == before + if Searchable(q, hashHead, previous) then [base + q] else []
    requires RepeatedNear(text, base + q) && (base > 0 ==> q >= MAX_DIST) ==> hashHead != 0 && q - hashHead <= MAX_DIST
    requires found >= MIN_MATCH && found > previous ==> Repeated(text, base + q)
    ensures Noted(before, after, text, base + q, base > 0 ==> q >= MAX_DIST, previous, found)
  {
    hide RepeatedNear, Repeated;
    assert Searchable(q, hashHead, previous) ==> after[|before|] == base + q;
  }

  /** Adopts the previous match; nothing is pending afterwards. */
  method Adopt(m: Matcher, c: BlockCoder, src: Source, prevMatch: nat, ghost history: seq<byte>, ghost distance: nat)
    returns (ghost history': seq<byte>)
    requires Apart(m, src, c) && m.Filled(src) && m.Inserted(m.strstart + 1) && BlockAt(m, history, src.Taken())
    requires 1 <= m.strstart && m.strstart + m.prevLength + 1 <= WINDOW_SIZE && c.tb.HasRoom() && m.prevLength - 1 <= m.lookahead
    requires Pending(src.Taken(), m.base + m.strstart - 1, m.prevLength, distance)
    requires distance == Uint32(m.strstart - 1 - prevMatch)
    requires Coded(c, history, src.Taken()[..m.base + m.strstart - 1])
    modifies m`lookahead, m`prevLength, m`strstart, m`insH, m`blockStart, m.prev, m.head, c.Footprint()
    ensures m.Filled(src) && m.Inserted(m.strstart)
    ensures m.strstart == old(m.strstart + m.prevLength) - 1 && m.lookahead == old(m.lookahead - m.prevLength) + 1
    ensures Between(m, c, src, 2, false, history', 0) && c.all == old(c.all) + [Copy(old(m.prevLength), distance)]
  {
    hide Uint32, Coded, Holding, Chains, Rolled, Pending, Lazy, c.Footprint, Source.Accounted;
    history' := EmitMatch(m, c, src, prevMatch, history, distance);
    HoldingSize(m.window[..], src.Taken(), m.base, m.strstart + m.lookahead);
    NothingPending(src.Taken(), m.base + m.strstart, m.strstart, m.matchStart);
  }

  /** Sends the previous byte, if it is still waiting, and moves on. */
  method Advance(m: Matcher, c: BlockCoder, src: Source, matchLength: nat, available: bool, ghost history: seq<byte>, ghost distance: nat)
    returns (ghost history': seq<byte>)
    requires Apart(m, src, c) && m.Filled(src) && BlockAt(m, history, src.Taken()) && c.tb.HasRoom() && 1 <= m.lookahead
    requires available ==> 1 <= m.strstart
    requires Coded(c, history, src.Taken()[..Emitted(m.base + m.strstart, available)])
    requires Lazy(src.Taken(), m.base + m.strstart + 1, m.strstart + 1, m.matchStart, matchLength, true, distance)
    modifies m`lookahead, m`strstart, m`blockStart, c.Footprint()
    ensures m.Filled(src) && m.strstart == old(m.strstart) + 1 && m.lookahead == old(m.lookahead) - 1
    ensures Between(m, c, src, matchLength, true, history', distance)
    ensures c.all == old(c.all) + if available then [Literal(src.Taken()[m.base + m.strstart - 2])] else []
  {
    hide Coded, Holding, Lazy, c.Footprint, Source.Accounted;
    history' := history;
    HoldingSize(m.window[..], src.Taken(), m.base, m.strstart + m.lookahead);
    if available {
      history' := EmitLiteral(m, c, src, history);
    }
    m.strstart := m.strstart + 1;
    m.lookahead := m.lookahead - 1;
  }

  /** What one position does to the tokens: a previous match at least as long as the one found is adopted and passed over;
      otherwise the previous byte is sent if it is waiting, and this one waits with the match found. */
  ghost predicate Decided(all: seq<Token>, all': seq<Token>, text: seq<byte>, pos: nat, previous: nat, waiting: bool, found: nat,
                          distance: nat, matchLength: nat, available: bool, moved: int)
  {
    if previous >= MIN_MATCH && found <= previous then
      all' == all + [Copy(previous, distance)] && !available && matchLength == MIN_MATCH - 1 && moved == previous - 1
    else
      && all' == all + (if waiting && 1 <= pos <= |text| then [Literal(text[pos - 1])] else [])
      && available && matchLength == found && moved == 1
  }

  lemma AdoptedDecided(all: seq<Token>, text: seq<byte>, pos: nat, previous: nat, waiting: bool, found: nat, distance: nat)
    requires previous >= MIN_MATCH && found <= previous
    ensures Decided(all, all + [Copy(previous, distance)], text, pos, previous, waiting, found, distance, MIN_MATCH - 1, false, previous - 1)
  {
  }

  lemma WaitingDecided(all: seq<Token>, text: seq<byte>, pos: nat, previous: nat, waiting: bool, found: nat, distance: nat)
    requires !(previous >= MIN_MATCH && found <= previous) && (waiting ==> 1 <= pos <= |text|)
    ensures Decided(all, all + (if waiting then [Literal(text[pos - 1])] else []), text, pos, previous, waiting, found, distance,
                    found, true, 1)
  {
  }

  /** With the match found: adopts the previous match, or sends the previous byte, or waits. */
  method Decide(m: Matcher, c: BlockCoder, src: Source, prevMatch: nat, found: nat, previous: nat, available0: bool,
                ghost history: seq<byte>, ghost distance: nat)
    returns (matchLength: nat, available: bool, ghost history': seq<byte>, ghost distance': nat)
    requires Apart(m, src, c) && m.Filled(src) && m.Inserted(m.strstart + 1) && BlockAt(m, history, src.Taken()) && c.tb.HasRoom()
    requires m.lookahead > 0 && m.prevLength == previous >= 2 && found <= MAX_MATCH
    requires if m.eofile then m.strstart + m.lookahead <= WINDOW_SIZE - 2 else m.lookahead >= MIN_LOOKAHEAD
    requires m.base + m.strstart <= |src.Taken()| && Coded(c, history, src.Taken()[..Emitted(m.base + m.strstart, available0)])
    requires Usable(src.Taken(), m.base + m.strstart, m.strstart, m.lookahead, m.eofile, prevMatch, previous, available0, distance)
    requires found >= MIN_MATCH && found > previous ==>
      m.matchStart < m.strstart && Pending(src.Taken(), m.base + m.strstart, found, m.strstart - m.matchStart)
    requires found >= 2 || found == m.lookahead
    modifies m`lookahead, m`prevLength, m`strstart, m`insH, m`blockStart, m.prev, m.head, c.Footprint()
    ensures m.Filled(src) && m.Inserted(m.strstart)
    ensures Between(m, c, src, matchLength, available, history', distance')
    ensures m.strstart > old(m.strstart) && (matchLength >= 2 || m.lookahead == 0)
    ensures Decided(old(c.all), c.all, src.Taken(), old(m.base + m.strstart), previous, available0, found, distance,
                    matchLength, available, m.strstart - old(m.strstart))
    ensures if m.eofile then m.strstart + m.lookahead <= WINDOW_SIZE - 2 else m.lookahead >= 2
  {
    hide Uint32, Coded, Holding, Chains, Rolled, Pending, Lazy, c.Footprint, Source.Accounted, Decided, BetweenAt;
    ghost var text, pos := src.Taken(), m.base + m.strstart;
    if previous >= MIN_MATCH && found <= previous {
      AdoptedDecided(c.all, text, pos, previous, available0, found, distance);
      history' := Adopt(m, c, src, prevMatch, history, distance);
      matchLength, available, distance' := MIN_MATCH - 1, false, 0;
    } else {
      WaitingDecided(c.all, text, pos, previous, available0, found, distance);
      distance' := NowPending(text, pos, m.strstart, m.matchStart, found, previous);
      history' := Advance(m, c, src, found, available0, history, distance');
      matchLength, available := found, true;
    }
  }

  /** Processes one position: inserts its string, looks for a match, and decides. */
  method Step(m: Matcher, c: BlockCoder, src: Source, matchLength0: nat, available0: bool, ghost history: seq<byte>, ghost distance: nat)
    returns (matchLength: nat, available: bool, ghost history': seq<byte>, ghost distance': nat, ghost found: nat)
    requires Apart(m, src, c) && Ready(m, src) && Between(m, c, src, matchLength0, available0, history, distance)
    requires m.lookahead > 0 && matchLength0 >= 2 && WatchedAt(PlaceOf(m, src))
    modifies m`lookahead, m`prevLength, m`strstart, m`insH, m`blockStart, m`matchStart, m`searches, m`outside
    modifies m.prev, m.head, c.Footprint()
    ensures m.Filled(src) && m.Inserted(m.strstart) && m.matchStart < 0x1_0000_0000 && WatchedAt(PlaceOf(m, src))
    ensures Noted(old(m.searches), m.searches, src.Taken(), old(m.base + m.strstart), m.base > 0 ==> old(m.strstart) >= MAX_DIST,
                  matchLength0, found)
    ensures Between(m, c, src, matchLength, available, history', distance')
    ensures m.strstart > old(m.strstart) && (matchLength >= 2 || m.lookahead == 0)
    ensures Decided(old(c.all), c.all, src.Taken(), old(m.base + m.strstart), matchLength0, available0, found, distance,
                    matchLength, available, m.strstart - old(m.strstart))
    ensures if m.eofile then m.strstart + m.lookahead <= WINDOW_SIZE - 2 else m.lookahead >= 2
  {
    hide Uint32, Coded, Holding, Chains, Rolled, Pending, Lazy, c.Footprint, Found, Slot, Key, NoneBetter, Candidates, Source.Accounted,
         Decided, Usable, Watched, Noted;
    ghost var text, pos := src.Taken(), m.base + m.strstart;
    HoldingSize(m.window[..], text, m.base, m.strstart + m.lookahead);
    Bounds(text, pos, m.strstart, m.lookahead, m.eofile, m.matchStart, matchLength0, available0, distance);
    var prevMatch := m.matchStart;
    ghost var hashHead;
    var length;
    length, hashHead := Look(m, src, matchLength0);
    found := length;
    matchLength, available, history', distance' := Decide(m, c, src, prevMatch, length, matchLength0, available0, history, distance);
  }

  lemma NothingPending(text: seq<byte>, pos: nat, strstart: nat, matchStart: nat)
    ensures Lazy(text, pos, strstart, matchStart, 2, false, 0)
  {
  }

  /** Everything up to the position has been taken care of when no lookahead is left. */
  ghost predicate Loop(m: Matcher, c: BlockCoder, src: Source, matchLength: nat, available: bool, history: seq<byte>, distance: nat)
    reads m, m.window, m.prev, m.head, src
    reads c, c.l.staticLen, c.d.staticLen, c.w, c.w.outbuf, c.tb, c.tb.lBuf, c.tb.dBuf, c.tb.flagBuf, c.b, c.l.fc, c.d.fc, c.bl.fc
  {
    && m.Filled(src) && (m.lookahead > 0 ==> Ready(m, src) && matchLength >= 2) && (m.lookahead == 0 ==> m.eofile)
    && Between(m, c, src, matchLength, available, history, distance)
    && (m.eofile ==> src.failed || src.pos == |src.input|) && Course(PlaceOf(m, src), src.input, matchLength)
  }

  /** The searches are watched, and while the text is fresh the run is straight. */
  ghost predicate Course(p: Place, input: seq<byte>, matchLength: nat)
  {
    && WatchedAt(p) && (p.base > 0 ==> p.strstart >= MAX_DIST)
    && (p.failed ||
          (Straight(input, p.base + p.strstart, p.eofile, p.base, p.searches)
           && (FreshUpTo(input, p.base + p.strstart) ==> matchLength <= 2)))
  }

  /** One round keeps the course. */
  lemma CourseRound(p: Place, q: Place, r: Place, input: seq<byte>, previous: nat, found: nat, length: nat, slid: nat)
    requires Course(p, input, previous) && p.text <= input && |p.text| == p.base + p.strstart + p.lookahead
    requires if p.eofile then p.failed || p.text == input else p.lookahead >= MIN_LOOKAHEAD
    requires q.text == p.text && q.base == p.base && q.eofile == p.eofile && q.failed == p.failed && q.strstart > p.strstart
    requires Noted(p.searches, q.searches, p.text, p.base + p.strstart, p.base > 0 ==> p.strstart >= MAX_DIST, previous, found)
    requires previous < MIN_MATCH ==> q.strstart == p.strstart + 1 && length == found
    requires Refilled(q, r, slid, |input|) && WatchedAt(r)
    ensures Course(r, input, length)
  {
    hide Straight, FreshUpTo, Noted, WatchedAt, Uint32;
    if !r.failed {
      StraightRound(input, p.text, p.base + p.strstart, previous, p.eofile, p.base, p.searches, found, q.base + q.strstart, length,
                    slid, r.eofile, q.searches);
    }
  }

  lemma DecidedMoved(all: seq<Token>, all': seq<Token>, text: seq<byte>, pos: nat, previous: nat, waiting: bool, found: nat,
                     distance: nat, matchLength: nat, available: bool, moved: int)
    requires Decided(all, all', text, pos, previous, waiting, found, distance, matchLength, available, moved)
    ensures previous < MIN_MATCH ==> moved == 1 && matchLength == found
  {
  }

  lemma CourseWatched(p: Place, input: seq<byte>, matchLength: nat)
    requires Course(p, input, matchLength)
    ensures WatchedAt(p)
  {
  }

  /** One round of the main loop. */
  method Round(m: Matcher, c: BlockCoder, src: Source, matchLength0: nat, available0: bool, ghost history: seq<byte>, ghost distance: nat)
    returns (matchLength: nat, available: bool, ghost history': seq<byte>, ghost distance': nat)
    requires Apart(m, src, c) && Loop(m, c, src, matchLength0, available0, history, distance) && m.lookahead != 0
    modifies m, m.window, m.prev, m.head, src, c.Footprint()
    ensures Loop(m, c, src, matchLength, available, history', distance')
    ensures m.base + m.strstart > old(m.base + m.strstart)
  {
    hide Uint32, Coded, Holding, Chains, Rolled, Pending, Lazy, c.Footprint, BetweenAt, Source.Accounted, Course, Noted, Refilled,
         Decided;
    ghost var found;
    ghost var p := PlaceOf(m, src);
    HoldingSize(m.window[..], src.Taken(), m.base, m.strstart + m.lookahead);
    CourseWatched(p, src.input, matchLength0);
    matchLength, available, history', distance', found := Step(m, c, src, matchLength0, available0, history, distance);
    ghost var q := PlaceOf(m, src);
    DecidedMoved(old(c.all), c.all, q.text, p.base + p.strstart, matchLength0, available0, found, distance, matchLength, available,
                 q.strstart - p.strstart);
    ghost var slid := RefillBetween(m, c, src, matchLength, available, history', distance');
    CourseRound(p, q, PlaceOf(m, src), src.input, matchLength0, found, matchLength, slid);
  }

  lemma PaddingAligns(n: nat)
    ensures AlignUp(n) == n + Padding(n) && |Zeros(Padding(n))| == Padding(n)
  {
  }

  /** Sends the waiting tokens, which stand for `data`, as the last block. */
  method FlushLast(c: BlockCoder, window: array<byte>, blockStart: int, storedLen: nat, ghost history: seq<byte>, ghost data: seq<byte>)
    returns (bytes: nat)
    requires window !in c.Footprint() && Coded(c, history, history + data) && |data| == storedLen
    requires blockStart >= 0 ==> blockStart + storedLen <= window.Length && window[blockStart..blockStart + storedLen] == data
    modifies c.Footprint()
    ensures c.w.Valid() && Inflates(c.w.Bits(), history + data) && c.w.Bits() == ByteBits(c.w.Out()) && 8 * bytes == |c.w.Bits()|
    ensures Traced(c.all, history + data)
  {
    hide Traced, Reported, Encoded, Decoding, Expand, Decodes, Inflates, Padding, AlignUp, ByteBits, Zeros;
    ghost var before := c.w.Bits();
    ghost var sent, report;
    bytes, sent, report := c.FlushBlock(window, blockStart, storedLen, true, history, data);
    PaddingAligns(|sent|);
    DecodingEnds(before, history, sent, history + data, Zeros(Padding(|sent|)));
  }

  /** The end of the input: the last literal and the last block. */
  method Finish(m: Matcher, c: BlockCoder, src: Source, matchLength: nat, available: bool, ghost history: seq<byte>, ghost distance: nat)
    returns (bytes: nat)
    requires Apart(m, src, c) && Loop(m, c, src, matchLength, available, history, distance) && m.lookahead == 0
    modifies c.Footprint()
    ensures c.w.Valid() && Inflates(c.w.Bits(), src.Taken()) && c.w.Bits() == ByteBits(c.w.Out()) && 8 * bytes == |c.w.Bits()|
    ensures Traced(c.all, src.Taken()) && (src.failed || src.Taken() == src.input)
  {
    hide Traced, Uint32, Coded, Holding, Chains, Rolled, Pending, c.Footprint, Inflates, ByteBits, Ready, Source.Accounted;
    ghost var text, pos := src.Taken(), m.base + m.strstart;
    HoldingSize(m.window[..], text, m.base, m.strstart + m.lookahead);
    assert text[..pos] == text;
    if available {
      HoldsAt(m.window[..], text, m.base, m.strstart + m.lookahead, m.strstart - 1);
      var flush := TallyLiteral(c, m.window[m.strstart - 1], m.strstart, m.blockStart, history, text, pos - 1);
    }
    ghost var data := WaitingData(m.window[..], text, m.base, m.strstart + m.lookahead, history, m.blockStart, m.strstart);
    bytes := FlushLast(c, m.window, m.blockStart, m.strstart - m.blockStart, history, data);
  }

  /** Compresses the whole input; the decoder recovers all that has been read. */
  method Deflate(m: Matcher, c: BlockCoder, src: Source) returns (bytes: nat)
    requires Apart(m, src, c) && Loop(m, c, src, MIN_MATCH - 1, false, [], 0)
    modifies m, m.window, m.prev, m.head, src, c.Footprint()
    ensures src.Valid() && c.w.Valid() && Inflates(c.w.Bits(), src.Taken())
    ensures c.w.Bits() == ByteBits(c.w.Out()) && 8 * bytes == |c.w.Bits()|
    ensures Traced(c.all, src.Taken()) && (src.failed || src.Taken() == src.input)
    ensures m.eofile && m.base + m.strstart == |src.Taken()| && exists n :: Course(PlaceOf(m, src), src.input, n)
  {
    hide Traced, Uint32, Coded, Holding, Chains, Rolled, Pending, Lazy, c.Footprint, BetweenAt, Course, Inflates, ByteBits, Ready, Between,
         Source.Accounted;
    var matchLength: nat, available := MIN_MATCH - 1, false;
    ghost var history: seq<byte>, distance: nat := [], 0;
    while m.lookahead != 0
      invariant Loop(m, c, src, matchLength, available, history, distance)
      decreases |src.input| - (m.base + m.strstart)
    {
      HoldingSize(m.window[..], src.Taken(), m.base, m.strstart + m.lookahead);
      matchLength, available, history, distance := Round(m, c, src, matchLength, available, history, distance);
      HoldingSize(m.window[..], src.Taken(), m.base, m.strstart + m.lookahead);
    }
    HoldingSize(m.window[..], src.Taken(), m.base, m.strstart + m.lookahead);
    ghost var last := PlaceOf(m, src);
    bytes := Finish(m, c, src, matchLength, available, history, distance);
    assert PlaceOf(m, src) == last && Course(last, src.input, matchLength);
  }
}
