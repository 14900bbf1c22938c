/** Steps of the optimizer, on the contents of its buffers: the block keeps its meaning. */
module LzoLines {
  import opened Bits
  import opened Options
  import opened Rfc1951
  import opened Lzo1x
  import opened LzoStreams
  import opened LzoTrails

  /** How the block begins: with literals that have no head of their own, or with an instruction. */
  ghost predicate Led(s: seq<byte>, lead: seq<byte>, tr: Trail)
  {
    if lead == [] then s != [] && s[0] <= 17 && tr.mode0 == Top && tr.out0 == []
    else
      && lead[0] > 17 && |lead| == lead[0] - 16 && tr.out0 == lead[1..]
      && tr.mode0 == if |lead| - 1 < 4 then AfterShort else AfterRun
  }

  /** The block `s` has been passed up to `p`, with output `o`; what is left completes it to `goal`. */
  ghost predicate Lined(s: seq<byte>, p: nat, o: seq<byte>, lead: seq<byte>, tr: Trail, goal: (seq<byte>, nat))
  {
    && p <= |s| && tr.Valid() && Led(s, lead, tr) && s == lead + tr.Bytes() + s[p..] && |lead + tr.Bytes()| == p
    && o == tr.Out() && Decode(s[p..], tr.Mode(), o) == Some(goal)
  }

  /** So the whole block decodes to `goal`. */
  lemma BlockDecodes(s: seq<byte>, p: nat, o: seq<byte>, lead: seq<byte>, tr: Trail, goal: (seq<byte>, nat))
    requires Lined(s, p, o, lead, tr, goal)
    ensures DecodeBlock(s) == Some(goal)
  {
    hide Decode, tr.Valid;
    TrailLeads(tr);
    Associate(lead, tr.Bytes(), s[p..]);
    var body := tr.Bytes() + s[p..];
    assert Decode(body, tr.mode0, tr.out0) == Decode(s[p..], tr.Mode(), o);
    assert s[|lead|..] == body && s[..|lead|] == lead;
    if lead != [] {
      assert s[0] == lead[0] && s[1..|lead|] == lead[1..];
    } else {
      assert s[0..] == s;
    }
  }

  // ---------- The two ways to begin ----------

  lemma BeginPlain(s: seq<byte>, goal: (seq<byte>, nat))
    requires DecodeBlock(s) == Some(goal) && s[0] <= 17
    ensures Lined(s, 0, [], [], Trail(Top, [], [], Top, [], NoLast), goal)
  {
    hide Decode;
    LeadsNowhere(Top, []);
    assert s[0..] == s;
  }

  lemma BeginWithLiterals(s: seq<byte>, goal: (seq<byte>, nat), n: nat, mode: Mode)
    requires DecodeBlock(s) == Some(goal) && s[0] > 17 && n == s[0] - 17 && mode == if n < 4 then AfterShort else AfterRun
    ensures 1 + n <= |s|
    ensures Lined(s, 1 + n, s[1..1 + n], s[..1 + n], Trail(mode, s[1..1 + n], [], mode, s[1..1 + n], NoLast), goal)
  {
    hide Decode;
    LeadsNowhere(mode, s[1..1 + n]);
    assert s[..1 + n][1..] == s[1..1 + n];
  }

  // ---------- Instructions that stay as they are ----------

  /** The trail grows by an instruction. */
  lemma Extend(s: seq<byte>, p: nat, o: seq<byte>, lead: seq<byte>, tr: Trail, goal: (seq<byte>, nat), next: Last, q: nat)
    requires Lined(s, p, o, lead, tr, goal) && next.Fine(tr.Mode(), o) && p <= q <= |s| && next.Bytes() == s[p..q]
    requires Decode(s[q..], next.After(tr.Mode()), next.Out(tr.Mode(), o)) == Some(goal)
    ensures Lined(s, q, next.Out(tr.Mode(), o), lead, tr.Push(next), goal)
  {
    hide Decode, Leads, IsMatch, IsRun, CopyBack;
    PushValid(tr, next);
    assert s[p..] == s[p..q] + s[q..];
    Associate(lead, tr.Bytes(), next.Bytes());
    Associate(lead + tr.Bytes(), next.Bytes(), s[q..]);
  }

  lemma Slices(s: seq<byte>, p: nat, k: nat, n: nat)
    requires p + k + n <= |s|
    ensures s[p..][..k] == s[p..p + k] && s[p..][k..k + n] == s[p + k..p + k + n] && s[p..][k + n..] == s[p + k + n..]
    ensures s[p..p + k] + s[p + k..p + k + n] == s[p..p + k + n]
  {
  }

  lemma PassMatch(s: seq<byte>, p: nat, o: seq<byte>, lead: seq<byte>, tr: Trail, goal: (seq<byte>, nat),
                  length: nat, distance: nat, k: nat) returns (n: nat, tr': Trail)
    requires Lined(s, p, o, lead, tr, goal) && ReadHead(s[p..], tr.Mode()) == Some(MatchHead(length, distance, k))
    ensures 2 <= k && p + k <= |s| && n == s[p + k - 2] % 4 && p + k + n <= |s| && 1 <= distance <= |o|
    ensures tr' == tr.Push(Back(s[p..p + k], length, distance, s[p + k..p + k + n]))
    ensures Lined(s, p + k + n, CopyBack(o, length, distance) + s[p + k..p + k + n], lead, tr', goal)
  {
    hide Decode, Leads, IsMatch, CopyBack, ReadHead;
    var rest := s[p..];
    MatchNext(rest, tr.Mode(), o, length, distance, k);
    n := Following(rest, k);
    var next := Back(rest[..k], length, distance, rest[k..k + n]);
    Slices(s, p, k, n);
    Extend(s, p, o, lead, tr, goal, next, p + k + n);
    tr' := tr.Push(next);
  }

  lemma PassRun(s: seq<byte>, p: nat, o: seq<byte>, lead: seq<byte>, tr: Trail, goal: (seq<byte>, nat), count: nat, k: nat)
    returns (tr': Trail)
    requires Lined(s, p, o, lead, tr, goal) && tr.Mode() == Top && ReadHead(s[p..], Top) == Some(RunHead(count, k))
    requires count <= 18 ==> k == 1
    ensures 1 <= k && p + k + count <= |s| && tr' == tr.Push(Run(s[p..p + k], s[p + k..p + k + count]))
    ensures Lined(s, p + k + count, o + s[p + k..p + k + count], lead, tr', goal)
  {
    hide Decode, Leads, IsRun, ReadHead;
    var rest := s[p..];
    RunNext(rest, o, count, k);
    var next := Run(rest[..k], rest[k..k + count]);
    Slices(s, p, k, count);
    HeadNotEmpty(rest, count, k);
    Extend(s, p, o, lead, tr, goal, next, p + k + count);
    tr' := tr.Push(next);
  }

  lemma HeadNotEmpty(s: seq<byte>, count: nat, k: nat)
    requires ReadHead(s, Top) == Some(RunHead(count, k))
    ensures 1 <= k
  {
  }

  // ---------- Instructions that are rewritten ----------

  /** The bytes that a match adds to the output `o`. */
  function Copied(o: seq<byte>, n: nat, distance: nat): (c: seq<byte>)
    requires 1 <= distance <= |o|
    ensures |c| == n
  {
    CopyBack(o, n, distance)[|o|..]
  }

  lemma {:induction false} CopyBackKeeps(o: seq<byte>, n: nat, distance: nat)
    requires 1 <= distance <= |o|
    ensures CopyBack(o, n, distance)[..|o|] == o
    ensures CopyBack(o, n, distance) == o + Copied(o, n, distance)
    decreases n
  {
    if n > 0 {
      var o' := o + [o[|o| - distance]];
      CopyBackKeeps(o', n - 1, distance);
      assert CopyBack(o, n, distance)[..|o|] == CopyBack(o, n, distance)[..|o'|][..|o|];
    }
  }

  /** The first byte of a rewritten block. */
  lemma StillLed(s: seq<byte>, lead: seq<byte>, tr: Trail, s': seq<byte>, before: seq<byte>)
    requires Led(s, lead, tr) && (lead == [] ==> before != []) && lead + before <= s && lead + before <= s'
    ensures Led(s', lead, tr)
  {
    if lead == [] {
      assert s[0] == (lead + before)[0] == s'[0];
    }
  }

  /** A match becomes literals after the previous match. */
  lemma RewriteToLiterals(s: seq<byte>, p: nat, o: seq<byte>, lead: seq<byte>, tr: Trail, goal: (seq<byte>, nat),
                          n: nat, distance: nat, s': seq<byte>)
    requires Lined(s, p, o, lead, tr, goal) && ReadHead(s[p..], tr.Mode()) == Some(MatchHead(n, distance, n))
    requires p + n < |s| && n >= 2 && s[p + n - 2] % 4 == 0 && s[p + n] >= 16
    requires tr.last.Back? && |tr.last.head| >= 2 && |tr.last.tail| + n == 3 && 1 <= distance <= |o|
    requires s' == lead + Literals(tr, Copied(o, n, distance)).Bytes() + s[p + n..]
    ensures Lined(s', p + n, CopyBack(o, n, distance), lead, Literals(tr, Copied(o, n, distance)), goal)
  {
    hide Decode, Leads, IsMatch, CopyBack, ReadHead, Copied, Followed, Lined, tr.Valid, Led;
    LinedSize(s, p, o, lead, tr, goal);
    LinedFuture(s, p, o, lead, tr, goal);
    var c := Copied(o, n, distance);
    var tr' := Literals(tr, c);
    CopyBackKeeps(o, n, distance);
    LiteralsValid(tr, c);
    MatchNext(s[p..], tr.Mode(), o, n, distance, n);
    assert s[p..][n..] == s[p + n..] && s[p..][n..n] == [];
    assert CopyBack(o, n, distance) + [] == CopyBack(o, n, distance);
    SameInEveryMode(s[p + n..], Top, AfterShort, CopyBack(o, n, distance));
    assert lead + tr.before <= s';
    StillLed(s, lead, tr, s', tr.before);
    SameStart(s', lead, tr, tr');
    LinedAgain(s', lead, tr', s[p + n..], p + n, CopyBack(o, n, distance), goal);
  }

  /** What follows a match without literals: a literal run of `t + 3` bytes. */
  lemma RunFollows(s: seq<byte>, p: nat, o: seq<byte>, lead: seq<byte>, tr: Trail, goal: (seq<byte>, nat),
                   length: nat, distance: nat, k: nat)
    requires Lined(s, p, o, lead, tr, goal) && ReadHead(s[p..], tr.Mode()) == Some(MatchHead(length, distance, k))
    requires p + k < |s| && k >= 2 && s[p + k - 2] % 4 == 0 && 0 < s[p + k] < 16 && 1 <= distance <= |o|
    ensures var q := p + k + 1 + s[p + k] + 3;
      && q <= |s|
      && Decode(s[q..], AfterRun, CopyBack(o, length, distance) + s[p + k + 1..q]) == Some(goal)
  {
    hide Decode, Leads, IsMatch, CopyBack, ReadHead;
    var rest, t := s[p..], s[p + k];
    MatchNext(rest, tr.Mode(), o, length, distance, k);
    assert rest[k..] == s[p + k..] && rest[k..k] == [];
    var o' := CopyBack(o, length, distance);
    assert o' + [] == o';
    ShortHead(s[p + k..]);
    RunNext(s[p + k..], o', t + 3, 1);
    Slices(s, p + k, 1, t + 3);
  }

  /** The rewritten block is lined up again. */
  lemma LinedAgain(s: seq<byte>, lead: seq<byte>, tr: Trail, tail: seq<byte>, p: nat, o: seq<byte>, goal: (seq<byte>, nat))
    requires tr.Valid() && Led(s, lead, tr) && s == lead + tr.Bytes() + tail && p == |lead| + |tr.Bytes()|
    requires o == tr.Out() && Decode(tail, tr.Mode(), o) == Some(goal)
    ensures Lined(s, p, o, lead, tr, goal)
  {
    hide Decode, Leads, tr.Valid, Led;
    assert s[p..] == tail;
  }

  lemma LinedSize(s: seq<byte>, p: nat, o: seq<byte>, lead: seq<byte>, tr: Trail, goal: (seq<byte>, nat))
    requires Lined(s, p, o, lead, tr, goal)
    ensures tr.Valid() && Led(s, lead, tr) && p == |lead| + |tr.Bytes()| <= |s| && lead + tr.before <= s && o == tr.Out()
    ensures tr.last.Back? && tr.before == [] ==> lead != []
  {
    assert lead + tr.before <= lead + tr.Bytes();
  }

  lemma ShortHead(s: seq<byte>)
    requires s != [] && 0 < s[0] < 16
    ensures ReadHead(s, Top) == Some(RunHead(s[0] + 3, 1))
  {
  }

  /** A match between the literals after a match and a literal run: all become one literal run. */
  lemma RewriteJoined(s: seq<byte>, p: nat, o: seq<byte>, lead: seq<byte>, tr: Trail, goal: (seq<byte>, nat),
                      n: nat, distance: nat, q: nat, s': seq<byte>)
    requires Lined(s, p, o, lead, tr, goal) && ReadHead(s[p..], tr.Mode()) == Some(MatchHead(n, distance, n))
    requires p + n < |s| && n >= 2 && s[p + n - 2] % 4 == 0 && 0 < s[p + n] < 16 && 1 <= distance <= |o|
    requires q == p + n + 1 + s[p + n] + 3 <= |s|
    requires tr.last.Back? && |tr.last.head| >= 2 && |tr.last.tail| + n + s[p + n] < 16 && 1 <= tr.last.distance <= |tr.out|
    requires s' == lead + Joined(tr, Copied(o, n, distance), s[p + n + 1..q]).Bytes() + s[q..]
    ensures Lined(s', q, CopyBack(o, n, distance) + s[p + n + 1..q], lead, Joined(tr, Copied(o, n, distance), s[p + n + 1..q]), goal)
  {
    hide Decode, Leads, IsMatch, IsRun, CopyBack, ReadHead, Copied, Followed, Lined, tr.Valid, Led, Joined;
    LinedSize(s, p, o, lead, tr, goal);
    var c, lits := Copied(o, n, distance), s[p + n + 1..q];
    CopyBackKeeps(o, n, distance);
    JoinedValid(tr, c, lits);
    RunFollows(s, p, o, lead, tr, goal, n, distance, n);
    var tr' := Joined(tr, c, lits);
    JoinedShape(tr, c, lits, lead, s[q..]);
    StillLed(s, lead, tr, s', tr.before);
    SameStart(s', lead, tr, tr');
    LinedAgain(s', lead, tr', s[q..], q, CopyBack(o, n, distance) + lits, goal);
  }

  /** A match between two literal runs: all become one literal run. */
  lemma RewriteExtended(s: seq<byte>, p: nat, o: seq<byte>, lead: seq<byte>, tr: Trail, goal: (seq<byte>, nat),
                        distance: nat, q: nat, s': seq<byte>)
    requires Lined(s, p, o, lead, tr, goal) && ReadHead(s[p..], tr.Mode()) == Some(MatchHead(3, distance, 2))
    requires p + 2 < |s| && s[p] % 4 == 0 && 0 < s[p + 2] < 16 && 1 <= distance <= |o|
    requires q == p + 3 + s[p + 2] + 3 <= |s|
    requires tr.last.Run? && |tr.last.lits| + 3 + s[p + 2] < 16
    requires s' == lead + Extended(tr, Copied(o, 3, distance), s[p + 3..q]).Bytes() + s[q..]
    ensures Lined(s', q, CopyBack(o, 3, distance) + s[p + 3..q], lead, Extended(tr, Copied(o, 3, distance), s[p + 3..q]), goal)
  {
    hide Decode, Leads, IsMatch, IsRun, CopyBack, ReadHead, Copied, Lined, tr.Valid, Led, Extended;
    LinedSize(s, p, o, lead, tr, goal);
    ShortLast(tr);
    var c, lits := Copied(o, 3, distance), s[p + 3..q];
    CopyBackKeeps(o, 3, distance);
    ExtendedValid(tr, c, lits);
    RunFollows(s, p, o, lead, tr, goal, 3, distance, 2);
    var tr' := Extended(tr, c, lits);
    ExtendedShape(tr, c, lits);
    ExtendedLed(s, lead, tr, s', tr', s[q..]);
    LinedAgain(s', lead, tr', s[q..], q, CopyBack(o, 3, distance) + lits, goal);
  }

  lemma SameStart(s: seq<byte>, lead: seq<byte>, tr: Trail, tr': Trail)
    requires Led(s, lead, tr) && tr'.mode0 == tr.mode0 && tr'.out0 == tr.out0
    ensures Led(s, lead, tr')
  {
  }

  lemma JoinedShape(tr: Trail, c: seq<byte>, lits: seq<byte>, lead: seq<byte>, rest: seq<byte>)
    requires tr.last.Back? && |tr.last.head| >= 2 && 4 <= |tr.last.tail + c + lits| <= 18 && 1 <= tr.last.distance <= |tr.out|
    ensures Joined(tr, c, lits).mode0 == tr.mode0 && Joined(tr, c, lits).out0 == tr.out0
    ensures |Joined(tr, c, lits).Bytes()| == |tr.Bytes()| + 1 + |c| + |lits|
    ensures lead + tr.before <= lead + Joined(tr, c, lits).Bytes() + rest
  {
    hide Followed;
    var tr' := Joined(tr, c, lits);
    assert tr.before <= tr'.before <= tr'.Bytes();
    assert tr'.Bytes()[..|tr.before|] == tr.before;
  }

  lemma ExtendedShape(tr: Trail, c: seq<byte>, lits: seq<byte>)
    requires tr.last.Run? && |tr.last.head| == 1 && 4 <= |tr.last.lits + c + lits| <= 18
    ensures var tr' := Extended(tr, c, lits);
      && tr'.mode0 == tr.mode0 && tr'.out0 == tr.out0 && tr'.before == tr.before
      && tr'.last.Run? && |tr'.last.head| == 1 && tr'.last.head[0] < 16
      && |tr'.Bytes()| == |tr.Bytes()| + |c| + |lits|
  {
  }

  lemma ShortLast(tr: Trail)
    requires tr.Valid() && tr.last.Run? && |tr.last.lits| <= 18
    ensures |tr.last.head| == 1
  {
  }

  lemma ExtendedLed(s: seq<byte>, lead: seq<byte>, tr: Trail, s': seq<byte>, tr': Trail, tail: seq<byte>)
    requires Led(s, lead, tr) && lead + tr.before <= s && tr'.mode0 == tr.mode0 && tr'.out0 == tr.out0 && tr'.before == tr.before
    requires s' == lead + tr'.Bytes() + tail && tr'.last.Run? && |tr'.last.head| == 1 && tr'.last.head[0] < 16
    ensures Led(s', lead, tr')
  {
    if lead == [] && tr.before == [] {
      assert s'[0] == tr'.last.head[0];
    } else {
      assert lead + tr.before <= s';
      StillLed(s, lead, tr, s', tr.before);
    }
  }

  lemma LinedFuture(s: seq<byte>, p: nat, o: seq<byte>, lead: seq<byte>, tr: Trail, goal: (seq<byte>, nat))
    requires Lined(s, p, o, lead, tr, goal)
    ensures p <= |s| && Decode(s[p..], tr.Mode(), o) == Some(goal)
  {
  }
}
