/** What the optimizer knows about the instructions it has passed, and the rewritings of the last one. */
module LzoTrails {
  import opened Bits
  import opened Options
  import opened Rfc1951
  import opened Lzo1x
  import opened LzoStreams

  /** The last instruction passed: its head and what it stands for. */
  datatype Last =
    | NoLast
    | Run(head: seq<byte>, lits: seq<byte>)
    | Back(head: seq<byte>, length: nat, distance: nat, tail: seq<byte>)
  {
    function Bytes(): seq<byte>
    {
      match this
      case NoLast => []
      case Run(head, lits) => head + lits
      case Back(head, _, _, tail) => head + tail
    }

    /** It decodes, after the output `out`, in the given mode. */
    ghost predicate Fine(mode: Mode, out: seq<byte>)
    {
      match this
      case NoLast => true
      case Run(head, lits) => mode == Top && |lits| >= 4 && IsRun(head, |lits|) && (|lits| <= 18 ==> |head| == 1)
      case Back(head, length, distance, tail) =>
        && IsMatch(head, mode, length, distance) && 1 <= distance <= |out| && head[|head| - 2] % 4 == |tail|
    }

    function After(mode: Mode): Mode
    {
      match this
      case NoLast => mode
      case Run(_, _) => AfterRun
      case Back(_, _, _, tail) => ModeAfter(|tail|)
    }

    ghost function Out(mode: Mode, out: seq<byte>): seq<byte>
      requires Fine(mode, out)
    {
      match this
      case NoLast => out
      case Run(_, lits) => out + lits
      case Back(_, length, distance, tail) => CopyBack(out, length, distance) + tail
    }
  }

  lemma LastLeads(last: Last, mode: Mode, out: seq<byte>)
    requires last.Fine(mode, out)
    ensures Leads(last.Bytes(), mode, out, last.After(mode), last.Out(mode, out))
  {
    hide Leads, IsRun, IsMatch, CopyBack, ModeAfter;
    match last
    case NoLast => LeadsNowhere(mode, out);
    case Run(head, lits) => RunLeads(head, lits, out);
    case Back(head, length, distance, tail) => MatchLeads(head, mode, length, distance, tail, out);
  }

  /** The path of the optimizer: from the start of the instructions (in `mode0` after `out0`) over
      `before` to a state (`mode` after `out`), and from there over the last instruction. */
  datatype Trail = Trail(mode0: Mode, out0: seq<byte>, before: seq<byte>, mode: Mode, out: seq<byte>, last: Last) {
    ghost predicate Valid()
    {
      Leads(before, mode0, out0, mode, out) && last.Fine(mode, out) && (before == [] ==> out == out0)
    }

    function Bytes(): seq<byte>
    {
      before + last.Bytes()
    }

    function Mode(): Mode
    {
      last.After(mode)
    }

    ghost function Out(): seq<byte>
      requires Valid()
    {
      last.Out(mode, out)
    }

    /** The trail after one more instruction. */
    ghost function Push(next: Last): Trail
      requires Valid()
    {
      Trail(mode0, out0, Bytes(), Mode(), Out(), next)
    }
  }

  /** The bytes of a trail lead to its end. */
  lemma TrailLeads(tr: Trail)
    requires tr.Valid()
    ensures Leads(tr.Bytes(), tr.mode0, tr.out0, tr.Mode(), tr.Out())
  {
    hide Leads;
    LastLeads(tr.last, tr.mode, tr.out);
    LeadsOn(tr.before, tr.last.Bytes(), tr.mode0, tr.out0, tr.mode, tr.out, tr.Mode(), tr.Out());
  }

  lemma PushValid(tr: Trail, next: Last)
    requires tr.Valid() && next.Fine(tr.Mode(), tr.Out())
    ensures tr.Push(next).Valid() && tr.Push(next).Bytes() == tr.Bytes() + next.Bytes()
  {
    hide Leads;
    TrailLeads(tr);
  }

  // ---------- The three rewritings ----------

  /** A copied match becomes literals after the previous match: its three literals are now `tail + c`. */
  function Literals(tr: Trail, c: seq<byte>): Trail
    requires tr.last.Back? && |tr.last.head| >= 2
  {
    tr.(last := tr.last.(head := Followed(tr.last.head, 3), tail := tr.last.tail + c))
  }

  lemma LiteralsValid(tr: Trail, c: seq<byte>)
    requires tr.Valid() && tr.last.Back? && |tr.last.tail| + |c| == 3
    ensures Literals(tr, c).Valid() && Literals(tr, c).Out() == tr.Out() + c && Literals(tr, c).Mode() == AfterShort
  {
    hide Leads, IsMatch, CopyBack;
    var last := tr.last;
    HeadSize(last.head, tr.mode, last.length, last.distance);
    FollowedIsMatch(last.head, tr.mode, last.length, last.distance, 3);
    Associate(CopyBack(tr.out, last.length, last.distance), last.tail, c);
  }

  lemma HeadSize(m: seq<byte>, mode: Mode, length: nat, distance: nat)
    requires IsMatch(m, mode, length, distance)
    ensures |m| >= 2
  {
  }

  /** The literals after the previous match, a copied match and a literal run become one literal run. */
  ghost function Joined(tr: Trail, c: seq<byte>, lits: seq<byte>): Trail
    requires tr.last.Back? && |tr.last.head| >= 2 && 4 <= |tr.last.tail + c + lits| <= 18 && 1 <= tr.last.distance <= |tr.out|
  {
    var last := tr.last;
    var head := Followed(last.head, 0);
    Trail(tr.mode0, tr.out0, tr.before + head, Top, CopyBack(tr.out, last.length, last.distance),
          Run([|last.tail + c + lits| - 3], last.tail + c + lits))
  }

  lemma JoinedValid(tr: Trail, c: seq<byte>, lits: seq<byte>)
    requires tr.Valid() && tr.last.Back? && 4 <= |tr.last.tail + c + lits| <= 18
    ensures |tr.last.head| >= 2 && 1 <= tr.last.distance <= |tr.out|
    ensures Joined(tr, c, lits).Valid() && Joined(tr, c, lits).Out() == tr.Out() + c + lits
    ensures Joined(tr, c, lits).Mode() == AfterRun
  {
    hide Leads, IsMatch, IsRun, CopyBack;
    var last := tr.last;
    HeadSize(last.head, tr.mode, last.length, last.distance);
    FollowedIsMatch(last.head, tr.mode, last.length, last.distance, 0);
    var bare := tr.(last := last.(head := Followed(last.head, 0), tail := []));
    var out := CopyBack(tr.out, last.length, last.distance);
    TrailLeads(bare);
    assert out + [] == out && Followed(last.head, 0) + [] == Followed(last.head, 0);
    ShortRun(|last.tail + c + lits|);
    Associate(last.tail, c, lits);
    Associate(out, last.tail, c + lits);
    Associate(out + last.tail, c, lits);
  }

  /** A literal run, a copied match and another literal run become one literal run. */
  ghost function Extended(tr: Trail, c: seq<byte>, lits: seq<byte>): Trail
    requires tr.last.Run? && 4 <= |tr.last.lits + c + lits| <= 18
  {
    tr.(last := Run([|tr.last.lits + c + lits| - 3], tr.last.lits + c + lits))
  }

  lemma ExtendedValid(tr: Trail, c: seq<byte>, lits: seq<byte>)
    requires tr.Valid() && tr.last.Run? && 4 <= |tr.last.lits + c + lits| <= 18
    ensures Extended(tr, c, lits).Valid() && Extended(tr, c, lits).Out() == tr.Out() + c + lits
    ensures Extended(tr, c, lits).Mode() == AfterRun
  {
    hide Leads;
    ShortRun(|tr.last.lits + c + lits|);
    Associate(tr.last.lits, c, lits);
    Associate(tr.out, tr.last.lits, c + lits);
    Associate(tr.out + tr.last.lits, c, lits);
  }

  // ---------- The instructions still to come ----------

  /** A match that is next in a stream that decodes. */
  lemma MatchNext(s: seq<byte>, mode: Mode, out: seq<byte>, length: nat, distance: nat, k: nat)
    requires Decode(s, mode, out).Some? && ReadHead(s, mode) == Some(MatchHead(length, distance, k))
    ensures 2 <= k <= |s| && 1 <= distance <= |out| && k + Following(s, k) <= |s|
    ensures var n := Following(s, k);
      && Decode(s[k + n..], ModeAfter(n), CopyBack(out, length, distance) + s[k..k + n]) == Decode(s, mode, out)
      && Back(s[..k], length, distance, s[k..k + n]).Fine(mode, out)
  {
    hide ReadHead, CopyBack, IsMatch, Decode, ModeAfter;
    MatchThere(s, mode, length, distance, k);
    MatchDecodes(s, mode, out, length, distance, k);
    var n := Following(s, k);
    assert s[..k][k - 2] == s[k - 2] && |s[k..k + n]| == n;
  }

  lemma MatchDecodes(s: seq<byte>, mode: Mode, out: seq<byte>, length: nat, distance: nat, k: nat)
    requires Decode(s, mode, out).Some? && ReadHead(s, mode) == Some(MatchHead(length, distance, k))
    ensures 2 <= k <= |s| && 1 <= distance <= |out| && k + Following(s, k) <= |s|
    ensures var n := Following(s, k);
      Decode(s[k + n..], ModeAfter(n), CopyBack(out, length, distance) + s[k..k + n]) == Decode(s, mode, out)
  {
    hide ReadHead, CopyBack, ModeAfter;
  }

  lemma RunNext(s: seq<byte>, out: seq<byte>, count: nat, k: nat)
    requires Decode(s, Top, out).Some? && ReadHead(s, Top) == Some(RunHead(count, k))
    ensures k + count <= |s| && Decode(s[k + count..], AfterRun, out + s[k..k + count]) == Decode(s, Top, out)
    ensures count >= 4 && IsRun(s[..k], count)
  {
    hide ReadHead;
    RunThere(s, count, k);
  }

  /** An opcode of 16 or more means the same in every mode. */
  lemma SameInEveryMode(s: seq<byte>, mode: Mode, mode': Mode, out: seq<byte>)
    requires s != [] && s[0] >= 16
    ensures ReadHead(s, mode) == ReadHead(s, mode') && Decode(s, mode, out) == Decode(s, mode', out)
  {
    hide ReadHead, CopyBack, Following, ModeAfter;
    SameHeadInEveryMode(s, mode, mode');
  }

  lemma SameHeadInEveryMode(s: seq<byte>, mode: Mode, mode': Mode)
    requires s != [] && s[0] >= 16
    ensures ReadHead(s, mode) == ReadHead(s, mode')
    ensures ReadHead(s, mode).Some? ==> !ReadHead(s, mode).value.RunHead?
  {
    hide Length, Offset;
  }
}
