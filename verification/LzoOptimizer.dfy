/** The LZO1X peephole optimizer: decodes a block and rewrites it in place as it goes. */
module LzoOptimizers {
  import opened Bits
  import opened Options
  import opened Rfc1951
  import opened Lzo1x
  import opened LzoStreams
  import opened LzoTrails
  import opened LzoLines

  /** How the optimizer ends on a block that decodes. */
  datatype Code = Ok | InputNotConsumed

  /** `litp` and `lit` describe the last instruction: where its number of literals is kept, and the number. */
  ghost predicate Tracked(litp: int, lit: nat, lead: seq<byte>, tr: Trail)
  {
    match tr.last
    case NoLast => litp == -1
    case Run(_, lits) => litp == |lead| + |tr.before| && lit == |lits|
    case Back(head, _, _, tail) => litp == |lead| + |tr.before| + |head| - 2 && lit == |tail| && |head| >= 2
  }

  // ---------- What an instruction does to the trail ----------

  /** The match stays: it is the new last instruction. */
  ghost predicate Kept(a: Trail, b: Trail, length: nat, distance: nat)
  {
    b.before == a.Bytes() && b.last.Back? && b.last.length == length && b.last.distance == distance
  }

  /** The match has become `n` more literals of the previous match. */
  ghost predicate MadeLiterals(a: Trail, b: Trail, n: nat)
  {
    && a.last.Back? && b.last.Back? && b.before == a.before && |b.last.tail| == |a.last.tail| + n
    && b.last.length == a.last.length && b.last.distance == a.last.distance
  }

  /** The literals of the previous match, the match of `n` bytes and a run of `count` literals have become one run. */
  ghost predicate JoinedInto(a: Trail, b: Trail, n: nat, count: nat)
  {
    a.last.Back? && b.last.Run? && |b.before| == |a.before| + |a.last.head| && |b.last.lits| == |a.last.tail| + n + count
  }

  /** The previous run, the match of 3 bytes and a run of `count` literals have become one run. */
  ghost predicate ExtendedInto(a: Trail, b: Trail, count: nat)
  {
    a.last.Run? && b.last.Run? && b.before == a.before && |b.last.lits| == |a.last.lits| + 3 + count
  }

  /** The byte after the head of an instruction. */
  function Next(s: seq<byte>, ip: nat): nat
  {
    if ip < |s| then s[ip] else 0
  }

  /** A match of `n` bytes whose head ends at `ip`, without literals, before another match. */
  predicate BeforeMatch(s: seq<byte>, ip: nat)
  {
    2 <= ip <= |s| && s[ip - 2] % 4 == 0 && Next(s, ip) >= 16
  }

  /** A match whose head ends at `ip`, without literals, before a literal run that leaves room for `more` literals in a short run. */
  predicate BeforeRun(s: seq<byte>, ip: nat, more: nat)
  {
    2 <= ip <= |s| && s[ip - 2] % 4 == 0 && 0 < Next(s, ip) < 16 && more + Next(s, ip) < 16
  }

  lemma {:induction false} DecodeGrows(s: seq<byte>, mode: Mode, out: seq<byte>)
    requires Decode(s, mode, out).Some?
    ensures |out| <= |Decode(s, mode, out).value.0|
    decreases |s|
  {
    hide ReadHead;
    var head := ReadHead(s, mode).value;
    match head
    case EofHead(_) =>
    case RunHead(count, size) => DecodeGrows(s[size + count..], AfterRun, out + s[size..size + count]);
    case MatchHead(length, distance, size) =>
      var n := Following(s, size);
      DecodeGrows(s[size + n..], ModeAfter(n), CopyBack(out, length, distance) + s[size..size + n]);
  }

  /** Something is left to decode, and its head is complete. */
  lemma HeadThere(s: seq<byte>, mode: Mode, out: seq<byte>)
    requires Decode(s, mode, out).Some?
    ensures s != [] && ReadHead(s, mode).Some? && (mode == AfterShort ==> |s| >= 2)
  {
  }

  lemma Room(s: seq<byte>, p: nat, o: seq<byte>, lead: seq<byte>, tr: Trail, goal: (seq<byte>, nat))
    requires Lined(s, p, o, lead, tr, goal)
    ensures |o| <= |goal.0| && p < |s| && ReadHead(s[p..], tr.Mode()).Some? && (tr.Mode() == AfterShort ==> p + 1 < |s|)
  {
    hide Decode, ReadHead, tr.Valid;
    LinedFuture(s, p, o, lead, tr, goal);
    DecodeGrows(s[p..], tr.Mode(), o);
    HeadThere(s[p..], tr.Mode(), o);
  }

  class Optimizer {
    const input: array<byte>
    const output: array<byte>
    var ip: nat
    var op: nat
    /** -1 if there is no last instruction that could be changed. */
    var litp: int
    var lit: nat
    var at: Mode
    ghost var lead: seq<byte>
    ghost var tr: Trail
    /** What the block decodes to. */
    ghost var goal: (seq<byte>, nat)

    constructor (input: array<byte>, output: array<byte>)
      ensures this.input == input && this.output == output
      ensures ip == 0 && op == 0 && litp == -1 && lit == 0 && at == Top
    {
      this.input, this.output := input, output;
      ip, op, litp, lit, at := 0, 0, -1, 0, Top;
      tr := Trail(Top, [], [], Top, [], NoLast);
    }

    /** The block is lined up at `p`. */
    ghost predicate LinedAt(p: nat)
      reads this, input, output
    {
      && input != output && op <= output.Length && |goal.0| <= output.Length
      && Lined(input[..], p, output[..op], lead, tr, goal) && Tracked(litp, lit, lead, tr)
    }

    /** Between two instructions. */
    ghost predicate Valid()
      reads this, input, output
    {
      && LinedAt(ip)
      && (at == tr.Mode() || (at == Top && tr.Mode() == AfterShort && ip < input.Length && input[ip] >= 16))
    }

    /** The head of a match has been read. */
    ghost predicate AtMatch(p: nat, length: nat, distance: nat)
      reads this, input, output
    {
      && LinedAt(p) && p + 2 <= ip <= input.Length
      && ReadHead(input[p..], tr.Mode()) == Some(MatchHead(length, distance, ip - p))
    }

    /** `do *op++ = *ip++; while (--t > 0)` */
    method CopyLiterals(n: nat)
      requires input != output && ip + n <= input.Length && op + n <= output.Length
      modifies `ip, `op, output
      ensures ip == old(ip) + n && op == old(op) + n
      ensures output[..op] == old(output[..op]) + input[old(ip)..ip]
    {
      var t := n;
      while t > 0
        invariant 0 <= t <= n && ip == old(ip) + n - t && op == old(op) + n - t
        invariant output[..op] == old(output[..op]) + input[old(ip)..ip]
      {
        output[op] := input[ip];
        op := op + 1;
        ip := ip + 1;
        t := t - 1;
      }
    }

    /** `do *op++ = *m_pos++; while (--t > 0)` */
    method CopyMatch(n: nat, distance: nat)
      requires 1 <= distance <= op && op + n <= output.Length
      modifies `op, output
      ensures op == old(op) + n && output[..op] == CopyBack(old(output[..op]), n, distance)
    {
      var t := n;
      while t > 0
        invariant 0 <= t <= n && op == old(op) + n - t
        invariant CopyBack(output[..op], t, distance) == CopyBack(old(output[..op]), n, distance)
      {
        ghost var before := output[..op];
        output[op] := output[op - distance];
        op := op + 1;
        assert output[..op] == before + [before[|before| - distance]];
        t := t - 1;
      }
    }

    /** Sends the match to the output and remembers it, with the literals after it. */
    method PassOver(ghost p: nat, length: nat, distance: nat)
      requires AtMatch(p, length, distance)
      modifies `ip, `op, `litp, `lit, `at, `tr, output
      ensures Valid() && ip > p && Kept(old(tr), tr, length, distance)
    {
      hide Lined, ReadHead, CopyBack, tr.Valid, Tracked, Kept;
      ghost var s, o := input[..], output[..op];
      ghost var n, next := MatchPassed(s, p, o, lead, tr, goal, length, distance, ip - p);
      CopyMatch(length, distance);
      litp := ip - 2;
      lit := input[ip - 2] % 4;
      tr := next;
      CopyLiterals(lit);
      assert input[..] == s;
      at := if lit == 0 then Top else AfterShort;
    }

    /** Writes the two bytes of a match over the block. */
    method Copy2(pos: nat, distance: nat)
      requires input != output && 1 <= distance <= op <= output.Length && pos + 2 <= input.Length
      modifies input
      ensures input[..] == old(input[..pos]) + Copied(output[..op], 2, distance) + old(input[pos + 2..])
    {
      hide Copied;
      Copied2(output[..op], distance);
      ghost var before := input[..];
      var m := op - distance;
      input[pos] := output[m];
      if distance == 1 {
        input[pos + 1] := output[m];
      } else {
        input[pos + 1] := output[m + 1];
      }
      assert input[..] == before[..pos] + [input[pos], input[pos + 1]] + before[pos + 2..];
    }

    /** Writes the three bytes of a match over the block. */
    method Copy3(pos: nat, distance: nat)
      requires input != output && 1 <= distance <= op <= output.Length && pos + 3 <= input.Length
      modifies input
      ensures input[..] == old(input[..pos]) + Copied(output[..op], 3, distance) + old(input[pos + 3..])
    {
      hide Copied;
      Copied3(output[..op], distance);
      ghost var before := input[..];
      var m := op - distance;
      input[pos] := output[m];
      if distance == 1 {
        input[pos + 1] := output[m];
        input[pos + 2] := output[m];
      } else if distance == 2 {
        input[pos + 1] := output[m + 1];
        input[pos + 2] := output[m];
      } else {
        input[pos + 1] := output[m + 1];
        input[pos + 2] := output[m + 2];
      }
      assert input[..] == before[..pos] + [input[pos], input[pos + 1], input[pos + 2]] + before[pos + 3..];
    }

    /** Writes the `n` bytes of a match over the block. */
    method CopyOver(pos: nat, n: nat, distance: nat)
      requires input != output && 1 <= distance <= op <= output.Length && 2 <= n <= 3 && pos + n <= input.Length
      modifies input
      ensures input[..] == old(input[..pos]) + Copied(output[..op], n, distance) + old(input[pos + n..])
    {
      if n == 2 {
        Copy2(pos, distance);
      } else {
        Copy3(pos, distance);
      }
    }

    /** Writes the bytes of a match over its head and announces them at the previous match. */
    method LiteralsInput(n: nat, distance: nat, ghost p: nat)
      requires input != output && 1 <= distance <= op <= output.Length && 0 <= litp < p && lit + n == 3 && 2 <= n
      requires p + n == ip <= input.Length
      modifies `lit, input
      ensures lit == 3
      ensures var s1 := old(input[..])[litp := SetLow(old(input[litp]), 3)];
        input[..] == s1[..p] + Copied(output[..op], n, distance) + s1[p + n..]
    {
      hide SetLow, Copied;
      ghost var s := input[..];
      lit := lit + n;
      input[litp] := SetLow(input[litp], lit);
      assert input[..] == s[litp := SetLow(s[litp], 3)];
      CopyOver(ip - n, n, distance);
    }

    /** Turns a match of `n` bytes into literals after the previous match, which will be three. */
    method MakeLiterals(ghost p: nat, n: nat, distance: nat)
      requires AtMatch(p, n, distance) && ip == p + n && 2 <= n <= 3 && tr.last.Back? && lit + n == 3
      requires input[ip - 2] % 4 == 0 && ip < input.Length && input[ip] >= 16
      modifies `op, `lit, `at, `tr, input, output
      ensures Valid() && ip > p && MadeLiterals(old(tr), tr, n)
    {
      hide Lined, ReadHead, CopyBack, Copied, SetLow, Followed, Literals, tr.Valid, MadeLiterals;
      ghost var s, o := input[..], output[..op];
      MatchFits(s, p, o, lead, tr, goal, n, distance, n);
      BackStands(s, p, o, lead, tr, goal, litp);
      ghost var c := Copied(o, n, distance);
      LiteralsInput(n, distance, p);
      ghost var next := LiteralsLined(s, p, o, lead, tr, goal, n, distance, litp, c, input[..]);
      tr := next;
      ghost var s' := input[..];
      CopyMatch(n, distance);
      assert input[..] == s';
      at := Top;
    }

    /** `if (lit > 0) memmove(litp + 1, litp, lit)` */
    method MoveUp(from: nat, n: nat)
      requires from + n < input.Length
      modifies input
      ensures input[..] == Moved(old(input[..]), from, n)
    {
      ghost var before := input[..];
      ghost var moved := before[..from + 1] + before[from..from + n] + before[from + n + 1..];
      var k := n;
      while k > 0
        invariant 0 <= k <= n
        invariant forall i :: 0 <= i < input.Length ==> input[i] == if i > from + k then moved[i] else before[i]
      {
        assert moved[from + k] == before[from + k - 1];
        input[from + k] := input[from + k - 1];
        k := k - 1;
      }
    }

    /** Moves the parts of a joined run to their places in the block; `ip` is after the head of the old run. */
    method MoveParts(n: nat, t: nat, distance: nat, ghost p: nat) returns (ghost s1: seq<byte>, ghost s2: seq<byte>, ghost s3: seq<byte>)
      requires input != output && 1 <= distance <= op <= output.Length && 2 <= n <= 3 && lit + n + t < 16
      requires 0 <= litp && litp + 2 + lit == p && ip == p + n + 1 <= input.Length
      modifies `litp, `lit, input
      ensures litp == old(litp) + 2 && lit == old(lit) + n + t + 3
      ensures s1 == old(input[..])[old(litp) := SetLow(old(input[litp]), 0)]
      ensures Spliced(s1, s2, s3, input[..], litp, p, old(lit), Copied(output[..op], n, distance), lit - 3)
    {
      hide SetLow, Copied, Spliced, Moved;
      ghost var s := input[..];
      input[litp] := SetLow(input[litp], 0);
      s1 := input[..];
      assert s1 == s[litp := SetLow(s[litp], 0)];
      CopyOver(ip - n, n, distance);
      s2 := input[..];
      litp := litp + 2;
      MoveUp(litp, lit);
      s3 := input[..];
      lit := lit + n + t + 3;
      input[litp] := lit - 3;
      assert input[..] == s3[litp := lit - 3];
      IsSpliced(s1, s2, s3, input[..], litp, p, old(lit), Copied(output[..op], n, distance), lit - 3);
    }

    /** Joins the literals after the previous match, a match of `n` bytes and a short literal run into one run. */
    method JoinRuns(ghost p: nat, n: nat, distance: nat)
      requires AtMatch(p, n, distance) && ip == p + n && 2 <= n <= 3 && tr.last.Back?
      requires input[ip - 2] % 4 == 0 && ip < input.Length && 0 < input[ip] < 16 && lit + n + input[ip] < 16
      modifies `ip, `op, `litp, `lit, `at, `tr, input, output
      ensures Valid() && ip > p && JoinedInto(old(tr), tr, n, old(input[ip]) as int + 3)
    {
      hide Lined, ReadHead, CopyBack, Copied, SetLow, Followed, Joined, tr.Valid, Spliced, JoinedInto;
      ghost var s, o, litp0 := input[..], output[..op], litp;
      JoinReady(s, p, o, lead, tr, goal, n, distance, litp, lit);
      var t: nat := input[ip];
      ghost var c, q := Copied(o, n, distance), ip + t + 4;
      ip := ip + 1;
      ghost var s1, s2, s3 := MoveParts(n, t, distance, p);
      ghost var next := JoinedLined(s, p, o, lead, tr, goal, n, distance, q, litp0, c, s1, s2, s3, input[..], litp, lit);
      tr := next;
      ghost var s' := input[..];
      CopyMatch(n, distance);
      CopyLiterals(3 + t);
      assert input[..] == s';
      at := AfterRun;
    }

    /** Writes the bytes of a match over the block and extends the previous literal run. */
    method ExtendInput(t: nat, distance: nat, ghost p: nat)
      requires input != output && 1 <= distance <= op <= output.Length && 0 <= litp < p && lit + 3 + t < 16
      requires p + 3 <= input.Length && ip == p + 3
      modifies `lit, input
      ensures lit == old(lit) + 3 + t + 3
      ensures input[..] == (old(input[..p]) + Copied(output[..op], 3, distance) + old(input[p + 3..]))[litp := lit - 3]
    {
      hide Copied;
      Copy3(ip - 3, distance);
      lit := lit + 3 + t + 3;
      input[litp] := lit - 3;
    }

    /** Extends the previous literal run by a match of 3 bytes and a short literal run. */
    method ExtendRun(ghost p: nat, distance: nat)
      requires AtMatch(p, 3, distance) && ip == p + 2 && tr.last.Run?
      requires input[ip - 2] % 4 == 0 && ip < input.Length && 0 < input[ip] < 16 && lit + 3 + input[ip] < 16
      modifies `ip, `op, `lit, `at, `tr, input, output
      ensures Valid() && ip > p && ExtendedInto(old(tr), tr, old(input[ip]) as int + 3)
    {
      hide Lined, ReadHead, CopyBack, Copied, Extended, tr.Valid, ExtendedInto;
      ghost var s, o, lit0 := input[..], output[..op], lit;
      MatchFits(s, p, o, lead, tr, goal, 3, distance, 2);
      RunFits(s, p, o, lead, tr, goal, 3, distance, 2);
      RunStands(s, p, o, lead, tr, goal, litp);
      var t: nat := input[ip];
      ghost var c, q := Copied(o, 3, distance), ip + t + 4;
      ip := ip + 1;
      ExtendInput(t, distance, p);
      ghost var next := ExtendedLined(s, p, o, lead, tr, goal, distance, q, litp, c, input[..], lit);
      tr := next;
      ghost var s' := input[..];
      CopyMatch(3, distance);
      CopyLiterals(3 + t);
      assert input[..] == s';
      at := AfterRun;
    }

    // ---------- Reading heads ----------

    /** The rest of a length: `if (t == 0) { t = base; while (*ip == 0) t += 255, ip++; t += *ip++; }` */
    method ReadLength(ghost p: nat, t0: nat, base: nat) returns (t: nat)
      requires ip == p + 1 <= input.Length && Length(input[p..], t0, base).Some?
      modifies `ip
      ensures ip <= input.Length && p < ip && Length(input[p..], t0, base) == Some((t, ip - p))
    {
      ghost var s := input[p..];
      t := t0;
      if t == 0 {
        t := base;
        while input[ip] == 0
          invariant p < ip < input.Length && Extension(s, ip - p, t) == Extension(s, 1, base) && Extension(s, ip - p, t).Some?
          decreases input.Length - ip
        {
          t := t + 255;
          ip := ip + 1;
        }
        t := t + input[ip];
        ip := ip + 1;
      }
    }

    /** The two offset bytes of a long match. */
    method ReadOffset(ghost p: nat) returns (offset: nat)
      requires p <= ip && ip + 2 <= input.Length
      modifies `ip
      ensures ip == old(ip) + 2 && offset == Offset(input[p..], old(ip) - p)
    {
      offset := input[ip] / 4;
      ip := ip + 1;
      offset := offset + 64 * (input[ip] as int);
      ip := ip + 1;
    }

    /** A short head: `distance - 1` is `low` plus `scale` times the next byte. */
    method ReadByte() returns (b: nat)
      requires ip < input.Length
      modifies `ip
      ensures ip == old(ip) + 1 && b == input[old(ip)]
    {
      b := input[ip];
      ip := ip + 1;
    }

    /** The length and the distance of a match of the third or fourth kind, or the end code. */
    method ReadLong(ghost p: nat, t0: nat, ghost mode: Mode) returns (t: nat, distance: nat, eof: bool)
      requires ip == p + 1 <= input.Length && t0 == input[p] && 16 <= t0 < 64 && ReadHead(input[p..], mode).Some?
      modifies `ip
      ensures p + 3 <= ip <= input.Length
      ensures ReadHead(input[p..], mode) == Some(if eof then EofHead(ip - p) else MatchHead(t + 2, distance, ip - p))
      ensures t == 1 && !eof ==> ip == p + 3
    {
      hide Length, Offset;
      ghost var s := input[p..];
      LongHead(s, mode);
      eof := false;
      if t0 >= 32 {
        t := ReadLength(p, t0 % 32, 31);
        ShortLength(s, t0 % 32, 31);
        distance := ReadOffset(p);
        distance := distance + 1;
      } else {
        t := ReadLength(p, t0 % 8, 7);
        ShortLength(s, t0 % 8, 7);
        var back := ReadOffset(p);
        if t0 % 16 >= 8 {
          back := back + 0x4000;
        }
        eof := back == 0;
        distance := back + 0x4000;
      }
    }

    // ---------- Instructions ----------

    /** A literal run whose head begins at `p`. */
    method LiteralRun(ghost p: nat, t0: nat)
      requires LinedAt(p) && ip == p + 1 <= input.Length && t0 == input[p] && t0 < 16 && tr.Mode() == Top
      modifies `ip, `op, `litp, `lit, `at, `tr, output
      ensures Valid() && ip > p
    {
      hide Lined, ReadHead, CopyBack, tr.Valid, Length, Tracked;
      ghost var s, o := input[..], output[..op];
      Room(s, p, o, lead, tr, goal);
      RunHeadIs(s[p..]);
      litp := ip - 1;
      var t := ReadLength(p, t0, 15);
      ghost var k := ip - p;
      lit := t + 3;
      ghost var next := RunPassed(s, p, o, lead, tr, goal, lit, k);
      tr := next;
      CopyLiterals(lit);
      assert input[..] == s;
      at := AfterRun;
    }

    /** A match with an opcode below 16. */
    method LowMatch(ghost p: nat, t0: nat)
      requires LinedAt(p) && ip == p + 1 <= input.Length && t0 == input[p] && t0 < 16 && tr.Mode() == at && at != Top
      modifies `ip, `op, `litp, `lit, `at, `tr, input, output
      ensures Valid() && ip > p
    {
      hide Lined, CopyBack, tr.Valid, Tracked;
      Room(input[..], p, output[..op], lead, tr, goal);
      LowHead(input[p..], at);
      var b := ReadByte();
      if at == AfterRun {
        PassOver(p, 3, 0x801 + t0 / 4 + 4 * b);
      } else {
        NearMatch(p, 1 + t0 / 4 + 4 * b);
      }
    }

    /** A match of two bytes. */
    method NearMatch(ghost p: nat, distance: nat)
      requires AtMatch(p, 2, distance) && ip == p + 2 && tr.Mode() == at == AfterShort
      modifies `ip, `op, `litp, `lit, `at, `tr, input, output
      ensures Valid() && ip > p
      ensures var s := old(input[..]);
        if old(litp) != -1 && old(lit) == 1 && BeforeMatch(s, old(ip)) then MadeLiterals(old(tr), tr, 2)
        else if old(litp) != -1 && BeforeRun(s, old(ip), old(lit) + 2) then JoinedInto(old(tr), tr, 2, Next(s, old(ip)) + 3)
        else Kept(old(tr), tr, 2, distance)
    {
      hide Lined, ReadHead, CopyBack, tr.Valid, Kept, MadeLiterals, JoinedInto;
      ShortIsBack(tr, litp, lit, lead);
      if litp != -1 && input[ip - 2] % 4 == 0 {
        RoomAfter(input[..], p, output[..op], lead, tr, goal, 2, distance, 2);
        if lit == 1 && input[ip] >= 16 {
          MakeLiterals(p, 2, distance);
          return;
        } else if input[ip] < 16 && input[ip] != 0 && lit + 2 + input[ip] < 16 {
          JoinRuns(p, 2, distance);
          return;
        }
      }
      PassOver(p, 2, distance);
    }

    /** A match of the second kind: 3 to 8 bytes. */
    method MiddleMatch(ghost p: nat, t0: nat)
      requires LinedAt(p) && ip == p + 1 <= input.Length && t0 == input[p] && t0 >= 64
      modifies `ip, `op, `litp, `lit, `at, `tr, input, output
      ensures Valid() && ip > p
      ensures var s := old(input[..]); var head := ReadHead(s[p..], old(tr).Mode());
        && head.Some? && head.value.MatchHead?
        && (if old(litp) != -1 && head.value.length == 3 && old(lit) > 3 && BeforeRun(s, p + 2, old(lit) + 3) then
              ExtendedInto(old(tr), tr, Next(s, p + 2) + 3)
            else Kept(old(tr), tr, head.value.length, head.value.distance))
    {
      hide Lined, CopyBack, tr.Valid, Kept, ExtendedInto;
      Room(input[..], p, output[..op], lead, tr, goal);
      MiddleHead(input[p..], tr.Mode());
      var b := ReadByte();
      var distance, t := 1 + t0 / 4 % 8 + 8 * b, t0 / 32 - 1;
      if litp != -1 && t == 1 && lit > 3 && input[ip - 2] % 4 == 0 {
        RoomAfter(input[..], p, output[..op], lead, tr, goal, 3, distance, 2);
        if input[ip] < 16 && input[ip] != 0 && lit + 3 + input[ip] < 16 {
          LongIsRun(input[..], p, output[..op], lead, tr, goal, litp, lit);
          ExtendRun(p, distance);
          return;
        }
      }
      PassOver(p, t + 2, distance);
    }

    /** A match of the third or fourth kind, or the end of the block. */
    method LongMatch(ghost p: nat, t0: nat) returns (eof: bool)
      requires LinedAt(p) && ip == p + 1 <= input.Length && t0 == input[p] && 16 <= t0 < 64
      modifies `ip, `op, `litp, `lit, `at, `tr, input, output
      ensures ip > p && if eof then Ended() else Valid()
      ensures var s := old(input[..]); var head := ReadHead(s[p..], old(tr).Mode());
        && head.Some? && (eof <==> head.value.EofHead?) && (!eof ==> head.value.MatchHead?)
        && (!eof ==>
              if old(litp) != -1 && head.value.length == 3 && old(lit) == 0 && BeforeMatch(s, p + 3) then MadeLiterals(old(tr), tr, 3)
              else if old(litp) != -1 && head.value.length == 3 && old(lit) <= 3 && BeforeRun(s, p + 3, old(lit) + 3) then
                JoinedInto(old(tr), tr, 3, Next(s, p + 3) + 3)
              else Kept(old(tr), tr, head.value.length, head.value.distance))
    {
      hide Lined, CopyBack, tr.Valid, ReadHead, Kept, MadeLiterals, JoinedInto;
      Room(input[..], p, output[..op], lead, tr, goal);
      var t, distance;
      t, distance, eof := ReadLong(p, t0, tr.Mode());
      if eof {
        EndReached(input[..], p, output[..op], lead, tr, goal, ip - p);
        return;
      }
      if litp != -1 && t == 1 && lit <= 3 && input[ip - 2] % 4 == 0 {
        RoomAfter(input[..], p, output[..op], lead, tr, goal, 3, distance, 3);
        FewIsBack(input[..], p, output[..op], lead, tr, goal, litp, lit);
        if lit == 0 && input[ip] >= 16 {
          MakeLiterals(p, 3, distance);
          return;
        } else if input[ip] < 16 && input[ip] != 0 && lit + 3 + input[ip] < 16 {
          JoinRuns(p, 3, distance);
          return;
        }
      }
      PassOver(p, t + 2, distance);
    }

    /** The end code has been read. */
    ghost predicate Ended()
      reads this, input, output
    {
      && op <= output.Length && ip <= input.Length
      && DecodeBlock(input[..]) == Some(goal) && goal == (output[..op], input.Length - ip)
    }

    /** One instruction; tells whether it was the end code. */
    method Instruction() returns (eof: bool)
      requires Valid()
      modifies `ip, `op, `litp, `lit, `at, `tr, input, output
      ensures ip > old(ip) && if eof then Ended() else Valid()
    {
      hide Lined, CopyBack, tr.Valid, ReadHead, Tracked;
      Room(input[..], ip, output[..op], lead, tr, goal);
      ghost var p := ip;
      var t: nat := ReadByte();
      eof := false;
      if t >= 64 {
        MiddleMatch(p, t);
      } else if t >= 16 {
        eof := LongMatch(p, t);
      } else if at == Top {
        LiteralRun(p, t);
      } else {
        LowMatch(p, t);
      }
    }

    /** The start of the block: a first byte above 17 stands for literals. */
    method Begin()
      requires input != output && DecodeBlock(input[..]).Some? && |DecodeBlock(input[..]).value.0| <= output.Length
      requires ip == 0 && op == 0 && litp == -1 && lit == 0 && at == Top
      modifies this, output
      ensures Valid() && goal == DecodeBlock(input[..]).value
    {
      hide Lined, Decode;
      ghost var s := input[..];
      goal := DecodeBlock(s).value;
      if input[0] > 17 {
        var t := input[0] - 17;
        ghost var mode := if t < 4 then AfterShort else AfterRun;
        BeginWithLiterals(s, goal, t, mode);
        lead, tr := s[..1 + t], Trail(mode, s[1..1 + t], [], mode, s[1..1 + t], NoLast);
        Room(s, 1 + t, s[1..1 + t], lead, tr, goal);
        ip := ip + 1;
        CopyLiterals(t);
        assert input[..] == s && output[..op] == s[1..1 + t];
        at := if t < 4 then AfterShort else AfterRun;
      } else {
        BeginPlain(s, goal);
        lead, tr := [], Trail(Top, [], [], Top, [], NoLast);
        assert output[..0] == [];
      }
    }
  }

  lemma Copied2(o: seq<byte>, distance: nat)
    requires 1 <= distance <= |o|
    ensures Copied(o, 2, distance) == [o[|o| - distance], if distance == 1 then o[|o| - 1] else o[|o| - distance + 1]]
  {
    var o1 := o + [o[|o| - distance]];
    var o2 := o1 + [o1[|o1| - distance]];
    assert CopyBack(o, 2, distance) == CopyBack(o1, 1, distance) == CopyBack(o2, 0, distance) == o2;
  }

  lemma Copied3(o: seq<byte>, distance: nat)
    requires 1 <= distance <= |o|
    ensures Copied(o, 3, distance)
         == [o[|o| - distance], if distance == 1 then o[|o| - 1] else o[|o| - distance + 1],
             if distance <= 2 then o[|o| - distance] else o[|o| - distance + 2]]
  {
    var o1 := o + [o[|o| - distance]];
    var o2 := o1 + [o1[|o1| - distance]];
    var o3 := o2 + [o2[|o2| - distance]];
    assert o1[|o1| - distance] == if distance == 1 then o[|o| - 1] else o[|o| - distance + 1];
    assert o2[|o2| - distance] == if distance <= 2 then o[|o| - distance] else o[|o| - distance + 2];
    assert CopyBack(o, 3, distance) == CopyBack(o1, 2, distance) == CopyBack(o2, 1, distance) == CopyBack(o3, 0, distance) == o3;
  }

  lemma MatchFits(s: seq<byte>, p: nat, o: seq<byte>, lead: seq<byte>, tr: Trail, goal: (seq<byte>, nat),
                  length: nat, distance: nat, k: nat)
    requires Lined(s, p, o, lead, tr, goal) && ReadHead(s[p..], tr.Mode()) == Some(MatchHead(length, distance, k))
    ensures 1 <= distance <= |o| && 2 <= k && p + k <= |s| && tr.Valid() && p == |lead| + |tr.Bytes()|
  {
    hide Decode, ReadHead, Lined, tr.Valid;
    LinedSize(s, p, o, lead, tr, goal);
    LinedFuture(s, p, o, lead, tr, goal);
    MatchNext(s[p..], tr.Mode(), o, length, distance, k);
  }

  /** Where the parts of the last match stand in the block. */
  lemma BackStands(s: seq<byte>, p: nat, o: seq<byte>, lead: seq<byte>, tr: Trail, goal: (seq<byte>, nat), litp: nat)
    requires Lined(s, p, o, lead, tr, goal) && tr.last.Back? && |tr.last.head| >= 2
    requires litp == |lead| + |tr.before| + |tr.last.head| - 2
    ensures litp + 2 + |tr.last.tail| == p <= |s| && s[litp] == tr.last.head[|tr.last.head| - 2]
    ensures s[..litp + 2] == lead + tr.before + tr.last.head && s[litp + 2..p] == tr.last.tail
  {
    hide tr.Valid, Led, Decode;
    var front := lead + tr.before + tr.last.head;
    Associate(lead, tr.before, tr.last.head + tr.last.tail);
    Associate(lead + tr.before, tr.last.head, tr.last.tail);
    assert s == front + tr.last.tail + s[p..];
  }

  /** The literal run after a match fits the block and the output. */
  lemma RunFits(s: seq<byte>, p: nat, o: seq<byte>, lead: seq<byte>, tr: Trail, goal: (seq<byte>, nat),
                length: nat, distance: nat, k: nat)
    requires Lined(s, p, o, lead, tr, goal) && ReadHead(s[p..], tr.Mode()) == Some(MatchHead(length, distance, k))
    requires p + k < |s| && k >= 2 && s[p + k - 2] % 4 == 0 && 0 < s[p + k] < 16 && 1 <= distance <= |o|
    ensures p + k + 1 + s[p + k] + 3 <= |s|
  {
    hide Decode, ReadHead, Lined;
    RunFollows(s, p, o, lead, tr, goal, length, distance, k);
  }

  lemma JoinedIs(tr: Trail, c: seq<byte>, lits: seq<byte>)
    requires tr.last.Back? && |tr.last.head| >= 2 && 4 <= |tr.last.tail + c + lits| <= 18 && 1 <= tr.last.distance <= |tr.out|
    ensures JoinedInto(tr, Joined(tr, c, lits), |c|, |lits|)
  {
    hide Followed, CopyBack;
  }

  lemma JoinedTracked(lead: seq<byte>, tr: Trail, c: seq<byte>, lits: seq<byte>, litp: nat, lit: nat)
    requires tr.last.Back? && |tr.last.head| >= 2 && 4 <= |tr.last.tail + c + lits| <= 18 && 1 <= tr.last.distance <= |tr.out|
    requires litp == |lead| + |tr.before| + |tr.last.head| && lit == |tr.last.tail + c + lits|
    ensures Tracked(litp, lit, lead, Joined(tr, c, lits)) && Joined(tr, c, lits).Mode() == AfterRun
  {
  }

  /** The block after the parts of a joined run have been moved to their places. */
  lemma JoinedInPlace(s: seq<byte>, p: nat, o: seq<byte>, lead: seq<byte>, tr: Trail, goal: (seq<byte>, nat), litp: nat,
                      n: nat, c: seq<byte>, lits: seq<byte>, h: byte, s1: seq<byte>, s2: seq<byte>, s3: seq<byte>, s': seq<byte>)
    requires Lined(s, p, o, lead, tr, goal) && tr.last.Back? && |tr.last.head| >= 2 && 1 <= tr.last.distance <= |tr.out|
    requires litp == |lead| + |tr.before| + |tr.last.head| - 2 && |c| == n && p + n + 1 + |lits| <= |s| && litp + 2 <= p
    requires lits == s[p + n + 1..p + n + 1 + |lits|] && 4 <= |tr.last.tail + c + lits| <= 18 && h == |tr.last.tail + c + lits| - 3
    requires s1 == s[litp := SetLow(s[litp], 0)] && Spliced(s1, s2, s3, s', litp + 2, p, |tr.last.tail|, c, h)
    ensures s' == lead + Joined(tr, c, lits).Bytes() + s[p + n + 1 + |lits|..]
  {
    hide tr.Valid, Led, Decode, Lined, SetLow, CopyBack, Spliced, Followed, Joined;
    BackStands(s, p, o, lead, tr, goal, litp);
    JoinedBytes(tr, c, lits, h);
    var head', tail, rest := Followed(tr.last.head, 0), tr.last.tail, s[p + n + 1 + |lits|..];
    FrontChanged(s, lead + tr.before, tr.last.head, litp, p, n + 1, tail);
    assert s[p + n + 1..] == lits + rest;
    Splice(lead + tr.before + head', tail, s[p..p + n + 1], c, lits + rest, h, s1, s2, s3, s');
    JoinBytes(lead, tr.before, head', [h], tail, c, lits, rest);
  }

  /** `s` with the `n` bytes at `from` moved up by one. */
  function Moved(s: seq<byte>, from: nat, n: nat): (r: seq<byte>)
    requires from + n < |s|
    ensures |r| == |s|
  {
    if n > 0 then s[..from + 1] + s[from..from + n] + s[from + n + 1..] else s
  }

  lemma JoinedBytes(tr: Trail, c: seq<byte>, lits: seq<byte>, h: byte)
    requires tr.last.Back? && |tr.last.head| >= 2 && 4 <= |tr.last.tail + c + lits| <= 18 && 1 <= tr.last.distance <= |tr.out|
    requires h == |tr.last.tail + c + lits| - 3
    ensures Joined(tr, c, lits).Bytes() == (tr.before + Followed(tr.last.head, 0)) + ([h] + (tr.last.tail + c + lits))
  {
    hide Followed, CopyBack;
  }

  /** The writes that join runs: the copied bytes, the tail moved up by one, the new head. */
  ghost predicate Spliced(s1: seq<byte>, s2: seq<byte>, s3: seq<byte>, s': seq<byte>, from: nat, p: nat, n: nat, c: seq<byte>, h: byte)
  {
    && from + n == p && p + 1 + |c| <= |s1| && s2 == s1[..p + 1] + c + s1[p + 1 + |c|..]
    && from + n < |s2| && s3 == Moved(s2, from, n)
    && s' == s3[from := h]
  }

  lemma IsSpliced(s1: seq<byte>, s2: seq<byte>, s3: seq<byte>, s': seq<byte>, from: nat, p: nat, n: nat, c: seq<byte>, h: byte)
    requires from + n == p && p + 1 + |c| <= |s1| && s2 == s1[..p + 1] + c + s1[p + 1 + |c|..]
    requires from + n < |s2| && s3 == Moved(s2, from, n) && s' == s3[from := h]
    ensures Spliced(s1, s2, s3, s', from, p, n, c, h)
  {
  }

  lemma Splice(a: seq<byte>, tail: seq<byte>, e: seq<byte>, c: seq<byte>, rest: seq<byte>, h: byte,
               s1: seq<byte>, s2: seq<byte>, s3: seq<byte>, s': seq<byte>)
    requires |e| == |c| + 1 && s1 == a + tail + e + rest && Spliced(s1, s2, s3, s', |a|, |a| + |tail|, |tail|, c, h)
    ensures s' == a + [h] + (tail + c + rest)
  {
    SpliceCopy(a, tail, e, c, rest, s1, s2);
    SpliceMove(a, tail, e[0], c, rest, h, s2, s3, s');
  }

  /** The block with the new literals is lined up again. */
  lemma LiteralsLined(s: seq<byte>, p: nat, o: seq<byte>, lead: seq<byte>, tr: Trail, goal: (seq<byte>, nat),
                      n: nat, distance: nat, litp: nat, c: seq<byte>, s': seq<byte>) returns (next: Trail)
    requires Lined(s, p, o, lead, tr, goal) && ReadHead(s[p..], tr.Mode()) == Some(MatchHead(n, distance, n))
    requires tr.last.Back? && |tr.last.head| >= 2 && Tracked(litp, |tr.last.tail|, lead, tr) && |tr.last.tail| + n == 3
    requires p + n < |s| && n >= 2 && s[p + n - 2] % 4 == 0 && s[p + n] >= 16 && 1 <= distance <= |o| && c == Copied(o, n, distance)
    requires litp < p && (var s1 := s[litp := SetLow(s[litp], 3)]; s' == s1[..p] + c + s1[p + n..])
    ensures Lined(s', p + n, CopyBack(o, n, distance), lead, next, goal) && Tracked(litp, 3, lead, next)
    ensures next.Mode() == AfterShort && |s'| == |s| && s'[p + n] == s[p + n]
    ensures |CopyBack(o, n, distance)| <= |goal.0| && MadeLiterals(tr, next, n)
  {
    hide Lined, ReadHead, CopyBack, Copied, SetLow, Followed, tr.Valid;
    LiteralsInPlace(s, p, o, lead, tr, goal, litp, c, s');
    RewriteToLiterals(s, p, o, lead, tr, goal, n, distance, s');
    next := Literals(tr, c);
    Room(s', p + n, CopyBack(o, n, distance), lead, next, goal);
  }

  /** Where the last literal run stands in the block. */
  lemma RunStands(s: seq<byte>, p: nat, o: seq<byte>, lead: seq<byte>, tr: Trail, goal: (seq<byte>, nat), litp: nat)
    requires Lined(s, p, o, lead, tr, goal) && tr.last.Run? && |tr.last.lits| <= 18 && litp == |lead| + |tr.before|
    ensures |tr.last.head| == 1 && litp + 1 + |tr.last.lits| == p <= |s|
    ensures s[..litp] == lead + tr.before && s[litp + 1..p] == tr.last.lits
  {
    hide Led, Decode, IsRun, Leads;
    ShortLast(tr);
    var front := lead + tr.before;
    Associate(lead, tr.before, tr.last.head + tr.last.lits);
    Associate(lead + tr.before, tr.last.head, tr.last.lits);
    assert s == front + tr.last.head + tr.last.lits + s[p..];
  }

  /** The block with the extended run is lined up again. */
  lemma ExtendedLined(s: seq<byte>, p: nat, o: seq<byte>, lead: seq<byte>, tr: Trail, goal: (seq<byte>, nat),
                      distance: nat, q: nat, litp: nat, c: seq<byte>, s': seq<byte>, lit': nat) returns (next: Trail)
    requires Lined(s, p, o, lead, tr, goal) && ReadHead(s[p..], tr.Mode()) == Some(MatchHead(3, distance, 2))
    requires tr.last.Run? && litp == |lead| + |tr.before| && 1 <= distance <= |o| && c == Copied(o, 3, distance)
    requires p + 2 < |s| && s[p] % 4 == 0 && 0 < s[p + 2] < 16 && |tr.last.lits| + 3 + s[p + 2] < 16
    requires q == p + 3 + s[p + 2] + 3 <= |s| && lit' == |tr.last.lits| + 3 + s[p + 2] + 3 && litp < p
    requires var s1 := s[..p] + c + s[p + 3..]; s' == s1[litp := lit' - 3]
    ensures Lined(s', q, CopyBack(o, 3, distance) + s[p + 3..q], lead, next, goal) && Tracked(litp, lit', lead, next)
    ensures next.Mode() == AfterRun && |s'| == |s| && s'[p + 3..q] == s[p + 3..q]
    ensures |CopyBack(o, 3, distance) + s[p + 3..q]| <= |goal.0| && ExtendedInto(tr, next, s[p + 2] as int + 3)
  {
    hide Lined, ReadHead, CopyBack, Copied, tr.Valid;
    RunStands(s, p, o, lead, tr, goal, litp);
    BigRun(s, p, o, lead, tr, goal);
    var lits, h: seq<byte> := s[p + 3..q], [lit' - 3];
    ExtendSplice(s, lead + tr.before, tr.last.lits, litp, p, c, lit' - 3, s');
    assert s[p + 3..] == lits + s[q..];
    ExtendBytes(lead, tr.before, h, tr.last.lits, c, lits, s[q..]);
    RewriteExtended(s, p, o, lead, tr, goal, distance, q, s');
    next := Extended(tr, c, lits);
    Room(s', q, CopyBack(o, 3, distance) + lits, lead, next, goal);
  }

  lemma BigRun(s: seq<byte>, p: nat, o: seq<byte>, lead: seq<byte>, tr: Trail, goal: (seq<byte>, nat))
    requires Lined(s, p, o, lead, tr, goal) && tr.last.Run?
    ensures |tr.last.lits| >= 4
  {
  }

  lemma ExtendBytes(a: seq<byte>, b: seq<byte>, h: seq<byte>, l: seq<byte>, c: seq<byte>, lits: seq<byte>, rest: seq<byte>)
    ensures a + b + h + (l + (c + (lits + rest))) == a + (b + (h + (l + c + lits))) + rest
  {
  }

  lemma ExtendSplice(s: seq<byte>, front: seq<byte>, l: seq<byte>, litp: nat, p: nat, c: seq<byte>, h: byte, s': seq<byte>)
    requires litp == |front| && litp + 1 + |l| == p && p + 3 <= |s| && |c| == 3
    requires s[..litp] == front && s[litp + 1..p] == l
    requires var s1 := s[..p] + c + s[p + 3..]; s' == s1[litp := h]
    ensures s' == front + [h] + (l + (c + s[p + 3..]))
  {
    var rest := s[p + 3..];
    assert s[..p] == front + [s[litp]] + l;
    Associate(front + [s[litp]], l, c + rest);
    Associate(front + [s[litp]] + l, c, rest);
    Replace(front, s[litp], l + (c + rest), h);
  }

  /** What is known before runs are joined. */
  lemma JoinReady(s: seq<byte>, p: nat, o: seq<byte>, lead: seq<byte>, tr: Trail, goal: (seq<byte>, nat),
                  n: nat, distance: nat, litp: int, lit: nat)
    requires Lined(s, p, o, lead, tr, goal) && ReadHead(s[p..], tr.Mode()) == Some(MatchHead(n, distance, n))
    requires Tracked(litp, lit, lead, tr) && tr.last.Back?
    requires n >= 2 && p + n < |s| && s[p + n - 2] % 4 == 0 && 0 < s[p + n] < 16
    ensures 1 <= distance <= |o| && 0 <= litp && litp + 2 + lit == p && p + n + 1 + s[p + n] + 3 <= |s|
  {
    hide Lined, ReadHead, tr.Valid;
    MatchFits(s, p, o, lead, tr, goal, n, distance, n);
    RunFits(s, p, o, lead, tr, goal, n, distance, n);
    BackStands(s, p, o, lead, tr, goal, litp);
  }

  /** The block with the joined run is lined up again. */
  lemma JoinedLined(s: seq<byte>, p: nat, o: seq<byte>, lead: seq<byte>, tr: Trail, goal: (seq<byte>, nat),
                    n: nat, distance: nat, q: nat, litp: nat, c: seq<byte>,
                    s1: seq<byte>, s2: seq<byte>, s3: seq<byte>, s': seq<byte>, litp': nat, lit': nat) returns (next: Trail)
    requires Lined(s, p, o, lead, tr, goal) && ReadHead(s[p..], tr.Mode()) == Some(MatchHead(n, distance, n))
    requires tr.last.Back? && Tracked(litp, |tr.last.tail|, lead, tr) && 1 <= distance <= |o| && c == Copied(o, n, distance)
    requires n >= 2 && p + n < |s| && s[p + n - 2] % 4 == 0 && 0 < s[p + n] < 16 && |tr.last.tail| + n + s[p + n] < 16
    requires q == p + n + s[p + n] + 4 <= |s| && litp + 2 + |tr.last.tail| == p
    requires litp' == litp + 2 && lit' == |tr.last.tail| + n + s[p + n] + 3
    requires s1 == s[litp := SetLow(s[litp], 0)] && Spliced(s1, s2, s3, s', litp', p, |tr.last.tail|, c, lit' - 3)
    ensures Lined(s', q, CopyBack(o, n, distance) + s[p + n + 1..q], lead, next, goal) && Tracked(litp', lit', lead, next)
    ensures next.Mode() == AfterRun && |s'| == |s| && s'[p + n + 1..q] == s[p + n + 1..q]
    ensures |CopyBack(o, n, distance) + s[p + n + 1..q]| <= |goal.0| && JoinedInto(tr, next, n, s[p + n] as int + 3)
  {
    hide Lined, ReadHead, CopyBack, Copied, SetLow, Followed, Joined, tr.Valid, Spliced, JoinedInto;
    LinedSize(s, p, o, lead, tr, goal);
    BackFine(tr);
    var lits := s[p + n + 1..q];
    JoinedInPlace(s, p, o, lead, tr, goal, litp, n, c, lits, lit' - 3, s1, s2, s3, s');
    RewriteJoined(s, p, o, lead, tr, goal, n, distance, q, s');
    JoinedTracked(lead, tr, c, lits, litp', lit');
    JoinedIs(tr, c, lits);
    next := Joined(tr, c, lits);
    SplicedSize(s, s1, s2, s3, s', litp, p, |tr.last.tail|, c, lit' - 3);
    JoinedEnds(lead, tr, c, lits, s', p + n + 1, s[q..]);
    Room(s', q, CopyBack(o, n, distance) + lits, lead, next, goal);
  }

  lemma SplicedSize(s: seq<byte>, s1: seq<byte>, s2: seq<byte>, s3: seq<byte>, s': seq<byte>, litp: nat, p: nat, n: nat, c: seq<byte>, h: byte)
    requires litp < |s| && s1 == s[litp := SetLow(s[litp], 0)] && Spliced(s1, s2, s3, s', litp + 2, p, n, c, h)
    ensures |s'| == |s|
  {
  }

  lemma FrontChanged(s: seq<byte>, before: seq<byte>, head: seq<byte>, litp: nat, p: nat, k: nat, tail: seq<byte>)
    requires |head| >= 2 && litp == |before| + |head| - 2 && litp + 2 + |tail| == p && p + k <= |s|
    requires s[..litp + 2] == before + head && s[litp + 2..p] == tail
    ensures s[litp := SetLow(s[litp], 0)] == before + Followed(head, 0) + tail + s[p..p + k] + s[p + k..]
  {
    hide SetLow;
    assert s == s[..litp + 2] + s[litp + 2..p] + s[p..p + k] + s[p + k..];
    assert s[litp] == s[..litp + 2][litp] == head[|head| - 2];
  }

  lemma SpliceCopy(a: seq<byte>, tail: seq<byte>, e: seq<byte>, c: seq<byte>, rest: seq<byte>, s1: seq<byte>, s2: seq<byte>)
    requires |e| == |c| + 1 && s1 == a + tail + e + rest
    requires s2 == s1[..|a| + |tail| + 1] + c + s1[|a| + |tail| + 1 + |c|..]
    ensures s2 == a + tail + [e[0]] + c + rest
  {
  }

  lemma SpliceMove(a: seq<byte>, tail: seq<byte>, x: byte, c: seq<byte>, rest: seq<byte>, h: byte,
                   s2: seq<byte>, s3: seq<byte>, s': seq<byte>)
    requires s2 == a + tail + [x] + c + rest
    requires s3 == Moved(s2, |a|, |tail|) && s' == s3[|a| := h]
    ensures s' == a + [h] + (tail + c + rest)
  {
    var d := c + rest;
    Associate(tail, c, rest);
    assert s2 == a + tail + ([x] + d);
    Cut(a + tail, [x] + d);
    Cut(a, tail);
    assert s2[|a|..|a| + |tail|] == (a + tail)[|a|..];
    assert s2[|a| + |tail| + 1..] == ([x] + d)[1..] == d;
    if |tail| > 0 {
      assert s2[..|a| + 1] == (a + tail)[..|a| + 1] == a + [tail[0]];
      Replace(a, tail[0], tail + d, h);
      Associate(a + [tail[0]], tail, d);
    } else {
      assert s2 == a + [x] + (tail + d);
      Replace(a, x, tail + d, h);
    }
  }

  lemma Cut(a: seq<byte>, b: seq<byte>)
    ensures (a + b)[..|a|] == a && (a + b)[|a|..] == b
  {
  }

  lemma Replace(a: seq<byte>, x: byte, b: seq<byte>, h: byte)
    ensures (a + [x] + b)[|a| := h] == a + [h] + b
  {
  }

  lemma BackFine(tr: Trail)
    requires tr.Valid() && tr.last.Back?
    ensures 1 <= tr.last.distance <= |tr.out| && |tr.last.head| >= 2
  {
  }

  /** The literals of the joined run stand at its end. */
  lemma JoinedEnds(lead: seq<byte>, tr: Trail, c: seq<byte>, lits: seq<byte>, s: seq<byte>, ip: nat, rest: seq<byte>)
    requires tr.last.Back? && |tr.last.head| >= 2 && 4 <= |tr.last.tail + c + lits| <= 18 && 1 <= tr.last.distance <= |tr.out|
    requires s == lead + Joined(tr, c, lits).Bytes() + rest && ip + |lits| == |s| - |rest|
    ensures s[ip..ip + |lits|] == lits
  {
    hide Followed, CopyBack;
    var h: seq<byte> := [|tr.last.tail + c + lits| - 3];
    var front := lead + ((tr.before + Followed(tr.last.head, 0)) + (h + (tr.last.tail + c)));
    EndBytes(lead, tr.before + Followed(tr.last.head, 0), h, tr.last.tail + c, lits, rest);
    assert s == front + lits + rest;
  }

  lemma EndBytes(a: seq<byte>, b: seq<byte>, h: seq<byte>, t: seq<byte>, lits: seq<byte>, rest: seq<byte>)
    ensures a + (b + (h + (t + lits))) + rest == a + (b + (h + t)) + lits + rest
  {
  }

  lemma JoinBytes(a: seq<byte>, b: seq<byte>, m: seq<byte>, h: seq<byte>, tail: seq<byte>, c: seq<byte>, lits: seq<byte>, rest: seq<byte>)
    ensures a + b + m + h + (tail + c + (lits + rest)) == a + ((b + m) + (h + (tail + c + lits))) + rest
  {
  }

  lemma LiteralsInPlace(s: seq<byte>, p: nat, o: seq<byte>, lead: seq<byte>, tr: Trail, goal: (seq<byte>, nat), litp: nat,
                        c: seq<byte>, s': seq<byte>)
    requires Lined(s, p, o, lead, tr, goal) && tr.last.Back? && |tr.last.head| >= 2
    requires litp == |lead| + |tr.before| + |tr.last.head| - 2 && p + |c| <= |s| && litp < p
    requires var s1 := s[litp := SetLow(s[litp], 3)]; s' == s1[..p] + c + s1[p + |c|..]
    ensures s' == lead + Literals(tr, c).Bytes() + s[p + |c|..]
  {
    hide tr.Valid, Led, Decode, Lined, SetLow;
    BackStands(s, p, o, lead, tr, goal, litp);
    var head, tail := tr.last.head, tr.last.tail;
    var head' := Followed(head, 3);
    var s1 := s[litp := SetLow(s[litp], 3)];
    assert s1[..litp + 2] == lead + tr.before + head';
    assert s1[litp + 2..p] == tail && s1[p + |c|..] == s[p + |c|..];
    assert s1[..p] == s1[..litp + 2] + s1[litp + 2..p];
    Associate(lead + tr.before + head', tail, c);
    Associate(lead + tr.before, head', tail + c);
    Associate(lead, tr.before, head' + (tail + c));
  }

  /** The block is lined up after a match that stays, and its literals. */
  lemma MatchPassed(s: seq<byte>, p: nat, o: seq<byte>, lead: seq<byte>, tr: Trail, goal: (seq<byte>, nat),
                    length: nat, distance: nat, k: nat) returns (n: nat, next: Trail)
    requires Lined(s, p, o, lead, tr, goal) && ReadHead(s[p..], tr.Mode()) == Some(MatchHead(length, distance, k))
    ensures 2 <= k && p + k <= |s| && n == s[p + k - 2] % 4 && p + k + n <= |s| && 1 <= distance <= |o|
    ensures Lined(s, p + k + n, CopyBack(o, length, distance) + s[p + k..p + k + n], lead, next, goal)
    ensures Tracked(p + k - 2, n, lead, next) && next.Mode() == ModeAfter(n)
    ensures |CopyBack(o, length, distance) + s[p + k..p + k + n]| <= |goal.0| && Kept(tr, next, length, distance)
  {
    hide Lined, ReadHead, CopyBack, tr.Valid;
    LinedSize(s, p, o, lead, tr, goal);
    n, next := PassMatch(s, p, o, lead, tr, goal, length, distance, k);
    Room(s, p + k + n, CopyBack(o, length, distance) + s[p + k..p + k + n], lead, next, goal);
    PushTracked(s, p, k, o, lead, tr, goal, length, distance, n);
  }

  /** A match just passed is tracked. */
  lemma PushTracked(s: seq<byte>, p: nat, k: nat, o: seq<byte>, lead: seq<byte>, tr: Trail, goal: (seq<byte>, nat),
                    length: nat, distance: nat, n: nat)
    requires Lined(s, p, o, lead, tr, goal) && k >= 2 && p + k + n <= |s| && n < 4
    ensures tr.Valid()
    ensures Tracked(p + k - 2, n, lead, tr.Push(Back(s[p..p + k], length, distance, s[p + k..p + k + n])))
    ensures tr.Push(Back(s[p..p + k], length, distance, s[p + k..p + k + n])).Mode() == ModeAfter(n)
  {
    hide Lined, tr.Valid;
    LinedSize(s, p, o, lead, tr, goal);
  }

  // ---------- What heads look like ----------

  lemma LongHead(s: seq<byte>, mode: Mode)
    requires ReadHead(s, mode).Some? && 16 <= s[0] < 64
    ensures if s[0] >= 32 then Length(s, s[0] % 32, 31).Some? && Length(s, s[0] % 32, 31).value.1 + 2 <= |s|
            else Length(s, s[0] % 8, 7).Some? && Length(s, s[0] % 8, 7).value.1 + 2 <= |s|
  {
    hide Length;
  }

  lemma ShortLength(s: seq<byte>, t: nat, base: nat)
    requires Length(s, t, base).Some? && base > 1
    ensures Length(s, t, base).value.0 == 1 ==> Length(s, t, base).value.1 == 1
  {
  }

  lemma RunHeadIs(s: seq<byte>)
    requires ReadHead(s, Top).Some? && s[0] < 16
    ensures Length(s, s[0], 15).Some?
    ensures var (t, k) := Length(s, s[0], 15).value;
      ReadHead(s, Top) == Some(RunHead(t + 3, k)) && (t + 3 <= 18 ==> k == 1)
  {
  }

  lemma LowHead(s: seq<byte>, mode: Mode)
    requires ReadHead(s, mode).Some? && s[0] < 16 && mode != Top
    ensures |s| >= 2
  {
  }

  lemma MiddleHead(s: seq<byte>, mode: Mode)
    requires ReadHead(s, mode).Some? && s[0] >= 64
    ensures |s| >= 2
  {
  }

  /** After a match without literals something follows. */
  lemma RoomAfter(s: seq<byte>, p: nat, o: seq<byte>, lead: seq<byte>, tr: Trail, goal: (seq<byte>, nat),
                  length: nat, distance: nat, k: nat)
    requires Lined(s, p, o, lead, tr, goal) && ReadHead(s[p..], tr.Mode()) == Some(MatchHead(length, distance, k))
    requires k >= 2 && p + k <= |s| && s[p + k - 2] % 4 == 0
    ensures p + k < |s|
  {
    hide Lined, ReadHead, CopyBack, tr.Valid;
    var n, next := PassMatch(s, p, o, lead, tr, goal, length, distance, k);
    Room(s, p + k + n, CopyBack(o, length, distance) + s[p + k..p + k + n], lead, next, goal);
  }

  lemma RunPassed(s: seq<byte>, p: nat, o: seq<byte>, lead: seq<byte>, tr: Trail, goal: (seq<byte>, nat), count: nat, k: nat)
    returns (next: Trail)
    requires Lined(s, p, o, lead, tr, goal) && tr.Mode() == Top && ReadHead(s[p..], Top) == Some(RunHead(count, k))
    requires count <= 18 ==> k == 1
    ensures 1 <= k && p + k + count <= |s| && next.Mode() == AfterRun && Tracked(p, count, lead, next)
    ensures Lined(s, p + k + count, o + s[p + k..p + k + count], lead, next, goal)
    ensures |o + s[p + k..p + k + count]| <= |goal.0|
  {
    hide Lined, ReadHead, tr.Valid;
    LinedSize(s, p, o, lead, tr, goal);
    next := PassRun(s, p, o, lead, tr, goal, count, k);
    Room(s, p + k + count, o + s[p + k..p + k + count], lead, next, goal);
  }

  /** Literals of less than a run follow a match. */
  lemma ShortIsBack(tr: Trail, litp: int, lit: nat, lead: seq<byte>)
    requires Tracked(litp, lit, lead, tr) && tr.Mode() == AfterShort
    ensures litp != -1 ==> tr.last.Back?
  {
  }

  lemma FewIsBack(s: seq<byte>, p: nat, o: seq<byte>, lead: seq<byte>, tr: Trail, goal: (seq<byte>, nat), litp: int, lit: nat)
    requires Lined(s, p, o, lead, tr, goal) && Tracked(litp, lit, lead, tr) && lit <= 3 && litp != -1
    ensures tr.last.Back?
  {
    hide Decode, Led, Leads, IsRun, IsMatch;
  }

  lemma LongIsRun(s: seq<byte>, p: nat, o: seq<byte>, lead: seq<byte>, tr: Trail, goal: (seq<byte>, nat), litp: int, lit: nat)
    requires Lined(s, p, o, lead, tr, goal) && Tracked(litp, lit, lead, tr) && lit > 3 && litp != -1
    ensures tr.last.Run?
  {
    hide Decode, Led, Leads, IsRun, IsMatch;
  }

  /** At the end code the output is complete. */
  lemma EndReached(s: seq<byte>, p: nat, o: seq<byte>, lead: seq<byte>, tr: Trail, goal: (seq<byte>, nat), k: nat)
    requires Lined(s, p, o, lead, tr, goal) && ReadHead(s[p..], tr.Mode()) == Some(EofHead(k))
    ensures DecodeBlock(s) == Some(goal) && p + k <= |s| && goal == (o, |s| - (p + k))
  {
    hide Lined, ReadHead, tr.Valid;
    BlockDecodes(s, p, o, lead, tr, goal);
    LinedFuture(s, p, o, lead, tr, goal);
  }

  /** Optimizes a block that decodes. The rewritten block has the same length and decodes to the same
      bytes, which are also written to `output`; what follows the end code is told by the result. */
  method Lzo1xOptimize(input: array<byte>, output: array<byte>) returns (code: Code, outLen: nat)
    requires input != output && DecodeBlock(input[..]).Some? && |DecodeBlock(input[..]).value.0| <= output.Length
    modifies input, output
    ensures DecodeBlock(input[..]) == old(DecodeBlock(input[..]))
    ensures outLen <= output.Length && output[..outLen] == old(DecodeBlock(input[..])).value.0
    ensures code == if old(DecodeBlock(input[..])).value.1 == 0 then Ok else InputNotConsumed
  {
    hide DecodeBlock, Lined, Tracked;
    var o := new Optimizer(input, output);
    o.Begin();
    ghost var goal := o.goal;
    InputLeft(o, false);
    var eof := false;
    while !eof
      invariant if eof then o.Ended() else o.Valid()
      invariant o.goal == goal && o.ip <= input.Length
      decreases input.Length - o.ip
    {
      eof := o.Instruction();
      InputLeft(o, eof);
    }
    outLen := o.op;
    code := if o.ip == input.Length then Ok else InputNotConsumed;
  }

  lemma InputLeft(o: Optimizer, eof: bool)
    requires if eof then o.Ended() else o.Valid()
    ensures o.ip <= o.input.Length
  {
  }
}
