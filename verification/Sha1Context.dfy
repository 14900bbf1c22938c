/** SHA-1 over data that arrives in pieces, with 16 words for the schedule. */
module Sha1Contexts {
  import Bits
  import opened Sha1s

  // ---------- Words ----------

  /** What a little-endian machine sees in four bytes. */
  function Little(s: seq<octet>, i: nat): word
    requires i + 4 <= |s|
  {
    (s[i] as word) | ((s[i + 1] as word) << 8) | ((s[i + 2] as word) << 16) | ((s[i + 3] as word) << 24)
  }

  function Swap(x: word): word
  {
    (Rol(x, 24) & 0xFF00FF00) | (Rol(x, 8) & 0x00FF00FF)
  }

  lemma SwapWord(p: word, q: word, r: word, s: word)
    requires p <= 255 && q <= 255 && r <= 255 && s <= 255
    ensures Swap(p | (q << 8) | (r << 16) | (s << 24)) == (p << 24) | (q << 16) | (r << 8) | s
  {
  }

  lemma SwapLittle(s: seq<octet>, i: nat)
    requires i + 4 <= |s|
    ensures Swap(Little(s, i)) == Big(s, i)
  {
    SwapWord(s[i] as word, s[i + 1] as word, s[i + 2] as word, s[i + 3] as word);
  }

  /** The function of a round as it is coded. */
  function Mixed(t: nat, w: word, x: word, y: word): word
  {
    if t < 20 then (w & (x ^ y)) ^ y
    else if t < 40 then w ^ x ^ y
    else if t < 60 then ((w | x) & y) | (w & x)
    else w ^ x ^ y
  }

  lemma Choice(w: word, x: word, y: word)
    ensures (w & (x ^ y)) ^ y == (w & x) | (!w & y)
  {
  }

  lemma Majority(w: word, x: word, y: word)
    ensures ((w | x) & y) | (w & x) == (w & x) | (w & y) | (x & y)
  {
  }

  lemma MixedIs(t: nat, w: word, x: word, y: word)
    ensures Mixed(t, w, x, y) == F(t, w, x, y)
  {
    Choice(w, x, y);
    Majority(w, x, y);
  }

  function Added(z: word, f: word, b: word, k: word, r: word): word
  {
    z + (f + b + k + r)
  }

  /** The new first word as it is coded. */
  function Coded(t: nat, v: word, w: word, x: word, y: word, z: word, b: word): word
  {
    Added(z, Mixed(t, w, x, y), b, K(t), Rol(v, 5))
  }

  lemma SumOrder(z: word, f: word, b: word, k: word, r: word)
    ensures Added(z, f, b, k, r) == Sum(r, f, z, b, k)
  {
  }

  lemma CodedIs(t: nat, v: word, w: word, x: word, y: word, z: word, b: word)
    ensures Coded(t, v, w, x, y, z, b) == Temp(t, v, w, x, y, z, b)
  {
    hide F, Mixed, Rol, K, Sum, Added;
    MixedIs(t, w, x, y);
    SumOrder(z, Mixed(t, w, x, y), b, K(t), Rol(v, 5));
  }

  // ---------- The schedule in 16 words ----------

  /** The last step before `t` that wrote word `j`. */
  function Latest(j: nat, t: nat): (s: nat)
    requires j < 16 && j < t
    ensures s < t
  {
    if t <= j + 16 then j else 16 + Latest(j, t - 16)
  }

  lemma {:induction false} LatestNext(j: nat, t: nat)
    requires j < 16 && j < t
    ensures Latest(j, t + 1) == if j == t % 16 then t else Latest(j, t)
  {
    if t > j + 16 {
      LatestNext(j, t - 16);
    }
  }

  lemma {:induction false} LatestBefore(t: nat, d: nat)
    requires 16 <= t && 1 <= d <= 16
    ensures (t + 16 - d) % 16 < t && Latest((t + 16 - d) % 16, t) == t - d
  {
    if t >= 32 {
      LatestBefore(t - 16, d);
      assert (t + 16 - d) % 16 == (t - d) % 16;
    }
  }

  /** What word `j` holds before step `t`: the last it got in the schedule, or bytes not yet swapped. */
  function Held(block: seq<octet>, t: nat, j: nat): word
    requires |block| == 64 && j < 16
  {
    if t <= j then Little(block, 4 * j) else W(block, Latest(j, t))
  }

  ghost predicate Scheduled(l: seq<word>, block: seq<octet>, t: nat)
    requires |block| == 64
  {
    |l| == 16 && forall j: nat :: j < 16 ==> l[j] == Held(block, t, j)
  }

  /** Step `t` writes word `t` mod 16. */
  lemma Written(l: seq<word>, block: seq<octet>, t: nat)
    requires |block| == 64 && Scheduled(l, block, t)
    ensures Scheduled(l[t % 16 := W(block, t)], block, t + 1)
  {
    hide W, Little;
    forall j: nat {:trigger l[j]} | j < 16
      ensures l[t % 16 := W(block, t)][j] == Held(block, t + 1, j)
    {
      if j < t {
        LatestNext(j, t);
      }
    }
  }

  lemma FirstSteps(l: seq<word>, block: seq<octet>, t: nat)
    requires |block| == 64 && Scheduled(l, block, t) && t < 16
    ensures Swap(l[t]) == W(block, t)
  {
    hide Swap, Little, Big;
    SwapLittle(block, 4 * t);
  }

  lemma NextIs(block: seq<octet>, t: nat, p: word, q: word, r: word, s: word)
    requires |block| == 64 && t >= 16
    requires p == W(block, t - 3) && q == W(block, t - 8) && r == W(block, t - 14) && s == W(block, t - 16)
    ensures Next(p, q, r, s) == W(block, t)
  {
    hide Next;
  }

  /** `(t + k) & 15` */
  function Ring(t: nat, k: nat): (j: nat)
    ensures j < 16
  {
    (t + k) % 16
  }

  lemma HeldBefore(l: seq<word>, block: seq<octet>, t: nat, d: nat)
    requires |block| == 64 && Scheduled(l, block, t) && 1 <= d <= 16 <= t
    ensures |l| == 16 && l[Ring(t, 16 - d)] == W(block, t - d)
  {
    hide W, Little, Latest;
    LatestBefore(t, d);
    assert Ring(t, 16 - d) == (t + 16 - d) % 16;
  }

  lemma LaterSteps(l: seq<word>, block: seq<octet>, t: nat)
    requires |block| == 64 && Scheduled(l, block, t) && t >= 16
    ensures |l| == 16 && Next(l[Ring(t, 13)], l[Ring(t, 8)], l[Ring(t, 2)], l[Ring(t, 0)]) == W(block, t)
  {
    hide W, Next, Scheduled, Ring;
    HeldBefore(l, block, t, 3);
    HeldBefore(l, block, t, 8);
    HeldBefore(l, block, t, 14);
    HeldBefore(l, block, t, 16);
    NextIs(block, t, l[Ring(t, 13)], l[Ring(t, 8)], l[Ring(t, 2)], l[Ring(t, 0)]);
  }

  /** Expands the schedule in place. */
  method Expand(l: array<word>, t: nat, ghost block: seq<octet>) returns (w: word)
    requires l.Length == 16 && |block| == 64 && Scheduled(l[..], block, t)
    modifies l
    ensures w == W(block, t) && Scheduled(l[..], block, t + 1)
  {
    hide Next, Swap, Scheduled, W;
    assert |l[..]| == 16;
    Written(l[..], block, t);
    if t < 16 {
      FirstSteps(l[..], block, t);
      w := Swap(l[t]);
    } else {
      LaterSteps(l[..], block, t);
      w := Next(l[Ring(t, 13)], l[Ring(t, 8)], l[Ring(t, 2)], l[Ring(t, 0)]);
    }
    ghost var was := l[..];
    l[t % 16] := w;
    assert l[..] == was[t % 16 := w];
  }

  /** One step on the working variables, named so that `v` is the first of them. */
  method Step(l: array<word>, t: nat, v: word, w: word, x: word, y: word, z: word, ghost block: seq<octet>,
              ghost h: State) returns (w': word, z': word)
    requires l.Length == 16 && |block| == 64 && Scheduled(l[..], block, t)
    requires Rounds(h, block, t) == State(v, w, x, y, z)
    modifies l
    ensures Scheduled(l[..], block, t + 1) && Rounds(h, block, t + 1) == State(z', v, w', x, y)
  {
    hide Rol, Coded, Temp, W, Scheduled;
    var b := Expand(l, t, block);
    CodedIs(t, v, w, x, y, z, b);
    z' := Coded(t, v, w, x, y, z, b);
    w' := Rol(w, 30);
  }

  function StateOf(s: seq<word>): State
    requires |s| == 5
  {
    State(s[0], s[1], s[2], s[3], s[4])
  }

  /** Hashes one block. */
  method Transform(state: array<word>, block: seq<octet>)
    requires state.Length == 5 && |block| == 64
    modifies state
    ensures StateOf(state[..]) == Compress(old(StateOf(state[..])), block)
  {
    hide Rounds, Little, Scheduled, Plus;
    ghost var h := StateOf(state[..]);
    var l := new word[16](i requires 0 <= i < 16 => Little(block, 4 * i));
    StartsScheduled(l[..], block);
    var a, b, c, d, e := state[0], state[1], state[2], state[3], state[4];
    assert Rounds(h, block, 0) == State(a, b, c, d, e) by { NoRounds(h, block); }
    var i := 0;
    while i < 80
      invariant 0 <= i <= 80 && i % 5 == 0 && Scheduled(l[..], block, i)
      invariant Rounds(h, block, i) == State(a, b, c, d, e) && StateOf(state[..]) == h
    {
      b, e := Step(l, i, a, b, c, d, e, block, h);
      a, d := Step(l, i + 1, e, a, b, c, d, block, h);
      e, c := Step(l, i + 2, d, e, a, b, c, block, h);
      d, b := Step(l, i + 3, c, d, e, a, b, block, h);
      c, a := Step(l, i + 4, b, c, d, e, a, block, h);
      i := i + 5;
    }
    AddBack(state, State(a, b, c, d, e));
  }

  method AddBack(state: array<word>, s: State)
    requires state.Length == 5
    modifies state
    ensures StateOf(state[..]) == Plus(old(StateOf(state[..])), s)
  {
    hide Add;
    state[0] := Add(state[0], s.a);
    state[1] := Add(state[1], s.b);
    state[2] := Add(state[2], s.c);
    state[3] := Add(state[3], s.d);
    state[4] := Add(state[4], s.e);
  }

  lemma NoRounds(h: State, block: seq<octet>)
    requires |block| == 64
    ensures Rounds(h, block, 0) == h
  {
  }

  lemma StartsScheduled(l: seq<word>, block: seq<octet>)
    requires |block| == 64 && |l| == 16 && forall i :: 0 <= i < 16 ==> l[i] == Little(block, 4 * i)
    ensures Scheduled(l, block, 0)
  {
  }

  // ---------- Counting bits in two words ----------

  const WORD: nat := 0x1_0000_0000
  const SHORT: nat := 0x2000_0000

  function Low(low: nat, len: nat): (r: nat)
    ensures r < WORD
  {
    (low + 8 * len % WORD) % WORD
  }

  function High(low: nat, high: nat, len: nat): (r: nat)
    ensures high < WORD ==> r < WORD
  {
    if Low(low, len) < low then (high + len / SHORT + 1) % WORD else high
  }

  /** What the count needs: the upper bits of the length are added only with a carry. */
  predicate Counts(low: nat, len: nat)
  {
    len < SHORT || Low(low, len) < low
  }

  lemma Wrapped(low: nat, high: nat)
    requires low < WORD
    ensures (low + WORD * high) % (WORD * WORD) == low + WORD * (high % WORD)
  {
    assert high == WORD * (high / WORD) + high % WORD;
  }

  /** The count grows by the length in bits exactly if the length is below 2^29 or there is a carry. */
  lemma CountIff(low: nat, high: nat, len: nat)
    requires low < WORD && high < WORD && len < WORD
    ensures Low(low, len) + WORD * High(low, high, len) == (low + WORD * high + 8 * len) % (WORD * WORD) <==> Counts(low, len)
  {
    var h, l := len / SHORT, 8 * (len % SHORT);
    assert 8 * len == l + WORD * h && 8 * len % WORD == l;
    var carry := if low + l >= WORD then 1 else 0;
    assert low + l == Low(low, len) + WORD * carry;
    assert Low(low, len) < low <==> carry == 1;
    Wrapped(Low(low, len), high + h + carry);
  }

  /** The first piece of 2^29 bytes is not counted at all. */
  lemma HalfGigabyteUncounted()
    ensures Low(0, SHORT) == 0 && High(0, 0, SHORT) == 0
  {
  }

  // ---------- Data in pieces ----------

  /** The whole blocks of a message. */
  function Whole(m: seq<octet>): (s: seq<octet>)
    ensures |s| % 64 == 0
  {
    m[..|m| / 64 * 64]
  }

  lemma ChainBlock(s: seq<octet>, block: seq<octet>)
    requires |s| % 64 == 0 && |block| == 64
    ensures |s + block| % 64 == 0 && Chain(s + block) == Compress(Chain(s), block)
  {
    assert (s + block)[..|s + block| - 64] == s && (s + block)[|s + block| - 64..] == block;
  }

  lemma Position(len: nat, low: nat, high: nat)
    requires low < WORD && low + WORD * high == 8 * len % (WORD * WORD)
    ensures low / 8 % 64 == len % 64
  {
    var q := 8 * len / (WORD * WORD);
    assert 8 * len == WORD * WORD * q + low + WORD * high;
    var k, p := WORD * q + high, low / 8;
    assert len == 64 * (0x80_0000 * k) + p;
    Bits.Quotient(len, 64, 0x80_0000 * k + p / 64, p % 64);
  }

  class Context {
    const state: array<word>
    const buffer: array<octet>
    var low: nat
    var high: nat
    /** What has been hashed. */
    ghost var message: seq<octet>

    /** Starts a digest. */
    constructor ()
      ensures Valid() && fresh(state) && fresh(buffer) && message == []
    {
      state, buffer := new word[5], new octet[64];
      low, high, message := 0, 0, [];
      new;
      state[0], state[1], state[2], state[3], state[4] := INITIAL.a, INITIAL.b, INITIAL.c, INITIAL.d, INITIAL.e;
    }

    ghost predicate Sized()
    {
      state.Length == 5 && buffer.Length == 64
    }

    ghost predicate Counted()
      reads this
    {
      low < WORD && high < WORD && low + WORD * high == 8 * |message| % (WORD * WORD)
    }

    ghost predicate Valid()
      reads this, state, buffer
    {
      Counted() && Holds(message)
    }

    /** Adds to the number of bits. */
    method Count(len: nat)
      requires low < WORD && high < WORD && len < WORD
      modifies this`low, this`high
      ensures low == Low(old(low), len) && high == High(old(low), old(high), len)
    {
      var j := low;
      low := (low + 8 * len % WORD) % WORD;
      if low < j {
        high := (high + len / SHORT + 1) % WORD;
      }
    }

    method Fill(j: nat, part: seq<octet>)
      requires Sized() && j + |part| <= 64
      modifies buffer
      ensures buffer[..] == old(buffer[..j]) + part + old(buffer[j + |part|..])
    {
      forall k | 0 <= k < |part| {
        buffer[j + k] := part[k];
      }
    }

    /** Hashes the blocks that are complete, and returns where the rest begins. */
    method Blocks(data: seq<octet>, j: nat) returns (i: nat)
      requires Sized() && j < 64 && |data| + 63 < WORD && StateOf(state[..]) == Chain(Whole(message))
      requires j == |message| % 64 && Whole(message) + buffer[..j] == message
      modifies state, buffer
      ensures i <= |data|
      ensures if j + |data| > 63
              then |data| - i < 64 && (|message| + i) % 64 == 0 && StateOf(state[..]) == Chain(message + data[..i])
              else i == 0 && state[..] == old(state[..]) && buffer[..] == old(buffer[..])
    {
      hide Chain, Compress, Whole, StateOf;
      i := 0;
      if j + |data| > 63 {
        ghost var whole := Whole(message);
        i := 64 - j;
        Fill(j, data[..i]);
        ChainBlock(whole, buffer[..]);
        assert whole + buffer[..] == message + data[..i];
        Transform(state, buffer[..]);
        while i + 63 < |data|
          invariant 0 <= i <= |data| && (|message| + i) % 64 == 0 && StateOf(state[..]) == Chain(message + data[..i])
        {
          ChainBlock(message + data[..i], data[i..i + 64]);
          assert message + data[..i] + data[i..i + 64] == message + data[..i + 64];
          Transform(state, data[i..i + 64]);
          i := i + 64;
        }
      }
    }

    /** The chaining value and the buffer after a message. */
    ghost predicate Holds(m: seq<octet>)
      reads state, buffer
    {
      Sized() && StateOf(state[..]) == Chain(Whole(m)) && Whole(m) + buffer[..|m| % 64] == m
    }

    /** Hashes data that follows the message; `j` bytes are in the buffer. */
    method Absorb(data: seq<octet>, j: nat)
      requires Holds(message) && j == |message| % 64 && |data| + 63 < WORD
      modifies state, buffer
      ensures Holds(message + data)
    {
      hide Chain, StateOf, Whole;
      var i := Blocks(data, j);
      RestOf(message, data, i);
      ghost var kept := buffer[..j];
      if j + |data| > 63 {
        Fill(0, data[i..]);
        Rejoin(message, data[..i], data[i..], data);
        assert buffer[..|data| - i] == data[i..];
      } else {
        Fill(j, data[i..]);
        Rejoin(Whole(message), kept, data, kept + data);
        assert buffer[..j + |data|] == kept + data;
      }
    }

    /** Hashes a piece of data. */
    method Update(data: seq<octet>)
      requires Valid() && |data| + 63 < WORD && Counts(low, |data|)
      modifies this, state, buffer
      ensures Valid() && message == old(message) + data
      ensures low == Low(old(low), |data|)
    {
      hide Holds, Low, High;
      CountIff(low, high, |data|);
      Position(|message|, low, high);
      CountsOn(low + WORD * high, |message|, |data|);
      var j := low / 8 % 64;
      Count(|data|);
      Absorb(data, j);
      message := message + data;
    }

    /** Pieces below 2^29 bytes are always counted. */
    method Append(data: seq<octet>)
      requires Valid() && |data| < SHORT
      modifies this, state, buffer
      ensures Valid() && message == old(message) + data
    {
      hide Holds;
      Update(data);
    }

    /** The number of bits in eight bytes. */
    method FinalCount() returns (finalCount: seq<octet>)
      requires Counted() && 8 * |message| < WORD * WORD
      ensures finalCount == Octets(8 * |message|, 8)
    {
      hide Octet, Octets;
      SmallMod(8 * |message|, WORD * WORD);
      ghost var v := low + WORD * high;
      finalCount := [];
      for i := 0 to 8
        invariant finalCount == Octets(v, 8)[..i]
      {
        OctetsAt(v, 8, i);
        OctetOfPair(low, high, 7 - i);
        finalCount := finalCount + [Octet(if i >= 4 then low else high, 3 - i % 4)];
      }
    }

    method Digest() returns (digest: array<octet>)
      requires Sized()
      ensures fresh(digest) && digest[..] == DigestOf(StateOf(state[..]))
    {
      hide Part;
      ghost var d := DigestOf(StateOf(state[..]));
      digest := new octet[20];
      for i := 0 to 20
        invariant digest[..i] == d[..i]
      {
        PartOf(state[..], i);
        digest[i] := Part(state[i / 4], i % 4);
        assert digest[..i + 1] == digest[..i] + [digest[i]] && d[..i + 1] == d[..i] + [d[i]];
      }
      assert digest[..] == digest[..20] && d[..20] == d;
    }

    /** Appends zeros until 8 bytes are missing to a block. */
    method Zeros(ghost m: seq<octet>)
      requires Valid() && message == m + [MARK]
      modifies this, state, buffer
      ensures Valid() && message == m + [MARK] + ZeroOctets(Gap(|m|))
    {
      hide Holds, Low, Gap;
      ghost var k: nat := 0;
      GapUnique(|m|, 0);
      assert message == m + [MARK] + ZeroOctets(0);
      Position(|message|, low, high);
      while low / 8 % 64 * 8 != 448
        invariant Valid() && k <= Gap(|m|) && message == m + [MARK] + ZeroOctets(k)
        invariant low / 8 % 64 == |message| % 64
        decreases Gap(|m|) - k
      {
        GapUnique(|m|, k);
        Append([0]);
        Position(|message|, low, high);
        assert m + [MARK] + ZeroOctets(k) + [0] == m + [MARK] + ZeroOctets(k + 1);
        k := k + 1;
      }
      GapUnique(|m|, k);
    }

    /** Pads the message and returns its digest. */
    method Final() returns (digest: array<octet>)
      requires Valid() && 8 * |message| < WORD * WORD
      modifies this, state, buffer
      ensures fresh(digest) && digest[..] == Sha1(old(message))
    {
      hide Octets, Holds, Counted, Gap, Chain, StateOf, DigestOf, ZeroOctets, Padded, MARK;
      ghost var m := message;
      var finalCount := FinalCount();
      Append([MARK]);
      Zeros(m);
      Append(finalCount);
      PaddedIs(m, message);
      WholeHeld(message);
      digest := Digest();
    }

    lemma WholeHeld(m: seq<octet>)
      requires Holds(m) && |m| % 64 == 0
      ensures Sized() && StateOf(state[..]) == Chain(m)
    {
      assert Whole(m) == m;
    }
  }

  lemma {:induction false} OctetsAt(v: nat, n: nat, i: nat)
    requires i < n
    ensures Octets(v, n)[i] == Octet(v, n - 1 - i)
  {
    if i < n - 1 {
      OctetsAt(v / 256, n - 1, i);
    }
  }

  function Power256(n: nat): (p: nat)
    ensures p > 0
  {
    if n == 0 then 1 else 256 * Power256(n - 1)
  }

  lemma {:induction false} OctetOf(low: nat, high: nat, n: nat, k: nat)
    requires low < Power256(n)
    ensures Octet(low + Power256(n) * high, k) == if k < n then Octet(low, k) else Octet(high, k - n)
  {
    if n > 0 {
      var p := Power256(n - 1) * high;
      assert low + Power256(n) * high == low + 256 * p;
      assert (low + 256 * p) / 256 == low / 256 + p && (low + 256 * p) % 256 == low % 256;
      if k > 0 {
        OctetOf(low / 256, high, n - 1, k - 1);
      }
    }
  }

  lemma OctetOfPair(low: nat, high: nat, k: nat)
    requires low < WORD && k < 8
    ensures Octet(low + WORD * high, k) == if k < 4 then Octet(low, k) else Octet(high, k - 4)
  {
    hide Octet;
    assert Power256(4) == WORD;
    OctetOf(low, high, 4, k);
  }

  lemma PartOf(s: seq<word>, i: nat)
    requires |s| == 5 && i < 20
    ensures DigestOf(StateOf(s))[i] == Part(s[i / 4], i % 4)
  {
    hide Part;
  }

  lemma SmallMod(n: nat, m: nat)
    requires n < m
    ensures n % m == n
  {
  }

  lemma PaddedIs(m: seq<octet>, s: seq<octet>)
    requires s == m + [MARK] + ZeroOctets(Gap(|m|)) + Octets(8 * |m|, 8)
    ensures s == Padded(m) && |s| % 64 == 0
  {
    hide MARK, ZeroOctets, Gap, Octets;
  }

  /** The padding ends where 8 bytes are missing to a block. */
  lemma GapUnique(n: nat, k: nat)
    ensures k <= Gap(n) ==> ((n + 1 + k) % 64 == 56 <==> k == Gap(n))
  {
    var q, r := n / 64, n % 64;
    assert n == 64 * q + r;
    if k > Gap(n) {
    } else if r + 1 + k < 64 {
      Bits.Quotient(n + 1 + k, 64, q, r + 1 + k);
    } else {
      Bits.Quotient(n + 1 + k, 64, q + 1, r + 1 + k - 64);
    }
  }

  function Concat(pieces: seq<seq<octet>>): seq<octet>
  {
    if pieces == [] then [] else Concat(pieces[..|pieces| - 1]) + pieces[|pieces| - 1]
  }

  /** The digest of a message does not depend on the pieces in which it arrives. */
  method Hash(pieces: seq<seq<octet>>) returns (digest: array<octet>)
    requires 8 * |Concat(pieces)| < WORD * WORD && forall i :: 0 <= i < |pieces| ==> |pieces[i]| < SHORT
    ensures digest[..] == Sha1(Concat(pieces))
  {
    hide Concat, Sha1;
    var context := new Context();
    assert Concat(pieces[..0]) == [] by { ConcatNext(pieces, 0); }
    for i := 0 to |pieces|
      invariant context.Valid() && context.message == Concat(pieces[..i])
      invariant fresh(context) && fresh(context.state) && fresh(context.buffer)
    {
      ConcatNext(pieces, i);
      context.Append(pieces[i]);
    }
    assert pieces[..|pieces|] == pieces;
    digest := context.Final();
  }

  lemma ConcatNext(pieces: seq<seq<octet>>, i: nat)
    requires i <= |pieces|
    ensures i == 0 ==> Concat(pieces[..0]) == []
    ensures i < |pieces| ==> Concat(pieces[..i + 1]) == Concat(pieces[..i]) + pieces[i]
  {
    if i < |pieces| {
      assert pieces[..i + 1][..i] == pieces[..i];
    }
  }

  lemma Rejoin(a: seq<octet>, b: seq<octet>, c: seq<octet>, bc: seq<octet>)
    requires bc == b + c
    ensures a + b + c == a + bc
  {
  }

  lemma CountsOn(c: nat, n: nat, len: nat)
    requires c == 8 * n % (WORD * WORD)
    ensures (c + 8 * len) % (WORD * WORD) == 8 * (n + len) % (WORD * WORD)
  {
    var q := 8 * n / (WORD * WORD);
    assert 8 * (n + len) == WORD * WORD * q + (c + 8 * len);
  }

  /** What remains of the data after the complete blocks. */
  lemma RestOf(m: seq<octet>, data: seq<octet>, i: nat)
    requires i <= |data|
    ensures |m| % 64 + |data| > 63 && |data| - i < 64 && (|m| + i) % 64 == 0 ==>
              Whole(m + data) == m + data[..i] && |m + data| % 64 == |data| - i
    ensures |m| % 64 + |data| <= 63 && i == 0 ==>
              Whole(m + data) == Whole(m) && |m + data| % 64 == |m| % 64 + |data|
  {
    assert |m + data| == |m| + i + (|data| - i);
  }
}
