/** Hash chains over the window: every entry of a chain has the same hash. */
module HashChains {
  import opened Bits
  import opened Hashing

  /** A position in the window, 0 for none. */
  type Pos = x: int | 0 <= x < 0x1_0000

  const WSIZE: nat := 0x8000

  /** The entry of a position in the array of links. */
  function Slot(p: nat): (s: nat)
    ensures s < WSIZE
  {
    p % WSIZE
  }

  /** The hash of the three bytes at `p`. */
  function Key(win: seq<byte>, p: nat, bits: nat): nat
    requires p + 2 < |win|
  {
    Hash3(win[p], win[p + 1], win[p + 2], bits)
  }

  /** `m` may head the chain of hash `h` when the positions before `n` have been inserted. */
  predicate HeadOf(win: seq<byte>, n: nat, m: nat, h: nat, bits: nat)
    requires n + 2 <= |win|
  {
    m == 0 || (m < n && Key(win, m, bits) == h)
  }

  predicate LinkOf(win: seq<byte>, p: nat, m: nat, bits: nat)
    requires p + 2 < |win|
  {
    m == 0 || (m < p && Key(win, m, bits) == Key(win, p, bits))
  }

  ghost predicate Heads(win: seq<byte>, head: seq<Pos>, n: nat, bits: nat)
  {
    n + 2 <= |win| && |head| == Pow2(bits) && forall h :: 0 <= h < |head| ==> HeadOf(win, n, head[h], h, bits)
  }

  /** The links of the last `WSIZE` positions inserted; older ones are overwritten. */
  ghost predicate Links(win: seq<byte>, prev: seq<Pos>, n: nat, bits: nat)
  {
    && n + 2 <= |win| && |prev| == WSIZE
    && (forall p {:trigger Slot(p)} :: 0 <= p < n <= p + WSIZE ==> LinkOf(win, p, prev[Slot(p)], bits))
  }

  /** The head of a chain is the last position inserted with its hash. */
  ghost predicate Latest(win: seq<byte>, head: seq<Pos>, n: nat, bits: nat)
  {
    && n + 2 <= |win| && |head| == Pow2(bits)
    && forall i {:trigger Key(win, i, bits)} :: 0 <= i < n ==> Key(win, i, bits) < |head| && head[Key(win, i, bits)] >= i
  }

  ghost predicate Chains(win: seq<byte>, prev: seq<Pos>, head: seq<Pos>, n: nat, bits: nat)
  {
    Heads(win, head, n, bits) && Links(win, prev, n, bits) && Latest(win, head, n, bits)
  }

  /** The head of the chain for a position is at or after every earlier position with the same three bytes. */
  lemma HeadIsLate(win: seq<byte>, head: seq<Pos>, n: nat, bits: nat, i: nat)
    requires Latest(win, head, n, bits) && i < n && n + 2 < |win|
    requires win[i] == win[n] && win[i + 1] == win[n + 1] && win[i + 2] == win[n + 2]
    ensures Key(win, n, bits) < |head| && head[Key(win, n, bits)] >= i
  {
    assert Key(win, i, bits) == Key(win, n, bits);
  }

  lemma SlotsDiffer(p: nat, n: nat)
    requires p < n < p + WSIZE
    ensures Slot(p) != Slot(n)
  {
  }

  lemma NoChains(win: seq<byte>, prev: seq<Pos>, head: seq<Pos>, bits: nat)
    requires 2 <= |win| && |prev| == WSIZE && |head| == Pow2(bits) && forall h :: 0 <= h < |head| ==> head[h] == 0
    ensures Chains(win, prev, head, 0, bits)
  {
  }

  lemma InsertLatest(win: seq<byte>, head: seq<Pos>, n: nat, bits: nat, h: nat)
    requires Latest(win, head, n, bits) && n + 2 < |win| && n < 0x1_0000 && h == Key(win, n, bits) < |head|
    ensures Latest(win, head[h := n], n + 1, bits)
  {
    hide Key, Pow2;
  }

  /** Inserting position `n` keeps the chains. */
  lemma InsertKeeps(win: seq<byte>, prev: seq<Pos>, head: seq<Pos>, n: nat, bits: nat, h: nat)
    requires Chains(win, prev, head, n, bits) && n + 2 < |win| && n < 0x1_0000 && h == Key(win, n, bits)
    ensures h < |head| && HeadOf(win, n, head[h], h, bits)
    ensures Chains(win, prev[Slot(n) := head[h]], head[h := n], n + 1, bits)
  {
    hide Key, Pow2;
    KeyBound(win, n, bits);
    InsertLatest(win, head, n, bits, h);
    hide Latest;
    var prev', head' := prev[Slot(n) := head[h]], head[h := n];
    assert HeadOf(win, n, head[h], h, bits);
    forall k | 0 <= k < |head'|
      ensures HeadOf(win, n + 1, head'[k], k, bits)
    {
      assert HeadOf(win, n, head[k], k, bits);
    }
    forall p {:trigger Slot(p)} | 0 <= p < n + 1 <= p + WSIZE
      ensures LinkOf(win, p, prev'[Slot(p)], bits)
    {
      if p < n {
        SlotsDiffer(p, n);
        assert LinkOf(win, p, prev[Slot(p)], bits);
      }
    }
  }

  lemma KeyBound(win: seq<byte>, p: nat, bits: nat)
    requires p + 2 < |win|
    ensures Key(win, p, bits) < Pow2(bits)
  {
  }

  /** Bytes beyond those hashed may change. */
  lemma ReadKeeps(win: seq<byte>, win': seq<byte>, prev: seq<Pos>, head: seq<Pos>, n: nat, bits: nat)
    requires Chains(win, prev, head, n, bits) && |win'| == |win| && (n == 0 || win'[..n + 2] == win[..n + 2])
    ensures Chains(win', prev, head, n, bits)
  {
    hide Pow2;
    forall m {:trigger Key(win', m, bits)} | 0 <= m < n
      ensures Key(win', m, bits) == Key(win, m, bits)
    {
      SameBytes(win, win', n + 2, m);
      SameBytes(win, win', n + 2, m + 1);
      SameBytes(win, win', n + 2, m + 2);
    }
    forall h | 0 <= h < |head|
      ensures HeadOf(win', n, head[h], h, bits)
    {
      assert HeadOf(win, n, head[h], h, bits);
    }
    forall p {:trigger Slot(p)} | 0 <= p < n <= p + WSIZE
      ensures LinkOf(win', p, prev[Slot(p)], bits)
    {
      assert LinkOf(win, p, prev[Slot(p)], bits);
    }
  }

  lemma SameBytes(win: seq<byte>, win': seq<byte>, n: nat, i: nat)
    requires i < n <= |win| && |win'| == |win| && win'[..n] == win[..n]
    ensures win'[i] == win[i]
  {
    assert win'[i] == win'[..n][i] == win[..n][i];
  }

  /** A position after the upper half of the window has moved down. */
  function Slid(m: Pos): (m': Pos)
  {
    if m >= WSIZE then m - WSIZE else 0
  }

  ghost predicate AllSlid(s: seq<Pos>, s': seq<Pos>)
  {
    |s'| == |s| && forall i :: 0 <= i < |s| ==> s'[i] == Slid(s[i])
  }

  lemma SlideLatest(win: seq<byte>, win': seq<byte>, head: seq<Pos>, head': seq<Pos>, n: nat, bits: nat)
    requires Latest(win, head, n, bits) && WSIZE <= n && n + 2 <= 2 * WSIZE <= |win| == |win'|
    requires forall i :: 0 <= i < WSIZE ==> win'[i] == win[i + WSIZE]
    requires AllSlid(head, head')
    ensures Latest(win', head', n - WSIZE, bits)
  {
    hide Pow2;
    forall i {:trigger Key(win', i, bits)} | 0 <= i < n - WSIZE
      ensures Key(win', i, bits) < |head'| && head'[Key(win', i, bits)] >= i
    {
      assert Key(win', i, bits) == Key(win, i + WSIZE, bits);
    }
  }

  /** The window slides under the live chains. */
  lemma SlideKeeps(win: seq<byte>, win': seq<byte>, prev: seq<Pos>, prev': seq<Pos>, head: seq<Pos>, head': seq<Pos>, n: nat, bits: nat)
    requires Chains(win, prev, head, n, bits) && WSIZE <= n && n + 2 <= 2 * WSIZE <= |win| == |win'|
    requires forall i :: 0 <= i < WSIZE ==> win'[i] == win[i + WSIZE]
    requires AllSlid(prev, prev') && AllSlid(head, head')
    ensures Chains(win', prev', head', n - WSIZE, bits)
  {
    hide Pow2;
    SlideLatest(win, win', head, head', n, bits);
    hide Latest;
    var n' := n - WSIZE;
    forall m | WSIZE <= m < n
      ensures Key(win', m - WSIZE, bits) == Key(win, m, bits)
    {
      assert win'[m - WSIZE] == win[m] && win'[m - WSIZE + 1] == win[m + 1] && win'[m - WSIZE + 2] == win[m + 2];
    }
    forall h | 0 <= h < |head'|
      ensures HeadOf(win', n', head'[h], h, bits)
    {
      assert HeadOf(win, n, head[h], h, bits);
    }
    forall p {:trigger Slot(p)} | 0 <= p < n' <= p + WSIZE
      ensures LinkOf(win', p, prev'[Slot(p)], bits)
    {
      assert Slot(p + WSIZE) == Slot(p);
      assert LinkOf(win, p + WSIZE, prev[Slot(p + WSIZE)], bits);
    }
  }
}
