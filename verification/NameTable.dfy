/** Interning of strings in a table with open addressing and double hashing. */
module NameTables {
  import opened Bits
  import opened Options

  /** No number between 1 and `p` divides `p`. */
  ghost predicate Prime(p: nat)
  {
    p >= 2 && forall d :: 2 <= d < p ==> p % d != 0
  }

  // ---------- Steps below a prime visit every slot ----------

  lemma Expand(p: int, a: int, q: int, r: int, b: int, k: int)
    requires p == a * q + r && a * b == p * k
    ensures r * b == p * (b - q * k)
  {
    assert p * b == (a * q) * b + r * b;
    assert (a * q) * b == q * (a * b) == q * (p * k);
    assert p * (b - q * k) == p * b - p * (q * k);
    assert q * (p * k) == p * (q * k);
  }

  /** A prime that divides a product divides a factor. */
  lemma {:induction false} Euclid(p: nat, a: nat, b: int, k: int) returns (m: int)
    requires Prime(p) && 0 < a < p && a * b == p * k
    ensures b == p * m
    decreases a
  {
    if a == 1 {
      m := k;
    } else {
      var q, r := p / a, p % a;
      Expand(p, a, q, r, b, k);
      m := Euclid(p, r, b, b - q * k);
    }
  }

  /** The slot after `n` steps of `d` down from `start`. */
  function Probe(start: nat, d: nat, p: nat, n: nat): (s: nat)
    requires start < p && d <= p
    ensures s < p
  {
    if n == 0 then start
    else
      var s := Probe(start, d, p, n - 1);
      if s < d then s + p - d else s - d
  }

  lemma {:induction false} ProbeIs(start: nat, d: nat, p: nat, n: nat) returns (k: int)
    requires start < p && d <= p
    ensures Probe(start, d, p, n) == start - d * n + p * k
  {
    k := 0;
    if n > 0 {
      k := ProbeIs(start, d, p, n - 1);
      assert d * n == d * (n - 1) + d;
      if Probe(start, d, p, n - 1) < d {
        assert p * (k + 1) == p * k + p;
        k := k + 1;
      }
    }
  }

  /** Fewer than `p` steps do not lead back to the same slot. */
  lemma NoReturn(start: nat, d: nat, p: nat, m: nat, n: nat)
    requires Prime(p) && start < p && 0 < d < p && m < n < m + p
    ensures Probe(start, d, p, m) != Probe(start, d, p, n)
  {
    var j := ProbeIs(start, d, p, m);
    var k := ProbeIs(start, d, p, n);
    if Probe(start, d, p, m) == Probe(start, d, p, n) {
      assert d * (n - m) == d * n - d * m == p * (k - j) by { Subtract(d, n, m, p, k, j); }
      var q := Euclid(p, d, n - m, k - j);
      NotBetween(p, q, n - m);
    }
  }

  lemma Subtract(d: int, n: int, m: int, p: int, k: int, j: int)
    requires d * n - p * k == d * m - p * j
    ensures d * (n - m) == d * n - d * m == p * (k - j)
  {
    assert d * (n - m) == d * n - d * m;
    assert p * (k - j) == p * k - p * j;
  }

  lemma NotBetween(p: int, q: int, x: int)
    requires x == p * q && p > 0
    ensures !(0 < x < p)
  {
    if q >= 1 {
      assert p * q >= p * 1;
    } else {
      assert p * q <= p * 0;
    }
  }

  /** The slots visited in the first `n` steps. */
  ghost function Visited(start: nat, d: nat, p: nat, n: nat): set<nat>
    requires start < p && d <= p
  {
    set i | 0 <= i < n :: Probe(start, d, p, i)
  }

  lemma {:induction false} VisitedSize(start: nat, d: nat, p: nat, n: nat)
    requires Prime(p) && start < p && 0 < d < p && n <= p
    ensures |Visited(start, d, p, n)| == n
  {
    if n > 0 {
      VisitedSize(start, d, p, n - 1);
      assert Visited(start, d, p, n) == Visited(start, d, p, n - 1) + {Probe(start, d, p, n - 1)};
      forall i | 0 <= i < n - 1
        ensures Probe(start, d, p, i) != Probe(start, d, p, n - 1)
      {
        NoReturn(start, d, p, i, n - 1);
      }
    } else {
      assert Visited(start, d, p, 0) == {};
    }
  }

  lemma {:induction false} SmallSet(s: set<nat>, p: nat)
    requires forall x :: x in s ==> x < p
    ensures |s| <= p
  {
    if p > 0 {
      SmallSet(s - {p - 1}, p - 1);
    } else {
      assert s == {};
    }
  }

  /** With a prime number of slots the probe sequence visits every one. */
  lemma EverySlot(start: nat, d: nat, p: nat, s: nat) returns (n: nat)
    requires Prime(p) && start < p && 0 < d < p && s < p
    ensures n < p && Probe(start, d, p, n) == s
  {
    VisitedSize(start, d, p, p);
    if s !in Visited(start, d, p, p) {
      SmallSet(Visited(start, d, p, p) + {s}, p);
    }
    n :| 0 <= n < p && Probe(start, d, p, n) == s;
  }

  // ---------- Hashing ----------

  /** Keys are C strings of ASCII characters, short enough for the `int` arithmetic of the hash. */
  predicate IsKey(key: string)
  {
    |key| < 0x100_0000 && forall i :: 0 <= i < |key| ==> 0 < key[i] as int < 128
  }

  /** The code of the character at `i`, 0 for the terminating one. */
  function CodeAt(key: string, i: nat): nat
  {
    if i < |key| then key[i] as nat else 0
  }

  /** No `int` overflows in the hash of a key. */
  lemma NoIntOverflow(key: string, i: nat)
    requires IsKey(key) && 1 <= i < |key|
    ensures CodeAt(key, i) * i < 0x8000_0000
    ensures Shl(CodeAt(key, i) + CodeAt(key, i - 1), CodeAt(key, i) * i % 24) < 0x8000_0000
  {
    MulMono(i, CodeAt(key, i), 127);
    assert Pow2(3) == 8 && Pow2(7) == 16 * Pow2(3) && Pow2(11) == 16 * Pow2(7) && Pow2(15) == 16 * Pow2(11);
    assert Pow2(19) == 16 * Pow2(15) && Pow2(23) == 16 * Pow2(19) == 0x80_0000;
    ShlIsProduct(CodeAt(key, i) + CodeAt(key, i - 1), CodeAt(key, i) * i % 24);
    Pow2Mono(CodeAt(key, i) * i % 24, 23);
    MulMono(CodeAt(key, i) + CodeAt(key, i - 1), Pow2(CodeAt(key, i) * i % 24), 0x80_0000);
  }

  lemma {:induction false} ShlIsProduct(v: nat, n: nat)
    ensures Shl(v, n) == v * Pow2(n)
  {
    if n > 0 {
      ShlIsProduct(v, n - 1);
      assert v * (2 * Pow2(n - 1)) == 2 * (v * Pow2(n - 1));
    }
  }

  /** The hash number of the first `n` characters, in an unsigned long of `width` bits. */
  function HashNum(key: string, n: nat, width: nat): nat
  {
    if n <= 1 then CodeAt(key, 0)
    else
      var i := n - 1;
      (HashNum(key, i, width) + Shl(CodeAt(key, i) + CodeAt(key, i - 1), CodeAt(key, i) * i % 24)) % Pow2(width)
  }

  function Start(key: string, p: nat, width: nat): (s: nat)
    requires p >= 2
    ensures s < p
  {
    HashNum(key, |key|, width) % 0x1_0000_0000 % p
  }

  function Decrement(key: string, p: nat, width: nat): (d: nat)
    requires p >= 2
    ensures 0 < d < p
  {
    1 + HashNum(key, |key|, width) % (p - 1)
  }

  /** The slot of the key after `n` steps. */
  function Slot(key: string, p: nat, width: nat, n: nat): (s: nat)
    requires p >= 2
    ensures s < p
  {
    Probe(Start(key, p, width), Decrement(key, p, width), p, n)
  }

  // ---------- The table ----------

  type Table = seq<Option<string>>

  /** The first `n` slots of the key hold other keys. */
  ghost predicate Passed(t: Table, p: nat, width: nat, key: string, n: nat)
    requires 2 <= p <= |t|
  {
    forall m :: 0 <= m < n ==> t[Slot(key, p, width, m)].Some? && t[Slot(key, p, width, m)].value != key
  }

  /** The key can be found at `s`. */
  ghost predicate Found(t: Table, p: nat, width: nat, key: string, s: nat, n: nat)
    requires 2 <= p <= |t|
  {
    s == Slot(key, p, width, n) && t[s] == Some(key) && Passed(t, p, width, key, n)
  }

  ghost predicate Findable(t: Table, p: nat, width: nat, s: nat)
    requires 2 <= p <= |t| && s < p
  {
    t[s].Some? ==> exists n: nat :: Found(t, p, width, t[s].value, s, n)
  }

  ghost predicate Valid(t: Table, p: nat, width: nat)
  {
    2 <= p <= |t| && forall s :: 0 <= s < p ==> Findable(t, p, width, s)
  }

  /** A key is in one slot only. */
  lemma OneSlot(t: Table, p: nat, width: nat, key: string, i: nat, j: nat)
    requires Valid(t, p, width) && i < p && j < p && t[i] == Some(key) && t[j] == Some(key)
    ensures i == j
  {
    assert Findable(t, p, width, i) && Findable(t, p, width, j);
    var m: nat :| Found(t, p, width, key, i, m);
    var n: nat :| Found(t, p, width, key, j, n);
  }

  /** An empty slot after keys that are all different: the key is nowhere. */
  lemma Absent(t: Table, p: nat, width: nat, key: string, n: nat, s: nat)
    requires Valid(t, p, width) && Passed(t, p, width, key, n) && t[Slot(key, p, width, n)].None? && s < p
    ensures t[s] != Some(key)
  {
    if t[s] == Some(key) {
      assert Findable(t, p, width, s);
      var m: nat :| Found(t, p, width, key, s, m);
    }
  }

  /** Filling the first empty slot of a key keeps all keys findable. */
  lemma FillKeeps(t: Table, p: nat, width: nat, key: string, n: nat)
    requires Valid(t, p, width) && Passed(t, p, width, key, n) && t[Slot(key, p, width, n)].None?
    ensures Valid(t[Slot(key, p, width, n) := Some(key)], p, width)
  {
    hide Slot;
    var at := Slot(key, p, width, n);
    var t' := t[at := Some(key)];
    forall s | 0 <= s < p
      ensures Findable(t', p, width, s)
    {
      if s == at {
        assert Found(t', p, width, key, s, n);
      } else if t[s].Some? {
        assert Findable(t, p, width, s);
        var m: nat :| Found(t, p, width, t[s].value, s, m);
        assert Found(t', p, width, t[s].value, s, m);
      }
    }
  }

  /** A search for the key ends: a slot is empty or holds it. */
  ghost predicate HasPlace(t: Table, p: nat, key: string)
  {
    p <= |t| && exists s :: 0 <= s < p && (t[s].None? || t[s] == Some(key))
  }

  /** The probe sequence arrives at an empty slot or the key exactly if there is one. */
  lemma SearchEndsIff(t: Table, p: nat, width: nat, key: string)
    requires Prime(p) && p <= |t|
    ensures HasPlace(t, p, key)
      <==> exists n: nat :: t[Slot(key, p, width, n)].None? || t[Slot(key, p, width, n)] == Some(key)
  {
    if HasPlace(t, p, key) {
      var s :| 0 <= s < p && (t[s].None? || t[s] == Some(key));
      var n := EverySlot(Start(key, p, width), Decrement(key, p, width), p, s);
      assert Slot(key, p, width, n) == s;
    }
  }

  class NameTable {
    const prime: nat
    const width: nat
    const slots: array<Option<string>>

    constructor (prime: nat, width: nat)
      requires Prime(prime)
      ensures this.prime == prime && this.width == width && Sized() && Valid(slots[..], prime, width)
      ensures fresh(slots) && forall s :: 0 <= s < slots.Length ==> slots[s].None?
    {
      this.prime, this.width := prime, width;
      slots := new Option<string>[prime + 1](_ => None);
    }

    ghost predicate Sized()
    {
      Prime(prime) && slots.Length == prime + 1
    }

    /** Where the search for a key starts, and by how much it goes down. */
    method MakeHash(key: string) returns (start: nat, decrement: nat)
      requires prime >= 2 && IsKey(key)
      ensures start == Start(key, prime, width) && decrement == Decrement(key, prime, width)
    {
      var hashNum, i := CodeAt(key, 0), 1;
      while i < |key|
        invariant 1 <= i && (i <= |key| || |key| == 0) && hashNum == HashNum(key, if |key| == 0 then 0 else i, width)
      {
        hashNum := (hashNum + Shl(CodeAt(key, i) + CodeAt(key, i - 1), CodeAt(key, i) * i % 24)) % Pow2(width);
        i := i + 1;
      }
      start := hashNum % 0x1_0000_0000 % prime;
      decrement := 1 + hashNum % (prime - 1);
    }

    /** The slot of the key, which is added if it is not there yet. */
    method SearchName(key: string) returns (index: nat)
      requires Sized() && Valid(slots[..], prime, width) && IsKey(key) && HasPlace(slots[..], prime, key)
      modifies slots
      ensures Valid(slots[..], prime, width) && index < prime && slots[index] == Some(key)
      ensures slots[..] == old(slots[..])[index := Some(key)]
      ensures old(slots[index]) == if exists s :: 0 <= s < prime && old(slots[s]) == Some(key) then Some(key) else None
    {
      hide Start, Decrement, HashNum, IsKey;
      ghost var t := slots[..];
      var probe, decrement := MakeHash(key);
      ghost var place :| 0 <= place < prime && (t[place].None? || t[place] == Some(key));
      ghost var last := EverySlot(probe, decrement, prime, place);
      ghost var n: nat := 0;
      while slots[probe].Some?
        invariant n <= last && probe == Slot(key, prime, width, n) && Passed(t, prime, width, key, n) && slots[..] == t
        decreases last - n
      {
        if slots[probe].value == key {
          return probe;
        }
        probe := if probe < decrement then probe + prime - decrement else probe - decrement;
        n := n + 1;
      }
      forall s | 0 <= s < prime
        ensures old(slots[s]) != Some(key)
      {
        Absent(t, prime, width, key, n, s);
      }
      FillKeeps(t, prime, width, key, n);
      slots[probe] := Some(key);
      index := probe;
    }
  }

  // ---------- A run ----------

  /** The keys of a list. */
  function KeySet(keys: seq<string>): set<string>
  {
    set k <- keys
  }

  /** Every slot that is filled has one of these keys. */
  ghost predicate OnlyKeys(t: Table, p: nat, ks: set<string>)
  {
    p <= |t| && forall s :: 0 <= s < p && t[s].Some? ==> t[s].value in ks
  }

  /** There are no more filled slots than keys. */
  lemma {:induction false} FilledBound(t: Table, p: nat, width: nat, filled: set<nat>, ks: set<string>)
    requires Valid(t, p, width) && forall s :: s in filled ==> s < p && t[s].Some? && t[s].value in ks
    ensures |filled| <= |ks|
  {
    if filled != {} {
      var s :| s in filled;
      var key := t[s].value;
      forall s' | s' in filled - {s}
        ensures t[s'].value in ks - {key}
      {
        if t[s'].value == key {
          OneSlot(t, p, width, key, s, s');
        }
      }
      FilledBound(t, p, width, filled - {s}, ks - {key});
    }
  }

  lemma {:induction false} NumbersBelow(p: nat) returns (all: set<nat>)
    ensures |all| == p && forall s: nat :: s in all <==> s < p
  {
    all := {};
    if p > 0 {
      all := NumbersBelow(p - 1);
      all := all + {p - 1};
    }
  }

  /** A key that is new is not among more than `p` keys, so a slot is empty. */
  lemma PlaceLeft(t: Table, p: nat, width: nat, ks: set<string>, key: string)
    requires Valid(t, p, width) && OnlyKeys(t, p, ks) && |ks + {key}| <= p
    requires key in ks ==> exists s :: 0 <= s < p && t[s] == Some(key)
    ensures HasPlace(t, p, key)
  {
    assert key !in ks ==> |ks + {key}| == |ks| + 1;
    if key !in ks && !HasPlace(t, p, key) {
      var all := NumbersBelow(p);
      FilledBound(t, p, width, all, ks);
    }
  }

  /** Entries stay where they are. */
  ghost predicate Stays(t: Table, u: Table)
  {
    |t| == |u| && forall s :: 0 <= s < |t| && t[s].Some? ==> u[s] == t[s]
  }

  /** Each key is at its index. */
  ghost predicate Interned(t: Table, keys: seq<string>, indices: seq<nat>)
  {
    |indices| == |keys| && forall i :: 0 <= i < |keys| ==> indices[i] < |t| && t[indices[i]] == Some(keys[i])
  }

  lemma KeysSoFar(keys: seq<string>, n: nat)
    requires n < |keys|
    ensures KeySet(keys[..n]) + {keys[n]} == KeySet(keys[..n + 1]) && |KeySet(keys[..n]) + {keys[n]}| <= |KeySet(keys)|
  {
    assert keys[..n + 1] == keys[..n] + [keys[n]];
    SubsetSize(KeySet(keys[..n]) + {keys[n]}, KeySet(keys));
  }

  lemma {:induction false} SubsetSize(a: set<string>, b: set<string>)
    requires a <= b
    ensures |a| <= |b|
  {
    if a != {} {
      var x :| x in a;
      SubsetSize(a - {x}, b - {x});
    }
  }

  lemma KnownKey(t: Table, keys: seq<string>, indices: seq<nat>, n: nat, p: nat)
    requires n < |keys| && p <= |t| && Interned(t, keys[..n], indices) && forall i :: 0 <= i < n ==> indices[i] < p
    ensures keys[n] in KeySet(keys[..n]) ==> exists s :: 0 <= s < p && t[s] == Some(keys[n])
  {
    if keys[n] in KeySet(keys[..n]) {
      var i :| 0 <= i < n && keys[..n][i] == keys[n];
      assert t[indices[i]] == Some(keys[n]);
    }
  }

  lemma Extended(t: Table, u: Table, keys: seq<string>, indices: seq<nat>, n: nat, index: nat, p: nat)
    requires n < |keys| && index < p <= |t| && u == t[index := Some(keys[n])] && (t[index].Some? ==> t[index] == u[index])
    requires Interned(t, keys[..n], indices) && OnlyKeys(t, p, KeySet(keys[..n]))
    ensures Interned(u, keys[..n + 1], indices + [index]) && OnlyKeys(u, p, KeySet(keys[..n + 1])) && Stays(t, u)
  {
    assert keys[..n + 1] == keys[..n] + [keys[n]];
  }

  /** No entry moves from one table to a later one. */
  ghost predicate AllStay(tables: seq<Table>)
  {
    forall i, j :: 0 <= i <= j < |tables| ==> Stays(tables[i], tables[j])
  }

  lemma StayOn(before: seq<Table>, t: Table)
    requires before != [] && AllStay(before) && Stays(before[|before| - 1], t)
    ensures AllStay(before + [t])
  {
    var after := before + [t];
    assert forall i :: 0 <= i < |before| ==> after[i] == before[i];
  }

  lemma NothingInterned(t: Table, p: nat, keys: seq<string>)
    requires p <= |t| && forall s :: 0 <= s < |t| ==> t[s].None?
    ensures Interned(t, keys[..0], []) && OnlyKeys(t, p, KeySet(keys[..0])) && AllStay([t])
  {
  }

  lemma SameIndex(t: Table, p: nat, width: nat, keys: seq<string>, indices: seq<nat>)
    requires Valid(t, p, width) && Interned(t, keys, indices) && forall i :: 0 <= i < |keys| ==> indices[i] < p
    ensures forall i, j :: 0 <= i < |keys| && 0 <= j < |keys| ==> (indices[i] == indices[j] <==> keys[i] == keys[j])
  {
    forall i, j | 0 <= i < |keys| && 0 <= j < |keys|
      ensures indices[i] == indices[j] <==> keys[i] == keys[j]
    {
      if keys[i] == keys[j] {
        OneSlot(t, p, width, keys[i], indices[i], indices[j]);
      }
    }
  }

  /** Interns keys one after the other; `tables` are the contents before, between and after. */
  method InternAll(prime: nat, width: nat, keys: seq<string>) returns (indices: seq<nat>, ghost tables: seq<Table>)
    requires Prime(prime) && |KeySet(keys)| <= prime && forall k :: k in keys ==> IsKey(k)
    ensures |indices| == |keys|
    ensures forall i, j :: 0 <= i < |keys| && 0 <= j < |keys| ==> (indices[i] == indices[j] <==> keys[i] == keys[j])
    ensures |tables| == |keys| + 1 && AllStay(tables)
    ensures Interned(tables[|keys|], keys, indices)
  {
    hide Interned, OnlyKeys, AllStay, Stays, KeySet, Valid, IsKey, HasPlace;
    var table := new NameTable(prime, width);
    indices, tables := [], [table.slots[..]];
    NothingInterned(table.slots[..], prime, keys);
    for n := 0 to |keys|
      invariant table.Sized() && Valid(table.slots[..], prime, width) && fresh(table.slots)
      invariant table.prime == prime && table.width == width
      invariant |tables| == n + 1 && tables[n] == table.slots[..] && AllStay(tables)
      invariant Interned(table.slots[..], keys[..n], indices) && |indices| == n && forall i :: 0 <= i < n ==> indices[i] < prime
      invariant OnlyKeys(table.slots[..], prime, KeySet(keys[..n]))
    {
      ghost var t := table.slots[..];
      KeysSoFar(keys, n);
      KnownKey(t, keys, indices, n, prime);
      PlaceLeft(t, prime, width, KeySet(keys[..n]), keys[n]);
      var index := table.SearchName(keys[n]);
      Extended(t, table.slots[..], keys, indices, n, index, prime);
      StayOn(tables, table.slots[..]);
      indices, tables := indices + [index], tables + [table.slots[..]];
    }
    assert keys[..|keys|] == keys;
    SameIndex(table.slots[..], prime, width, keys, indices);
  }
}
