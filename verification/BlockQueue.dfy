/** The queue of blocks to be written: a list sorted by block number, with a hint where to insert. */
module BlockQueues {
  import opened Bits

  /** Bytes for the blocks from `block` on, from memory or from a part of a file. */
  datatype Piece = Piece(block: nat, data: seq<byte>, fromFile: bool)

  // ---------- Plain sorted insertion ----------

  predicate Sorted(s: seq<Piece>)
  {
    forall i, j :: 0 <= i < j < |s| ==> s[i].block <= s[j].block
  }

  /** Before the first entry that is not less. */
  function Place(s: seq<Piece>, x: Piece): seq<Piece>
  {
    if s == [] || s[0].block >= x.block then [x] + s else [s[0]] + Place(s[1..], x)
  }

  /** Plain insertion from the front. Only an equal first entry stays before the new one. */
  function Insert(s: seq<Piece>, x: Piece): seq<Piece>
  {
    if s == [] || s[0].block > x.block then [x] + s else [s[0]] + Place(s[1..], x)
  }

  /** Plain insertion, one piece after the other. */
  function InsertAll(s: seq<Piece>): seq<Piece>
  {
    if s == [] then [] else Insert(InsertAll(s[..|s| - 1]), s[|s| - 1])
  }

  lemma {:induction false} PlaceAt(s: seq<Piece>, x: Piece, k: nat)
    requires k <= |s| && forall j :: 0 <= j < k ==> s[j].block < x.block
    requires k < |s| ==> s[k].block >= x.block
    ensures Place(s, x) == s[..k] + [x] + s[k..]
  {
    if k > 0 {
      PlaceAt(s[1..], x, k - 1);
      assert s[..k] == [s[0]] + s[1..][..k - 1];
    } else {
      assert s[..0] == [] && s[0..] == s;
    }
  }

  lemma InsertFront(s: seq<Piece>, x: Piece)
    requires s == [] || s[0].block > x.block
    ensures Insert(s, x) == [x] + s
  {
  }

  lemma Associate(a: seq<Piece>, b: seq<Piece>, c: seq<Piece>, d: seq<Piece>)
    ensures a + (b + c + d) == a + b + c + d
  {
  }

  /** Insertion behind entry `k`, wherever the search for it began. */
  lemma InsertBehind(s: seq<Piece>, x: Piece, k: nat)
    requires Sorted(s) && k < |s| && s[0].block <= x.block && (k > 0 ==> s[k].block < x.block)
    requires k + 1 < |s| ==> s[k + 1].block >= x.block
    ensures Insert(s, x) == s[..k + 1] + [x] + s[k + 1..]
  {
    var t := s[1..];
    forall j | 0 <= j < k
      ensures t[j].block < x.block
    {
      assert s[j + 1].block <= s[k].block;
    }
    hide Sorted, Place;
    PlaceAt(t, x, k);
    Associate([s[0]], t[..k], [x], t[k..]);
    assert s[..k + 1] == [s[0]] + t[..k];
    assert s[k + 1..] == t[k..];
  }

  /** No block of `s` is less than `b`. */
  predicate Below(b: nat, s: seq<Piece>)
  {
    forall i :: 0 <= i < |s| ==> b <= s[i].block
  }

  lemma SortedCons(x: Piece, s: seq<Piece>)
    ensures Sorted([x] + s) <==> Sorted(s) && Below(x.block, s)
  {
    if Sorted([x] + s) {
      forall i, j | 0 <= i < j < |s|
        ensures s[i].block <= s[j].block
      {
        assert ([x] + s)[i + 1].block <= ([x] + s)[j + 1].block;
      }
      forall i | 0 <= i < |s|
        ensures x.block <= s[i].block
      {
        assert ([x] + s)[0].block <= ([x] + s)[i + 1].block;
      }
    }
  }

  lemma {:induction false} PlaceBelow(s: seq<Piece>, x: Piece, b: nat)
    requires Below(b, s) && b <= x.block
    ensures Below(b, Place(s, x))
  {
    if s != [] && s[0].block < x.block {
      PlaceBelow(s[1..], x, b);
    }
  }

  lemma {:induction false} PlaceSorted(s: seq<Piece>, x: Piece)
    requires Sorted(s)
    ensures Sorted(Place(s, x))
  {
    hide Sorted;
    if s == [] || s[0].block >= x.block {
      SortedFrom(s, x.block);
      SortedCons(x, s);
    } else {
      assert s == [s[0]] + s[1..];
      SortedCons(s[0], s[1..]);
      PlaceSorted(s[1..], x);
      PlaceBelow(s[1..], x, s[0].block);
      SortedCons(s[0], Place(s[1..], x));
    }
  }

  lemma SortedFrom(s: seq<Piece>, b: nat)
    requires Sorted(s) && (s == [] || b <= s[0].block)
    ensures Below(b, s)
  {
  }

  lemma {:induction false} PlaceContents(s: seq<Piece>, x: Piece)
    ensures multiset(Place(s, x)) == multiset(s) + multiset{x}
  {
    if s != [] && s[0].block < x.block {
      PlaceContents(s[1..], x);
      assert s == [s[0]] + s[1..];
    }
  }

  /** Insertion keeps the order. */
  lemma InsertSorted(s: seq<Piece>, x: Piece)
    requires Sorted(s)
    ensures Sorted(Insert(s, x))
  {
    hide Sorted;
    if s == [] || s[0].block > x.block {
      SortedFrom(s, x.block);
      SortedCons(x, s);
    } else {
      assert s == [s[0]] + s[1..];
      SortedCons(s[0], s[1..]);
      PlaceSorted(s[1..], x);
      PlaceBelow(s[1..], x, s[0].block);
      SortedCons(s[0], Place(s[1..], x));
    }
  }

  lemma InsertContents(s: seq<Piece>, x: Piece)
    ensures multiset(Insert(s, x)) == multiset(s) + multiset{x}
  {
    if s != [] && s[0].block <= x.block {
      PlaceContents(s[1..], x);
      assert s == [s[0]] + s[1..];
    }
  }

  /** Plain insertion sorts the pieces. */
  lemma {:induction false} InsertAllSorts(s: seq<Piece>)
    ensures Sorted(InsertAll(s)) && multiset(InsertAll(s)) == multiset(s)
  {
    hide Sorted, Insert;
    if s != [] {
      var front := s[..|s| - 1];
      InsertAllSorts(front);
      InsertSorted(InsertAll(front), s[|s| - 1]);
      InsertContents(InsertAll(front), s[|s| - 1]);
      assert s == front + [s[|s| - 1]];
    } else {
      SortedNil();
    }
  }

  lemma SortedNil()
    ensures Sorted([])
  {
  }

  predicate Distinct(s: seq<Piece>)
  {
    forall i, j :: 0 <= i < j < |s| ==> s[i].block != s[j].block
  }

  lemma SameHead(s: seq<Piece>, t: seq<Piece>)
    requires Sorted(s) && Sorted(t) && multiset(s) == multiset(t) && Distinct(s) && s != [] && t != []
    ensures s[0] == t[0]
  {
    assert s[0] in multiset(s) && t[0] in multiset(t);
    var i := In(t, s[0]);
    var j := In(s, t[0]);
    assert t[0].block <= t[i].block && s[0].block <= s[j].block;
  }

  lemma Tail(s: seq<Piece>)
    requires s != []
    ensures multiset(s[1..]) == multiset(s) - multiset{s[0]} && (Sorted(s) ==> Sorted(s[1..]))
    ensures Distinct(s) ==> Distinct(s[1..])
  {
    assert s == [s[0]] + s[1..];
  }

  /** A sorted list of different block numbers is determined by what it contains. */
  lemma {:induction false} SortedUnique(s: seq<Piece>, t: seq<Piece>)
    requires Sorted(s) && Sorted(t) && multiset(s) == multiset(t) && Distinct(s)
    ensures s == t
  {
    assert |s| == |multiset(s)| == |multiset(t)| == |t|;
    if s != [] {
      SameHead(s, t);
      hide Sorted, Distinct;
      Tail(s);
      Tail(t);
      SortedUnique(s[1..], t[1..]);
      assert s == [s[0]] + s[1..] && t == [t[0]] + t[1..];
    }
  }

  lemma In(t: seq<Piece>, x: Piece) returns (i: nat)
    requires x in multiset(t)
    ensures i < |t| && t[i] == x
  {
    i :| 0 <= i < |t| && t[i] == x;
  }

  lemma {:induction false} PlaceIsSomewhere(s: seq<Piece>, x: Piece) returns (k: nat)
    ensures k <= |s| && Place(s, x) == s[..k] + [x] + s[k..]
  {
    k := 0;
    if s != [] && s[0].block < x.block {
      k := PlaceIsSomewhere(s[1..], x);
      Associate([s[0]], s[1..][..k], [x], s[1..][k..]);
      k := k + 1;
      assert s[..k] == [s[0]] + s[1..][..k - 1] && s[k..] == s[1..][k - 1..];
    }
  }

  lemma InsertDistinct(s: seq<Piece>, x: Piece)
    requires Distinct(s + [x])
    ensures Distinct(Insert(s, x))
  {
    var k := 0;
    if s != [] && s[0].block <= x.block {
      k := PlaceIsSomewhere(s[1..], x);
      Associate([s[0]], s[1..][..k], [x], s[1..][k..]);
      k := k + 1;
      assert s[..k] == [s[0]] + s[1..][..k - 1] && s[k..] == s[1..][k - 1..];
    }
    assert Insert(s, x) == s[..k] + [x] + s[k..];
    MoveDistinct(s, x, k);
  }

  lemma MoveDistinct(s: seq<Piece>, x: Piece, k: nat)
    requires k <= |s| && Distinct(s + [x])
    ensures Distinct(s[..k] + [x] + s[k..])
  {
    var t, u := s[..k] + [x] + s[k..], s + [x];
    forall i, j | 0 <= i < j < |t|
      ensures t[i].block != t[j].block
    {
      var a, b := if i < k then i else if i == k then |s| else i - 1, if j < k then j else if j == k then |s| else j - 1;
      assert t[i] == u[a] && t[j] == u[b];
      assert a < b ==> u[a].block != u[b].block;
      assert b < a ==> u[b].block != u[a].block;
    }
  }

  lemma {:induction false} InsertAllDistinct(s: seq<Piece>)
    requires Distinct(s)
    ensures Distinct(InsertAll(s))
  {
    hide Insert;
    if s != [] {
      var front, x := s[..|s| - 1], s[|s| - 1];
      InsertAllDistinct(front);
      InsertAllSorts(front);
      var sorted := InsertAll(front);
      forall i | 0 <= i < |sorted|
        ensures sorted[i].block != x.block
      {
        assert sorted[i] in multiset(sorted);
        var j := In(front, sorted[i]);
        assert s[j] == front[j];
      }
      InsertDistinct(sorted, x);
    }
  }

  /** The list does not depend on the order in which pieces are queued. */
  lemma AnyOrder(s: seq<Piece>, t: seq<Piece>)
    requires multiset(s) == multiset(t) && Distinct(s)
    ensures InsertAll(s) == InsertAll(t)
  {
    InsertAllSorts(s);
    InsertAllSorts(t);
    InsertAllDistinct(s);
    SortedUnique(InsertAll(s), InsertAll(t));
  }

  // ---------- The linked list ----------

  class DataBlock {
    const piece: Piece
    var next: DataBlock?

    constructor (piece: Piece)
      ensures this.piece == piece && next == null
    {
      this.piece, next := piece, null;
    }
  }

  function Pieces(nodes: seq<DataBlock>): (s: seq<Piece>)
    ensures |s| == |nodes|
  {
    seq(|nodes|, i requires 0 <= i < |nodes| => nodes[i].piece)
  }

  /** The entry after `nodes[i]`. */
  function After(nodes: seq<DataBlock>, i: nat): DataBlock?
  {
    if i + 1 < |nodes| then nodes[i + 1] else null
  }

  predicate AllDifferent(nodes: seq<DataBlock>)
  {
    forall i, j :: 0 <= i < j < |nodes| ==> nodes[i] != nodes[j]
  }

  lemma InsertedNodes(nodes: seq<DataBlock>, x: DataBlock, k: nat, more: seq<DataBlock>)
    requires k < |nodes| && AllDifferent(nodes) && x !in nodes && more == nodes[..k + 1] + [x] + nodes[k + 1..]
    ensures AllDifferent(more) && Pieces(more) == Pieces(nodes)[..k + 1] + [x.piece] + Pieces(nodes)[k + 1..]
    ensures forall i :: 0 <= i < |more| ==> more[i] == (if i <= k then nodes[i] else if i == k + 1 then x else nodes[i - 1])
    ensures forall i :: 0 <= i < k ==> After(more, i) == After(nodes, i)
    ensures After(more, k) == x && After(more, k + 1) == After(nodes, k)
    ensures forall i :: k + 1 < i < |more| ==> After(more, i) == After(nodes, i - 1)
  {
    assert Pieces(more) == Pieces(nodes)[..k + 1] + [x.piece] + Pieces(nodes)[k + 1..];
    forall i, j | 0 <= i < j < |more|
      ensures more[i] != more[j]
    {
      assert i != k + 1 && j != k + 1 ==> nodes[if i <= k then i else i - 1] != nodes[if j <= k then j else j - 1];
    }
  }

  class BlockQueue {
    var first: DataBlock?
    var lastUsed: DataBlock?
    /** The entries of the list in order. */
    ghost var nodes: seq<DataBlock>

    constructor ()
      ensures Valid() && nodes == []
    {
      first, lastUsed, nodes := null, null, [];
    }

    ghost predicate Linked()
      reads this, nodes
    {
      && (if nodes == [] then first == null else first == nodes[0])
      && (forall i :: 0 <= i < |nodes| ==> nodes[i].next == After(nodes, i))
      && AllDifferent(nodes)
    }

    ghost predicate Valid()
      reads this, nodes
    {
      Linked() && Sorted(Contents()) && (lastUsed != null ==> lastUsed in nodes)
    }

    ghost function Own(): set<object>
      reads this
    {
      set d <- nodes
    }

    ghost function Contents(): seq<Piece>
      reads this
    {
      Pieces(nodes)
    }

    method Prepend(newDb: DataBlock)
      requires Valid() && newDb !in nodes && newDb.next == null && (first == null || first.piece.block > newDb.piece.block)
      modifies this, newDb
      ensures Linked() && nodes == [newDb] + old(nodes) && Contents() == [newDb.piece] + old(Contents())
      ensures lastUsed == old(lastUsed)
    {
      newDb.next := first;
      first, nodes := newDb, [newDb] + nodes;
      assert forall i :: 1 <= i < |nodes| ==> nodes[i] == old(nodes)[i - 1];
      assert forall i :: 0 <= i < |nodes| ==> nodes[i].next == After(nodes, i);
      assert Contents() == [newDb.piece] + old(Contents());
    }

    method Append(db: DataBlock, newDb: DataBlock, ghost k: nat)
      requires Linked() && newDb !in nodes && newDb.next == null && k < |nodes| && db == nodes[k]
      modifies this`nodes, db, newDb
      ensures Linked() && nodes == old(nodes)[..k + 1] + [newDb] + old(nodes)[k + 1..]
      ensures Contents() == old(Contents())[..k + 1] + [newDb.piece] + old(Contents())[k + 1..]
    {
      ghost var was := nodes;
      if db.next == null {
        db.next := newDb;
      } else {
        newDb.next := db.next;
        db.next := newDb;
      }
      nodes := was[..k + 1] + [newDb] + was[k + 1..];
      InsertedNodes(was, newDb, k, nodes);
    }

    /** The entry to insert behind. */
    method Search(x: Piece) returns (db: DataBlock, ghost k: nat)
      requires Valid() && first != null && first.piece.block <= x.block
      ensures k < |nodes| && db == nodes[k] && (k > 0 ==> nodes[k].piece.block < x.block)
      ensures k + 1 < |nodes| ==> nodes[k + 1].piece.block >= x.block
    {
      db, k := first, 0;
      if lastUsed != null && x.block > lastUsed.piece.block {
        db := lastUsed;
        k :| 0 <= k < |nodes| && nodes[k] == lastUsed;
      }
      while db.next != null && db.next.piece.block < x.block
        invariant k < |nodes| && db == nodes[k] && (k > 0 ==> nodes[k].piece.block < x.block)
        decreases |nodes| - k
      {
        assert nodes[k].next == db.next;
        db, k := db.next, k + 1;
      }
      assert nodes[k].next == db.next;
    }

    /** Queues an entry, searching from the one queued last if that one has a lower number. */
    method QueueDb(newDb: DataBlock)
      requires Valid() && newDb !in nodes && newDb.next == null
      modifies this, Own(), newDb
      ensures Valid() && Contents() == Insert(old(Contents()), newDb.piece)
      ensures Own() <= old(Own()) + {newDb}
    {
      ghost var s := Contents();
      InsertSorted(s, newDb.piece);
      hide Insert, Sorted, Pieces;
      if first == null || first.piece.block > newDb.piece.block {
        InsertFront(s, newDb.piece);
        Prepend(newDb);
        return;
      }
      var db, k := Search(newDb.piece);
      InsertBehind(s, newDb.piece, k);
      lastUsed := newDb;
      Append(db, newDb, k);
    }

    /** Queues bytes in memory or in a file. */
    method QueueData(piece: Piece)
      requires Valid()
      modifies this, Own()
      ensures Valid() && Contents() == Insert(old(Contents()), piece)
      ensures fresh(Own() - old(Own()))
    {
      var db := new DataBlock(piece);
      QueueDb(db);
    }
  }

  /** Queues pieces in the order given. */
  method QueueAll(pieces: seq<Piece>) returns (queue: BlockQueue)
    ensures queue.Valid() && queue.Contents() == InsertAll(pieces)
    ensures fresh(queue) && fresh(queue.Own())
  {
    queue := new BlockQueue();
    for i := 0 to |pieces|
      invariant queue.Valid() && queue.Contents() == InsertAll(pieces[..i])
      invariant fresh(queue) && fresh(queue.Own())
    {
      assert pieces[..i + 1][..i] == pieces[..i];
      queue.QueueData(pieces[i]);
    }
    assert pieces[..|pieces|] == pieces;
  }
}
