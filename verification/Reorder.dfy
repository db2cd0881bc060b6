/** The reorder stage: chunks arrive in any order and are written in the order of their labels. */
module Reorder {
  import opened DedupFormat
  import opened DedupFragment
  import opened BinHeap
  import opened SearchTree

  const INITIAL_SEARCH_TREE_SIZE := 4096

  // ---- Positions in the stream -------------------------------------------------------------------

  datatype Pos = Pos(l1: nat, l2: nat)

  predicate Before(x: Chunk, p: Pos) {
    x.l1 < p.l1 || (x.l1 == p.l1 && x.l2 < p.l2)
  }

  /** Is x one of the chunks of the groups, with its proper label? */
  ghost predicate IsChunk(groups: seq<seq<Bytes>>, x: Chunk) {
    x.l1 < |groups| && x.l2 < |groups[x.l1]| && x == Labelled(x.l1, groups[x.l1])[x.l2]
  }

  ghost predicate PosOk(groups: seq<seq<Bytes>>, p: Pos) {
    (p.l1 < |groups| && p.l2 < |groups[p.l1]|) || p == Pos(|groups|, 0)
  }

  ghost predicate NoneEmpty(groups: seq<seq<Bytes>>) {
    forall i :: 0 <= i < |groups| ==> groups[i] != []
  }

  ghost function Expected(groups: seq<seq<Bytes>>, p: Pos): Chunk
    requires p.l1 < |groups| && p.l2 < |groups[p.l1]|
  {
    Labelled(p.l1, groups[p.l1])[p.l2]
  }

  function Succ(groups: seq<seq<Bytes>>, p: Pos): Pos
    requires p.l1 < |groups| && p.l2 < |groups[p.l1]|
  {
    if p.l2 + 1 == |groups[p.l1]| then Pos(p.l1 + 1, 0) else Pos(p.l1, p.l2 + 1)
  }

  /** The chunks of the first n groups in label order. */
  ghost function Front(groups: seq<seq<Bytes>>, n: nat): seq<Chunk>
    requires n <= |groups|
  {
    if n == 0 then [] else Front(groups, n - 1) + Labelled(n - 1, groups[n - 1])
  }

  ghost function UpTo(groups: seq<seq<Bytes>>, p: Pos): seq<Chunk>
    requires PosOk(groups, p)
  {
    Front(groups, p.l1) + (if p.l1 < |groups| then Labelled(p.l1, groups[p.l1])[..p.l2] else [])
  }

  lemma UpToSucc(groups: seq<seq<Bytes>>, p: Pos)
    requires p.l1 < |groups| && p.l2 < |groups[p.l1]| && NoneEmpty(groups)
    ensures PosOk(groups, p) && PosOk(groups, Succ(groups, p))
    ensures UpTo(groups, Succ(groups, p)) == UpTo(groups, p) + [Expected(groups, p)]
  {
    var all := Labelled(p.l1, groups[p.l1]);
    assert all[..p.l2 + 1] == all[..p.l2] + [all[p.l2]];
    if p.l2 + 1 == |groups[p.l1]| {
      assert all[..p.l2 + 1] == all;
      assert p.l1 + 1 < |groups| ==> groups[p.l1 + 1] != [];
      if p.l1 + 1 < |groups| { assert Labelled(p.l1 + 1, groups[p.l1 + 1])[..0] == []; }
    }
  }

  lemma BeforeSucc(groups: seq<seq<Bytes>>, p: Pos, x: Chunk)
    requires p.l1 < |groups| && p.l2 < |groups[p.l1]| && IsChunk(groups, x)
    ensures Before(x, Succ(groups, p)) <==> Before(x, p) || x == Expected(groups, p)
    ensures IsChunk(groups, Expected(groups, p)) && !Before(Expected(groups, p), p)
  {
  }

  // ---- The cache ---------------------------------------------------------------------------------

  /** The chunks of piece k that have arrived and are not before p. */
  ghost function Waiting(arrived: set<Chunk>, p: Pos, k: nat): set<Chunk> {
    set x | x in arrived && x.l1 == k && !Before(x, p)
  }

  ghost predicate HeapOk(queue: PriorityQueue, waiting: set<Chunk>)
    reads queue
  {
    queue.Valid() && queue.Contents() == multiset(waiting)
  }

  ghost predicate Apart(elems: Table) {
    forall j, k :: j in elems && k in elems && elems[j] == elems[k] ==> j == k
  }

  /** One heap for each piece with waiting chunks, holding exactly those. */
  ghost predicate CacheOk(elems: Table, arrived: set<Chunk>, p: Pos)
    reads elems.Values
  {
    && Apart(elems)
    && (forall k :: k in elems <==> Waiting(arrived, p, k) != {})
    && forall k :: k in elems ==> HeapOk(elems[k], Waiting(arrived, p, k))
  }

  /** What the arrivals so far say about the chunk counts of the pieces. */
  ghost predicate CountsOk(groups: seq<seq<Bytes>>, perAnchor: map<nat, nat>, arrived: set<Chunk>) {
    forall k :: k in perAnchor ==> CountOk(groups, perAnchor[k], arrived, k)
  }

  ghost predicate CountOk(groups: seq<seq<Bytes>>, n: nat, arrived: set<Chunk>, k: nat) {
    k < |groups| && n == |groups[k]|
  }

  ghost predicate Known(groups: seq<seq<Bytes>>, perAnchor: map<nat, nat>, arrived: set<Chunk>) {
    forall x :: x in arrived && x.last ==> x.l1 in perAnchor
  }

  ghost predicate LastArrived(groups: seq<seq<Bytes>>, perAnchor: map<nat, nat>, arrived: set<Chunk>) {
    forall k :: k in perAnchor ==> exists x :: x in arrived && x.last && x.l1 == k
  }

  /** The values of the stage: what is written is the stream up to next, all of it has arrived, and the
      next chunk has not. */
  ghost predicate Progress(groups: seq<seq<Bytes>>, written: seq<Chunk>, next: Pos, arrived: set<Chunk>,
          perAnchor: map<nat, nat>) {
    && NoneEmpty(groups) && PosOk(groups, next) && written == UpTo(groups, next)
    && (forall x :: x in arrived ==> IsChunk(groups, x))
    && (forall x :: IsChunk(groups, x) && Before(x, next) ==> x in arrived)
    && CountsOk(groups, perAnchor, arrived) && Known(groups, perAnchor, arrived)
        && LastArrived(groups, perAnchor, arrived)
  }

  ghost predicate NextMissing(groups: seq<seq<Bytes>>, next: Pos, arrived: set<Chunk>) {
    next.l1 < |groups| && next.l2 < |groups[next.l1]| ==> Expected(groups, next) !in arrived
  }

  /** The array of counts, 0 where nothing is known. */
  function CountAt(perAnchor: map<nat, nat>, k: nat): nat {
    if k in perAnchor then perAnchor[k] else 0
  }

  /** Advancing past the written chunk. */
  function Advance(next: Pos, perAnchor: map<nat, nat>): Pos {
    if CountAt(perAnchor, next.l1) != 0 && next.l2 + 1 == CountAt(perAnchor, next.l1) then Pos(next.l1 + 1, 0)
    else Pos(next.l1, next.l2 + 1)
  }

  /** The stage advances exactly as the stream does, because a last chunk is counted when it arrives. */
  lemma AdvanceIsSucc(groups: seq<seq<Bytes>>, written: seq<Chunk>, next: Pos, arrived: set<Chunk>,
          perAnchor: map<nat, nat>)
    requires Progress(groups, written, next, arrived, perAnchor)
    requires next.l1 < |groups| && next.l2 < |groups[next.l1]| && Expected(groups, next) in arrived
    ensures Advance(next, perAnchor) == Succ(groups, next)
    ensures Progress(groups, written + [Expected(groups, next)], Succ(groups, next), arrived, perAnchor)
  {
    var x := Expected(groups, next);
    if next.l2 + 1 == |groups[next.l1]| { assert x.last; }
    UpToSucc(groups, next);
    forall y | IsChunk(groups, y) && Before(y, Succ(groups, next)) ensures y in arrived {
      BeforeSucc(groups, next, y);
    }
  }

  lemma WaitingSucc(groups: seq<seq<Bytes>>, next: Pos, arrived: set<Chunk>, k: nat)
    requires next.l1 < |groups| && next.l2 < |groups[next.l1]|
    requires forall x :: x in arrived ==> IsChunk(groups, x)
    ensures Waiting(arrived, Succ(groups, next), k) == Waiting(arrived, next, k) - {Expected(groups, next)}
  {
    forall x | x in arrived
      ensures x in Waiting(arrived, Succ(groups, next), k)
              <==> x in Waiting(arrived, next, k) - {Expected(groups, next)}
    {
      BeforeSucc(groups, next, x);
    }
  }

  lemma WaitingMore(next: Pos, arrived: set<Chunk>, x: Chunk, k: nat)
    requires !Before(x, next)
    ensures x.l1 == k ==> Waiting(arrived + {x}, next, k) == Waiting(arrived, next, k) + {x}
    ensures x.l1 != k ==> Waiting(arrived + {x}, next, k) == Waiting(arrived, next, k)
  {
  }

  // ---- Changing one heap -------------------------------------------------------------------------

  ghost predicate KeysOk(elems: Table, arrived: set<Chunk>, p: Pos) {
    forall k :: k in elems <==> Waiting(arrived, p, k) != {}
  }

  lemma CacheFacts(elems: Table, arrived: set<Chunk>, p: Pos)
    requires CacheOk(elems, arrived, p)
    ensures Apart(elems) && KeysOk(elems, arrived, p)
    ensures forall k :: k in elems ==> HeapOk(elems[k], Waiting(arrived, p, k)) && elems[k] in elems.Values
  {
  }

  lemma HeapFacts(queue: PriorityQueue, waiting: set<Chunk>)
    requires HeapOk(queue, waiting)
    ensures queue.Valid() && queue.Contents() == multiset(waiting)
    ensures queue.size == 0 <==> waiting == {}
  {
    queue.EmptyContents();
    if waiting != {} {
      var x :| x in waiting;
      assert x in multiset(waiting);
    }
  }

  lemma HeapIs(queue: PriorityQueue, waiting: set<Chunk>)
    requires queue.Valid() && queue.Contents() == multiset(waiting)
    ensures HeapOk(queue, waiting)
  {
  }

  lemma MultisetMore(w: set<Chunk>, x: Chunk)
    ensures x !in w ==> multiset(w) + multiset{x} == multiset(w + {x})
    ensures x in w ==> multiset(w) - multiset{x} == multiset(w - {x})
  {
  }

  lemma NewHeap(elems: Table, queue: PriorityQueue, arrived: set<Chunk>, p: Pos, x: Chunk)
    requires CacheOk(elems, arrived, p) && x.l1 !in elems && queue !in elems.Values
    requires !Before(x, p) && HeapOk(queue, {x})
    ensures CacheOk(elems[x.l1 := queue], arrived + {x}, p)
  {
    hide HeapOk;
    var elems' := elems[x.l1 := queue];
    assert Waiting(arrived, p, x.l1) == {};
    assert {} + {x} == {x};
    forall k ensures k in elems' <==> Waiting(arrived + {x}, p, k) != {} { WaitingMore(p, arrived, x, k); }
    forall k | k in elems' ensures HeapOk(elems'[k], Waiting(arrived + {x}, p, k)) { WaitingMore(p, arrived, x, k); }
  }

  lemma OldHeap(elems: Table, arrived: set<Chunk>, p: Pos, x: Chunk)
    requires Apart(elems) && KeysOk(elems, arrived, p) && x.l1 in elems && !Before(x, p)
    requires forall k :: k in elems && k != x.l1 ==> HeapOk(elems[k], Waiting(arrived, p, k))
    requires HeapOk(elems[x.l1], Waiting(arrived, p, x.l1) + {x})
    ensures CacheOk(elems, arrived + {x}, p)
  {
    hide HeapOk;
    forall k ensures k in elems <==> Waiting(arrived + {x}, p, k) != {} {
      WaitingMore(p, arrived, x, k);
    }
    forall k | k in elems ensures HeapOk(elems[k], Waiting(arrived + {x}, p, k)) { WaitingMore(p, arrived, x, k); }
  }

  /** The cache once the expected chunk is taken out of its heap, which stays or goes. */
  lemma TakenHeap(elems: Table, groups: seq<seq<Bytes>>, arrived: set<Chunk>, p: Pos)
    requires Apart(elems) && KeysOk(elems, arrived, p) && p.l1 < |groups| && p.l2 < |groups[p.l1]| && p.l1 in elems
    requires forall x :: x in arrived ==> IsChunk(groups, x)
    requires forall k :: k in elems && k != p.l1 ==> HeapOk(elems[k], Waiting(arrived, p, k))
    requires HeapOk(elems[p.l1], Waiting(arrived, p, p.l1) - {Expected(groups, p)})
    ensures Waiting(arrived, p, p.l1) - {Expected(groups, p)} != {} ==> CacheOk(elems, arrived, Succ(groups, p))
    ensures Waiting(arrived, p, p.l1) - {Expected(groups, p)} == {} ==>
              CacheOk(Without(elems, p.l1), arrived, Succ(groups, p))
  {
    hide HeapOk, KeysOk;
    if Waiting(arrived, p, p.l1) - {Expected(groups, p)} != {} {
      TakenSome(elems, groups, arrived, p);
    } else {
      TakenAll(elems, groups, arrived, p);
    }
  }

  lemma TakenWaiting(groups: seq<seq<Bytes>>, arrived: set<Chunk>, p: Pos)
    requires p.l1 < |groups| && p.l2 < |groups[p.l1]| && forall x :: x in arrived ==> IsChunk(groups, x)
    ensures var w := Waiting(arrived, p, p.l1) - {Expected(groups, p)};
            forall k :: Waiting(arrived, Succ(groups, p), k) == if k == p.l1 then w else Waiting(arrived, p, k)
  {
    var w := Waiting(arrived, p, p.l1) - {Expected(groups, p)};
    forall k ensures Waiting(arrived, Succ(groups, p), k) == if k == p.l1 then w else Waiting(arrived, p, k) {
      WaitingSucc(groups, p, arrived, k);
    }
  }

  lemma TakenSome(elems: Table, groups: seq<seq<Bytes>>, arrived: set<Chunk>, p: Pos)
    requires Apart(elems) && KeysOk(elems, arrived, p) && p.l1 < |groups| && p.l2 < |groups[p.l1]| && p.l1 in elems
    requires forall x :: x in arrived ==> IsChunk(groups, x)
    requires forall k :: k in elems && k != p.l1 ==> HeapOk(elems[k], Waiting(arrived, p, k))
    requires HeapOk(elems[p.l1], Waiting(arrived, p, p.l1) - {Expected(groups, p)})
    requires Waiting(arrived, p, p.l1) - {Expected(groups, p)} != {}
    ensures CacheOk(elems, arrived, Succ(groups, p))
  {
    hide HeapOk;
    TakenWaiting(groups, arrived, p);
    hide Waiting, Expected, Succ, IsChunk;
    forall k ensures k in elems <==> Waiting(arrived, Succ(groups, p), k) != {} {}
    forall k | k in elems ensures HeapOk(elems[k], Waiting(arrived, Succ(groups, p), k)) {}
  }

  lemma TakenAll(elems: Table, groups: seq<seq<Bytes>>, arrived: set<Chunk>, p: Pos)
    requires Apart(elems) && KeysOk(elems, arrived, p) && p.l1 < |groups| && p.l2 < |groups[p.l1]| && p.l1 in elems
    requires forall x :: x in arrived ==> IsChunk(groups, x)
    requires forall k :: k in elems && k != p.l1 ==> HeapOk(elems[k], Waiting(arrived, p, k))
    requires Waiting(arrived, p, p.l1) - {Expected(groups, p)} == {}
    ensures CacheOk(Without(elems, p.l1), arrived, Succ(groups, p))
  {
    hide HeapOk;
    var without := Without(elems, p.l1);
    TakenWaiting(groups, arrived, p);
    hide Waiting, Expected, Succ, IsChunk;
    forall k ensures k in without <==> Waiting(arrived, Succ(groups, p), k) != {} {}
    forall k | k in without ensures HeapOk(without[k], Waiting(arrived, Succ(groups, p), k)) {}
  }

  /** Nothing changes for the cache when the written chunk never was in it. */
  lemma SkippedHeap(elems: Table, groups: seq<seq<Bytes>>, arrived: set<Chunk>, p: Pos)
    requires CacheOk(elems, arrived, p) && p.l1 < |groups| && p.l2 < |groups[p.l1]|
    requires Expected(groups, p) !in arrived && forall x :: x in arrived ==> IsChunk(groups, x)
    ensures CacheOk(elems, arrived + {Expected(groups, p)}, Succ(groups, p))
  {
    hide HeapOk;
    var x := Expected(groups, p);
    BeforeSucc(groups, p, x);
    forall k ensures Waiting(arrived + {x}, Succ(groups, p), k) == Waiting(arrived, p, k) {
      WaitingMore(p, arrived, x, k);
      WaitingSucc(groups, p, arrived + {x}, k);
      assert x !in Waiting(arrived, p, k);
    }
  }

  // ---- Is the next chunk in the cache? -----------------------------------------------------------

  lemma ExpectedWaits(groups: seq<seq<Bytes>>, arrived: set<Chunk>, p: Pos)
    requires p.l1 < |groups| && p.l2 < |groups[p.l1]|
    ensures Expected(groups, p) in arrived <==> Expected(groups, p) in Waiting(arrived, p, p.l1)
  {
    BeforeSucc(groups, p, Expected(groups, p));
  }

  lemma NotInCache(elems: Table, groups: seq<seq<Bytes>>, arrived: set<Chunk>, p: Pos, l1: nat)
    requires KeysOk(elems, arrived, p) && (forall x :: x in arrived ==> IsChunk(groups, x))
    requires l1 in elems && (forall k :: k in elems ==> l1 <= k) && l1 != p.l1
    ensures NextMissing(groups, p, arrived)
  {
    var y :| y in Waiting(arrived, p, l1);
    if p.l1 < |groups| && p.l2 < |groups[p.l1]| { ExpectedWaits(groups, arrived, p); }
  }

  lemma NothingCached(groups: seq<seq<Bytes>>, arrived: set<Chunk>, p: Pos)
    requires KeysOk(map[], arrived, p)
    ensures NextMissing(groups, p, arrived)
  {
    if p.l1 < |groups| && p.l2 < |groups[p.l1]| {
      ExpectedWaits(groups, arrived, p);
      assert Waiting(arrived, p, p.l1) == {};
    }
  }

  lemma MinIsOther(groups: seq<seq<Bytes>>, arrived: set<Chunk>, p: Pos, m: Chunk)
    requires forall x :: x in arrived ==> IsChunk(groups, x)
    requires m in Waiting(arrived, p, p.l1) && forall x :: x in Waiting(arrived, p, p.l1) ==> m.l2 <= x.l2
    ensures m.l2 != p.l2 ==> NextMissing(groups, p, arrived)
    ensures m.l2 == p.l2 ==> p.l1 < |groups| && p.l2 < |groups[p.l1]| && m == Expected(groups, p) && m in arrived
  {
    assert IsChunk(groups, m);
    if p.l1 < |groups| && p.l2 < |groups[p.l1]| { ExpectedWaits(groups, arrived, p); }
  }

  // ---- The stage ---------------------------------------------------------------------------------

  /** The still unwritten chunks that have arrived. */
  ghost function Pending(arrived: set<Chunk>, p: Pos): set<Chunk> {
    set x | x in arrived && !Before(x, p)
  }

  lemma PendingShrinks(groups: seq<seq<Bytes>>, arrived: set<Chunk>, p: Pos)
    requires p.l1 < |groups| && p.l2 < |groups[p.l1]| && Expected(groups, p) in arrived
    requires forall x :: x in arrived ==> IsChunk(groups, x)
    ensures Pending(arrived, Succ(groups, p)) < Pending(arrived, p)
  {
    var x := Expected(groups, p);
    BeforeSucc(groups, p, x);
    forall y | y in arrived ensures y in Pending(arrived, Succ(groups, p)) ==> y in Pending(arrived, p) {
      BeforeSucc(groups, p, y);
    }
    assert x in Pending(arrived, p) && x !in Pending(arrived, Succ(groups, p));
  }

  class Stage {
    var tree: TreeNode?
    var next: Pos
    var perAnchor: map<nat, nat>
    var written: seq<Chunk>
    ghost var arrived: set<Chunk>

    ghost predicate Cached(p: Pos)
      reads this`tree, this`arrived, tree, Nodes(tree), Elems(tree).Values
    {
      TreeOk(tree) && CacheOk(Elems(tree), arrived, p)
    }

    /** After each arrival: the stream is written up to next, and the next chunk is not in the cache. */
    ghost predicate Valid(groups: seq<seq<Bytes>>)
      reads this, tree, Nodes(tree), Elems(tree).Values
    {
      && Cached(next)
      && Progress(groups, written, next, arrived, perAnchor)
      && NextMissing(groups, next, arrived)
    }

    constructor (ghost groups: seq<seq<Bytes>>)
      requires NoneEmpty(groups)
      ensures Valid(groups) && arrived == {} && tree == null
    {
      tree, next, perAnchor, written, arrived := null, Pos(0, 0), map[], [], {};
      new;
      if groups != [] { assert groups[0] != []; }
      assert UpTo(groups, next) == [];
    }

    /** Keep a chunk that came too early. */
    method Keep(x: Chunk)
      requires Cached(next) && !Before(x, next) && x !in arrived
      modifies this`tree, this`arrived, Nodes(tree), Elems(tree).Values
      ensures Cached(next) && arrived == old(arrived) + {x}
      ensures fresh(Nodes(tree) - old(Nodes(tree))) && fresh(Elems(tree).Values - old(Elems(tree).Values))
    {
      hide *;
      CachedFacts(next);
      NullIs();
      if tree != null { NodeIs(tree); }
      var pos := TreeFind(x.l1, tree);
      label L:
      assert Nodes(tree) == old(Nodes(tree)) && Elems(tree) == old(Elems(tree));
      if pos == null {
        KeepNew(x);
        assert forall o: TreeNode :: o in Nodes(tree) && o !in old@L(Nodes(tree)) ==>
            !old@L(allocated(o)) && !old(allocated(o));
        assert forall o: PriorityQueue :: o in Elems(tree).Values && o !in old@L(Elems(tree).Values) ==>
            !old@L(allocated(o)) && !old(allocated(o));
      } else {
        KeepOld(x, pos.queue);
      }
    }

    lemma CachedFacts(p: Pos)
      requires Cached(p)
      ensures TreeOk(tree) && CacheOk(Elems(tree), arrived, p)
    {
    }

    lemma CachedIs(p: Pos)
      requires TreeOk(tree) && CacheOk(Elems(tree), arrived, p)
      ensures Cached(p)
    {
    }

    method KeepNew(x: Chunk)
      requires Cached(next) && !Before(x, next) && x.l1 !in Elems(tree)
      modifies this`tree, this`arrived, Nodes(tree)
      ensures Cached(next) && arrived == old(arrived) + {x}
      ensures fresh(Nodes(tree) - old(Nodes(tree))) && fresh(Elems(tree).Values - old(Elems(tree).Values))
    {
      hide *;
      var queue := NewQueue(x);
      NullIs();
      if tree != null { NodeIs(tree); }
      assert queue !in Elems(tree).Values;
      label L:
      InsertQueue(x, queue);
      assert forall o: TreeNode :: o in Nodes(tree) && o !in old@L(Nodes(tree)) ==>
          !old@L(allocated(o)) && !old(allocated(o));
    }

    /** A node for the first waiting chunk of a piece. */
    method InsertQueue(x: Chunk, queue: PriorityQueue)
      requires Cached(next) && !Before(x, next) && x.l1 !in Elems(tree)
      requires queue !in Elems(tree).Values && HeapOk(queue, {x})
      modifies this`tree, this`arrived, Nodes(tree)
      ensures Cached(next) && arrived == old(arrived) + {x}
      ensures fresh(Nodes(tree) - old(Nodes(tree))) && Elems(tree).Values <= old(Elems(tree)).Values + {queue}
    {
      hide *;
      CachedFacts(next);
      NullIs();
      if tree != null { NodeIs(tree); }
      ghost var elems := Elems(tree);
      NewHeap(elems, queue, arrived, next, x);
      PutNew(elems, x.l1, queue);
      var t := TreeInsert(x.l1, queue, tree);
      NodeIs(t);
      tree := t;
      arrived := arrived + {x};
      CachedIs(next);
    }

    method KeepOld(x: Chunk, queue: PriorityQueue)
      requires Cached(next) && !Before(x, next) && x !in arrived
      requires x.l1 in Elems(tree) && queue == Elems(tree)[x.l1]
      modifies this`arrived, queue
      ensures Cached(next) && arrived == old(arrived) + {x}
      ensures Nodes(tree) == old(Nodes(tree)) && Elems(tree) == old(Elems(tree))
    {
      hide *;
      CachedFacts(next);
      NullIs();
      if tree != null { NodeIs(tree); }
      ghost var elems := Elems(tree);
      CacheFacts(elems, arrived, next);
      HeapFacts(queue, Waiting(arrived, next, x.l1));
      OthersApart(elems, x.l1);
      queue.Insert(x);
      NotWaiting(arrived, next, x);
      MultisetMore(Waiting(arrived, next, x.l1), x);
      HeapIs(queue, Waiting(arrived, next, x.l1) + {x});
      OldHeap(elems, arrived, next, x);
      arrived := arrived + {x};
      CachedIs(next);
    }

    /** pos is the node of the first piece with waiting chunks. */
    ghost predicate IsFirst(pos: TreeNode?)
      reads this`tree, tree, pos
    {
      && (pos == null <==> tree == null)
      && (pos != null ==>
            && pos.l1 in Elems(tree) && pos.queue == Elems(tree)[pos.l1]
            && forall k :: k in Elems(tree) ==> pos.l1 <= k)
    }

    lemma FirstFacts(pos: TreeNode?)
      requires IsFirst(pos)
      ensures pos == null <==> tree == null
      ensures pos != null ==>
                pos.l1 in Elems(tree) && pos.queue == Elems(tree)[pos.l1] && pos.queue in Elems(tree).Values
      ensures pos != null ==> forall k :: k in Elems(tree) ==> pos.l1 <= k
    {
    }

    lemma FirstIs(pos: TreeNode?)
      requires pos == null <==> tree == null
      requires pos != null ==> pos.l1 in Elems(tree) && pos.queue == Elems(tree)[pos.l1]
      requires pos != null ==> forall k :: k in Elems(tree) ==> pos.l1 <= k
      ensures IsFirst(pos)
    {
    }

    /** Take the expected chunk out of the heap of its piece; an emptied heap goes with its node. */
    method Take(ghost groups: seq<seq<Bytes>>, pos0: TreeNode) returns (pos: TreeNode?)
      requires Cached(next) && IsFirst(pos0) && pos0.l1 == next.l1 < |groups| && next.l2 < |groups[next.l1]|
      requires forall x :: x in arrived ==> IsChunk(groups, x)
      requires Expected(groups, next) in Waiting(arrived, next, next.l1)
      requires forall x :: x in Waiting(arrived, next, next.l1) ==> Expected(groups, next).l2 <= x.l2
      modifies this`tree, Nodes(tree), Elems(tree).Values
      ensures Cached(Succ(groups, next)) && IsFirst(pos)
      ensures Nodes(tree) <= old(Nodes(tree)) && Elems(tree).Values <= old(Elems(tree).Values)
    {
      hide *;
      CachedFacts(next);
      FirstFacts(pos0);
      NullIs();
      NodeIs(tree);
      ghost var elems, x := Elems(tree), Expected(groups, next);
      ghost var w := Waiting(arrived, next, next.l1);
      CacheFacts(elems, arrived, next);
      OthersApart(elems, next.l1);
      var queue := pos0.queue;
      HeapFacts(queue, w);
      var min := queue.DeleteMin();
      SameLabel(groups, arrived, next, min);
      MultisetMore(w, x);
      HeapIs(queue, w - {x});
      HeapFacts(queue, w - {x});
      TakenHeap(elems, groups, arrived, next);
      pos := pos0;
      if queue.size == 0 {
        WithoutValues(elems, next.l1);
        tree := TreeDelete(pos0.l1, tree);
        if tree != null { NodeIs(tree); }
        CachedIs(Succ(groups, next));
        pos := TreeFindMin(tree);
      } else {
        CachedIs(Succ(groups, next));
      }
      FirstIs(pos);
    }

    /** May the next chunk be taken from the cache?  If so, it leaves the cache. */
    method TakeNext(ghost groups: seq<seq<Bytes>>, pos0: TreeNode?) returns (found: bool, chunk: Chunk, pos: TreeNode?)
      requires Cached(next) && IsFirst(pos0) && forall x :: x in arrived ==> IsChunk(groups, x)
      modifies this`tree, Nodes(tree), Elems(tree).Values
      ensures found ==>
                && next.l1 < |groups| && next.l2 < |groups[next.l1]|
                && chunk == Expected(groups, next) && chunk in arrived
                && Cached(Succ(groups, next)) && IsFirst(pos)
      ensures !found ==> Cached(next) && NextMissing(groups, next, arrived)
      ensures Nodes(tree) <= old(Nodes(tree)) && Elems(tree).Values <= old(Elems(tree).Values)
    {
      hide *;
      CachedFacts(next);
      FirstFacts(pos0);
      NullIs();
      CacheFacts(Elems(tree), arrived, next);
      found, pos := false, pos0;
      if tree != null { NodeIs(tree); }
      if pos0 == null {
        NothingCached(groups, arrived, next);
        chunk := Chunk(0, 0, false, []);
        return;
      }
      if pos0.l1 != next.l1 {
        NotInCache(Elems(tree), groups, arrived, next, pos0.l1);
        chunk := Chunk(0, 0, false, []);
        return;
      }
      HeapFacts(pos0.queue, Waiting(arrived, next, next.l1));
      KeyWaits(Elems(tree), arrived, next, next.l1);
      chunk := pos0.queue.FindMin();
      MinIsOther(groups, arrived, next, chunk);
      if chunk.l1 == next.l1 && chunk.l2 == next.l2 {
        found := true;
        pos := Take(groups, pos0);
      } else {
        WaitingPiece(arrived, next, next.l1, chunk);
      }
    }

    /** Write the expected chunk and step to the next label. */
    method WriteNext(ghost groups: seq<seq<Bytes>>, chunk: Chunk)
      requires Progress(groups, written, next, arrived, perAnchor)
      requires next.l1 < |groups| && next.l2 < |groups[next.l1]| && chunk == Expected(groups, next) && chunk in arrived
      modifies this`written, this`next
      ensures next == Succ(groups, old(next)) && Progress(groups, written, next, arrived, perAnchor)
      ensures Pending(arrived, next) < Pending(arrived, old(next))
    {
      hide *;
      ProgressFacts(groups, written, next, arrived, perAnchor);
      AdvanceIsSucc(groups, written, next, arrived, perAnchor);
      PendingShrinks(groups, arrived, next);
      written := written + [chunk];
      next := AdvancePast(next, perAnchor);
    }

    /** The chunk that was waited for: write it and whatever the cache has in sequence after it. */
    method Drain(ghost groups: seq<seq<Bytes>>, x: Chunk)
      requires next.l1 < |groups| && next.l2 < |groups[next.l1]| && x == Expected(groups, next) && x in arrived
      requires Cached(Succ(groups, next)) && Progress(groups, written, next, arrived, perAnchor)
      modifies this`tree, this`next, this`written, Nodes(tree), Elems(tree).Values
      ensures Valid(groups)
      ensures Nodes(tree) <= old(Nodes(tree)) && Elems(tree).Values <= old(Elems(tree).Values)
    {
      hide *;
      CachedFacts(Succ(groups, next));
      NullIs();
      if tree != null { NodeIs(tree); }
      var chunk, more := x, true;
      var pos := TreeFindMin(tree);
      FirstIs(pos);
      while more
        invariant Nodes(tree) <= old(Nodes(tree)) && Elems(tree).Values <= old(Elems(tree).Values)
        invariant Progress(groups, written, next, arrived, perAnchor)
        invariant more ==> IsFirst(pos) && next.l1 < |groups| && next.l2 < |groups[next.l1]|
        invariant more ==> chunk == Expected(groups, next) && chunk in arrived && Cached(Succ(groups, next))
        invariant !more ==> Cached(next) && NextMissing(groups, next, arrived)
        decreases Pending(arrived, next), more
      {
        WriteNext(groups, chunk);
        ProgressFacts(groups, written, next, arrived, perAnchor);
        more, chunk, pos := TakeNext(groups, pos);
      }
      ValidIs(groups);
    }

    lemma ValidIs(groups: seq<seq<Bytes>>)
      requires Cached(next) && Progress(groups, written, next, arrived, perAnchor) && NextMissing(groups, next, arrived)
      ensures Valid(groups)
    {
    }

    lemma ValidFacts(groups: seq<seq<Bytes>>)
      requires Valid(groups)
      ensures Cached(next) && Progress(groups, written, next, arrived, perAnchor) && NextMissing(groups, next, arrived)
    {
    }

    /** One arrival. */
    method Arrive(ghost groups: seq<seq<Bytes>>, x: Chunk)
      requires Valid(groups) && IsChunk(groups, x) && x !in arrived
      modifies this, Nodes(tree), Elems(tree).Values
      ensures Valid(groups) && arrived == old(arrived) + {x}
      ensures fresh(Nodes(tree) - old(Nodes(tree))) && fresh(Elems(tree).Values - old(Elems(tree).Values))
    {
      hide *;
      ValidFacts(groups);
      ProgressFacts(groups, written, next, arrived, perAnchor);
      ArrivalFacts(groups, written, next, arrived, perAnchor, x);
      NullIs();
      if tree != null { NodeIs(tree); }
      assert x.last ==> CountAt(perAnchor, x.l1) == 0;
      perAnchor := if x.last then perAnchor[x.l1 := x.l2 + 1] else perAnchor;
      if x.l1 != next.l1 || x.l2 != next.l2 {
        ghost var a := arrived;
        label L:
        Keep(x);
        assert forall o: TreeNode :: o in Nodes(tree) && o !in old@L(Nodes(tree)) ==>
            !old@L(allocated(o)) && !old(allocated(o));
        assert forall o: PriorityQueue ::
            o in Elems(tree).Values && o !in old@L(Elems(tree)).Values ==> !old@L(allocated(o)) && !old(allocated(o));
        StillMissing(groups, next, a, x);
        ValidIs(groups);
      } else {
        CachedFacts(next);
        SkippedHeap(Elems(tree), groups, arrived, next);
        arrived := arrived + {x};
        CachedIs(Succ(groups, next));
        Drain(groups, x);
      }
    }
  }

  method NewQueue(x: Chunk) returns (queue: PriorityQueue)
    ensures fresh(queue) && HeapOk(queue, {x})
  {
    hide *;
    queue := new PriorityQueue(InitialSize());
    queue.Insert(x);
    assert multiset{} + multiset{x} == multiset({x});
    HeapIs(queue, {x});
  }

  function InitialSize(): (n: nat)
    ensures n >= MIN_PQ_SIZE
  {
    INITIAL_SEARCH_TREE_SIZE
  }

  lemma PutNew(elems: Table, k: nat, queue: PriorityQueue)
    requires k !in elems
    ensures Put(elems, k, queue) == elems[k := queue] && elems[k := queue].Values <= elems.Values + {queue}
  {
  }

  lemma OthersApart(elems: Table, l1: nat)
    requires Apart(elems) && l1 in elems
    ensures forall k :: k in elems && k != l1 ==> elems[k] != elems[l1]
  {
  }

  lemma NotWaiting(arrived: set<Chunk>, p: Pos, x: Chunk)
    requires x !in arrived
    ensures x !in Waiting(arrived, p, x.l1)
  {
  }

  function AdvancePast(next: Pos, perAnchor: map<nat, nat>): (p: Pos)
    ensures p == Advance(next, perAnchor)
  {
    var p := next.(l2 := next.l2 + 1);
    if CountAt(perAnchor, p.l1) != 0 && p.l2 == CountAt(perAnchor, p.l1) then Pos(p.l1 + 1, 0) else p
  }

  lemma ProgressFacts(groups: seq<seq<Bytes>>, written: seq<Chunk>, next: Pos, arrived: set<Chunk>,
          perAnchor: map<nat, nat>)
    requires Progress(groups, written, next, arrived, perAnchor)
    ensures forall x :: x in arrived ==> IsChunk(groups, x)
    ensures forall x :: IsChunk(groups, x) && Before(x, next) ==> x in arrived
    ensures PosOk(groups, next) && written == UpTo(groups, next) && NoneEmpty(groups)
  {
  }

  lemma OneLast(groups: seq<seq<Bytes>>, x: Chunk, y: Chunk)
    requires IsChunk(groups, x) && IsChunk(groups, y) && x.last && y.last && x.l1 == y.l1
    ensures x == y
  {
  }

  /** A chunk that arrives is not before next, its piece's count is not yet known if it is the last one,
      and is what the array says afterwards. */
  lemma ArrivalFacts(groups: seq<seq<Bytes>>, written: seq<Chunk>, next: Pos, arrived: set<Chunk>,
          perAnchor: map<nat, nat>, x: Chunk)
    requires Progress(groups, written, next, arrived, perAnchor) && IsChunk(groups, x) && x !in arrived
    ensures !Before(x, next)
    ensures x.last ==> CountAt(perAnchor, x.l1) == 0
    ensures Progress(groups, written, next, arrived + {x}, if x.last then perAnchor[x.l1 := x.l2 + 1] else perAnchor)
    ensures Progress(groups, written, next, arrived, if x.last then perAnchor else perAnchor)
    ensures x.l1 == next.l1 && x.l2 == next.l2 ==>
              next.l1 < |groups| && next.l2 < |groups[next.l1]| && x == Expected(groups, next)
  {
    if x.last && x.l1 in perAnchor {
      var y :| y in arrived && y.last && y.l1 == x.l1;
      OneLast(groups, x, y);
    }
    var p' := if x.last then perAnchor[x.l1 := x.l2 + 1] else perAnchor;
    forall k | k in p' ensures CountOk(groups, p'[k], arrived + {x}, k) {
      if k in perAnchor { assert CountOk(groups, perAnchor[k], arrived, k); }
    }
    forall k | k in p' ensures exists y :: y in arrived + {x} && y.last && y.l1 == k {
      if k in perAnchor {
        var y :| y in arrived && y.last && y.l1 == k;
        assert y in arrived + {x};
      } else {
        assert x in arrived + {x};
      }
    }
  }

  lemma StillMissing(groups: seq<seq<Bytes>>, next: Pos, arrived: set<Chunk>, x: Chunk)
    requires NextMissing(groups, next, arrived) && (x.l1 != next.l1 || x.l2 != next.l2)
    ensures NextMissing(groups, next, arrived + {x})
  {
  }

  lemma SameLabel(groups: seq<seq<Bytes>>, arrived: set<Chunk>, p: Pos, m: Chunk)
    requires p.l1 < |groups| && p.l2 < |groups[p.l1]| && m in multiset(Waiting(arrived, p, p.l1))
    requires Expected(groups, p) in Waiting(arrived, p, p.l1) && forall x :: x in arrived ==> IsChunk(groups, x)
    requires forall x :: x in multiset(Waiting(arrived, p, p.l1)) ==> m.l2 <= x.l2
    ensures m == Expected(groups, p)
  {
    var e := Expected(groups, p);
    assert e in multiset(Waiting(arrived, p, p.l1));
    assert m in Waiting(arrived, p, p.l1);
    assert IsChunk(groups, m);
  }

  lemma WithoutValues(elems: Table, l1: nat)
    ensures Without(elems, l1).Values <= elems.Values
  {
    forall q | q in Without(elems, l1).Values ensures q in elems.Values {
      var k :| k in Without(elems, l1) && Without(elems, l1)[k] == q;
      assert k in elems && elems[k] == q;
    }
  }

  lemma KeyWaits(elems: Table, arrived: set<Chunk>, p: Pos, k: nat)
    requires KeysOk(elems, arrived, p) && k in elems
    ensures Waiting(arrived, p, k) != {}
    ensures forall x :: x in multiset(Waiting(arrived, p, k)) <==> x in Waiting(arrived, p, k)
  {
  }

  lemma WaitingPiece(arrived: set<Chunk>, p: Pos, k: nat, x: Chunk)
    requires x in Waiting(arrived, p, k)
    ensures x.l1 == k
  {
  }

  // ---- The whole stream --------------------------------------------------------------------------

  ghost predicate Once(arrivals: seq<Chunk>) {
    forall i, j :: 0 <= i < j < |arrivals| ==> arrivals[i] != arrivals[j]
  }

  ghost function Arrived(arrivals: seq<Chunk>, n: nat): set<Chunk>
    requires n <= |arrivals|
  {
    set x | x in arrivals[..n]
  }

  lemma ArrivedNext(arrivals: seq<Chunk>, n: nat)
    requires n < |arrivals| && Once(arrivals)
    ensures Arrived(arrivals, n + 1) == Arrived(arrivals, n) + {arrivals[n]} && arrivals[n] !in Arrived(arrivals, n)
  {
    assert arrivals[..n + 1] == arrivals[..n] + [arrivals[n]];
  }

  lemma AllArrived(groups: seq<seq<Bytes>>, written: seq<Chunk>, next: Pos, arrived: set<Chunk>, perAnchor: map<nat,
          nat>)
    requires Progress(groups, written, next, arrived, perAnchor) && NextMissing(groups, next, arrived)
    requires forall x :: x in arrived <==> IsChunk(groups, x)
    ensures next == Pos(|groups|, 0) && written == Front(groups, |groups|)
    ensures forall k :: Waiting(arrived, next, k) == {}
  {
    if next.l1 < |groups| && next.l2 < |groups[next.l1]| { BeforeSucc(groups, next, Expected(groups, next)); }
    assert Front(groups, |groups|) + [] == Front(groups, |groups|);
  }

  lemma EmptyTree(tree: TreeNode?, arrived: set<Chunk>, p: Pos)
    requires TreeOk(tree) && KeysOk(Elems(tree), arrived, p) && forall k :: Waiting(arrived, p, k) == {}
    ensures tree == null
  {
    if tree != null { RootKey(tree); }
  }

  lemma RootKey(tree: TreeNode)
    requires TreeOk(tree)
    ensures tree.l1 in Elems(tree)
  {
  }

  /** For every order of arrival the chunks are written once each, in label order, and the cache is empty
      at the end: there is nothing to flush and no label can mismatch. */
  method ReorderAll(arrivals: seq<Chunk>, ghost groups: seq<seq<Bytes>>) returns (stage: Stage)
    requires NoneEmpty(groups) && Once(arrivals) && forall x :: x in arrivals <==> IsChunk(groups, x)
    ensures stage.written == Front(groups, |groups|)
    ensures stage.tree == null
  {
    hide *;
    stage := new Stage(groups);
    NullIs();
    var i := 0;
    NoneArrived(arrivals);
    while i < |arrivals|
      invariant i <= |arrivals| && fresh(stage) && fresh(Nodes(stage.tree)) && fresh(Elems(stage.tree).Values)
      invariant stage.Valid(groups) && stage.arrived == Arrived(arrivals, i)
    {
      ArrivedNext(arrivals, i);
      label L:
      stage.Arrive(groups, arrivals[i]);
      assert forall o: TreeNode ::
          o in Nodes(stage.tree) && o !in old@L(Nodes(stage.tree)) ==> !old@L(allocated(o)) && !old(allocated(o));
      assert forall o: PriorityQueue ::
          o in Elems(stage.tree).Values && o !in old@L(Elems(stage.tree)).Values ==>
              !old@L(allocated(o)) && !old(allocated(o));
      i := i + 1;
    }
    stage.ValidFacts(groups);
    stage.CachedFacts(stage.next);
    CacheFacts(Elems(stage.tree), stage.arrived, stage.next);
    ArrivedAll(arrivals);
    AllArrived(groups, stage.written, stage.next, stage.arrived, stage.perAnchor);
    EmptyTree(stage.tree, stage.arrived, stage.next);
    var pos := TreeFindMin(stage.tree);
    assert pos == null;
  }

  lemma NoneArrived(arrivals: seq<Chunk>)
    ensures Arrived(arrivals, 0) == {} && Elems(null).Values == {}
  {
  }

  lemma ArrivedAll(arrivals: seq<Chunk>)
    ensures forall x :: x in Arrived(arrivals, |arrivals|) <==> x in arrivals
  {
    assert arrivals[..|arrivals|] == arrivals;
  }

  ghost function DataOf(cs: seq<Chunk>): (ds: seq<Bytes>)
    ensures |ds| == |cs| && forall i :: 0 <= i < |cs| ==> ds[i] == cs[i].data
  {
    seq(|cs|, i requires 0 <= i < |cs| => cs[i].data)
  }

  lemma {:induction false} FlattenLast(groups: seq<seq<Bytes>>, g: seq<Bytes>)
    ensures Flatten(groups + [g]) == Flatten(groups) + g
  {
    if groups == [] {
      assert ([] + [g])[1..] == [];
      assert Flatten([g]) == g + [];
    } else {
      FlattenLast(groups[1..], g);
      assert (groups + [g])[1..] == groups[1..] + [g];
    }
  }

  /** In label order the data of the chunks is the flattened stream. */
  lemma {:induction false} FrontData(groups: seq<seq<Bytes>>, n: nat)
    requires n <= |groups|
    ensures DataOf(Front(groups, n)) == Flatten(groups[..n])
  {
    if n > 0 {
      FrontData(groups, n - 1);
      assert groups[..n] == groups[..n - 1] + [groups[n - 1]];
      FlattenLast(groups[..n - 1], groups[n - 1]);
      assert DataOf(Labelled(n - 1, groups[n - 1])) == groups[n - 1];
      assert DataOf(Front(groups, n)) == DataOf(Front(groups, n - 1)) + DataOf(Labelled(n - 1, groups[n - 1]));
    }
  }
}
