/** The single-path test, and why a single path makes every support readable off the header table. */
module FpSingle {
  import opened FpDatabase
  import opened FpArena
  import opened FpTree
  import opened FpTraversal
  import opened FpArray
  import opened FpMining
  import opened FpPowerset

  /** The nodes of the chain, from the root's child down. */
  ghost predicate ChainTo(sh: Shape, chain: seq<nat>, last: nat) {
    && last < |sh.path| && last == (if chain == [] then 0 else chain[|chain| - 1])
    && |sh.path[last]| == |chain|
    && forall k :: 0 <= k < |chain| ==>
        0 < chain[k] < |sh.path| && |sh.path[chain[k]]| == k + 1 && sh.path[chain[k]] <= sh.path[last]
  }

  /** Every node is on the chain or below its end. */
  ghost predicate AllBelow(sh: Shape, chain: seq<nat>, last: nat)
    requires last < |sh.path|
  {
    forall x :: 0 < x < |sh.path| ==> x in chain || sh.path[last] < sh.path[x]
  }

  ghost predicate OneChain(sh: Shape, chain: seq<nat>) {
    && ChainTo(sh, chain, if chain == [] then 0 else chain[|chain| - 1])
    && forall x :: 0 < x < |sh.path| ==> x in chain
  }

  lemma OnlyKid(nodes: seq<Fnode>, sh: Shape, itemno: nat, chain: seq<nat>, last: nat, c: nat)
    requires Tree(nodes, sh, itemno) && AllLinked(sh) && last < |nodes| && sh.kids[last] == [c]
    requires ChainTo(sh, chain, last) && AllBelow(sh, chain, last)
    ensures c < |nodes| && ChainTo(sh, chain + [c], c) && AllBelow(sh, chain + [c], c)
  {
    KidBelow(nodes, sh, itemno, last, 0);
    var chain' := chain + [c];
    assert sh.path[last] <= sh.path[c];
    assert c != 0;
    forall k | 0 <= k < |chain'|
      ensures 0 < chain'[k] < |sh.path| && |sh.path[chain'[k]]| == k + 1 && sh.path[chain'[k]] <= sh.path[c]
    {
      if k < |chain| { assert sh.path[chain[k]] <= sh.path[last]; }
    }
    forall x | 0 < x < |sh.path| ensures x in chain' || sh.path[c] < sh.path[x] {
      if x !in chain {
        var j := NextOnPath(nodes, sh, itemno, last, x);
        assert sh.kids[last][j] == c;
        if sh.path[c] == sh.path[x] { SamePath(sh, c, x); }
      }
    }
  }

  lemma NoKid(nodes: seq<Fnode>, sh: Shape, itemno: nat, chain: seq<nat>, last: nat)
    requires Tree(nodes, sh, itemno) && AllLinked(sh) && last < |nodes| && sh.kids[last] == []
    requires ChainTo(sh, chain, last) && AllBelow(sh, chain, last)
    ensures OneChain(sh, chain)
  {
    forall x | 0 < x < |sh.path| ensures x in chain {
      if sh.path[last] < sh.path[x] {
        var j := NextOnPath(nodes, sh, itemno, last, x);
      }
    }
  }

  lemma Links(nodes: seq<Fnode>, sh: Shape, itemno: nat, p: nat)
    requires Tree(nodes, sh, itemno) && p < |nodes|
    ensures nodes[p].leftchild == At(sh.kids[p], 0) && (sh.kids[p] != [] ==> 0 <= nodes[p].leftchild < |nodes|)
    ensures sh.kids[p] != [] ==> nodes[sh.kids[p][0]].rightsibling == At(sh.kids[p], 1)
    ensures sh.kids[p] == [] <==> nodes[p].leftchild == NULL
  {
    assert FirstOk(nodes, sh, p);
    if sh.kids[p] != [] { assert KidOk(nodes, sh, p, 0); }
  }

  /** Is the tree a single path?  Follow the left children and look for a sibling. */
  method SinglePath(nodes: seq<Fnode>, ghost sh: Shape, ghost itemno: nat) returns (single: bool, ghost chain: seq<nat>)
    requires Tree(nodes, sh, itemno) && AllLinked(sh)
    ensures single ==> OneChain(sh, chain)
    ensures !single ==> exists p :: 0 <= p < |sh.kids| && |sh.kids[p]| > 1
  {
    Links(nodes, sh, itemno, 0);
    ghost var last: nat := 0;
    chain := [];
    forall x | 0 < x < |sh.path| ensures sh.path[0] < sh.path[x] { assert sh.path[x] != sh.path[0]; }
    var node: int := nodes[0].leftchild;
    while node != NULL
      invariant last < |nodes| && ChainTo(sh, chain, last) && AllBelow(sh, chain, last)
      invariant node == nodes[last].leftchild
      decreases itemno - |sh.path[last]|
    {
      Links(nodes, sh, itemno, last);
      KidBelow(nodes, sh, itemno, last, 0);
      if nodes[node].rightsibling != NULL { return false, chain; }
      assert sh.kids[last] == [node];
      OnlyKid(nodes, sh, itemno, chain, last, node);
      chain, last := chain + [node], node;
      node := nodes[node].leftchild;
    }
    Links(nodes, sh, itemno, last);
    NoKid(nodes, sh, itemno, chain, last);
    single := true;
  }

  // ---- Rows of a single path ---------------------------------------------------------------------

  /** The rows are initial segments of one another. */
  ghost predicate Nested(rows: seq<Row>, deepest: seq<nat>) {
    forall k :: 0 <= k < |rows| ==> rows[k].ids <= deepest
  }

  ghost function Deepest(sh: Shape, chain: seq<nat>): seq<nat>
    requires OneChain(sh, chain)
  {
    if chain == [] then [] else sh.path[chain[|chain| - 1]]
  }

  lemma RowsNested(nodes: seq<Fnode>, sh: Shape, rows: seq<Row>, itemno: nat, chain: seq<nat>)
    requires Represents(nodes, sh, rows, itemno) && OneChain(sh, chain)
    ensures Nested(rows, Deepest(sh, chain))
  {
    forall k | 0 <= k < |rows| ensures rows[k].ids <= Deepest(sh, chain) {
      var ids := rows[k].ids;
      if ids != [] {
        assert CoveredRow(rows[k], sh);
        assert ids[..|ids|] == ids;
        var c :| 0 <= c < |sh.path| && sh.path[c] == ids;
        assert c != 0;
        assert c in chain;
      }
    }
  }

  ghost function UpTo(n: nat): (ids: seq<nat>)
    ensures |ids| == n && forall k :: 0 <= k < n ==> ids[k] == k
  {
    seq(n, k requires 0 <= k < n => k)
  }

  /** If no item has support 0, the deepest node has every item above or at it. */
  lemma DeepestIsFull(db: Database, table: seq<Item>, deepest: seq<nat>)
    requires Nested(RowsOf(db, table), deepest) && Ascending(deepest) && Below(deepest, |table|)
    requires forall i :: 0 <= i < |table| ==> 0 < Support(db, {table[i]})
    ensures deepest == UpTo(|table|)
  {
    forall i: nat ensures i in deepest <==> i in UpTo(|table|) {
      if i in UpTo(|table|) {
        SomeRow(db, {table[i]});
        var k :| 0 <= k < |db| && {table[i]} <= db[k].items;
        var ids := RowsOf(db, table)[k].ids;
        assert table[i] in db[k].items;
        assert i in ids;
      }
      if i in deepest {
        var k :| 0 <= k < |deepest| && deepest[k] == i;
        assert UpTo(|table|)[i] == i;
      }
    }
    AscendingUnique(deepest, UpTo(|table|));
  }

  lemma {:induction false} SomeRow(db: Database, s: set<Item>)
    requires 0 < Support(db, s)
    ensures exists k :: 0 <= k < |db| && s <= db[k].items
  {
    if !(s <= db[|db| - 1].items) {
      SomeRow(db[..|db| - 1], s);
      var k :| 0 <= k < |db| - 1 && s <= db[..|db| - 1][k].items;
      assert s <= db[k].items;
    }
  }

  /** A transaction with the deepest item of a set has the whole set. */
  lemma SegmentTransaction(t: Transaction, table: seq<Item>, ids: seq<nat>)
    requires Distinct(table) && Extends(|table|, 0, [], ids) && RowOf(t, table).ids <= UpTo(|table|)
    ensures ToSet(ItemsOf(table, ids)) <= t.items <==> {table[ids[|ids| - 1]]} <= t.items
  {
    var last, r := ids[|ids| - 1], RowOf(t, table).ids;
    var items := ItemsOf(table, ids);
    assert items[|ids| - 1] in items;
    if table[last] in t.items {
      assert last in r;
      var j :| 0 <= j < |r| && r[j] == last;
      forall y | y in items ensures y in t.items {
        var k :| 0 <= k < |items| && items[k] == y;
        assert ids[k] <= last;
        assert r[ids[k]] == UpTo(|table|)[ids[k]];
        assert ids[k] in r;
      }
    }
  }

  lemma {:induction false} SegmentSupport(db: Database, table: seq<Item>, ids: seq<nat>)
    requires Distinct(table) && Extends(|table|, 0, [], ids) && Nested(RowsOf(db, table), UpTo(|table|))
    ensures Support(db, ToSet(ItemsOf(table, ids))) == Support(db, {table[ids[|ids| - 1]]})
  {
    if db != [] {
      var front, rows := db[..|db| - 1], RowsOf(db, table);
      assert forall k :: 0 <= k < |front| ==> RowsOf(front, table)[k] == rows[k];
      SegmentSupport(front, table, ids);
      assert rows[|db| - 1] == RowOf(db[|db| - 1], table);
      SegmentTransaction(db[|db| - 1], table, ids);
    }
  }

  lemma SinglePathSupport(db: Database, table: seq<Item>, count: seq<nat>, threshold: nat)
    requires Distinct(table) && |count| == |table| && Nested(RowsOf(db, table), UpTo(|table|))
    requires forall i :: 0 <= i < |table| ==> count[i] == Support(db, {table[i]}) && threshold <= count[i]
    ensures PathSupport(db, table, count, threshold)
  {
    forall ids | Extends(|table|, 0, [], ids)
      ensures Support(db, ToSet(ItemsOf(table, ids))) == count[ids[|ids| - 1]] && threshold <= count[ids[|ids| - 1]]
    {
      SegmentSupport(db, table, ids);
    }
  }
}
