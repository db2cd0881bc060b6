/** Reading one item's nodes out of the flattened tree: the conditional pattern base. */
module FpCond {
  import opened FpDatabase
  import opened FpArena
  import opened FpTree
  import opened FpTraversal
  import opened FpArray
  import opened FpMining

  ghost function PathsOf(sh: Shape, list: seq<nat>): seq<seq<nat>>
  {
    if list == [] then []
    else PathsOf(sh, list[..|list| - 1])
         + [if list[|list| - 1] < |sh.path| then sh.path[list[|list| - 1]] else []]
  }

  lemma {:induction false} PathsOfAt(sh: Shape, list: seq<nat>)
    requires Below(list, |sh.path|)
    ensures |PathsOf(sh, list)| == |list|
    ensures forall k :: 0 <= k < |list| ==> PathsOf(sh, list)[k] == sh.path[list[k]]
  {
    if list != [] { PathsOfAt(sh, list[..|list| - 1]); }
  }

  /** The nodes of item x, in the order in which the flattening lists them. */
  ghost function NodesOf(nodes: seq<Fnode>, sh: Shape, itemno: nat, x: nat): seq<nat> {
    Of(nodes, Order(nodes, sh, itemno), x)
  }

  ghost function ItemPaths(nodes: seq<Fnode>, sh: Shape, itemno: nat, x: nat): seq<seq<nat>> {
    PathsOf(sh, NodesOf(nodes, sh, itemno, x))
  }

  ghost predicate PathsTo(paths: seq<seq<nat>>, x: nat) {
    forall k :: 0 <= k < |paths| ==> EndsIn(paths[k], x) && Ascending(paths[k])
  }

  lemma NodesOfMembers(nodes: seq<Fnode>, sh: Shape, itemno: nat, x: nat, c: nat)
    requires Tree(nodes, sh, itemno) && AllLinked(sh)
    ensures c in NodesOf(nodes, sh, itemno, x) <==> 0 < c < |nodes| && nodes[c].itemname == x
  {
    OfMembers(nodes, Order(nodes, sh, itemno), x, c);
    DfsAll(nodes, sh, itemno, c);
  }

  lemma NodesOfBelow(nodes: seq<Fnode>, sh: Shape, itemno: nat, x: nat)
    requires Tree(nodes, sh, itemno) && AllLinked(sh)
    ensures Below(NodesOf(nodes, sh, itemno, x), |sh.path|)
    ensures forall k :: 0 <= k < |NodesOf(nodes, sh, itemno, x)| ==>
              0 < NodesOf(nodes, sh, itemno, x)[k] < |nodes| && nodes[NodesOf(nodes, sh, itemno, x)[k]].itemname == x
  {
    var list := NodesOf(nodes, sh, itemno, x);
    forall k | 0 <= k < |list| ensures 0 < list[k] < |nodes| && nodes[list[k]].itemname == x {
      assert list[k] in list;
      NodesOfMembers(nodes, sh, itemno, x, list[k]);
    }
  }

  lemma ItemPathsEnd(nodes: seq<Fnode>, sh: Shape, itemno: nat, x: nat)
    requires Tree(nodes, sh, itemno) && AllLinked(sh) && PathsOk(nodes, sh, itemno)
    ensures PathsTo(ItemPaths(nodes, sh, itemno, x), x)
    ensures |ItemPaths(nodes, sh, itemno, x)| == |NodesOf(nodes, sh, itemno, x)|
  {
    var list := NodesOf(nodes, sh, itemno, x);
    NodesOfBelow(nodes, sh, itemno, x);
    PathsOfAt(sh, list);
    forall k | 0 <= k < |list|
      ensures EndsIn(ItemPaths(nodes, sh, itemno, x)[k], x) && Ascending(ItemPaths(nodes, sh, itemno, x)[k])
    {
      assert PathOk(nodes[list[k]], sh.path[list[k]], itemno);
    }
  }

  lemma ItemPathsDistinct(nodes: seq<Fnode>, sh: Shape, itemno: nat, x: nat)
    requires Tree(nodes, sh, itemno) && AllLinked(sh)
    ensures Distinct(ItemPaths(nodes, sh, itemno, x))
  {
    var list, paths := NodesOf(nodes, sh, itemno, x), ItemPaths(nodes, sh, itemno, x);
    NodesOfBelow(nodes, sh, itemno, x);
    PathsOfAt(sh, list);
    DfsAll(nodes, sh, itemno, 0);
    OfDistinct(nodes, Order(nodes, sh, itemno), x);
    forall i, j | 0 <= i < j < |paths| ensures paths[i] != paths[j] {
      assert list[i] != list[j];
      if paths[i] == paths[j] { SamePath(sh, list[i], list[j]); }
    }
  }

  /** Where a row has item x there is a node of x with the row's prefix for its path. */
  lemma PathOfRow(nodes: seq<Fnode>, sh: Shape, itemno: nat, row: Row, x: nat, j: nat)
    requires Tree(nodes, sh, itemno) && AllLinked(sh) && PathsOk(nodes, sh, itemno)
    requires CoveredRow(row, sh) && j < |row.ids| && row.ids[j] == x
    ensures exists c :: 0 <= c < |sh.path| && c in NodesOf(nodes, sh, itemno, x) && sh.path[c] == row.ids[..j + 1]
  {
    var path := row.ids[..j + 1];
    var c :| 0 <= c < |sh.path| && sh.path[c] == path;
    assert path[j] == x;
    assert sh.path[c] != sh.path[0];
    assert PathOk(nodes[c], sh.path[c], itemno);
    NodesOfMembers(nodes, sh, itemno, x, c);
  }

  lemma ItemPathsCover(nodes: seq<Fnode>, sh: Shape, itemno: nat, rows: seq<Row>, x: nat)
    requires Tree(nodes, sh, itemno) && Represents(nodes, sh, rows, itemno)
    ensures Covers(rows, ItemPaths(nodes, sh, itemno, x), x)
  {
    var list, paths := NodesOf(nodes, sh, itemno, x), ItemPaths(nodes, sh, itemno, x);
    NodesOfBelow(nodes, sh, itemno, x);
    PathsOfAt(sh, list);
    forall k | 0 <= k < |rows| ensures CoversRow(rows[k].ids, paths, x) {
      assert CoveredRow(rows[k], sh);
      forall j | 0 <= j < |rows[k].ids| && rows[k].ids[j] == x ensures rows[k].ids[..j + 1] in paths {
        PathOfRow(nodes, sh, itemno, rows[k], x, j);
        var c :| 0 <= c < |sh.path| && c in list && sh.path[c] == rows[k].ids[..j + 1];
        var i :| 0 <= i < |list| && list[i] == c;
        assert paths[i] == sh.path[c];
      }
    }
  }

  /** A level of the mining: the tree stands for the database as encoded by the header table. */
  ghost predicate Level(nodes: seq<Fnode>, sh: Shape, itemno: nat, table: seq<Item>, db: Database) {
    && |table| == itemno && Distinct(table)
    && Tree(nodes, sh, itemno)
    && Represents(nodes, sh, RowsOf(db, table), itemno)
  }

  /** What the nodes of item x say about the database: sets ending in x, less x. */
  ghost function CondOf(nodes: seq<Fnode>, sh: Shape, itemno: nat, table: seq<Item>, db: Database, x: nat): Database {
    CondDb(table, RowsOf(db, table), ItemPaths(nodes, sh, itemno, x))
  }

  lemma CondOfSupport(nodes: seq<Fnode>, sh: Shape, itemno: nat, table: seq<Item>, db: Database, x: nat, s: set<Item>)
    requires Level(nodes, sh, itemno, table, db) && x < itemno && s <= ToSet(table[..x])
    ensures Support(CondOf(nodes, sh, itemno, table, db, x), s) == Support(db, s + {table[x]})
  {
    ItemPathsEnd(nodes, sh, itemno, x);
    ItemPathsDistinct(nodes, sh, itemno, x);
    ItemPathsCover(nodes, sh, itemno, RowsOf(db, table), x);
    CondSupport(db, table, ItemPaths(nodes, sh, itemno, x), x, s);
  }

  // ---- The entries of one item -------------------------------------------------------------------

  ghost predicate PathEntry(cells: seq<nat>, mark: nat, e: Entry, rows: seq<Row>, path: seq<nat>) {
    && e.count == PrefixWeight(rows, path) && 0 < e.count
    && Reads(cells, mark, e.begin, AllButLast(path))
  }

  ghost predicate PathEntries(cells: seq<nat>, mark: nat, list: seq<Entry>, rows: seq<Row>, paths: seq<seq<nat>>) {
    |list| == |paths| && forall k :: 0 <= k < |list| ==> PathEntry(cells, mark, list[k], rows, paths[k])
  }

  ghost predicate Weighted(rows: seq<Row>) {
    forall k :: 0 <= k < |rows| ==> 0 < rows[k].weight
  }

  lemma {:induction false} UsedHasWeight(rows: seq<Row>, path: seq<nat>)
    requires Weighted(rows) && UsedAt(path, rows)
    ensures 0 < PrefixWeight(rows, path)
  {
    var k :| 0 <= k < |rows| && path <= rows[k].ids;
    if k < |rows| - 1 {
      var front := rows[..|rows| - 1];
      assert path <= front[k].ids;
      UsedHasWeight(front, path);
    }
  }

  lemma EntriesOf(fpa: FPArray, nodes: seq<Fnode>, sh: Shape, itemno: nat, mark: nat, rows: seq<Row>, x: nat)
    requires Flattened(fpa, nodes, sh, itemno, mark) && x < itemno
    requires Tree(nodes, sh, itemno) && Represents(nodes, sh, rows, itemno) && Weighted(rows)
    ensures PathEntries(fpa.cells, mark, fpa.lists[x], rows, ItemPaths(nodes, sh, itemno, x))
  {
    var list := NodesOf(nodes, sh, itemno, x);
    NodesOfBelow(nodes, sh, itemno, x);
    PathsOfAt(sh, list);
    assert ListOk(nodes, sh, fpa.cells, mark, -1, fpa.lists[x], list);
    forall k | 0 <= k < |list|
      ensures PathEntry(fpa.cells, mark, fpa.lists[x][k], rows, ItemPaths(nodes, sh, itemno, x)[k])
    {
      var c := list[k];
      assert EntryOk(fpa.cells, mark, -1, fpa.lists[x][k], nodes[c], sh.path[c]);
      assert IsKid(sh, c);
      assert CountAt(nodes[c], sh.path[c], rows);
      assert UsedAt(sh.path[c], rows);
      UsedHasWeight(rows, sh.path[c]);
    }
  }

  lemma PathsBelow(path: seq<nat>, x: nat)
    requires EndsIn(path, x) && Ascending(path)
    ensures Ascending(AllButLast(path)) && Below(AllButLast(path), x)
  {
  }

  // ---- Adding up the supports --------------------------------------------------------------------

  /** Add count to the support of every item read upward from begin to the mark. */
  method AddPath(cells: seq<nat>, supp0: seq<nat>, begin: nat, count: nat, mark: nat,
          ghost anc: seq<nat>) returns (supp: seq<nat>, j: nat)
    requires Reads(cells, mark, begin, anc) && Ascending(anc) && Below(anc, |supp0|) && Below(anc, mark)
    ensures |supp| == |supp0| && j == |anc|
    ensures forall y :: 0 <= y < |supp| ==> supp[y] == supp0[y] + (if y in anc then count else 0)
  {
    supp, j := supp0, 0;
    assert anc[|anc|..] == [];
    while cells[begin + j] != mark
      invariant j <= |anc| && |supp| == |supp0|
      invariant forall y :: 0 <= y < |supp| ==> supp[y] == supp0[y] + (if y in anc[|anc| - j..] then count else 0)
      decreases |anc| - j
    {
      var y := cells[begin + j];
      assert y == anc[|anc| - 1 - j];
      assert anc[|anc| - 1 - j..] == [y] + anc[|anc| - j..];
      assert y !in anc[|anc| - j..];
      supp := supp[y := supp[y] + count];
      j := j + 1;
    }
    assert anc[0..] == anc;
  }
}
