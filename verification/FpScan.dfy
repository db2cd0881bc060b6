/** The second scan: the rows of one item's conditional database are inserted into a new tree. */
module FpScan {
  import opened FpDatabase
  import opened HotItems
  import opened FpArena
  import opened FpTree
  import opened FpTraversal
  import opened FpArray
  import opened FpCond
  import opened FpMiner

  const HOT_ITEM_NUM := 6

  /** How many items the new tree treats as hot. */
  method ChooseNumHot(itemno: nat, sumItemNum: nat) returns (numHot: nat)
    ensures 2 * numHot <= itemno && numHot <= HOT_ITEM_NUM && Pow2(numHot) <= 64
    ensures numHot > 0 ==> 8 * Pow2(numHot) <= sumItemNum && (numHot == HOT_ITEM_NUM || itemno < 2 * numHot + 2)
    ensures numHot == 0 ==> itemno < 2 || sumItemNum < 8 * Pow2(if itemno > 12 then 6 else itemno / 2)
  {
    numHot := if itemno > HOT_ITEM_NUM * 2 then HOT_ITEM_NUM else itemno / 2;
    Pow2Monotone(numHot, HOT_ITEM_NUM);
    if Pow2(numHot) > sumItemNum / 8 { numHot := 0; }
  }

  /** Every item on the path has a place in the new order. */
  ghost predicate Ordered(order: seq<int>, oldTable: seq<Item>, table: seq<Item>, anc: seq<nat>) {
    forall j :: 0 <= j < |anc| ==> OrderAt(order, oldTable, table, anc[j])
  }

  ghost predicate AllOrdered(order: seq<int>, oldTable: seq<Item>, table: seq<Item>, paths: seq<seq<nat>>) {
    forall k :: 0 <= k < |paths| ==> Ordered(order, oldTable, table, AllButLast(paths[k]))
  }

  ghost predicate IsCompact(compact: seq<nat>, seen: set<int>, numHot: nat) {
    && Ascending(compact)
    && forall i :: i in compact <==> i in seen && numHot <= i
  }

  ghost predicate IsMask(ntype: nat, seen: set<int>, numHot: nat) {
    && ntype < Pow2(numHot)
    && forall i: nat :: i in Bits(ntype, numHot) <==> i in seen && i < numHot
  }

  lemma CompactSize(compact: seq<nat>, seen: set<int>, numHot: nat)
    requires IsCompact(compact, seen, numHot)
    ensures |compact| == |Cold(seen, numHot)|
  {
    DistinctSize<int>(compact);
    assert ToSet<int>(compact) == Cold(seen, numHot);
  }

  lemma CompactRow(compact: seq<nat>, ntype: nat, weight: nat, seen: set<int>, numHot: nat, n: nat)
    requires IsCompact(compact, seen, numHot) && IsMask(ntype, seen, numHot) && 0 < weight
    requires numHot <= n && forall i :: i in seen ==> 0 <= i < n
    ensures RowOk(HotRow(ntype, compact, weight), numHot, n)
    ensures Ascending(Ids(HotRow(ntype, compact, weight), numHot))
    ensures forall i: nat :: i in Ids(HotRow(ntype, compact, weight), numHot) <==> i in seen
  {
    forall k | 0 <= k < |compact| ensures numHot <= compact[k] < n { assert compact[k] in compact; }
    IdsAscending(HotRow(ntype, compact, weight), numHot, n);
  }

  lemma RowOfPath(order: seq<int>, oldTable: seq<Item>, table: seq<Item>, oldRows: seq<Row>, path: seq<nat>,
                  compact: seq<nat>, ntype: nat, numHot: nat)
    requires Distinct(table) && Below(AllButLast(path), |oldTable|) && Ordered(order, oldTable, table, AllButLast(path))
    requires var seen := Moved(order, AllButLast(path)); IsCompact(compact, seen, numHot) && IsMask(ntype, seen, numHot)
    requires numHot <= |table| && 0 < PrefixWeight(oldRows, path)
    ensures var r := HotRow(ntype, compact, PrefixWeight(oldRows, path));
            RowOk(r, numHot, |table|)
            && Row(Ids(r, numHot), r.weight) == RowOf(CondTransaction(oldTable, oldRows, path), table)
  {
    var anc, seen := AllButLast(path), Moved(order, AllButLast(path));
    var r := HotRow(ntype, compact, PrefixWeight(oldRows, path));
    MovedBelow(order, oldTable, table, anc);
    CompactRow(compact, ntype, r.weight, seen, numHot, |table|);
    RowIds(Ids(r, numHot), order, anc, oldTable, table);
  }

  lemma MovedBelow(order: seq<int>, oldTable: seq<Item>, table: seq<Item>, anc: seq<nat>)
    requires Ordered(order, oldTable, table, anc)
    ensures forall i :: i in Moved(order, anc) ==> 0 <= i < |table|
  {
    forall i | i in Moved(order, anc) ensures 0 <= i < |table| {
      var k :| 0 <= k < |anc| && anc[k] < |order| && order[anc[k]] == i;
      assert OrderAt(order, oldTable, table, anc[k]);
    }
  }

  lemma ItemPath(path: seq<nat>, x: nat, oldTable: seq<Item>, mark: nat)
    requires EndsIn(path, x) && Ascending(path) && x <= |oldTable| && x <= mark
    ensures var anc := AllButLast(path); Ascending(anc) && Below(anc, |oldTable|) && Below(anc, mark)
  {
    PathsBelow(path, x);
  }

  /** The items of one path, as mask and list. */
  method PathRow(s: Scratch, cells: seq<nat>, begin: nat, mark: nat, numHot: nat, ghost path: seq<nat>,
          ghost oldTable: seq<Item>, ghost table: seq<Item>, n: nat)
    returns (ntype: nat, compact: seq<nat>)
    requires var anc := AllButLast(path); Reads(cells, mark, begin, anc) && Ascending(anc) && Below(anc, mark)
    requires Distinct(oldTable) && Ordered(s.order, oldTable, table, AllButLast(path))
    requires n == |table| && numHot <= n <= s.itemCount && 0 < s.itemCount
    requires |s.origin| == s.itemCount && forall i :: 0 <= i < s.itemCount ==> !s.origin[i]
    modifies s`origin
    ensures |s.origin| == s.itemCount && forall i :: 0 <= i < s.itemCount ==> !s.origin[i]
    ensures var seen := Moved(s.order, AllButLast(path));
            IsCompact(compact, seen, numHot) && IsMask(ntype, seen, numHot)
  {
    ghost var anc := AllButLast(path);
    var has, maxItem;
    ntype, has, maxItem := s.ReadPath(cells, begin, mark, numHot, n, anc, oldTable, table);
    ghost var seen := Moved(s.order, anc);
    ghost var cold := Cold(seen, numHot);
    if has > 0 {
      compact := s.FillCount(numHot, maxItem);
      assert IsCompact(compact, seen, numHot);
      CompactSize(compact, seen, numHot);
      assert |compact| == has;
    } else {
      assert cold == {};
      assert forall i :: i in seen ==> i !in cold ==> i < numHot;
      compact := [];
    }
  }

  /** One path becomes one row of the tree. */
  method ScanPath(s: Scratch, t: FpTree, cells: seq<nat>, e: Entry, mark: nat, ghost path: seq<nat>, ghost x: nat,
                  ghost oldTable: seq<Item>, ghost oldRows: seq<Row>)
    requires t.Building(s.tables) && t.itemno == |t.table| && t.numHot <= t.itemno <= s.itemCount && 0 < s.itemCount
    requires PathEntry(cells, mark, e, oldRows, path) && EndsIn(path, x) && Ascending(path)
    requires x <= |oldTable| && x <= mark
    requires Distinct(oldTable) && Distinct(t.table) && Ordered(s.order, oldTable, t.table, AllButLast(path))
    requires |s.origin| == s.itemCount && forall i :: 0 <= i < s.itemCount ==> !s.origin[i]
    requires Pow2(t.numHot) <= |s.tables.hotCount|
    modifies s`origin, s.tables, t`nodes, t`nodenum, t`sh, t`newDataNum, t`log
    ensures t.Building(s.tables)
    ensures |s.origin| == s.itemCount && forall i :: 0 <= i < s.itemCount ==> !s.origin[i]
    ensures |s.tables.hashtable| == |old(s.tables.hashtable)| && |s.tables.hotCount| == |old(s.tables.hotCount)|
    ensures forall m :: Pow2(t.numHot) <= m < |s.tables.hotCount| ==> s.tables.hotCount[m] == old(s.tables.hotCount)[m]
    ensures LogOk(old(t.log), t.numHot, t.itemno) && LogOk(t.log, t.numHot, t.itemno)
    ensures Rows(t.log, t.numHot, t.itemno)
         == Rows(old(t.log), t.numHot, t.itemno) + [RowOf(CondTransaction(oldTable, oldRows, path), t.table)]
  {
    hide *;
    EntryFacts(cells, mark, e, oldRows, path);
    ItemPath(path, x, oldTable, mark);
    var ntype, compact := PathRow(s, cells, e.begin, mark, t.numHot, path, oldTable, t.table, t.itemno);
    RowOfPath(s.order, oldTable, t.table, oldRows, path, compact, ntype, t.numHot);
    MaskBound(ntype, Moved(s.order, AllButLast(path)), t.numHot);
    t.BuildingBounds(s.tables, HotRow(ntype, compact, e.count));
    t.AddRow(s.tables, compact, e.count, ntype);
  }

  lemma MaskBound(ntype: nat, seen: set<int>, numHot: nat)
    requires IsMask(ntype, seen, numHot)
    ensures ntype < Pow2(numHot)
  {
  }

  lemma EntryFacts(cells: seq<nat>, mark: nat, e: Entry, rows: seq<Row>, path: seq<nat>)
    requires PathEntry(cells, mark, e, rows, path)
    ensures e.count == PrefixWeight(rows, path) && 0 < e.count && Reads(cells, mark, e.begin, AllButLast(path))
  {
  }

  lemma EntryAt(cells: seq<nat>, mark: nat, list: seq<Entry>, rows: seq<Row>, paths: seq<seq<nat>>, x: nat,
          order: seq<int>, oldTable: seq<Item>, table: seq<Item>, i: nat)
    requires PathEntries(cells, mark, list, rows, paths)
    requires PathsTo(paths, x) && AllOrdered(order, oldTable, table, paths)
    requires i < |list|
    ensures i < |paths| && PathEntry(cells, mark, list[i], rows, paths[i]) && EndsIn(paths[i], x) && Ascending(paths[i])
    ensures Ordered(order, oldTable, table, AllButLast(paths[i]))
  {
  }

  lemma NextRows(oldTable: seq<Item>, oldRows: seq<Row>, paths: seq<seq<nat>>, table: seq<Item>, i: nat)
    requires i < |paths|
    ensures RowsOf(CondDb(oldTable, oldRows, paths[..i + 1]), table)
         == RowsOf(CondDb(oldTable, oldRows, paths[..i]), table)
             + [RowOf(CondTransaction(oldTable, oldRows, paths[i]), table)]
  {
    assert paths[..i + 1][..i] == paths[..i];
    var db, t := CondDb(oldTable, oldRows, paths[..i]), CondTransaction(oldTable, oldRows, paths[i]);
    assert CondDb(oldTable, oldRows, paths[..i + 1]) == db + [t];
    assert (db + [t])[..|db|] == db;
  }

  lemma NoRows(oldTable: seq<Item>, oldRows: seq<Row>, paths: seq<seq<nat>>, table: seq<Item>, numHot: nat, itemno: nat)
    ensures LogOk([], numHot, itemno)
    ensures Rows([], numHot, itemno) == RowsOf(CondDb(oldTable, oldRows, paths[..0]), table)
  {
  }

  ghost predicate Empty(t: FpTree)
    reads t
  {
    t.nodes == [Fnode(0, 0, NULL, NULL)] && t.nodenum == seq(t.itemno, _ => 0) && t.newDataNum == 0
    && t.sh == Shape([[]], [[]]) && t.log == []
  }

  method StartTree(s: Scratch, t: FpTree)
    requires Empty(t) && t.itemno == |t.table| && t.numHot <= t.itemno
    requires s.tables.Clean() && Pow2(t.numHot) <= |s.tables.hashtable|
    modifies s.tables
    ensures t.Building(s.tables)
    ensures Pow2(t.numHot) <= |s.tables.hashtable| == |old(s.tables.hashtable)| <= |s.tables.hotCount|
    ensures forall m :: Pow2(t.numHot) <= m < |s.tables.hotCount| ==> s.tables.hotCount[m] == 0
  {
    t.Start(s.tables);
  }

  /** The second scan of an item's nodes builds the tree of the conditional database. */
  method Scan2(s: Scratch, t: FpTree, cells: seq<nat>, list: seq<Entry>, mark: nat, ghost paths: seq<seq<nat>>,
          ghost x: nat,
               ghost oldTable: seq<Item>, ghost oldRows: seq<Row>)
    requires Empty(t) && t.itemno == |t.table| && t.numHot <= t.itemno <= s.itemCount && 0 < s.itemCount
    requires s.tables.Clean() && 64 <= |s.tables.hashtable| && Pow2(t.numHot) <= 64
    requires PathEntries(cells, mark, list, oldRows, paths) && PathsTo(paths, x)
    requires AllOrdered(s.order, oldTable, t.table, paths)
    requires x <= |oldTable| && x <= mark && Distinct(oldTable) && Distinct(t.table)
    requires |s.origin| == s.itemCount && forall i :: 0 <= i < s.itemCount ==> !s.origin[i]
    modifies s`origin, s.tables, t`nodes, t`nodenum, t`sh, t`newDataNum, t`log
    ensures t.Built() && s.tables.Clean() && 64 <= |s.tables.hashtable|
    ensures |s.origin| == s.itemCount && forall i :: 0 <= i < s.itemCount ==> !s.origin[i]
    ensures LogOk(t.log, t.numHot, t.itemno)
    ensures Rows(t.log, t.numHot, t.itemno) == RowsOf(CondDb(oldTable, oldRows, paths), t.table)
  {
    hide *;
    EmptyLog(t);
    StartTree(s, t);
    NoRows(oldTable, oldRows, paths, t.table, t.numHot, t.itemno);
    PathCount(cells, mark, list, oldRows, paths);
    var i := 0;
    while i < |list|
      invariant i <= |list| && t.Building(s.tables)
      invariant |s.origin| == s.itemCount && forall i :: 0 <= i < s.itemCount ==> !s.origin[i]
      invariant 64 <= |s.tables.hashtable| <= |s.tables.hotCount| && Pow2(t.numHot) <= |s.tables.hotCount|
      invariant forall m :: Pow2(t.numHot) <= m < |s.tables.hotCount| ==> s.tables.hotCount[m] == 0
      invariant LogOk(t.log, t.numHot, t.itemno)
      invariant Rows(t.log, t.numHot, t.itemno) == RowsOf(CondDb(oldTable, oldRows, paths[..i]), t.table)
    {
      EntryAt(cells, mark, list, oldRows, paths, x, s.order, oldTable, t.table, i);
      ScanPath(s, t, cells, list[i], mark, paths[i], x, oldTable, oldRows);
      NextRows(oldTable, oldRows, paths, t.table, i);
      i := i + 1;
    }
    assert paths[..i] == paths;
    t.LinkHotNodes(s.tables);
  }

  lemma EmptyLog(t: FpTree)
    requires Empty(t)
    ensures t.log == []
  {
  }

  lemma PathCount(cells: seq<nat>, mark: nat, list: seq<Entry>, rows: seq<Row>, paths: seq<seq<nat>>)
    requires PathEntries(cells, mark, list, rows, paths)
    ensures |list| == |paths|
  {
  }
}
