/**
 * From a database to the mining of its first level: the frequent items, a tree that holds every transaction, and
 * the recursion started on it.
 */
module FpFirst {
  import opened FpDatabase
  import opened HotItems
  import opened FpArena
  import opened FpTree
  import opened FpTraversal
  import opened FpMining
  import opened FpMiner
  import opened FpScan
  import opened FpLevel
  import opened FpGrowth

  /** How many items the first tree treats as hot at most. */
  const FIRST_HOT: nat := 16

  /** A database read from a file: the items are below itemNo, and each transaction counts. */
  ghost predicate Loaded(db: Database, itemNo: nat) {
    forall k :: 0 <= k < |db| ==> 0 < db[k].weight && AllBelow(db[k].items, itemNo)
  }

  ghost predicate AllBelow(items: set<Item>, itemNo: nat) {
    forall y :: y in items ==> y < itemNo
  }

  /** The lines are the frequent item sets of the whole database, each once and with its support. */
  ghost predicate Reports(out: seq<Emission>, db: Database, threshold: nat) {
    && (forall k :: 0 <= k < |out| ==> ReportsOne(out[k], db, threshold))
    && Unique(out)
    && forall s :: s != {} && threshold <= Support(db, s) ==> Found(out, s)
  }

  ghost predicate ReportsOne(e: Emission, db: Database, threshold: nat) {
    e.items != [] && Distinct(e.items) && threshold <= e.support == Support(db, ToSet(e.items))
  }

  // ---- The first scan ----------------------------------------------------------------------------

  ghost predicate Counted(counts: seq<nat>, db: Database) {
    forall y :: 0 <= y < |counts| ==> counts[y] == Support(db, {y})
  }

  /** The occurrences of every item. */
  method CountItems(db: Database, itemNo: nat) returns (counts: seq<nat>)
    ensures |counts| == itemNo && Counted(counts, db)
  {
    counts := seq(itemNo, _ => 0);
    var k := 0;
    while k < |db|
      invariant k <= |db| && |counts| == itemNo && Counted(counts, db[..k])
    {
      counts := CountTransaction(counts, db[k], db[..k]);
      assert db[..k + 1] == db[..k] + [db[k]];
      k := k + 1;
    }
    assert db[..k] == db;
  }

  method CountTransaction(counts0: seq<nat>, t: Transaction, ghost before: Database) returns (counts: seq<nat>)
    requires Counted(counts0, before)
    ensures |counts| == |counts0| && Counted(counts, before + [t])
  {
    counts := counts0;
    var y := 0;
    while y < |counts|
      invariant y <= |counts| == |counts0|
      invariant forall i :: 0 <= i < y ==> counts[i] == counts0[i] + (if i in t.items then t.weight else 0)
      invariant forall i :: y <= i < |counts| ==> counts[i] == counts0[i]
    {
      if y in t.items { counts := counts[y := counts[y] + t.weight]; }
      y := y + 1;
    }
    forall i | 0 <= i < |counts| ensures counts[i] == Support(before + [t], {i}) {
      SupportAppend(before, t, {i});
    }
  }

  /** The frequent items by falling support. */
  method Scan1(db: Database, itemNo: nat, threshold: nat) returns (table: seq<Item>, count: seq<nat>)
    ensures Headed(table, count, db, threshold, itemNo)
    ensures forall y: nat :: y in table <==> y < itemNo && threshold <= Support(db, {y})
    ensures forall i, j :: 0 <= i < j < |count| ==> count[i] >= count[j]
  {
    var counts := CountItems(db, itemNo);
    var items := seq(itemNo, i => i);
    table, count := SortTable(items, counts);
    SortedIs(items, counts, table, count, db);
    var n := 0;
    while n < |table| && count[n] >= threshold
      invariant n <= |table| && forall i :: 0 <= i < n ==> count[i] >= threshold
    {
      n := n + 1;
    }
    FrontIs(table, count, n, db, itemNo, threshold);
    table, count := table[..n], count[..n];
  }

  /** The header table of all items, frequent or not. */
  ghost predicate AllItems(table: seq<Item>, count: seq<nat>, db: Database, itemNo: nat) {
    && |table| == |count| == itemNo && Distinct(table)
    && (forall y: nat :: y in table <==> y < itemNo)
    && forall i :: 0 <= i < |table| ==> count[i] == Support(db, {table[i]})
  }

  lemma SortedIs(items: seq<Item>, counts: seq<nat>, table: seq<Item>, count: seq<nat>, db: Database)
    requires Arranged(items, counts, table, count) && Counted(counts, db)
    requires forall i :: 0 <= i < |items| ==> items[i] == i
    ensures AllItems(table, count, db, |items|)
  {
    forall y: nat ensures y in table <==> y < |items| {
      assert y in table <==> y in ToSet(table);
      assert y in items <==> y in ToSet(items);
      if y < |items| { assert items[y] == y; }
    }
    forall i | 0 <= i < |table| ensures count[i] == Support(db, {table[i]}) {
      assert Paired(items, counts, table[i], count[i]);
    }
  }

  lemma FrontIs(table: seq<Item>, count: seq<nat>, n: nat, db: Database, itemNo: nat, threshold: nat)
    requires AllItems(table, count, db, itemNo) && n <= |table|
    requires forall i, j :: 0 <= i < j < |count| ==> count[i] >= count[j]
    requires forall i :: 0 <= i < n ==> count[i] >= threshold
    requires n == |table| || count[n] < threshold
    ensures Headed(table[..n], count[..n], db, threshold, itemNo)
    ensures forall y: nat :: y in table[..n] <==> y < itemNo && threshold <= Support(db, {y})
  {
    forall i | 0 <= i < |table| ensures table[i] < itemNo && (i < n <==> threshold <= Support(db, {table[i]})) {
      assert table[i] in table;
    }
    forall y: nat ensures y in table[..n] <==> y < itemNo && threshold <= Support(db, {y}) {
      if y in table[..n] {
        var i :| 0 <= i < n && table[..n][i] == y;
        assert table[i] == y;
      }
      if y < itemNo && threshold <= Support(db, {y}) {
        assert y in table;
        var i :| 0 <= i < |table| && table[i] == y;
        assert table[..n][i] == y;
      }
    }
  }

  // ---- The second scan ---------------------------------------------------------------------------

  /** The order numbers below n of these items. */
  ghost function Orders(table: seq<Item>, items: set<Item>, n: nat): set<int>
    requires n <= |table|
  {
    set i: int | 0 <= i < n && table[i] in items
  }

  /** A transaction as the tree takes it: its hot items as a mask, the others as an ascending list. */
  method TransactionRow(t: Transaction, table: seq<Item>, numHot: nat) returns (ntype: nat, compact: seq<nat>)
    requires numHot <= |table| && Distinct(table) && 0 < t.weight
    ensures var r := HotRow(ntype, compact, t.weight);
            RowOk(r, numHot, |table|) && Row(Ids(r, numHot), r.weight) == RowOf(t, table)
  {
    hide *;
    ntype, compact := 0, [];
    StartRow(table, t.items, numHot);
    var i := 0;
    while i < |table|
      invariant i <= |table| && IsCompact(compact, Orders(table, t.items, i), numHot)
      invariant IsMask(ntype, Orders(table, t.items, i), numHot)
    {
      NextOrder(table, t.items, i);
      if table[i] in t.items {
        if i < numHot {
          MaskMore(ntype, Orders(table, t.items, i), numHot, i);
          CompactSame(compact, Orders(table, t.items, i), numHot, i);
          ntype := OrBit(ntype, i, numHot);
        } else {
          MaskSame(ntype, Orders(table, t.items, i), numHot, i);
          CompactMore(compact, Orders(table, t.items, i), numHot, i);
          compact := compact + [i];
        }
      } else {
        assert Orders(table, t.items, i) + {} == Orders(table, t.items, i);
      }
      i := i + 1;
    }
    RowIs(t, table, ntype, compact, numHot);
  }

  lemma StartRow(table: seq<Item>, items: set<Item>, numHot: nat)
    ensures IsCompact([], Orders(table, items, 0), numHot) && IsMask(0, Orders(table, items, 0), numHot)
  {
    ZeroBits(numHot);
  }

  lemma NextOrder(table: seq<Item>, items: set<Item>, i: nat)
    requires i < |table|
    ensures Orders(table, items, i + 1) == Orders(table, items, i) + (if table[i] in items then {i} else {})
    ensures forall k :: k in Orders(table, items, i) ==> 0 <= k < i
  {
  }

  lemma MaskMore(ntype: nat, seen: set<int>, numHot: nat, i: nat)
    requires IsMask(ntype, seen, numHot) && i < numHot
    ensures ntype < Pow2(numHot) && IsMask(OrBit(ntype, i, numHot), seen + {i}, numHot)
  {
    hide Bits, OrBit, Pow2;
    OrBitBits(ntype, i, numHot);
  }

  lemma MaskSame(ntype: nat, seen: set<int>, numHot: nat, i: nat)
    requires IsMask(ntype, seen, numHot) && numHot <= i
    ensures IsMask(ntype, seen + {i}, numHot)
  {
    hide Bits, Pow2;
  }

  lemma CompactSame(compact: seq<nat>, seen: set<int>, numHot: nat, i: nat)
    requires IsCompact(compact, seen, numHot) && i < numHot
    ensures IsCompact(compact, seen + {i}, numHot)
  {
  }

  lemma CompactMore(compact: seq<nat>, seen: set<int>, numHot: nat, i: nat)
    requires IsCompact(compact, seen, numHot) && numHot <= i && forall k :: k in seen ==> 0 <= k < i
    ensures IsCompact(compact + [i], seen + {i}, numHot)
  {
    forall k | 0 <= k < |compact| ensures compact[k] < i { assert compact[k] in compact; }
  }

  lemma RowIs(t: Transaction, table: seq<Item>, ntype: nat, compact: seq<nat>, numHot: nat)
    requires numHot <= |table| && 0 < t.weight
    requires IsCompact(compact, Orders(table, t.items, |table|), numHot)
    requires IsMask(ntype, Orders(table, t.items, |table|), numHot)
    ensures var r := HotRow(ntype, compact, t.weight);
            RowOk(r, numHot, |table|) && Row(Ids(r, numHot), r.weight) == RowOf(t, table)
  {
    hide IsCompact, IsMask, RowOk, Ids, Ascending, Encode;
    var seen, r := Orders(table, t.items, |table|), HotRow(ntype, compact, t.weight);
    CompactRow(compact, ntype, t.weight, seen, numHot, |table|);
    AscendingUnique(Ids(r, numHot), Encode(table, t.items, |table|));
  }

  /** The tree of the whole database, one row for each transaction. */
  method Scan2First(s: Scratch, t: FpTree, db: Database)
    requires Empty(t) && t.itemno == |t.table| && t.numHot <= t.itemno && Distinct(t.table)
    requires s.tables.Clean() && 64 <= |s.tables.hashtable| && Pow2(t.numHot) <= |s.tables.hashtable|
    requires forall k :: 0 <= k < |db| ==> 0 < db[k].weight
    modifies s.tables, t`nodes, t`nodenum, t`sh, t`newDataNum, t`log
    ensures t.Built() && s.tables.Clean() && |s.tables.hashtable| == |old(s.tables.hashtable)|
    ensures LogOk(t.log, t.numHot, t.itemno) && Rows(t.log, t.numHot, t.itemno) == RowsOf(db, t.table)
  {
    hide *;
    EmptyLog(t);
    StartTree(s, t);
    StartRows(t.table, t.numHot);
    var k := 0;
    while k < |db|
      invariant k <= |db| && t.Building(s.tables)
      invariant |s.tables.hashtable| == |old(s.tables.hashtable)| <= |s.tables.hotCount|
      invariant Pow2(t.numHot) <= |s.tables.hashtable|
      invariant forall m :: Pow2(t.numHot) <= m < |s.tables.hotCount| ==> s.tables.hotCount[m] == 0
      invariant LogOk(t.log, t.numHot, t.itemno)
      invariant Rows(t.log, t.numHot, t.itemno) == RowsOf(db[..k], t.table)
    {
      var ntype, compact := TransactionRow(db[k], t.table, t.numHot);
      t.BuildingBounds(s.tables, HotRow(ntype, compact, db[k].weight));
      t.AddRow(s.tables, compact, db[k].weight, ntype);
      RowsMore(db, t.table, k);
      k := k + 1;
    }
    assert db[..k] == db;
    t.LinkHotNodes(s.tables);
  }

  lemma StartRows(table: seq<Item>, numHot: nat)
    ensures LogOk([], numHot, |table|) && Rows([], numHot, |table|) == RowsOf([], table)
  {
  }

  lemma RowsMore(db: Database, table: seq<Item>, k: nat)
    requires k < |db|
    ensures RowsOf(db[..k + 1], table) == RowsOf(db[..k], table) + [RowOf(db[k], table)]
  {
    hide RowOf;
    assert db[..k + 1][..k] == db[..k];
  }

  /** The first level of the mining. */
  method FirstLevel(s: Scratch, db: Database, table: seq<Item>, count: seq<nat>) returns (t: FpTree)
    requires s.Idle() && Loaded(db, s.itemCount) && Headed(table, count, db, s.threshold, s.itemCount)
    requires |s.tables.hashtable| == HOT_NODES
    modifies s.tables
    ensures s.Idle() && fresh(t) && t.table == table && LevelOf(t, db, s.threshold, s.itemCount)
  {
    hide *;
    IdleFacts(s);
    HeadedFacts(table, count, db, s.threshold, s.itemCount);
    LoadedFacts(db, s.itemCount);
    var numHot := if FIRST_HOT > |table| then |table| else FIRST_HOT;
    RoomForHot(numHot);
    t := new FpTree(table, count, numHot);
    EmptyIs(t);
    Scan2First(s, t, db);
    LevelIs(t, db, s.threshold, s.itemCount);
    IdleIs(s);
  }

  lemma LoadedFacts(db: Database, itemNo: nat)
    requires Loaded(db, itemNo)
    ensures forall k :: 0 <= k < |db| ==> 0 < db[k].weight
  {
  }

  lemma RoomForHot(numHot: nat)
    requires numHot <= FIRST_HOT
    ensures 64 <= HOT_NODES && Pow2(numHot) <= HOT_NODES
  {
    Pow2Monotone(numHot, FIRST_HOT);
    assert Pow2(4) == 16 && Pow2(8) == 256 && Pow2(12) == 4096 && Pow2(16) == 0x1_0000;
  }

  // ---- Mining ------------------------------------------------------------------------------------

  /** Mine a database: all its frequent item sets, and how many there are of each size. */
  method Mine(db: Database, itemNo: nat, threshold: nat) returns (m: Miner)
    requires 0 < threshold && itemNo <= 0x7fff_ffff && Loaded(db, itemNo)
    ensures fresh(m) && Reports(m.out, db, threshold)
    ensures Grew(seq(itemNo, _ => 0), m.itlen, m.out)
  {
    hide *;
    var table, count := Scan1(db, itemNo, threshold);
    m := new Miner(itemNo, threshold);
    ghost var zeros := m.itlen;
    if |table| == 0 {
      GrewNot(m.itlen);
      NothingYet({}, db, table, 0, threshold);
    } else {
      var t := FirstLevel(m.scratch, db, table, count);
      EmptyPrefix(table);
      LevelFacts(t, db, threshold, itemNo);
      EnteredIs(m, t, db, []);
      ghost var found := m.Grow(t, db, []);
      assert [] + found == found;
    }
    WholeDatabase(m.out, db, table, itemNo, threshold);
  }

  lemma EmptyPrefix(table: seq<Item>)
    ensures Distinct<Item>([]) && ToSet<Item>([]) == {} && DisjointFrom({}, table)
  {
  }

  /** What the first level owes is the whole database. */
  lemma WholeDatabase(out: seq<Emission>, db: Database, table: seq<Item>, itemNo: nat, threshold: nat)
    requires Emits(out, {}, db, table, 0, threshold) && Loaded(db, itemNo) && 0 < threshold
    requires forall y: nat :: y in table <==> y < itemNo && threshold <= Support(db, {y})
    ensures Reports(out, db, threshold)
  {
    hide Loaded, Support, Distinct, Unique, Found;
    forall k | 0 <= k < |out| ensures ReportsOne(out[k], db, threshold) {
      var e := out[k];
      assert SoundAt(e, {}, db, table, 0, threshold);
      assert ToSet(e.items) - {} == ToSet(e.items);
      var i :| 0 <= i < |table| && table[i] in ToSet(e.items);
    }
    forall s | s != {} && threshold <= Support(db, s) ensures Found(out, s) {
      FrequentInTable(db, table, itemNo, threshold, s);
      assert Family(db, table, 0, threshold, s);
      assert {} + s == s;
    }
  }

  lemma FrequentInTable(db: Database, table: seq<Item>, itemNo: nat, threshold: nat, s: set<Item>)
    requires Loaded(db, itemNo) && s != {} && 0 < threshold <= Support(db, s)
    requires forall y: nat :: y in table <==> y < itemNo && threshold <= Support(db, {y})
    ensures s <= ToSet(table) && exists i :: 0 <= i < |table| && table[i] in s
  {
    hide Support;
    forall y | y in s ensures y in table {
      SupportMonotone(db, {y}, s);
      OnlyKnownItems(db, itemNo, s, y);
    }
    var y :| y in s;
    assert y in table;
  }

  lemma {:induction false} OnlyKnownItems(db: Database, itemNo: nat, s: set<Item>, y: Item)
    requires Loaded(db, itemNo) && y in s && 0 < Support(db, s)
    ensures y < itemNo
  {
    var n := |db| - 1;
    if s <= db[n].items {
      assert AllBelow(db[n].items, itemNo);
    } else {
      OnlyKnownItems(db[..n], itemNo, s, y);
    }
  }
}
