/** From one level of the mining to the next: what a built tree stands for, and what the conditional
    database of one of its items looks like. */
module FpLevel {
  import opened FpDatabase
  import opened HotItems
  import opened FpArena
  import opened FpTree
  import opened FpTraversal
  import opened FpArray
  import opened FpMining
  import opened FpCond
  import opened FpMiner
  import opened FpScan

  /** The header table lists frequent items with their supports. */
  ghost predicate Headed(table: seq<Item>, count: seq<nat>, db: Database, threshold: nat, itemCount: nat) {
    && |count| == |table| <= itemCount && Distinct(table)
    && forall i :: 0 <= i < |table| ==>
        table[i] < itemCount && count[i] == Support(db, {table[i]}) && threshold <= count[i]
  }

  /** A built tree whose rows are the database as its own header table encodes it. */
  ghost predicate LevelOf(t: FpTree, db: Database, threshold: nat, itemCount: nat)
    reads t
  {
    && t.Built() && t.itemno == |t.table|
    && Headed(t.table, t.count, db, threshold, itemCount)
    && Rows(t.log, t.numHot, t.itemno) == RowsOf(db, t.table)
  }

  lemma LevelFacts(t: FpTree, db: Database, threshold: nat, itemCount: nat)
    requires LevelOf(t, db, threshold, itemCount)
    ensures t.itemno == |t.table| == |t.count| <= itemCount && Distinct(t.table)
    ensures Headed(t.table, t.count, db, threshold, itemCount)
    ensures Level(t.nodes, t.sh, t.itemno, t.table, db)
    ensures TreeOk(t.nodes, t.sh, t.itemno, t.nodenum) && t.newDataNum == LeafDepths(t.sh.path, t.sh.kids) + 1
    ensures Represents(t.nodes, t.sh, RowsOf(db, t.table), t.itemno) && Weighted(RowsOf(db, t.table))
  {
    DepthsOk(t.nodes, t.sh, t.itemno);
    LogWeighted(t.log, t.numHot, t.itemno);
  }

  lemma LogWeighted(log: seq<HotRow>, numHot: nat, itemno: nat)
    requires LogOk(log, numHot, itemno)
    ensures Weighted(Rows(log, numHot, itemno))
  {
    var rows := Rows(log, numHot, itemno);
    forall k | 0 <= k < |rows| ensures 0 < rows[k].weight {
      assert RowOk(log[k], numHot, itemno);
    }
  }

  lemma {:induction false} CondDbAt(table: seq<Item>, rows: seq<Row>, paths: seq<seq<nat>>, k: nat)
    requires k < |paths|
    ensures |CondDb(table, rows, paths)| == |paths|
    ensures CondDb(table, rows, paths)[k] == CondTransaction(table, rows, paths[k])
  {
    CondDbSize(table, rows, paths[..|paths| - 1]);
    if k < |paths| - 1 { CondDbAt(table, rows, paths[..|paths| - 1], k); }
  }

  lemma {:induction false} CondDbSize(table: seq<Item>, rows: seq<Row>, paths: seq<seq<nat>>)
    ensures |CondDb(table, rows, paths)| == |paths|
  {
    if paths != [] { CondDbSize(table, rows, paths[..|paths| - 1]); }
  }

  lemma {:induction false} SupportPositive(db: Database, k: nat, s: set<Item>)
    requires k < |db| && s <= db[k].items && 0 < db[k].weight
    ensures 0 < Support(db, s)
  {
    if k < |db| - 1 { SupportPositive(db[..|db| - 1], k, s); }
  }

  lemma OnPathPositive(table: seq<Item>, rows: seq<Row>, paths: seq<seq<nat>>, k: nat, j: nat)
    requires k < |paths| && j < |AllButLast(paths[k])|
    requires AllButLast(paths[k])[j] < |table| && 0 < PrefixWeight(rows, paths[k])
    ensures 0 < Support(CondDb(table, rows, paths), {table[AllButLast(paths[k])[j]]})
  {
    CondDbAt(table, rows, paths, k);
    var anc := AllButLast(paths[k]);
    assert table[anc[j]] in Names(table, anc);
    SupportPositive(CondDb(table, rows, paths), k, {table[anc[j]]});
  }

  /** What Filter leaves behind for the infrequent items. */
  ghost predicate Marked(tempOrder: seq<int>, table: seq<Item>, x: nat, condDb: Database, threshold: nat)
    requires x <= |table|
  {
    forall y :: 0 <= y < x && 0 < Support(condDb, {table[y]}) < threshold ==>
        table[y] < |tempOrder| && tempOrder[table[y]] == -1
  }

  /** What Header makes of it. */
  ghost predicate Renumbered(tempOrder0: seq<int>, tempOrder: seq<int>, order: seq<int>, table: seq<Item>, x: nat,
          table': seq<Item>)
    requires x <= |table|
  {
    && x <= |order| && |tempOrder| == |tempOrder0|
    && (forall i :: 0 <= i < |table'| ==> table'[i] < |tempOrder| && tempOrder[table'[i]] == i)
    && (forall y :: 0 <= y < |tempOrder| && y !in table' ==> tempOrder[y] == tempOrder0[y])
    && forall y :: 0 <= y < x ==> table[y] < |tempOrder| && order[y] == tempOrder[table[y]]
  }

  lemma OneOrdered(tempOrder0: seq<int>, tempOrder: seq<int>, order: seq<int>, table: seq<Item>, x: nat,
          table': seq<Item>,
                   condDb: Database, threshold: nat, y: nat)
    requires x <= |table| && y < x && 0 < Support(condDb, {table[y]})
    requires Marked(tempOrder0, table, x, condDb, threshold)
    requires Renumbered(tempOrder0, tempOrder, order, table, x, table')
    requires ToSet(table') == ToSet(FrequentItems(condDb, table, x, threshold))
    ensures OrderAt(order, table, table', y)
  {
    FrequentMembers(condDb, table, x, threshold, table[y]);
    assert table[y] in table[..x] by { assert table[..x][y] == table[y]; }
    assert table[y] in table' <==> table[y] in ToSet(table');
    if table[y] in table' {
      var i :| 0 <= i < |table'| && table'[i] == table[y];
      assert tempOrder[table'[i]] == i;
    } else {
      assert Support(condDb, {table[y]}) < threshold;
    }
  }

  lemma OrdersKnown(tempOrder0: seq<int>, tempOrder: seq<int>, order: seq<int>, table: seq<Item>, x: nat,
          table': seq<Item>,
                    rows: seq<Row>, paths: seq<seq<nat>>, threshold: nat)
    requires x <= |table| && PathsTo(paths, x) && forall k :: 0 <= k < |paths| ==> 0 < PrefixWeight(rows, paths[k])
    requires Marked(tempOrder0, table, x, CondDb(table, rows, paths), threshold)
    requires Renumbered(tempOrder0, tempOrder, order, table, x, table')
    requires ToSet(table') == ToSet(FrequentItems(CondDb(table, rows, paths), table, x, threshold))
    ensures AllOrdered(order, table, table', paths)
  {
    var condDb := CondDb(table, rows, paths);
    forall k | 0 <= k < |paths| ensures Ordered(order, table, table', AllButLast(paths[k])) {
      var anc := AllButLast(paths[k]);
      PathsBelow(paths[k], x);
      forall j | 0 <= j < |anc| ensures OrderAt(order, table, table', anc[j]) {
        OnPathPositive(table, rows, paths, k, j);
        OneOrdered(tempOrder0, tempOrder, order, table, x, table', condDb, threshold, anc[j]);
      }
    }
  }

  /** The conditional database of item x, seen through any arrangement of its frequent items. */
  lemma CondHolds(nodes: seq<Fnode>, sh: Shape, itemno: nat, table: seq<Item>, db: Database, x: nat,
          table': seq<Item>, threshold: nat)
    requires Level(nodes, sh, itemno, table, db) && x < itemno
    requires ToSet(table') == ToSet(FrequentItems(CondOf(nodes, sh, itemno, table, db, x), table, x, threshold))
    ensures Conditional(db, table, x, CondOf(nodes, sh, itemno, table, db, x), table', threshold)
  {
    var condDb := CondOf(nodes, sh, itemno, table, db, x);
    var f := FrequentItems(condDb, table, x, threshold);
    forall y ensures y in ToSet(table') <==> y in ToSet(table[..x]) && threshold <= Support(condDb, {y}) {
      FrequentMembers(condDb, table, x, threshold, y);
      assert y in ToSet(table') <==> y in ToSet(f);
    }
    forall s | s <= ToSet(table[..x]) ensures Support(condDb, s) == Support(db, s + {table[x]}) {
      CondOfSupport(nodes, sh, itemno, table, db, x, s);
    }
  }

  /** An arrangement of the frequent items is a header table over items before x. */
  lemma HeaderFacts(condDb: Database, table: seq<Item>, x: nat, threshold: nat, itemCount: nat, table': seq<Item>,
          count': seq<nat>)
    requires x <= |table| <= itemCount && Distinct(table) && forall i :: 0 <= i < |table| ==> table[i] < itemCount
    requires var f := FrequentItems(condDb, table, x, threshold); Arranged(f, SupportsOf(condDb, f), table', count')
    ensures Headed(table', count', condDb, threshold, itemCount) && |table'| <= x
    ensures ToSet(table') == ToSet(FrequentItems(condDb, table, x, threshold)) <= ToSet(table[..x])
  {
    var f := FrequentItems(condDb, table, x, threshold);
    FrequentDistinct(condDb, table, x, threshold);
    forall y | y in f ensures y in table[..x] && threshold <= Support(condDb, {y}) {
      FrequentMembers(condDb, table, x, threshold, y);
    }
    forall i | 0 <= i < |table'|
      ensures table'[i] < itemCount && count'[i] == Support(condDb, {table'[i]}) && threshold <= count'[i]
    {
      var k :| 0 <= k < |f| && table'[i] == f[k] && count'[i] == SupportsOf(condDb, f)[k];
      assert f[k] in f;
      var j :| 0 <= j < x && table[..x][j] == f[k];
    }
  }

  /** The prefix of the next level, one item longer, has nothing in common with its header table. */
  lemma NextPrefix(p: seq<Item>, table: seq<Item>, x: nat, table': seq<Item>)
    requires Distinct(table) && Distinct(p) && DisjointFrom(ToSet(p), table) && x < |table|
    requires ToSet(table') <= ToSet(table[..x])
    ensures Distinct(p + [table[x]]) && ToSet(p + [table[x]]) == ToSet(p) + {table[x]}
    ensures DisjointFrom(ToSet(p + [table[x]]), table')
  {
    ToSetAppend(p, table[x]);
    NotBefore(table, x);
    forall i | 0 <= i < |table'| ensures table'[i] !in ToSet(p) + {table[x]} {
      assert table'[i] in ToSet(table');
      assert table'[i] in table[..x];
      var j :| 0 <= j < x && table[..x][j] == table'[i];
      assert table[j] !in ToSet(p);
    }
  }

  /** One frequent item: its set alone is the whole family. */
  lemma OneItem(p: seq<Item>, db: Database, y: Item, threshold: nat)
    requires Distinct(p) && y !in ToSet(p) && threshold <= Support(db, {y})
    ensures Emits([Emission(p + [y], Support(db, {y}))], ToSet(p), db, [y], 0, threshold)
  {
    var rest := [Transaction({}, Support(db, {y}))];
    assert rest[..0] == [];
    assert forall s :: s <= ToSet([y][..0]) ==> s == {};
    assert {} + {[y][0]} == {y};
    assert Support(rest, {}) == Support(db, {y});
    NothingYet(ToSet(p), db, [y], 1, threshold);
    NothingYet(ToSet(p) + {y}, rest, [], 0, threshold);
    Step([], p, db, [y], 0, threshold, rest, [], []);
    assert StepOut([], p, db, [y], 0, []) == [Emission(p + [y], Support(db, {y}))];
  }
}
