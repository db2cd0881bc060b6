/** Weighted transaction databases and the support of item sets: the abstract state of freqmine.

    A tree level encodes a transaction as the ascending list of the order numbers its items have in
    the level's header table.  The lemmas say what is kept when one database is exchanged for the
    conditional database of an item. */
module FpDatabase {
  type Item = nat

  datatype Transaction = Transaction(items: set<Item>, weight: nat)

  type Database = seq<Transaction>

  function AllButLast<T>(s: seq<T>): seq<T> {
    if s == [] then [] else s[..|s| - 1]
  }

  /** Total weight of the transactions that contain every item of s. */
  ghost function Support(db: Database, s: set<Item>): nat {
    if db == [] then 0
    else Support(db[..|db| - 1], s) + (if s <= db[|db| - 1].items then db[|db| - 1].weight else 0)
  }

  /** A transaction as one level of the miner sees it: ascending order numbers and a weight. */
  datatype Row = Row(ids: seq<nat>, weight: nat)

  /** Total weight of the rows that start with path. */
  ghost function PrefixWeight(rows: seq<Row>, path: seq<nat>): nat {
    if rows == [] then 0
    else PrefixWeight(rows[..|rows| - 1], path)
         + (if path <= rows[|rows| - 1].ids then rows[|rows| - 1].weight else 0)
  }

  ghost predicate Ascending(ids: seq<nat>) {
    forall i, j :: 0 <= i < j < |ids| ==> ids[i] < ids[j]
  }

  ghost predicate Below(ids: seq<nat>, n: nat) {
    forall i :: 0 <= i < |ids| ==> ids[i] < n
  }

  ghost predicate Distinct<T>(s: seq<T>) {
    forall i, j :: 0 <= i < j < |s| ==> s[i] != s[j]
  }

  /** The order numbers below n of the items in s, ascending. */
  ghost function Encode(table: seq<Item>, s: set<Item>, n: nat): (ids: seq<nat>)
    requires n <= |table|
    ensures Ascending(ids) && Below(ids, n)
    ensures forall i :: i in ids <==> 0 <= i < n && table[i] in s
  {
    if n == 0 then []
    else
      var front := Encode(table, s, n - 1);
      if table[n - 1] in s then front + [n - 1] else front
  }

  ghost function Names(table: seq<Item>, ids: seq<nat>): set<Item> {
    set k | 0 <= k < |ids| && ids[k] < |table| :: table[ids[k]]
  }

  ghost function RowOf(t: Transaction, table: seq<Item>): Row {
    Row(Encode(table, t.items, |table|), t.weight)
  }

  ghost function RowsOf(db: Database, table: seq<Item>): (rows: seq<Row>)
    ensures |rows| == |db|
    ensures forall k :: 0 <= k < |db| ==> rows[k] == RowOf(db[k], table)
  {
    if db == [] then [] else RowsOf(db[..|db| - 1], table) + [RowOf(db[|db| - 1], table)]
  }

  /** Ascending lists are determined by their elements. */
  lemma {:induction false} AscendingUnique(a: seq<nat>, b: seq<nat>)
    requires Ascending(a) && Ascending(b)
    requires forall x :: x in a <==> x in b
    ensures a == b
  {
    if a == [] {
      assert forall k :: 0 <= k < |b| ==> b[k] in b;
    } else {
      assert a[|a| - 1] in b;
      var x, y := a[|a| - 1], b[|b| - 1];
      assert y in a && x in b;
      assert x == y;
      var a', b' := a[..|a| - 1], b[..|b| - 1];
      forall z ensures z in a' <==> z in b' {
        if z in a' { assert z in a && z != x; assert z in b; }
        if z in b' { assert z in b && z != y; assert z in a; }
      }
      AscendingUnique(a', b');
      assert a == a' + [x] && b == b' + [y];
    }
  }

  lemma {:induction false} SupportMonotone(db: Database, s: set<Item>, t: set<Item>)
    requires s <= t
    ensures Support(db, t) <= Support(db, s)
  {
    if db != [] { SupportMonotone(db[..|db| - 1], s, t); }
  }

  lemma SupportAppend(db: Database, t: Transaction, s: set<Item>)
    ensures Support(db + [t], s) == Support(db, s) + (if s <= t.items then t.weight else 0)
  {
    assert (db + [t])[..|db|] == db;
  }

  lemma PrefixWeightAppend(rows: seq<Row>, r: Row, path: seq<nat>)
    ensures PrefixWeight(rows + [r], path) == PrefixWeight(rows, path) + (if path <= r.ids then r.weight else 0)
  {
    assert (rows + [r])[..|rows|] == rows;
  }

  /** The transaction a node contributes to the conditional database of its item. */
  ghost function CondTransaction(table: seq<Item>, rows: seq<Row>, path: seq<nat>): Transaction {
    Transaction(Names(table, AllButLast(path)), PrefixWeight(rows, path))
  }

  /** The conditional database read off the nodes of one item: for each node path the items above the
      node, with the node's count as weight. */
  ghost function CondDb(table: seq<Item>, rows: seq<Row>, paths: seq<seq<nat>>): Database {
    if paths == [] then []
    else CondDb(table, rows, paths[..|paths| - 1]) + [CondTransaction(table, rows, paths[|paths| - 1])]
  }

  /** Does the path start ids, with all of s above its last item? */
  ghost predicate Hit(table: seq<Item>, ids: seq<nat>, path: seq<nat>, s: set<Item>) {
    path <= ids && s <= Names(table, AllButLast(path))
  }

  /** What one row adds to the support of s over the conditional database. */
  ghost function HitWeight(table: seq<Item>, r: Row, paths: seq<seq<nat>>, s: set<Item>): nat {
    if paths == [] then 0
    else
      HitWeight(table, r, paths[..|paths| - 1], s)
      + (if Hit(table, r.ids, paths[|paths| - 1], s) then r.weight else 0)
  }

  lemma {:induction false} AddRowToCondDb(table: seq<Item>, rows: seq<Row>, r: Row, paths: seq<seq<nat>>, s: set<Item>)
    ensures Support(CondDb(table, rows + [r], paths), s)
         == Support(CondDb(table, rows, paths), s) + HitWeight(table, r, paths, s)
  {
    if paths != [] {
      var front, p := paths[..|paths| - 1], paths[|paths| - 1];
      AddRowToCondDb(table, rows, r, front, s);
      SupportAppend(CondDb(table, rows, front), CondTransaction(table, rows, p), s);
      SupportAppend(CondDb(table, rows + [r], front), CondTransaction(table, rows + [r], p), s);
      PrefixWeightAppend(rows, r, p);
    }
  }

  ghost predicate EndsIn(path: seq<nat>, x: nat) {
    path != [] && path[|path| - 1] == x
  }

  /** Only the initial segment of ids that ends in x can be a path ending in x. */
  lemma {:induction false} HitsOfAscending(table: seq<Item>, r: Row, paths: seq<seq<nat>>, s: set<Item>, j: nat)
    requires j < |r.ids| && Ascending(r.ids)
    requires Distinct(paths)
    requires forall k :: 0 <= k < |paths| ==> EndsIn(paths[k], r.ids[j])
    ensures HitWeight(table, r, paths, s)
         == if r.ids[..j + 1] in paths && Hit(table, r.ids, r.ids[..j + 1], s) then r.weight else 0
  {
    var ids := r.ids;
    if paths != [] {
      var front, p := paths[..|paths| - 1], paths[|paths| - 1];
      HitsOfAscending(table, r, front, s, j);
      assert paths == front + [p];
      assert p !in front;
      assert EndsIn(p, ids[j]);
      if p <= ids {
        assert ids[|p| - 1] == ids[j];
        assert p == ids[..j + 1];
      }
    }
  }

  lemma {:induction false} NoHits(table: seq<Item>, r: Row, paths: seq<seq<nat>>, x: nat, s: set<Item>)
    requires x !in r.ids
    requires forall k :: 0 <= k < |paths| ==> EndsIn(paths[k], x)
    ensures HitWeight(table, r, paths, s) == 0
  {
    if paths != [] {
      NoHits(table, r, paths[..|paths| - 1], x, s);
      var p := paths[|paths| - 1];
      assert EndsIn(p, x);
      assert p[|p| - 1] in p;
      assert p <= r.ids ==> forall y :: y in p ==> y in r.ids;
    }
  }

  /** Every row that holds x has its path down to x among the paths. */
  ghost predicate Covers(rows: seq<Row>, paths: seq<seq<nat>>, x: nat) {
    forall k :: 0 <= k < |rows| ==> CoversRow(rows[k].ids, paths, x)
  }

  ghost predicate CoversRow(ids: seq<nat>, paths: seq<seq<nat>>, x: nat) {
    forall j :: 0 <= j < |ids| && ids[j] == x ==> ids[..j + 1] in paths
  }

  /** The node paths of one item carry exactly the support of the sets whose last item it is. */
  lemma {:induction false} CondSupport(db: Database, table: seq<Item>, paths: seq<seq<nat>>, x: nat, s: set<Item>)
    requires Distinct(table) && Distinct(paths) && x < |table|
    requires forall k :: 0 <= k < |paths| ==> EndsIn(paths[k], x)
    requires Covers(RowsOf(db, table), paths, x)
    requires forall y :: y in s ==> y in table[..x]
    ensures Support(CondDb(table, RowsOf(db, table), paths), s) == Support(db, s + {table[x]})
  {
    var rows := RowsOf(db, table);
    if db == [] {
      EmptyCondSupport(table, paths, s);
    } else {
      var front, t := db[..|db| - 1], db[|db| - 1];
      var r := RowOf(t, table);
      assert rows == RowsOf(front, table) + [r];
      assert forall k :: 0 <= k < |front| ==> RowsOf(front, table)[k] == rows[k];
      CondSupport(front, table, paths, x, s);
      AddRowToCondDb(table, RowsOf(front, table), r, paths, s);
      assert CoversRow(rows[|front|].ids, paths, x);
      HitsOfRow(t, table, paths, x, s);
    }
  }

  lemma HitsOfRow(t: Transaction, table: seq<Item>, paths: seq<seq<nat>>, x: nat, s: set<Item>)
    requires Distinct(table) && Distinct(paths) && x < |table|
    requires forall k :: 0 <= k < |paths| ==> EndsIn(paths[k], x)
    requires CoversRow(RowOf(t, table).ids, paths, x)
    requires forall y :: y in s ==> y in table[..x]
    ensures HitWeight(table, RowOf(t, table), paths, s) == if s + {table[x]} <= t.items then t.weight else 0
  {
    var r := RowOf(t, table);
    var ids := r.ids;
    if x in ids {
      var j :| 0 <= j < |ids| && ids[j] == x;
      HitsOfAscending(table, r, paths, s, j);
      NamesAbove(table, t.items, j, s);
      assert AllButLast(ids[..j + 1]) == ids[..j];
    } else {
      NoHits(table, r, paths, x, s);
      assert table[x] !in t.items;
      assert table[x] in s + {table[x]};
    }
  }

  lemma {:induction false} EmptyCondSupport(table: seq<Item>, paths: seq<seq<nat>>, s: set<Item>)
    ensures Support(CondDb(table, [], paths), s) == 0
  {
    if paths != [] {
      var front, p := paths[..|paths| - 1], paths[|paths| - 1];
      EmptyCondSupport(table, front, s);
      SupportAppend(CondDb(table, [], front), CondTransaction(table, [], p), s);
    }
  }

  lemma NamesAbove(table: seq<Item>, items: set<Item>, j: nat, s: set<Item>)
    requires Distinct(table) && j < |Encode(table, items, |table|)|
    requires var x := Encode(table, items, |table|)[j]; forall y :: y in s ==> y in table[..x]
    ensures var ids := Encode(table, items, |table|);
            (s <= Names(table, ids[..j]) <==> s + {table[ids[j]]} <= items)
  {
    var ids := Encode(table, items, |table|);
    assert ids[j] in ids;
    forall y | y in s && y in items ensures y in Names(table, ids[..j]) {
      var i :| 0 <= i < ids[j] && table[..ids[j]][i] == y;
      assert i in ids;
      var k :| 0 <= k < |ids| && ids[k] == i;
      assert k < j;
      assert ids[..j][k] == i;
    }
    forall y | y in Names(table, ids[..j]) ensures y in items {
      var k :| 0 <= k < |ids[..j]| && table[ids[..j][k]] == y;
      assert ids[k] in ids;
    }
  }
}
