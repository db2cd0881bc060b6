/** The per-thread state of the miner and the steps between two tree levels: conditional pattern base,
    header table, second scan. */
module FpMiner {
  import FpSort
  import opened FpDatabase
  import opened HotItems
  import opened FpArena
  import opened FpTree
  import opened FpTraversal
  import opened FpArray
  import opened FpMining
  import opened FpCond

  /** The item at place y is named by exactly the paths that pass through y. */
  lemma SingletonNames(table: seq<Item>, anc: seq<nat>, y: nat)
    requires Distinct(table) && Below(anc, |table|) && y < |table|
    ensures {table[y]} <= Names(table, anc) <==> y in anc
  {
    if y in anc {
      var k :| 0 <= k < |anc| && anc[k] == y;
      assert table[anc[k]] == table[y];
    }
  }

  lemma CondDbStep(table: seq<Item>, rows: seq<Row>, paths: seq<seq<nat>>, i: nat, s: set<Item>)
    requires i < |paths|
    ensures Support(CondDb(table, rows, paths[..i + 1]), s)
         == Support(CondDb(table, rows, paths[..i]), s)
            + (if s <= Names(table, AllButLast(paths[i])) then PrefixWeight(rows, paths[i]) else 0)
  {
    assert paths[..i + 1][..i] == paths[..i];
    SupportAppend(CondDb(table, rows, paths[..i]), CondTransaction(table, rows, paths[i]), s);
  }

  /** The supports of the items below x over the first i node paths. */
  ghost predicate Tallied(supp: seq<nat>, table: seq<Item>, rows: seq<Row>, paths: seq<seq<nat>>, i: nat, x: nat)
    requires i <= |paths| && x <= |table|
  {
    && x <= |supp|
    && (forall y :: 0 <= y < x ==> supp[y] == Support(CondDb(table, rows, paths[..i]), {table[y]}))
    && (forall y :: x <= y < |supp| ==> supp[y] == 0)
  }

  lemma TallyStep(supp: seq<nat>, supp': seq<nat>, table: seq<Item>, rows: seq<Row>, paths: seq<seq<nat>>, i: nat,
          x: nat, count: nat)
    requires i < |paths| && x <= |table| && Distinct(table) && PathsTo(paths, x)
    requires Tallied(supp, table, rows, paths, i, x)
    requires |supp'| == |supp| && count == PrefixWeight(rows, paths[i])
    requires forall y :: 0 <= y < |supp| ==> supp'[y] == supp[y] + (if y in AllButLast(paths[i]) then count else 0)
    ensures Tallied(supp', table, rows, paths, i + 1, x)
  {
    var anc := AllButLast(paths[i]);
    PathsBelow(paths[i], x);
    forall y | 0 <= y < x ensures supp'[y] == Support(CondDb(table, rows, paths[..i + 1]), {table[y]}) {
      CondDbStep(table, rows, paths, i, {table[y]});
      SingletonNames(table, anc, y);
    }
    forall y | x <= y < |supp'| ensures supp'[y] == 0 {
      assert y !in anc;
    }
  }

  /** The frequent items below n, in order. */
  ghost function FrequentItems(condDb: Database, table: seq<Item>, n: nat, threshold: nat): seq<Item>
    requires n <= |table|
  {
    if n == 0 then []
    else FrequentItems(condDb, table, n - 1, threshold)
         + (if threshold <= Support(condDb, {table[n - 1]}) then [table[n - 1]] else [])
  }

  lemma {:induction false} FrequentMembers(condDb: Database, table: seq<Item>, n: nat, threshold: nat, y: Item)
    requires n <= |table|
    ensures y in FrequentItems(condDb, table, n, threshold) <==> y in table[..n] && threshold <= Support(condDb, {y})
  {
    if n > 0 {
      FrequentMembers(condDb, table, n - 1, threshold, y);
      assert table[..n] == table[..n - 1] + [table[n - 1]];
    }
  }

  lemma {:induction false} FrequentDistinct(condDb: Database, table: seq<Item>, n: nat, threshold: nat)
    requires n <= |table| && Distinct(table)
    ensures Distinct(FrequentItems(condDb, table, n, threshold)) && |FrequentItems(condDb, table, n, threshold)| <= n
  {
    if n > 0 {
      FrequentDistinct(condDb, table, n - 1, threshold);
      FrequentMembers(condDb, table, n - 1, threshold, table[n - 1]);
      assert table[n - 1] !in table[..n - 1];
      if threshold <= Support(condDb, {table[n - 1]}) {
        DistinctConcat(FrequentItems(condDb, table, n - 1, threshold), [table[n - 1]]);
      }
    }
  }

  ghost function SupportsOf(condDb: Database, items: seq<Item>): (counts: seq<nat>)
    ensures |counts| == |items| && forall k :: 0 <= k < |items| ==> counts[k] == Support(condDb, {items[k]})
  {
    seq(|items|, k requires 0 <= k < |items| => Support(condDb, {items[k]}))
  }

  lemma FrequentNone(condDb: Database, table: seq<Item>, threshold: nat)
    ensures FrequentItems(condDb, table, 0, threshold) == [] && SupportsOf(condDb, []) == []
  {
  }

  lemma FrequentNext(condDb: Database, table: seq<Item>, i: nat, threshold: nat)
    requires i < |table|
    ensures var f, f' := FrequentItems(condDb, table, i, threshold), FrequentItems(condDb, table, i + 1, threshold);
            var frequent := threshold <= Support(condDb, {table[i]});
            && f' == f + (if frequent then [table[i]] else [])
            && SupportsOf(condDb, f')
               == SupportsOf(condDb, f) + (if frequent then [Support(condDb, {table[i]})] else [])
  {
  }

  lemma PutAt<T>(s: seq<T>, j: nat, v: T)
    requires j < |s|
    ensures s[j := v][..j + 1] == s[..j] + [v]
  {
  }

  // ---- The order of the new header table ---------------------------------------------------------

  /** table and count list the same pairs as items and counts, in some order. */
  ghost predicate Arranged(items: seq<Item>, counts: seq<nat>, table: seq<Item>, count: seq<nat>) {
    && |items| == |counts| == |table| == |count|
    && ToSet(table) == ToSet(items)
    && (Distinct(items) ==> Distinct(table))
    && forall i :: 0 <= i < |table| ==> Paired(items, counts, table[i], count[i])
  }

  ghost predicate Paired(items: seq<Item>, counts: seq<nat>, x: Item, n: nat) {
    exists k :: 0 <= k < |items| && k < |counts| && x == items[k] && n == counts[k]
  }

  lemma {:induction false} TwoPlaces<T>(s: seq<T>, x: T, i: nat, j: nat)
    requires i < j < |s| && s[i] == x == s[j]
    ensures multiset(s)[x] >= 2
  {
    var n := |s| - 1;
    assert s == s[..n] + [s[n]];
    if j < n {
      TwoPlaces(s[..n], x, i, j);
    } else {
      assert s[..n][i] == x;
      assert x in multiset(s[..n]);
    }
  }

  lemma {:induction false} OnePlace<T>(s: seq<T>, x: T)
    requires forall i, j :: 0 <= i < j < |s| ==> s[i] != x || s[j] != x
    ensures multiset(s)[x] <= 1
  {
    if s != [] {
      var n := |s| - 1;
      assert s == s[..n] + [s[n]];
      OnePlace(s[..n], x);
      if s[n] == x {
        assert forall k :: 0 <= k < n ==> s[..n][k] == s[k];
        assert x !in s[..n];
        assert multiset(s[..n])[x] == 0;
      }
    }
  }

  lemma SamePairs(s: seq<FpSort.Pair>, t: seq<FpSort.Pair>, k: nat)
    requires multiset(s) == multiset(t) && k < |s|
    ensures exists m :: 0 <= m < |t| && t[m] == s[k]
  {
    assert s[k] in multiset(t);
  }

  lemma RearrangedDistinct(items: seq<Item>, counts: seq<nat>, table: seq<Item>, count: seq<nat>)
    requires |items| == |counts| && |table| == |count| && Distinct(items)
    requires multiset(FpSort.Zip(count, table)) == multiset(FpSort.Zip(counts, items))
    ensures Distinct(table)
  {
    var s, t := FpSort.Zip(counts, items), FpSort.Zip(count, table);
    forall i, j | 0 <= i < j < |table| ensures table[i] != table[j] {
      if table[i] == table[j] {
        SamePairs(t, s, i);
        SamePairs(t, s, j);
        var k :| 0 <= k < |s| && s[k] == t[i];
        var m :| 0 <= m < |s| && s[m] == t[j];
        assert items[k] == items[m];
        assert k == m;
        TwoPlaces(t, t[i], i, j);
        OnePlace(s, t[i]);
      }
    }
  }

  lemma Rearranged(items: seq<Item>, counts: seq<nat>, table: seq<Item>, count: seq<nat>)
    requires |items| == |counts| == |table| == |count|
    requires multiset(FpSort.Zip(count, table)) == multiset(FpSort.Zip(counts, items))
    ensures Arranged(items, counts, table, count)
  {
    var s, t := FpSort.Zip(counts, items), FpSort.Zip(count, table);
    forall x ensures x in table <==> x in items {
      if x in table {
        var i :| 0 <= i < |table| && table[i] == x;
        SamePairs(t, s, i);
      }
      if x in items {
        var i :| 0 <= i < |items| && items[i] == x;
        SamePairs(s, t, i);
        var k :| 0 <= k < |t| && t[k] == s[i];
        assert table[k] == x;
      }
    }
    if Distinct(items) { RearrangedDistinct(items, counts, table, count); }
    forall i | 0 <= i < |table| ensures Paired(items, counts, table[i], count[i]) {
      PairFrom(items, counts, table, count, i);
    }
  }

  lemma PairFrom(items: seq<Item>, counts: seq<nat>, table: seq<Item>, count: seq<nat>, i: nat)
    requires |items| == |counts| && |table| == |count| && i < |table|
    requires multiset(FpSort.Zip(count, table)) == multiset(FpSort.Zip(counts, items))
    ensures Paired(items, counts, table[i], count[i])
  {
    var s, t := FpSort.Zip(counts, items), FpSort.Zip(count, table);
    SamePairs(t, s, i);
    var k :| 0 <= k < |s| && s[k] == t[i];
    assert t[i] == (count[i], table[i]) && s[k] == (counts[k], items[k]);
    assert 0 <= k < |items| && table[i] == items[k] && count[i] == counts[k];
  }

  lemma WholeWithin(t: seq<FpSort.Pair>, s: seq<FpSort.Pair>)
    requires FpSort.Within(t, s, 0, |t|)
    ensures multiset(s) == multiset(t)
  {
    assert s[0..|t|] == s && t[0..|t|] == t;
  }

  /** The header table by falling count; the items keep their counts. */
  method SortTable(items: seq<Item>, counts: seq<nat>) returns (table: seq<Item>, count: seq<nat>)
    requires |items| == |counts|
    ensures Arranged(items, counts, table, count)
    ensures forall i, j :: 0 <= i < j < |count| ==> count[i] >= count[j]
  {
    var n := |items|;
    if n == 0 {
      table, count := [], [];
      Rearranged(items, counts, table, count);
      return;
    }
    var countArray := new nat[n](i requires 0 <= i < n => counts[i]);
    var tableArray := new nat[n](i requires 0 <= i < n => items[i]);
    assert countArray[..] == counts && tableArray[..] == items;
    FpSort.Sort(countArray, tableArray, 0, n - 1);
    table, count := tableArray[..], countArray[..];
    WholeWithin(FpSort.Zip(counts, items), FpSort.Zip(count, table));
    Rearranged(items, counts, table, count);
    forall i, j | 0 <= i < j < n ensures count[i] >= count[j] {
      assert FpSort.Zip(count, table)[i].0 >= FpSort.Zip(count, table)[j].0;
    }
  }

  // ---- One row of the second scan ----------------------------------------------------------------

  /** Where the old item y has gone: nowhere if infrequent, else to its place in the new table. */
  ghost predicate OrderAt(order: seq<int>, oldTable: seq<Item>, table: seq<Item>, y: nat) {
    && y < |order| && y < |oldTable|
    && ((order[y] == -1 && oldTable[y] !in table)
        || (0 <= order[y] < |table| && table[order[y]] == oldTable[y]))
  }

  /** The new order numbers on a path. */
  ghost function Moved(order: seq<int>, anc: seq<nat>): set<int> {
    set k | 0 <= k < |anc| && anc[k] < |order| && order[anc[k]] >= 0 :: order[anc[k]]
  }

  lemma MovedStep(order: seq<int>, anc: seq<nat>, k: nat)
    requires k < |anc| && anc[k] < |order|
    ensures Moved(order, anc[k..]) == Moved(order, anc[k + 1..]) + (if order[anc[k]] >= 0 then {order[anc[k]]} else {})
  {
    var a, b := anc[k..], anc[k + 1..];
    assert a == [anc[k]] + b;
    forall i ensures i in Moved(order, a) <==> i in Moved(order, b) || (i >= 0 && i == order[anc[k]]) {
      if i in Moved(order, b) {
        var j :| 0 <= j < |b| && b[j] < |order| && order[b[j]] == i;
        assert a[j + 1] == b[j];
      }
      if i >= 0 && i == order[anc[k]] { assert a[0] == anc[k]; }
    }
  }

  /** Different old items keep different order numbers. */
  lemma SameOrder(order: seq<int>, oldTable: seq<Item>, table: seq<Item>, y: nat, y': nat)
    requires Distinct(oldTable) && OrderAt(order, oldTable, table, y) && OrderAt(order, oldTable, table, y')
    requires order[y] == order[y'] && order[y] >= 0
    ensures y == y'
  {
    assert oldTable[y] == oldTable[y'];
  }

  lemma MovedFresh(order: seq<int>, anc: seq<nat>, k: nat, oldTable: seq<Item>, table: seq<Item>)
    requires k < |anc| && Ascending(anc) && Distinct(oldTable)
    requires forall j :: 0 <= j < |anc| ==> OrderAt(order, oldTable, table, anc[j])
    requires anc[k] < |order| && order[anc[k]] >= 0
    ensures order[anc[k]] !in Moved(order, anc[k + 1..])
  {
    var b := anc[k + 1..];
    assert OrderAt(order, oldTable, table, anc[k]);
    forall j | 0 <= j < |b| && b[j] < |order| ensures order[b[j]] != order[anc[k]] {
      assert b[j] == anc[k + 1 + j] && OrderAt(order, oldTable, table, anc[k + 1 + j]);
      if order[b[j]] == order[anc[k]] { SameOrder(order, oldTable, table, anc[k], b[j]); }
    }
  }

  /** The encoded row of a path is the ascending list of its new order numbers. */
  lemma MovedIsEncoding(order: seq<int>, anc: seq<nat>, oldTable: seq<Item>, table: seq<Item>, i: nat)
    requires Distinct(table) && Below(anc, |oldTable|)
    requires forall j :: 0 <= j < |anc| ==> OrderAt(order, oldTable, table, anc[j])
    ensures i in Encode(table, Names(oldTable, anc), |table|) <==> i in Moved(order, anc)
  {
    if i in Moved(order, anc) {
      var k :| 0 <= k < |anc| && anc[k] < |order| && order[anc[k]] == i;
      assert OrderAt(order, oldTable, table, anc[k]);
      assert oldTable[anc[k]] in Names(oldTable, anc);
    }
    if i in Encode(table, Names(oldTable, anc), |table|) {
      var k :| 0 <= k < |anc| && oldTable[anc[k]] == table[i];
      assert OrderAt(order, oldTable, table, anc[k]);
      assert table[i] in table;
      assert order[anc[k]] == i;
    }
  }

  lemma RowIds(ids: seq<nat>, order: seq<int>, anc: seq<nat>, oldTable: seq<Item>, table: seq<Item>)
    requires Distinct(table) && Below(anc, |oldTable|) && Ascending(ids)
    requires forall j :: 0 <= j < |anc| ==> OrderAt(order, oldTable, table, anc[j])
    requires forall i: nat :: i in ids <==> i in Moved(order, anc)
    ensures ids == Encode(table, Names(oldTable, anc), |table|)
  {
    hide *;
    var e := Encode(table, Names(oldTable, anc), |table|);
    forall i: nat ensures i in ids <==> i in e {
      MovedIsEncoding(order, anc, oldTable, table, i);
    }
    AscendingUnique(ids, e);
  }

  ghost function Cold(seen: set<int>, numHot: nat): set<int> {
    set i | i in seen && numHot <= i
  }

  /** The hot items of the path as a mask, the others flagged in origin. */
  ghost predicate SplitAs(origin: seq<bool>, seen: set<int>, ntype: nat, has: nat, maxItem: nat, numHot: nat, n: nat) {
    && ntype < Pow2(numHot)
    && (forall i: nat :: i in Bits(ntype, numHot) <==> i in seen && i < numHot)
    && (forall i :: 0 <= i < |origin| ==> (origin[i] <==> i in seen && numHot <= i))
    && (forall i :: i in seen ==> 0 <= i < n)
    && (forall i :: i in seen && numHot <= i ==> i <= maxItem)
    && n <= |origin| && maxItem < |origin|
    && has == |Cold(seen, numHot)|
  }

  /** What the loop over an entry finds in its j-th cell. */
  lemma ReadAt(cells: seq<nat>, mark: nat, begin: nat, anc: seq<nat>, j: nat)
    requires Reads(cells, mark, begin, anc) && Below(anc, mark) && j <= |anc|
    ensures begin + j < |cells| && (cells[begin + j] == mark <==> j == |anc|)
    ensures j < |anc| ==> cells[begin + j] == anc[|anc| - 1 - j]
  {
  }

  lemma PathStep(order: seq<int>, anc: seq<nat>, k: nat, oldTable: seq<Item>, table: seq<Item>)
    requires k < |anc| && Ascending(anc) && Distinct(oldTable)
    requires forall j :: 0 <= j < |anc| ==> OrderAt(order, oldTable, table, anc[j])
    ensures anc[k] < |order| && -1 <= order[anc[k]] < |table| && order[anc[k]] !in Moved(order, anc[k + 1..])
    ensures Moved(order, anc[k..]) == Moved(order, anc[k + 1..]) + (if order[anc[k]] >= 0 then {order[anc[k]]} else {})
  {
    assert OrderAt(order, oldTable, table, anc[k]);
    MovedStep(order, anc, k);
    if order[anc[k]] >= 0 { MovedFresh(order, anc, k, oldTable, table); }
  }

  lemma NothingSeen(origin: seq<bool>, order: seq<int>, numHot: nat, n: nat)
    requires n <= |origin| && 0 < |origin| && forall i :: 0 <= i < |origin| ==> !origin[i]
    ensures 0 < Pow2(numHot) && SplitAs(origin, Moved(order, []), 0, 0, 0, numHot, n)
  {
    ZeroBits(numHot);
    assert Cold(Moved(order, []), numHot) == {};
  }

  /** A hot item goes into the mask. */
  lemma HotSeen(origin: seq<bool>, seen: set<int>, ntype: nat, has: nat, maxItem: nat, numHot: nat, n: nat, item: nat)
    requires SplitAs(origin, seen, ntype, has, maxItem, numHot, n) && item < numHot && item < n && item !in seen
    ensures ntype < Pow2(numHot)
    ensures SplitAs(origin, seen + {item}, OrBit(ntype, item, numHot), has, maxItem, numHot, n)
  {
    OrBitBits(ntype, item, numHot);
    assert Cold(seen + {item}, numHot) == Cold(seen, numHot);
  }

  function Larger(a: nat, b: nat): nat {
    if a > b then a else b
  }

  /** A cold item is flagged. */
  lemma ColdSeen(origin: seq<bool>, seen: set<int>, ntype: nat, has: nat, maxItem: nat, numHot: nat, n: nat, item: nat)
    requires SplitAs(origin, seen, ntype, has, maxItem, numHot, n) && numHot <= item < n && item !in seen
    ensures item < |origin|
    ensures SplitAs(origin[item := true], seen + {item}, ntype, has + 1, Larger(item, maxItem), numHot, n)
  {
    assert Cold(seen + {item}, numHot) == Cold(seen, numHot) + {item};
  }

  // ---- Scratch space of a mining thread ----------------------------------------------------------

  /** The arrays a mining thread works in; all item-indexed ones have itemCount entries. */
  /** The size of the tables of hot nodes. */
  const HOT_NODES := 0x1_0000

  class Scratch {
    const itemCount: nat
    const threshold: nat
    const tables: HotTables
    var supp: seq<nat>
    var globalTable: seq<Item>
    var globalCount: seq<nat>
    var tempOrder: seq<int>
    var order: seq<int>
    var origin: seq<bool>
    var sumItemNum: nat

    constructor (itemCount: nat, threshold: nat)
      requires 0 < threshold
      ensures Idle() && fresh(tables) && this.itemCount == itemCount && this.threshold == threshold
      ensures |tables.hashtable| == HOT_NODES
    {
      this.itemCount, this.threshold := itemCount, threshold;
      tables := new HotTables(HOT_NODES);
      supp, globalTable, globalCount := seq(itemCount, _ => 0), seq(itemCount, _ => 0), seq(itemCount, _ => 0);
      tempOrder, order, origin := seq(itemCount, _ => 0), seq(itemCount, _ => 0), seq(itemCount, _ => false);
      sumItemNum := 0;
    }

    /** The state the scratch space is in between two levels. */
    ghost predicate Idle()
      reads this, tables
    {
      && |supp| == |globalTable| == |globalCount| == |tempOrder| == |order| == |origin| == itemCount
      && (forall y :: 0 <= y < itemCount ==> supp[y] == 0 && !origin[y])
      && tables.Clean() && 64 <= |tables.hashtable|
      && 0 < threshold
    }

    /** Add up, for every item below x, the weight of the node paths it lies on. */
    method Tally(cells: seq<nat>, list: seq<Entry>, x: nat, mark: nat, ghost table: seq<Item>, ghost rows: seq<Row>,
            ghost paths: seq<seq<nat>>)
      requires Idle() && x < |table| <= itemCount && x <= mark && Distinct(table)
      requires PathEntries(cells, mark, list, rows, paths) && PathsTo(paths, x)
      modifies this`supp, this`sumItemNum
      ensures |supp| == itemCount && Tallied(supp, table, rows, paths, |paths|, x)
    {
      var i, localSum := 0, 0;
      NoTally(supp, table, rows, paths, x);
      while i < |list|
        invariant i <= |list| && |supp| == itemCount && Tallied(supp, table, rows, paths, i, x)
      {
        assert PathEntry(cells, mark, list[i], rows, paths[i]);
        PathsBelow(paths[i], x);
        ghost var before := supp;
        var j;
        supp, j := AddPath(cells, supp, list[i].begin, list[i].count, mark, AllButLast(paths[i]));
        TallyStep(before, supp, table, rows, paths, i, x, list[i].count);
        localSum := localSum + j;
        i := i + 1;
      }
      sumItemNum := localSum;
    }

    /** Keep the frequent items, mark the infrequent ones, and clear the supports. */
    method Filter(table: seq<Item>, x: nat, ghost condDb: Database) returns (j: nat)
      requires x <= |table| <= itemCount && Distinct(table) && forall k :: 0 <= k < |table| ==> table[k] < itemCount
      requires |supp| == |globalTable| == |globalCount| == |tempOrder| == itemCount && 0 < threshold
      requires forall y :: 0 <= y < x ==> supp[y] == Support(condDb, {table[y]})
      requires forall y :: x <= y < |supp| ==> supp[y] == 0
      modifies this`supp, this`globalTable, this`globalCount, this`tempOrder
      ensures |supp| == |globalTable| == |globalCount| == |tempOrder| == itemCount
      ensures forall y :: 0 <= y < itemCount ==> supp[y] == 0
      ensures j == |FrequentItems(condDb, table, x, threshold)| <= x
      ensures globalTable[..j] == FrequentItems(condDb, table, x, threshold)
      ensures globalCount[..j] == SupportsOf(condDb, FrequentItems(condDb, table, x, threshold))
      ensures forall y :: 0 <= y < x && 0 < Support(condDb, {table[y]}) < threshold ==> tempOrder[table[y]] == -1
    {
      hide *;
      j := 0;
      var i := 0;
      FrequentNone(condDb, table, threshold);
      while i < x
        invariant i <= x && j <= i
        invariant |supp| == |globalTable| == |globalCount| == |tempOrder| == itemCount
        invariant forall y :: i <= y < x ==> supp[y] == Support(condDb, {table[y]})
        invariant forall y :: 0 <= y < i || x <= y < |supp| ==> supp[y] == 0
        invariant j == |FrequentItems(condDb, table, i, threshold)|
        invariant globalTable[..j] == FrequentItems(condDb, table, i, threshold)
        invariant globalCount[..j] == SupportsOf(condDb, FrequentItems(condDb, table, i, threshold))
        invariant forall y :: 0 <= y < i && 0 < Support(condDb, {table[y]}) < threshold ==> tempOrder[table[y]] == -1
      {
        FrequentNext(condDb, table, i, threshold);
        if supp[i] >= threshold {
          PutAt(globalTable, j, table[i]);
          PutAt(globalCount, j, supp[i]);
          globalTable := globalTable[j := table[i]];
          globalCount := globalCount[j := supp[i]];
          j := j + 1;
        } else if supp[i] > 0 {
          tempOrder := tempOrder[table[i] := -1];
        }
        supp := supp[i := 0];
        i := i + 1;
      }
    }

    /** The header table of the next level, and the order numbers its items get there. */
    method Header(oldTable: seq<Item>, x: nat, n: nat) returns (table: seq<Item>, count: seq<nat>)
      requires |globalTable| == |globalCount| == |tempOrder| == |order| == itemCount
      requires x <= |oldTable| <= itemCount && n <= itemCount && Distinct(globalTable[..n])
      requires forall k :: 0 <= k < |oldTable| ==> oldTable[k] < itemCount
      requires forall k :: 0 <= k < n ==> globalTable[k] < itemCount
      modifies this`tempOrder, this`order
      ensures Arranged(globalTable[..n], globalCount[..n], table, count)
      ensures |tempOrder| == |order| == itemCount
      ensures forall i :: 0 <= i < n ==> table[i] < itemCount && tempOrder[table[i]] == i
      ensures forall y :: 0 <= y < itemCount && y !in table ==> tempOrder[y] == old(tempOrder[y])
      ensures forall y :: 0 <= y < x ==> order[y] == tempOrder[oldTable[y]]
    {
      table, count := SortTable(globalTable[..n], globalCount[..n]);
      assert forall i :: 0 <= i < n ==> table[i] in globalTable[..n];
      var i := 0;
      while i < n
        invariant i <= n && |tempOrder| == |order| == itemCount
        invariant forall k :: 0 <= k < i ==> tempOrder[table[k]] == k
        invariant forall y :: 0 <= y < itemCount && y !in table ==> tempOrder[y] == old(tempOrder[y])
      {
        tempOrder := tempOrder[table[i] := i];
        i := i + 1;
      }
      i := 0;
      ghost var filled := tempOrder;
      while i < x
        invariant i <= x && |order| == |tempOrder| == itemCount && tempOrder == filled
        invariant forall y :: 0 <= y < i ==> order[y] == tempOrder[oldTable[y]]
      {
        order := order[i := tempOrder[oldTable[i]]];
        i := i + 1;
      }
    }

    /** The hot items of the path as a mask, the others flagged in origin. */
    ghost predicate Split(seen: set<int>, ntype: nat, has: nat, maxItem: nat, numHot: nat, n: nat)
      reads this
    {
      |origin| == itemCount && SplitAs(origin, seen, ntype, has, maxItem, numHot, n)
    }

    lemma BeginSplit(numHot: nat, n: nat)
      requires |origin| == itemCount && n <= itemCount && 0 < itemCount
      requires forall i :: 0 <= i < itemCount ==> !origin[i]
      ensures Split(Moved(order, []), 0, 0, 0, numHot, n)
    {
      NothingSeen(origin, order, numHot, n);
    }

    method ReadPath(cells: seq<nat>, begin: nat, mark: nat, numHot: nat, n: nat, ghost anc: seq<nat>,
            ghost oldTable: seq<Item>, ghost table: seq<Item>)
      returns (ntype: nat, has: nat, maxItem: nat)
      requires Reads(cells, mark, begin, anc) && Ascending(anc) && Below(anc, mark) && Distinct(oldTable)
      requires n == |table| && numHot <= n <= itemCount && 0 < itemCount
      requires |origin| == itemCount && forall i :: 0 <= i < itemCount ==> !origin[i]
      requires forall j :: 0 <= j < |anc| ==> OrderAt(order, oldTable, table, anc[j])
      modifies this`origin
      ensures Split(Moved(order, anc), ntype, has, maxItem, numHot, n)
    {
      hide *;
      ntype, has, maxItem := 0, 0, 0;
      var j := 0;
      assert anc[|anc|..] == [];
      BeginSplit(numHot, n);
      ReadAt(cells, mark, begin, anc, 0);
      while cells[begin + j] != mark
        invariant j <= |anc| && begin + j < |cells| && (cells[begin + j] == mark <==> j == |anc|)
        invariant Split(Moved(order, anc[|anc| - j..]), ntype, has, maxItem, numHot, n)
        decreases |anc| - j
      {
        ghost var k := |anc| - 1 - j;
        ReadAt(cells, mark, begin, anc, j);
        ReadAt(cells, mark, begin, anc, j + 1);
        PathStep(order, anc, k, oldTable, table);
        var item := order[cells[begin + j]];
        ntype, has, maxItem := SplitItem(Moved(order, anc[k + 1..]), item, ntype, has, maxItem, numHot, n);
        j := j + 1;
      }
      assert anc[0..] == anc;
    }

    method SplitItem(ghost seen: set<int>, item: int, ntype0: nat, has0: nat, maxItem0: nat, numHot: nat, n: nat)
      returns (ntype: nat, has: nat, maxItem: nat)
      requires Split(seen, ntype0, has0, maxItem0, numHot, n)
      requires -1 <= item < n && item !in seen
      modifies this`origin
      ensures Split(seen + (if item >= 0 then {item} else {}), ntype, has, maxItem, numHot, n)
    {
      hide SplitAs;
      ntype, has, maxItem := ntype0, has0, maxItem0;
      if item < numHot {
        if item != -1 {
          HotSeen(origin, seen, ntype, has, maxItem, numHot, n, item);
          ntype := OrBit(ntype, item, numHot);
        }
      } else {
        ColdSeen(origin, seen, ntype, has, maxItem, numHot, n, item);
        origin := origin[item := true];
        has := has + 1;
        if item > maxItem {
          maxItem := item;
        }
      }
      if item < 0 { assert seen + {} == seen; }
    }

    /** The flagged items up to maxItem, ascending; the flags are cleared again. */
    method FillCount(numHot: nat, maxItem: nat) returns (compact: seq<nat>)
      requires |origin| == itemCount && maxItem < itemCount
      modifies this`origin
      ensures |origin| == itemCount
      ensures forall i :: 0 <= i < itemCount ==> origin[i] == (old(origin)[i] && !(numHot <= i <= maxItem))
      ensures Ascending(compact)
      ensures forall i :: i in compact <==> numHot <= i <= maxItem && old(origin)[i]
    {
      compact := [];
      var i := numHot;
      while i <= maxItem
        invariant numHot <= i && (i <= maxItem + 1 || i == numHot)
        invariant |origin| == itemCount
        invariant forall k :: 0 <= k < itemCount ==> origin[k] == (old(origin)[k] && !(numHot <= k < i))
        invariant Ascending(compact) && forall k :: k in compact <==> numHot <= k < i && k <= maxItem && old(origin)[k]
      {
        if origin[i] {
          assert forall k :: 0 <= k < |compact| ==> compact[k] in compact;
          compact := compact + [i];
          origin := origin[i := false];
        }
        i := i + 1;
      }
    }
  }

  lemma {:induction false} NoTally(supp: seq<nat>, table: seq<Item>, rows: seq<Row>, paths: seq<seq<nat>>, x: nat)
    requires x <= |table| && x <= |supp| && forall y :: 0 <= y < |supp| ==> supp[y] == 0
    ensures Tallied(supp, table, rows, paths, 0, x)
  {
    assert paths[..0] == [];
  }
}