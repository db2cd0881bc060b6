/** The recursive miner: every frequent set of the level's database once, with its support, and the
    running totals per set size. */
module FpGrowth {
  import opened FpDatabase
  import opened HotItems
  import opened FpArena
  import opened FpTree
  import opened FpTraversal
  import opened FpArray
  import opened FpMining
  import opened FpPowerset
  import opened FpCond
  import opened FpMiner
  import opened FpScan
  import opened FpLevel
  import opened FpSingle

  /** The totals have grown by what was printed: slot l counts the sets of l + 1 items. */
  ghost predicate Grew(before: seq<nat>, after: seq<nat>, new_: seq<Emission>) {
    |after| == |before| && forall l :: 0 <= l < |after| ==> after[l] == before[l] + CountLen(new_, l + 1)
  }

  lemma GrewNot(a: seq<nat>)
    ensures Grew(a, a, [])
  {
    var none: seq<Emission> := [];
    assert forall n: nat :: CountLen(none, n) == 0;
  }

  lemma GrewMore(a: seq<nat>, b: seq<nat>, c: seq<nat>, x: seq<Emission>, y: seq<Emission>)
    requires Grew(a, b, x) && Grew(b, c, y)
    ensures Grew(a, c, x + y)
  {
    forall l | 0 <= l < |c| ensures c[l] == a[l] + CountLen(x + y, l + 1) {
      CountLenConcat(x, y, l + 1);
    }
  }

  lemma GrewOne(a: seq<nat>, e: Emission)
    requires 0 < |e.items| <= |a|
    ensures Grew(a, a[|e.items| - 1 := a[|e.items| - 1] + 1], [e])
  {
    forall n ensures CountLen([e], n) == if |e.items| == n then 1 else 0 {
      assert [e][..0] == [];
    }
  }

  lemma {:induction false} LinesLong(p: seq<Item>, table: seq<Item>, count: seq<nat>, lists: seq<seq<nat>>, m: nat)
    requires |count| == |table| && m <= |p| && forall k :: 0 <= k < |lists| ==> Extends(|table|, 0, [], lists[k])
    ensures CountLen(Lines(p, table, count, lists), m) == 0
  {
    if lists != [] {
      var front := lists[..|lists| - 1];
      LinesLong(p, table, count, front, m);
      CountLenConcat(Lines(p, table, count, front), [Line(p, table, count, lists[|lists| - 1])], m);
      assert [Line(p, table, count, lists[|lists| - 1])][..0] == [];
    }
  }

  lemma {:induction false} BinomZero(n: nat, k: nat)
    requires n < k
    ensures Binom(n, k) == 0
  {
    if n > 0 {
      BinomZero(n - 1, k - 1);
      BinomZero(n - 1, k);
    }
  }

  /** The binomials added in the single-path case are the sizes of what the powerset prints. */
  lemma GrewBySubsets(p: seq<Item>, table: seq<Item>, count: seq<nat>, a: seq<nat>, b: seq<nat>)
    requires |count| == |table| && |b| == |a|
    requires forall l :: 0 <= l < |b| ==>
              b[l] == a[l] + (if |p| <= l < |p| + |table| then Binom(|table|, l - |p| + 1) else 0)
    ensures Grew(a, b, PathLines(p, table, count))
  {
    forall l | 0 <= l < |b| ensures b[l] == a[l] + CountLen(PathLines(p, table, count), l + 1) {
      SubsetsOfLength(p, table, count, l);
    }
  }

  lemma SubsetsOfLength(p: seq<Item>, table: seq<Item>, count: seq<nat>, l: nat)
    requires |count| == |table|
    ensures CountLen(PathLines(p, table, count), l + 1)
              == if |p| <= l < |p| + |table| then Binom(|table|, l - |p| + 1) else 0
  {
    hide *;
    if l < |p| {
      PathLinesAre(p, table, count);
      LinesLong(p, table, count, AllSubsets(|table|), l + 1);
    } else {
      PathSizes(p, table, count, l - |p| + 1);
      if l >= |p| + |table| { BinomZero(|table|, l - |p| + 1); }
    }
  }

  // ---- Subsets of a path -------------------------------------------------------------------------

  ghost predicate ListsOk(n: nat, lists: seq<seq<nat>>) {
    forall k :: 0 <= k < |lists| ==> Extends(n, 0, [], lists[k])
  }

  lemma SubsetsOk(n: nat, cur: nat, chosen: seq<nat>)
    requires ChosenOk(cur, chosen) && cur <= n
    ensures ListsOk(n, Subsets(n, cur, chosen))
  {
    var lists := Subsets(n, cur, chosen);
    forall k | 0 <= k < |lists| ensures Extends(n, 0, [], lists[k]) {
      assert lists[k] in lists;
      SubsetsSound(n, cur, chosen, lists[k]);
    }
  }

  lemma ChooseOk(n: nat, cur: nat, chosen: seq<nat>)
    requires ChosenOk(cur, chosen) && cur < n
    ensures ChosenOk(cur + 1, chosen) && ChosenOk(cur + 1, chosen + [cur]) && |chosen| <= cur
    ensures Subsets(n, cur, chosen) == Subsets(n, cur + 1, chosen) + Subsets(n, cur + 1, chosen + [cur])
  {
    AscendingShort(chosen, cur);
  }

  ghost function LinesOf(p: seq<Item>, table: seq<Item>, count: seq<nat>, cur: nat, chosen: seq<nat>): seq<Emission>
    requires |count| == |table| && ChosenOk(cur, chosen) && cur <= |table|
  {
    SubsetsOk(|table|, cur, chosen);
    Lines(p, table, count, Subsets(|table|, cur, chosen))
  }

  lemma LinesOfSplit(p: seq<Item>, table: seq<Item>, count: seq<nat>, cur: nat, chosen: seq<nat>)
    requires |count| == |table| && ChosenOk(cur, chosen) && cur < |table|
    ensures ChosenOk(cur + 1, chosen) && ChosenOk(cur + 1, chosen + [cur]) && |chosen| <= cur
    ensures LinesOf(p, table, count, cur, chosen)
         == LinesOf(p, table, count, cur + 1, chosen) + LinesOf(p, table, count, cur + 1, chosen + [cur])
  {
    ChooseOk(|table|, cur, chosen);
    SubsetsOk(|table|, cur + 1, chosen);
    SubsetsOk(|table|, cur + 1, chosen + [cur]);
    LinesConcat(p, table, count, Subsets(|table|, cur + 1, chosen), Subsets(|table|, cur + 1, chosen + [cur]));
  }

  lemma LinesOfEnd(p: seq<Item>, table: seq<Item>, count: seq<nat>, chosen: seq<nat>)
    requires |count| == |table| && ChosenOk(|table|, chosen)
    ensures forall k :: 0 <= k < |chosen| ==> chosen[k] < |table|
    ensures LinesOf(p, table, count, |table|, chosen)
         == if chosen == [] then [] else [Emission(p + ItemsOf(table, chosen), count[chosen[|chosen| - 1]])]
  {
    SubsetsOk(|table|, |table|, chosen);
    if chosen != [] { assert [chosen][..0] == []; }
  }

  lemma PrefixKept(a: seq<Item>, b: seq<Item>, n: nat)
    requires n < |a| && n < |b| && a[..n + 1] == b[..n + 1]
    ensures a[..n] == b[..n]
  {
    assert a[..n] == a[..n + 1][..n] && b[..n] == b[..n + 1][..n];
  }

  // ---- The chain of a single path ----------------------------------------------------------------

  /** Left children run down the chain, and the k-th node holds the k-th item. */
  lemma ChainNext(nodes: seq<Fnode>, sh: Shape, itemno: nat, chain: seq<nat>, k: nat)
    requires Tree(nodes, sh, itemno) && AllLinked(sh) && OneChain(sh, chain) && k <= |chain|
    requires var p := if k == 0 then 0 else chain[k - 1]; p < |nodes|
    ensures nodes[if k == 0 then 0 else chain[k - 1]].leftchild == At(chain, k)
  {
    var p := if k == 0 then 0 else chain[k - 1];
    Links(nodes, sh, itemno, p);
    if k < |chain| {
      assert sh.path[p] < sh.path[chain[k]];
      var j := NextOnPath(nodes, sh, itemno, p, chain[k]);
      assert sh.kids[p] != [];
    }
    if sh.kids[p] != [] {
      KidBelow(nodes, sh, itemno, p, 0);
      var d := sh.kids[p][0];
      assert d != 0;
      assert d in chain;
      var i :| 0 <= i < |chain| && chain[i] == d;
      assert i == k;
    }
  }

  lemma ChainItem(nodes: seq<Fnode>, sh: Shape, itemno: nat, chain: seq<nat>, k: nat)
    requires PathsOk(nodes, sh, itemno) && OneChain(sh, chain) && Deepest(sh, chain) == UpTo(itemno) && k < |chain|
    ensures 0 <= chain[k] < |nodes| && nodes[chain[k]].itemname == k
  {
    assert PathOk(nodes[chain[k]], sh.path[chain[k]], itemno);
    assert sh.path[chain[k]][k] == UpTo(itemno)[k];
  }

  lemma ChainLength(sh: Shape, chain: seq<nat>, itemno: nat)
    requires OneChain(sh, chain) && Deepest(sh, chain) == UpTo(itemno)
    ensures |chain| == itemno
  {
  }

  /** A single path holds every item of its header table, in order. */
  lemma SingleIsFull(t: FpTree, db: Database, threshold: nat, itemCount: nat, chain: seq<nat>)
    requires LevelOf(t, db, threshold, itemCount) && OneChain(t.sh, chain) && 0 < threshold
    ensures Deepest(t.sh, chain) == UpTo(t.itemno) && PathSupport(db, t.table, t.count, threshold)
  {
    LevelFacts(t, db, threshold, itemCount);
    RowsNested(t.nodes, t.sh, RowsOf(db, t.table), t.itemno, chain);
    DeepestPath(t.nodes, t.sh, t.itemno, chain);
    DeepestIsFull(db, t.table, Deepest(t.sh, chain));
    SinglePathSupport(db, t.table, t.count, threshold);
  }

  lemma DeepestPath(nodes: seq<Fnode>, sh: Shape, itemno: nat, chain: seq<nat>)
    requires PathsOk(nodes, sh, itemno) && OneChain(sh, chain)
    ensures Ascending(Deepest(sh, chain)) && Below(Deepest(sh, chain), itemno)
  {
    if chain != [] {
      var c := chain[|chain| - 1];
      assert PathOk(nodes[c], sh.path[c], itemno);
    }
  }

  // ---- After the pattern base --------------------------------------------------------------------

  /** The frequent items of the conditional database stand in the first n slots. */
  ghost predicate Based(s: Scratch, condDb: Database, table: seq<Item>, x: nat, n: nat)
    requires x <= |table|
    reads s, s.tables
  {
    && s.Idle() && n <= s.itemCount
    && s.globalTable[..n] == FrequentItems(condDb, table, x, s.threshold)
    && s.globalCount[..n] == SupportsOf(condDb, FrequentItems(condDb, table, x, s.threshold))
    && Marked(s.tempOrder, table, x, condDb, s.threshold)
  }

  lemma BasedFacts(s: Scratch, condDb: Database, table: seq<Item>, x: nat, n: nat)
    requires x <= |table| && Based(s, condDb, table, x, n)
    ensures s.Idle() && n <= s.itemCount == |s.globalTable| == |s.globalCount| == |s.tempOrder| == |s.order|
    ensures s.globalTable[..n] == FrequentItems(condDb, table, x, s.threshold)
    ensures s.globalCount[..n] == SupportsOf(condDb, FrequentItems(condDb, table, x, s.threshold))
    ensures Marked(s.tempOrder, table, x, condDb, s.threshold)
  {
  }

  /** The conditional pattern base of item x. */
  method PatternBase(s: Scratch, table: seq<Item>, cells: seq<nat>, list: seq<Entry>, x: nat, mark: nat,
          ghost rows: seq<Row>, ghost paths: seq<seq<nat>>)
    returns (n: nat)
    requires s.Idle() && x < |table| <= s.itemCount && x <= mark && Distinct(table)
    requires forall k :: 0 <= k < |table| ==> table[k] < s.itemCount
    requires PathEntries(cells, mark, list, rows, paths) && PathsTo(paths, x)
    modifies s`supp, s`sumItemNum, s`globalTable, s`globalCount, s`tempOrder
    ensures Based(s, CondDb(table, rows, paths), table, x, n) && n <= x
  {
    hide PathEntries, PathsTo, CondDb;
    s.Tally(cells, list, x, mark, table, rows, paths);
    assert paths[..|paths|] == paths;
    ghost var condDb := CondDb(table, rows, paths);
    n := s.Filter(table, x, condDb);
  }

  /** A level as the recursion enters it. */
  ghost predicate Entered(m: Miner, t: FpTree, db: Database, p: seq<Item>)
    reads m, m.scratch, m.scratch.tables, t
  {
    && m.Sized() && m.scratch.Idle()
    && LevelOf(t, db, m.scratch.threshold, m.scratch.itemCount) && 0 < t.itemno
    && m.Holds(p) && Distinct(p) && DisjointFrom(ToSet(p), t.table)
    && |p| + t.itemno <= m.scratch.itemCount
  }

  class Miner {
    const scratch: Scratch
    var fs: seq<Item>
    var top: nat
    var prefix: seq<Item>
    var itlen: seq<nat>
    var out: seq<Emission>

    constructor (itemCount: nat, threshold: nat)
      requires 0 < threshold && itemCount <= 0x7fff_ffff
      ensures Sized() && scratch.Idle() && fresh(scratch) && fresh(scratch.tables)
      ensures scratch.itemCount == itemCount && scratch.threshold == threshold
      ensures Holds([]) && out == [] && itlen == seq(itemCount, _ => 0)
      ensures |scratch.tables.hashtable| == HOT_NODES
    {
      scratch := new Scratch(itemCount, threshold);
      fs, top, prefix := seq(itemCount, _ => 0), 0, seq(itemCount, _ => 0);
      itlen, out := seq(itemCount, _ => 0), [];
    }

    ghost predicate Sized()
      reads this`fs, this`prefix, this`itlen
    {
      |fs| == |prefix| == |itlen| == scratch.itemCount <= 0x7fff_ffff
    }

    /** The stack holds exactly p. */
    ghost predicate Holds(p: seq<Item>)
      reads this`fs, this`top
    {
      top == |p| <= |fs| && fs[..top] == p
    }

    /** Push an item, count the set on the stack, print it. */
    method Push(item: Item, support: nat, ghost p: seq<Item>)
      requires Sized() && Holds(p) && |p| < scratch.itemCount
      modifies this`fs, this`top, this`itlen, this`out
      ensures Sized() && Holds(p + [item])
      ensures out == old(out) + [Emission(p + [item], support)]
      ensures Grew(old(itlen), itlen, [Emission(p + [item], support)])
    {
      fs, top := fs[top := item], top + 1;
      assert fs[..top] == p + [item];
      GrewOne(itlen, Emission(p + [item], support));
      itlen := itlen[top - 1 := itlen[top - 1] + 1];
      out := out + [Emission(fs[..top], support)];
    }

    /** The state of the powerset recursion: chosen lists what the prefix array pre holds. */
    ghost predicate Choosing(t: FpTree, pre: seq<Item>, prefixLen: nat, current: nat, itLen: nat, chosen: seq<nat>)
      reads this`fs, this`top, scratch`tempOrder
    {
      && top <= current <= itLen <= |fs|
      && itLen - top == |t.table| == |t.count| && fs[top..itLen] == t.table
      && prefixLen == |chosen| <= |pre| == |fs| && ChosenOk(current - top, chosen)
      && (forall k :: 0 <= k < |chosen| ==> chosen[k] < |t.table|)
      && pre[..prefixLen] == ItemsOf(t.table, chosen)
      && forall i :: 0 <= i < |t.table| ==> t.table[i] < |scratch.tempOrder| && scratch.tempOrder[t.table[i]] == i
    }

    lemma ChoosingFacts(t: FpTree, pre: seq<Item>, prefixLen: nat, current: nat, itLen: nat, chosen: seq<nat>)
      requires Choosing(t, pre, prefixLen, current, itLen, chosen)
      ensures top <= current <= itLen <= |fs| == |pre| && itLen - top == |t.table| == |t.count|
      ensures prefixLen == |chosen| <= |pre| && ChosenOk(current - top, chosen)
    {
    }

    /** A complete choice is printed, unless it is empty. */
    method PrintSubset(t: FpTree, prefixLen: nat, itLen: nat, ghost chosen: seq<nat>)
      requires Choosing(t, prefix, prefixLen, itLen, itLen, chosen)
      modifies this`out
      ensures out == old(out) + LinesOf(fs[..top], t.table, t.count, |t.table|, chosen)
    {
      LinesOfEnd(fs[..top], t.table, t.count, chosen);
      if prefixLen != 0 {
        assert prefix[prefixLen - 1] == prefix[..prefixLen][prefixLen - 1] == t.table[chosen[prefixLen - 1]];
        out := out + [Emission(fs[..top] + prefix[..prefixLen], t.count[scratch.tempOrder[prefix[prefixLen - 1]]])];
      }
    }

    /** One more item joins the choice. */
    method Choose(t: FpTree, prefixLen: nat, current: nat, itLen: nat, ghost chosen: seq<nat>)
      requires Choosing(t, prefix, prefixLen, current, itLen, chosen) && current < itLen
      modifies this`prefix
      ensures Choosing(t, prefix, prefixLen + 1, current + 1, itLen, chosen + [current - top])
      ensures prefixLen < |prefix| == |old(prefix)| && prefix[..prefixLen] == old(prefix)[..prefixLen]
    {
      ghost var cur := current - top;
      ChooseOk(|t.table|, cur, chosen);
      prefix := prefix[prefixLen := fs[current]];
      assert fs[current] == fs[top..itLen][cur];
      assert prefix[..prefixLen + 1] == old(prefix)[..prefixLen] + [t.table[cur]];
      assert prefix[..prefixLen + 1] == ItemsOf(t.table, chosen + [cur]);
    }

    lemma PassOver(t: FpTree, pre: seq<Item>, prefixLen: nat, current: nat, itLen: nat, chosen: seq<nat>)
      requires Choosing(t, pre, prefixLen, current, itLen, chosen) && current < itLen
      ensures Choosing(t, pre, prefixLen, current + 1, itLen, chosen)
    {
      ChooseOk(|t.table|, current - top, chosen);
    }

    lemma StillChoosing(t: FpTree, pre: seq<Item>, pre': seq<Item>, prefixLen: nat, current: nat, itLen: nat,
            chosen: seq<nat>)
      requires Choosing(t, pre, prefixLen, current, itLen, chosen)
      requires |pre'| == |pre| && pre'[..prefixLen] == pre[..prefixLen]
      ensures Choosing(t, pre', prefixLen, current, itLen, chosen)
    {
    }

    /** All subsets of the items above the stack, each printed after the stack. */
    method Powerset(t: FpTree, prefixLen: nat, current: nat, itLen: nat, ghost chosen: seq<nat>)
      requires Choosing(t, prefix, prefixLen, current, itLen, chosen)
      modifies this`prefix, this`out
      ensures top <= current && |t.table| == |t.count| && ChosenOk(current - top, chosen) && current - top <= |t.table|
      ensures prefixLen <= |prefix| == |old(prefix)| && prefix[..prefixLen] == old(prefix)[..prefixLen]
      ensures out == old(out) + LinesOf(fs[..top], t.table, t.count, current - top, chosen)
      decreases itLen - current
    {
      hide *;
      ghost var prefix0 := prefix;
      ChoosingFacts(t, prefix, prefixLen, current, itLen, chosen);
      if current == itLen {
        PrintSubset(t, prefixLen, itLen, chosen);
      } else {
        LinesOfSplit(fs[..top], t.table, t.count, current - top, chosen);
        PassOver(t, prefix, prefixLen, current, itLen, chosen);
        Powerset(t, prefixLen, current + 1, itLen, chosen);
        StillChoosing(t, prefix0, prefix, prefixLen, current, itLen, chosen);
        Choose(t, prefixLen, current, itLen, chosen);
        ghost var prefix1 := prefix;
        Powerset(t, prefixLen + 1, current + 1, itLen, chosen + [current - top]);
        PrefixKept(prefix, prefix1, prefixLen);
      }
    }

    /** Add the number of subsets of each size, as a running product. */
    method CountSubsets(n: nat)
      requires top + n <= |itlen|
      modifies this`itlen
      ensures |itlen| == |old(itlen)|
      ensures forall l :: 0 <= l < |itlen| ==>
                itlen[l] == old(itlen)[l] + (if top <= l < top + n then Binom(n, l - top + 1) else 0)
    {
      var temp, i1, i2 := 1, 1, n;
      while i1 <= n
        invariant 1 <= i1 <= n + 1 && i2 == n - i1 + 1 && temp == Binom(n, i1 - 1) && |itlen| == |old(itlen)|
        invariant forall l :: 0 <= l < |itlen| ==>
                    itlen[l] == old(itlen)[l] + (if top <= l < top + i1 - 1 then Binom(n, l - top + 1) else 0)
      {
        BinomStep(n, i1);
        temp := temp * i2 / i1;
        itlen := itlen[top + i1 - 1 := itlen[top + i1 - 1] + temp];
        i1, i2 := i1 + 1, i2 - 1;
      }
    }

    /** The items of the path go above the stack. */
    method StackPath(t: FpTree, ghost chain: seq<nat>)
      requires Sized() && t.Built() && t.itemno == |t.table| && top + t.itemno <= |fs|
      requires Tree(t.nodes, t.sh, t.itemno) && OneChain(t.sh, chain) && Deepest(t.sh, chain) == UpTo(t.itemno)
      modifies this`fs
      ensures Sized() && fs[..top] == old(fs)[..top] && fs[top..top + t.itemno] == t.table
    {
      hide *;
      SizedFacts();
      BuiltFacts(t);
      ChainLength(t.sh, chain, t.itemno);
      ChainNext(t.nodes, t.sh, t.itemno, chain, 0);
      var node, i := t.nodes[0].leftchild, top;
      ghost var k: nat := 0;
      while node != NULL
        invariant k <= t.itemno && i == top + k && node == At(chain, k) && |fs| == |old(fs)|
        invariant fs[..top] == old(fs)[..top] && fs[top..top + k] == t.table[..k]
        decreases t.itemno - k
      {
        AtIs(chain, k);
        ChainItem(t.nodes, t.sh, t.itemno, chain, k);
        ghost var before := fs;
        fs := fs[i := t.table[t.nodes[node].itemname]];
        assert fs[top..top + k + 1] == before[top..top + k] + [t.table[k]];
        assert t.table[..k + 1] == t.table[..k] + [t.table[k]];
        assert fs[..top] == before[..top];
        ChainNext(t.nodes, t.sh, t.itemno, chain, k + 1);
        node, i, k := t.nodes[node].leftchild, i + 1, k + 1;
      }
      AtNull(chain, k);
      SizedAgain();
    }

    /** The single-path shortcut: all subsets at once. */
    method MinePath(t: FpTree, ghost chain: seq<nat>, ghost db: Database,
            ghost p: seq<Item>) returns (ghost sub: seq<Emission>)
      requires Entered(this, t, db, p) && OneChain(t.sh, chain)
      requires forall i :: 0 <= i < |t.table| ==> t.table[i] < |scratch.tempOrder| && scratch.tempOrder[t.table[i]] == i
      modifies this`fs, this`prefix, this`itlen, this`out
      ensures Sized() && Holds(p)
      ensures out == old(out) + sub && Grew(old(itlen), itlen, sub)
      ensures Emits(sub, ToSet(p), db, t.table, 0, scratch.threshold)
    {
      hide *;
      EnteredFacts(this, t, db, p);
      SingleIsFull(t, db, scratch.threshold, scratch.itemCount, chain);
      StackPath(t, chain);
      SizedFacts();
      CountSubsets(t.itemno);
      SizedAgain();
      GrewBySubsets(p, t.table, t.count, old(itlen), itlen);
      ChooseNothing(t);
      Powerset(t, 0, top, top + t.itemno, []);
      SizedAgain();
      StackIs(p);
      sub := PathLines(p, t.table, t.count);
      AllLines(p, t.table, t.count);
      PathLevelOf(p, db, t.table, t.count, scratch.threshold);
      PowersetEmits(p, db, t.table, t.count, scratch.threshold);
    }

    lemma StackIs(p: seq<Item>)
      requires top == |p| <= |fs| && fs[..top] == p
      ensures Holds(p)
    {
    }

    lemma HoldsFacts(p: seq<Item>)
      requires Holds(p)
      ensures top == |p| <= |fs| && fs[..top] == p
    {
    }

    lemma ChooseNothing(t: FpTree)
      requires |t.table| == |t.count| && top + |t.table| <= |fs| == |prefix| && fs[top..top + |t.table|] == t.table
      requires forall i :: 0 <= i < |t.table| ==> t.table[i] < |scratch.tempOrder| && scratch.tempOrder[t.table[i]] == i
      ensures Choosing(t, prefix, 0, top, top + |t.table|, [])
    {
    }

    /** The tree of the conditional database, mined through the shortcut or recursively. */
    method MineTree(t: FpTree, ghost db: Database, ghost p: seq<Item>) returns (ghost sub: seq<Emission>)
      requires Entered(this, t, db, p)
      requires forall i :: 0 <= i < |t.table| ==> t.table[i] < |scratch.tempOrder| && scratch.tempOrder[t.table[i]] == i
      modifies this`fs, this`top, this`prefix, this`itlen, this`out, scratch, scratch.tables
      ensures Sized() && scratch.Idle() && Holds(p)
      ensures out == old(out) + sub && Grew(old(itlen), itlen, sub)
      ensures Emits(sub, ToSet(p), db, t.table, 0, scratch.threshold)
      decreases t.itemno, 2
    {
      hide *;
      EnteredFacts(this, t, db, p);
      var single;
      ghost var chain;
      single, chain := SinglePath(t.nodes, t.sh, t.itemno);
      if single {
        sub := MinePath(t, chain, db, p);
      } else {
        sub := Grow(t, db, p);
      }
    }

    /** The second scan: header table, new tree, rows. */
    method CondTree(t: FpTree, fpa: FPArray, x: nat, n: nat, mark: nat, ghost db: Database, ghost p: seq<Item>,
            ghost condDb: Database)
      returns (t': FpTree)
      requires LevelOf(t, db, scratch.threshold, scratch.itemCount) && x < t.itemno && x <= mark
      requires Flattened(fpa, t.nodes, t.sh, t.itemno, mark) && x < |fpa.lists|
      requires TreeOk(t.nodes, t.sh, t.itemno, t.nodenum) && condDb == CondOf(t.nodes, t.sh, t.itemno, t.table, db, x)
      requires Based(scratch, condDb, t.table, x, n) && n > 0
      modifies scratch`tempOrder, scratch`order, scratch`origin, scratch.tables
      ensures scratch.Idle() && fresh(t')
      ensures LevelOf(t', condDb, scratch.threshold, scratch.itemCount) && 0 < t'.itemno <= x
      ensures ToSet(t'.table) == ToSet(FrequentItems(condDb, t.table, x, scratch.threshold)) <= ToSet(t.table[..x])
      ensures forall i :: 0 <= i < |t'.table| ==>
                t'.table[i] < |scratch.tempOrder| && scratch.tempOrder[t'.table[i]] == i
    {
      hide *;
      ghost var rows, paths := RowsOf(db, t.table), ItemPaths(t.nodes, t.sh, t.itemno, x);
      LevelFacts(t, db, scratch.threshold, scratch.itemCount);
      TablesOfItem(t, fpa, x, mark, db);
      HeadedFacts(t.table, t.count, db, scratch.threshold, scratch.itemCount);
      BasedFacts(scratch, condDb, t.table, x, n);
      CondOfIs(t.nodes, t.sh, t.itemno, t.table, db, x);
      IdleFacts(scratch);
      FrequentDistinct(condDb, t.table, x, scratch.threshold);
      FrequentSmall(condDb, t.table, x, scratch.threshold, scratch.itemCount);
      SlotsOf(scratch.globalTable, n, FrequentItems(condDb, t.table, x, scratch.threshold));
      ghost var tempOrder0 := scratch.tempOrder;
      var table', count' := scratch.Header(t.table, x, n);
      HeaderFacts(condDb, t.table, x, scratch.threshold, scratch.itemCount, table', count');
      HeadedFacts(table', count', condDb, scratch.threshold, scratch.itemCount);
      ArrangedSize(scratch.globalTable[..n], scratch.globalCount[..n], table', count');
      RenumberedIs(tempOrder0, scratch.tempOrder, scratch.order, t.table, x, table');
      OrdersKnown(tempOrder0, scratch.tempOrder, scratch.order, t.table, x, table', rows, paths, scratch.threshold);
      var numHot := ChooseNumHot(n, scratch.sumItemNum);
      t' := new FpTree(table', count', numHot);
      EmptyIs(t');
      Scan2(scratch, t', fpa.cells, fpa.lists[x], mark, paths, x, t.table, rows);
      LevelIs(t', condDb, scratch.threshold, scratch.itemCount);
      IdleIs(scratch);
    }

    /** The shortcut for at most one frequent item below x. */
    method MineFew(n: nat, x: nat, ghost table: seq<Item>, ghost condDb: Database,
            ghost p: seq<Item>) returns (ghost sub: seq<Emission>)
      requires Sized() && Holds(p) && Distinct(p) && n <= 1 && x <= |table| && |p| + n <= scratch.itemCount
      requires Based(scratch, condDb, table, x, n)
      requires DisjointFrom(ToSet(p), FrequentItems(condDb, table, x, scratch.threshold))
      modifies this`fs, this`top, this`itlen, this`out
      ensures Sized() && |p| <= top <= |fs| && fs[..|p|] == p
      ensures out == old(out) + sub && Grew(old(itlen), itlen, sub)
      ensures Emits(sub, ToSet(p), condDb, FrequentItems(condDb, table, x, scratch.threshold), 0, scratch.threshold)
    {
      hide *;
      BasedFacts(scratch, condDb, table, x, n);
      HoldsFacts(p);
      if n == 0 {
        sub := [];
        NoneEmits(ToSet(p), condDb, FrequentItems(condDb, table, x, scratch.threshold), 0, scratch.threshold,
                  scratch.globalTable);
        GrewNot(itlen);
      } else {
        OneFrequent(scratch, condDb, table, x, p);
        ghost var found := p + [scratch.globalTable[0]];
        Push(scratch.globalTable[0], scratch.globalCount[0], p);
        HoldsFacts(found);
        assert fs[..|p|] == fs[..|p| + 1][..|p|];
        sub := [Emission(found, scratch.globalCount[0])];
      }
    }

    /** One item of the header table: its set, then everything found in its conditional database. */
    method MineItem(t: FpTree, fpa: FPArray, x: nat, mark: nat, ghost db: Database, ghost p: seq<Item>)
      returns (ghost sub: seq<Emission>, ghost table': seq<Item>)
      requires Entered(this, t, db, p) && x < t.itemno && x <= mark
      requires TreeOk(t.nodes, t.sh, t.itemno, t.nodenum)
      requires Flattened(fpa, t.nodes, t.sh, t.itemno, mark) && x < |fpa.lists|
      requires |t.table| == t.itemno == |t.count|
      modifies this`fs, this`top, this`prefix, this`itlen, this`out, scratch, scratch.tables
      ensures Sized() && scratch.Idle() && Holds(p)
      ensures out == old(out) + [Emission(p + [t.table[x]], t.count[x])] + sub
      ensures Grew(old(itlen), itlen, [Emission(p + [t.table[x]], t.count[x])] + sub)
      ensures Conditional(db, t.table, x, CondOf(t.nodes, t.sh, t.itemno, t.table, db, x), table', scratch.threshold)
      ensures Emits(sub, ToSet(p) + {t.table[x]}, CondOf(t.nodes, t.sh, t.itemno, t.table, db, x), table', 0,
                    scratch.threshold)
      decreases t.itemno, 0
    {
      hide *;
      ghost var condDb, rows := CondOf(t.nodes, t.sh, t.itemno, t.table, db, x), RowsOf(db, t.table);
      ghost var paths := ItemPaths(t.nodes, t.sh, t.itemno, x);
      EnteredFacts(this, t, db, p);
      LevelFacts(t, db, scratch.threshold, scratch.itemCount);
      HeadedFacts(t.table, t.count, db, scratch.threshold, scratch.itemCount);
      TablesOfItem(t, fpa, x, mark, db);
      CondOfIs(t.nodes, t.sh, t.itemno, t.table, db, x);
      ghost var p', first := p + [t.table[x]], Emission(p + [t.table[x]], t.count[x]);
      Push(t.table[x], t.count[x], p);
      HoldsFacts(p');
      var listLen, n := top, 0;
      if x != 0 {
        n := PatternBase(scratch, t.table, fpa.cells, fpa.lists[x], x, mark, rows, paths);
      } else {
        NothingBelow(scratch, condDb, t.table);
      }
      assert Based(scratch, condDb, t.table, x, n) && n <= x;
      BasedFacts(scratch, condDb, t.table, x, n);
      table' := FrequentItems(condDb, t.table, x, scratch.threshold);
      FrequentInside(condDb, t.table, x, scratch.threshold);
      NextPrefix(p, t.table, x, table');
      ghost var middle := itlen;
      if n == 0 || n == 1 {
        sub := MineFew(n, x, t.table, condDb, p');
        top := listLen - 1;
      } else {
        var t' := CondTree(t, fpa, x, n, mark, db, p, condDb);
        NextPrefix(p, t.table, x, t'.table);
        EnteredIs(this, t', condDb, p');
        sub := MineTree(t', condDb, p');
        HoldsFacts(p');
        table' := t'.table;
        top := listLen - 1;
      }
      GrewMore(old(itlen), middle, itlen, [first], sub);
      Popped(p, t.table[x]);
      CondHolds(t.nodes, t.sh, t.itemno, t.table, db, x, table', scratch.threshold);
    }

    lemma Popped(p: seq<Item>, y: Item)
      requires top == |p| < |fs| && fs[..top + 1] == p + [y]
      ensures Holds(p)
    {
      assert fs[..top] == fs[..top + 1][..top] == p;
    }

    /** Mine the level: every frequent set over the header table exactly once, with its support. */
    method Grow(t: FpTree, ghost db: Database, ghost p: seq<Item>) returns (ghost found: seq<Emission>)
      requires Entered(this, t, db, p)
      modifies this`fs, this`top, this`prefix, this`itlen, this`out, scratch, scratch.tables
      ensures Sized() && scratch.Idle() && Holds(p)
      ensures out == old(out) + found && Grew(old(itlen), itlen, found)
      ensures Emits(found, ToSet(p), db, t.table, 0, scratch.threshold)
      decreases t.itemno, 1
    {
      hide *;
      EnteredFacts(this, t, db, p);
      LevelFacts(t, db, scratch.threshold, scratch.itemCount);
      var mark := MarkFor(t.itemno);
      MarkBound(t.itemno);
      var fpa := Transform(t.nodes, t.itemno, t.nodenum, t.newDataNum + 1, mark, t.sh);
      FlattenedLists(fpa, t.nodes, t.sh, t.itemno, mark);
      found := [];
      NothingYet(ToSet(p), db, t.table, t.itemno, scratch.threshold);
      GrewNot(itlen);
      ghost var itlen0 := itlen;
      var x := t.itemno;
      while x > 0
        invariant 0 <= x <= t.itemno && Sized() && scratch.Idle() && Holds(p)
        invariant out == old(out) + found && Grew(itlen0, itlen, found)
        invariant Emits(found, ToSet(p), db, t.table, x, scratch.threshold)
      {
        x := x - 1;
        ghost var before := itlen;
        EnteredIs(this, t, db, p);
        ghost var sub, table';
        sub, table' := MineItem(t, fpa, x, mark, db, p);
        LevelStep(t, db, scratch.threshold, scratch.itemCount, p, x, table', found, sub);
        GrewMore(itlen0, before, itlen, found, [Emission(p + [t.table[x]], t.count[x])] + sub);
        assert found + ([Emission(p + [t.table[x]], t.count[x])] + sub)
            == found + [Emission(p + [t.table[x]], t.count[x])] + sub;
        found := found + [Emission(p + [t.table[x]], t.count[x])] + sub;
      }
    }

    lemma SizedFacts()
      requires Sized()
      ensures |fs| == |prefix| == |itlen| == scratch.itemCount <= 0x7fff_ffff
    {
    }

    lemma SizedAgain()
      requires |fs| == |prefix| == |itlen| == scratch.itemCount <= 0x7fff_ffff
      ensures Sized()
    {
    }
  }

  lemma EnteredFacts(m: Miner, t: FpTree, db: Database, p: seq<Item>)
    requires Entered(m, t, db, p)
    ensures m.Sized() && m.scratch.Idle() && m.Holds(p) && Distinct(p) && DisjointFrom(ToSet(p), t.table)
    ensures LevelOf(t, db, m.scratch.threshold, m.scratch.itemCount) && 0 < t.itemno && 0 < m.scratch.threshold
    ensures |p| + t.itemno <= m.scratch.itemCount <= 0x7fff_ffff && t.itemno == |t.table| == |t.count|
    ensures m.top == |p| && m.fs[..m.top] == p && t.Built()
    ensures Tree(t.nodes, t.sh, t.itemno) && AllLinked(t.sh)
  {
    LevelFacts(t, db, m.scratch.threshold, m.scratch.itemCount);
  }

  lemma EnteredIs(m: Miner, t: FpTree, db: Database, p: seq<Item>)
    requires m.Sized() && m.scratch.Idle() && m.Holds(p) && Distinct(p) && DisjointFrom(ToSet(p), t.table)
    requires LevelOf(t, db, m.scratch.threshold, m.scratch.itemCount)
    requires 0 < t.itemno && |p| + t.itemno <= m.scratch.itemCount
    ensures Entered(m, t, db, p)
  {
  }

  lemma HeadedFacts(table: seq<Item>, count: seq<nat>, db: Database, threshold: nat, itemCount: nat)
    requires Headed(table, count, db, threshold, itemCount)
    ensures |count| == |table| <= itemCount && Distinct(table) && forall i :: 0 <= i < |table| ==> table[i] < itemCount
  {
  }

  lemma AllLines(p: seq<Item>, table: seq<Item>, count: seq<nat>)
    requires |count| == |table|
    ensures ChosenOk(0, []) && LinesOf(p, table, count, 0, []) == PathLines(p, table, count)
  {
  }

  lemma PathLevelOf(p: seq<Item>, db: Database, table: seq<Item>, count: seq<nat>, threshold: nat)
    requires PathSupport(db, table, count, threshold) && Distinct(table) && Distinct(p) && DisjointFrom(ToSet(p), table)
    ensures PathLevel(p, db, table, count, threshold)
  {
  }

  /** The flattened tree holds the entries of item x. */
  lemma TablesOfItem(t: FpTree, fpa: FPArray, x: nat, mark: nat, db: Database)
    requires TreeOk(t.nodes, t.sh, t.itemno, t.nodenum) && Flattened(fpa, t.nodes, t.sh, t.itemno, mark) && x < t.itemno
    requires Represents(t.nodes, t.sh, RowsOf(db, t.table), t.itemno) && Weighted(RowsOf(db, t.table))
    ensures x < |fpa.lists|
    ensures var paths := ItemPaths(t.nodes, t.sh, t.itemno, x);
            PathsTo(paths, x) && PathEntries(fpa.cells, mark, fpa.lists[x], RowsOf(db, t.table), paths)
            && forall k :: 0 <= k < |paths| ==> 0 < PrefixWeight(RowsOf(db, t.table), paths[k])
  {
    EntriesOf(fpa, t.nodes, t.sh, t.itemno, mark, RowsOf(db, t.table), x);
    ItemPathsEnd(t.nodes, t.sh, t.itemno, x);
    var paths := ItemPaths(t.nodes, t.sh, t.itemno, x);
    forall k | 0 <= k < |paths| ensures 0 < PrefixWeight(RowsOf(db, t.table), paths[k]) {
      assert PathEntry(fpa.cells, mark, fpa.lists[x][k], RowsOf(db, t.table), paths[k]);
    }
  }

  lemma CondOfIs(nodes: seq<Fnode>, sh: Shape, itemno: nat, table: seq<Item>, db: Database, x: nat)
    ensures CondOf(nodes, sh, itemno, table, db, x) == CondDb(table, RowsOf(db, table), ItemPaths(nodes, sh, itemno, x))
  {
  }

  lemma IdleFacts(s: Scratch)
    requires s.Idle()
    ensures |s.supp| == |s.globalTable| == |s.globalCount| == |s.tempOrder| == |s.order| == |s.origin| == s.itemCount
    ensures forall y :: 0 <= y < s.itemCount ==> s.supp[y] == 0 && !s.origin[y]
    ensures s.tables.Clean() && 64 <= |s.tables.hashtable| && 0 < s.threshold
  {
  }

  lemma IdleIs(s: Scratch)
    requires |s.supp| == |s.globalTable| == |s.globalCount| == |s.tempOrder| == |s.order| == |s.origin| == s.itemCount
    requires forall y :: 0 <= y < s.itemCount ==> s.supp[y] == 0 && !s.origin[y]
    requires s.tables.Clean() && 64 <= |s.tables.hashtable| && 0 < s.threshold
    ensures s.Idle()
  {
  }

  lemma FrequentSmall(condDb: Database, table: seq<Item>, x: nat, threshold: nat, itemCount: nat)
    requires x <= |table| && forall i :: 0 <= i < |table| ==> table[i] < itemCount
    ensures forall y :: y in FrequentItems(condDb, table, x, threshold) ==> y < itemCount
  {
    forall y | y in FrequentItems(condDb, table, x, threshold) ensures y < itemCount {
      FrequentMembers(condDb, table, x, threshold, y);
    }
  }

  lemma SlotsOf(globalTable: seq<Item>, n: nat, f: seq<Item>)
    requires n <= |globalTable| && globalTable[..n] == f
    ensures forall k :: 0 <= k < n ==> globalTable[k] in f
  {
    forall k | 0 <= k < n ensures globalTable[k] in f { assert globalTable[..n][k] == globalTable[k]; }
  }

  lemma ArrangedSize(items: seq<Item>, counts: seq<nat>, table: seq<Item>, count: seq<nat>)
    requires Arranged(items, counts, table, count)
    ensures |table| == |items|
  {
  }

  lemma RenumberedIs(tempOrder0: seq<int>, tempOrder: seq<int>, order: seq<int>, table: seq<Item>, x: nat,
          table': seq<Item>)
    requires x <= |table| && x <= |order| && |tempOrder| == |tempOrder0|
    requires forall i :: 0 <= i < |table'| ==> table'[i] < |tempOrder| && tempOrder[table'[i]] == i
    requires forall y :: 0 <= y < |tempOrder| && y !in table' ==> tempOrder[y] == tempOrder0[y]
    requires forall y :: 0 <= y < x ==> table[y] < |tempOrder| && order[y] == tempOrder[table[y]]
    ensures Renumbered(tempOrder0, tempOrder, order, table, x, table')
  {
  }

  lemma EmptyIs(t: FpTree)
    requires t.nodes == [Fnode(0, 0, NULL, NULL)] && t.nodenum == seq(t.itemno, _ => 0) && t.newDataNum == 0
    requires t.sh == Shape([[]], [[]]) && t.log == []
    ensures Empty(t)
  {
  }

  lemma LevelIs(t: FpTree, db: Database, threshold: nat, itemCount: nat)
    requires t.Built() && t.itemno == |t.table| && Headed(t.table, t.count, db, threshold, itemCount)
    requires LogOk(t.log, t.numHot, t.itemno) && Rows(t.log, t.numHot, t.itemno) == RowsOf(db, t.table)
    ensures LevelOf(t, db, threshold, itemCount)
  {
  }

  lemma NothingBelow(s: Scratch, condDb: Database, table: seq<Item>)
    requires s.Idle()
    ensures Based(s, condDb, table, 0, 0)
  {
  }

  lemma FrequentInside(condDb: Database, table: seq<Item>, x: nat, threshold: nat)
    requires x <= |table|
    ensures ToSet(FrequentItems(condDb, table, x, threshold)) <= ToSet(table[..x])
  {
    forall y | y in FrequentItems(condDb, table, x, threshold) ensures y in table[..x] {
      FrequentMembers(condDb, table, x, threshold, y);
    }
  }

  lemma NoneEmits(prefix: set<Item>, condDb: Database, table': seq<Item>, n: nat, threshold: nat,
          globalTable: seq<Item>)
    requires n <= |globalTable| && globalTable[..n] == table'
    ensures n == 0 ==> Emits([], prefix, condDb, table', 0, threshold)
  {
    if n == 0 { NothingYet(prefix, condDb, table', 0, threshold); }
  }

  lemma OneFrequent(s: Scratch, condDb: Database, table: seq<Item>, x: nat, p: seq<Item>)
    requires x <= |table| && Based(s, condDb, table, x, 1) && Distinct(p)
    requires DisjointFrom(ToSet(p), FrequentItems(condDb, table, x, s.threshold))
    ensures 1 <= |s.globalTable| == |s.globalCount|
    ensures Emits([Emission(p + [s.globalTable[0]], s.globalCount[0])], ToSet(p), condDb,
                  FrequentItems(condDb, table, x, s.threshold), 0, s.threshold)
  {
    var f := FrequentItems(condDb, table, x, s.threshold);
    assert f == [s.globalTable[0]];
    assert s.globalCount[..1][0] == s.globalCount[0];
    FrequentMembers(condDb, table, x, s.threshold, f[0]);
    OneItem(p, condDb, f[0], s.threshold);
  }

  lemma MarkBound(itemno: nat)
    requires itemno <= 0x7fff_ffff
    ensures itemno <= MarkFor(itemno) + 1
  {
  }

  lemma FlattenedLists(fpa: FPArray, nodes: seq<Fnode>, sh: Shape, itemno: nat, mark: nat)
    requires Flattened(fpa, nodes, sh, itemno, mark)
    ensures |fpa.lists| == itemno
  {
  }

  lemma LevelStep(t: FpTree, db: Database, threshold: nat, itemCount: nat, p: seq<Item>, x: nat, table': seq<Item>,
                  found: seq<Emission>, sub: seq<Emission>)
    requires LevelOf(t, db, threshold, itemCount) && Distinct(p)
    requires DisjointFrom(ToSet(p), t.table) && x < |t.table| == |t.count|
    requires Emits(found, ToSet(p), db, t.table, x + 1, threshold)
    requires Conditional(db, t.table, x, CondOf(t.nodes, t.sh, t.itemno, t.table, db, x), table', threshold)
    requires Emits(sub, ToSet(p) + {t.table[x]}, CondOf(t.nodes, t.sh, t.itemno, t.table, db, x), table', 0, threshold)
    ensures Emits(found + [Emission(p + [t.table[x]], t.count[x])] + sub, ToSet(p), db, t.table, x, threshold)
  {
    hide *;
    HeadedAt(t, db, threshold, itemCount, p, x, table');
    Step(found, p, db, t.table, x, threshold, CondOf(t.nodes, t.sh, t.itemno, t.table, db, x), table', sub);
  }

  lemma HeadedAt(t: FpTree, db: Database, threshold: nat, itemCount: nat, p: seq<Item>, x: nat, table': seq<Item>)
    requires LevelOf(t, db, threshold, itemCount) && Distinct(p)
    requires DisjointFrom(ToSet(p), t.table) && x < |t.table| == |t.count|
    requires Conditional(db, t.table, x, CondOf(t.nodes, t.sh, t.itemno, t.table, db, x), table', threshold)
    ensures StepPre(p, db, t.table, x, threshold, CondOf(t.nodes, t.sh, t.itemno, t.table, db, x), table')
    ensures forall out, sub :: StepOut(out, p, db, t.table, x, sub)
              == out + [Emission(p + [t.table[x]], t.count[x])] + sub
  {
  }

  lemma BuiltFacts(t: FpTree)
    requires t.Built()
    ensures AllLinked(t.sh) && PathsOk(t.nodes, t.sh, t.itemno) && 0 < |t.nodes|
  {
  }
}
