/** Building the prefix tree of a conditional database: insertion below the hot-item table, and the
    descending sweep that links the hot nodes in. */
module FpTree {
  import opened FpDatabase
  import opened HotItems
  import opened FpArena

  /** One insertion: the mask of its hot items, its other items, its weight. */
  datatype HotRow = HotRow(mask: nat, rest: seq<nat>, weight: nat)

  ghost predicate RowOk(r: HotRow, numHot: nat, itemno: nat) {
    && r.mask < Pow2(numHot)
    && 0 < r.weight
    && Ascending(r.rest)
    && forall k :: 0 <= k < |r.rest| ==> numHot <= r.rest[k] < itemno
  }

  lemma RowOkFacts(r: HotRow, numHot: nat, itemno: nat)
    requires RowOk(r, numHot, itemno)
    ensures r.mask < Pow2(numHot) && forall k :: 0 <= k < |r.rest| ==> numHot <= r.rest[k]
  {
  }

  ghost function Ids(r: HotRow, numHot: nat): seq<nat>
    requires r.mask < Pow2(numHot)
  {
    Bits(r.mask, numHot) + r.rest
  }

  ghost predicate LogOk(log: seq<HotRow>, numHot: nat, itemno: nat) {
    forall k :: 0 <= k < |log| ==> RowOk(log[k], numHot, itemno)
  }

  ghost function Rows(log: seq<HotRow>, numHot: nat, itemno: nat): (rows: seq<Row>)
    requires LogOk(log, numHot, itemno)
    ensures |rows| == |log|
    ensures forall k :: 0 <= k < |log| ==> rows[k] == Row(Ids(log[k], numHot), log[k].weight)
  {
    if log == [] then []
    else Rows(log[..|log| - 1], numHot, itemno) + [Row(Ids(log[|log| - 1], numHot), log[|log| - 1].weight)]
  }

  lemma RowsAppend(log: seq<HotRow>, r: HotRow, numHot: nat, itemno: nat)
    requires LogOk(log, numHot, itemno) && RowOk(r, numHot, itemno)
    ensures LogOk(log + [r], numHot, itemno)
    ensures Rows(log + [r], numHot, itemno) == Rows(log, numHot, itemno) + [Row(Ids(r, numHot), r.weight)]
  {
    assert (log + [r])[..|log|] == log;
  }

  lemma IdsAscending(r: HotRow, numHot: nat, itemno: nat)
    requires RowOk(r, numHot, itemno) && numHot <= itemno
    ensures Ascending(Ids(r, numHot)) && Below(Ids(r, numHot), itemno)
  {
    BitsAscending(r.mask, numHot);
  }

  /** Does the path stay within the hot items? */
  predicate Hot(path: seq<nat>, numHot: nat) {
    path == [] || path[|path| - 1] < numHot
  }

  ghost predicate HashEntry(e: int, sh: Shape, m: nat, numHot: nat)
    requires m < Pow2(numHot)
  {
    e == NULL || (0 <= e < |sh.path| && sh.path[e] == Bits(m, numHot))
  }

  ghost predicate HashOk(hashtable: seq<int>, sh: Shape, numHot: nat) {
    && Pow2(numHot) <= |hashtable|
    && hashtable[0] == 0
    && (forall m :: 0 <= m < Pow2(numHot) ==> HashEntry(hashtable[m], sh, m, numHot))
    && forall m :: Pow2(numHot) <= m < |hashtable| ==> hashtable[m] == NULL
  }

  ghost predicate InHash(hashtable: seq<int>, c: nat) {
    exists m :: 0 <= m < |hashtable| && hashtable[m] == c
  }

  /** A node is either a child, or a hot node still waiting in the table; hot children have masks above i. */
  ghost predicate OwnedAt(sh: Shape, hashtable: seq<int>, numHot: nat, i: nat, c: nat)
    requires c < |sh.path|
  {
    if InHash(hashtable, c) then !IsKid(sh, c) && Hot(sh.path[c], numHot)
    else IsKid(sh, c) && (Hot(sh.path[c], numHot) ==> Value(sh.path[c]) > i)
  }

  ghost predicate Owned(sh: Shape, hashtable: seq<int>, numHot: nat, i: nat) {
    forall c :: 0 < c < |sh.path| ==> OwnedAt(sh, hashtable, numHot, i, c)
  }

  ghost predicate UsedAt(path: seq<nat>, rows: seq<Row>) {
    exists k :: 0 <= k < |rows| && path <= rows[k].ids
  }

  ghost predicate Used(sh: Shape, rows: seq<Row>) {
    forall c :: 0 <= c < |sh.path| && IsKid(sh, c) ==> UsedAt(sh.path[c], rows)
  }

  ghost predicate HashUsed(hashtable: seq<int>, numHot: nat, rows: seq<Row>) {
    forall m :: 1 <= m < Pow2(numHot) && m < |hashtable| && hashtable[m] != NULL ==> UsedAt(Bits(m, numHot), rows)
  }

  ghost predicate CountAt(node: Fnode, path: seq<nat>, rows: seq<Row>) {
    node.count == PrefixWeight(rows, path)
  }

  /** Every child's count is the weight of the rows through it. */
  ghost predicate Counts(nodes: seq<Fnode>, sh: Shape, rows: seq<Row>)
  {
    |nodes| == |sh.path| && forall c :: 0 <= c < |nodes| && IsKid(sh, c) ==> CountAt(nodes[c], sh.path[c], rows)
  }

  /** With masks above i folded away, a row sits at a table node and its longer prefixes have nodes. */
  ghost predicate CoverAt(r: HotRow, sh: Shape, hashtable: seq<int>, numHot: nat, i: nat)
    requires r.mask < Pow2(numHot)
  {
    var e := Lift(r.mask, i, numHot);
    && e < |hashtable| && hashtable[e] != NULL
    && e < Pow2(numHot)
    && forall j :: |Bits(e, numHot)| < j <= |Ids(r, numHot)| ==> HasPath(sh, Ids(r, numHot)[..j])
  }

  ghost predicate CoverAll(log: seq<HotRow>, sh: Shape, hashtable: seq<int>, numHot: nat, i: nat)
    requires forall k :: 0 <= k < |log| ==> log[k].mask < Pow2(numHot)
  {
    forall k :: 0 <= k < |log| ==> CoverAt(log[k], sh, hashtable, numHot, i)
  }

  /** Weight of the rows whose mask folds to m. */
  ghost function LiftWeight(log: seq<HotRow>, numHot: nat, i: nat, m: nat): nat
    requires forall k :: 0 <= k < |log| ==> log[k].mask < Pow2(numHot)
  {
    if log == [] then 0
    else LiftWeight(log[..|log| - 1], numHot, i, m)
         + (if Lift(log[|log| - 1].mask, i, numHot) == m then log[|log| - 1].weight else 0)
  }

  ghost predicate HotCounts(hotCount: seq<nat>, log: seq<HotRow>, numHot: nat, i: nat)
    requires forall k :: 0 <= k < |log| ==> log[k].mask < Pow2(numHot)
  {
    && Pow2(numHot) <= |hotCount|
    && forall m :: 1 <= m <= i && m < |hotCount| ==> hotCount[m] == LiftWeight(log, numHot, i, m)
  }

  ghost function KidsOf(nodes: seq<Fnode>, sh: Shape, x: nat): set<nat> {
    set c: nat | c < |nodes| && IsKid(sh, c) && nodes[c].itemname == x
  }

  ghost predicate NodeNums(nodenum: seq<nat>, nodes: seq<Fnode>, sh: Shape) {
    forall x :: 0 <= x < |nodenum| ==> nodenum[x] == |KidsOf(nodes, sh, x)|
  }

  /** Depth of the hot nodes that wait in the table, for masks below m. */
  ghost function HotDebt(hashtable: seq<int>, numHot: nat, m: nat): nat
    requires m <= Pow2(numHot) <= |hashtable|
  {
    if m <= 1 then 0
    else HotDebt(hashtable, numHot, m - 1) + (if hashtable[m - 1] == NULL then 0 else |Bits(m - 1, numHot)|)
  }

  /** The lookup shortcut for small masks points at the child it stands for. */
  ghost predicate FastSound(fast: map<(nat, nat), int>, sh: Shape, numHot: nat) {
    forall e :: e in fast ==> FastEntry(fast[e], e, sh, numHot)
  }

  ghost predicate FastEntry(c: int, e: (nat, nat), sh: Shape, numHot: nat) {
    e.0 < Pow2(numHot) && 0 <= c < |sh.path| && sh.path[c] == Bits(e.0, numHot) + [e.1]
  }

  ghost predicate FastComplete(fast: map<(nat, nat), int>, sh: Shape, numHot: nat) {
    forall m, x :: 0 <= m < Pow2(numHot) && m < FAST_RIGHTSIB_TABLE_SIZE && numHot <= x && (m, x) !in fast
      ==> !HasPath(sh, Bits(m, numHot) + [x])
  }

  const FAST_RIGHTSIB_TABLE_SIZE := 16

  // ---- Growing the tree by one non-hot node ------------------------------------------------------

  lemma KidsGrown(nodes: seq<Fnode>, sh: Shape, p: nat, item: nat, c: nat)
    requires WellFormed(nodes, sh) && p < |nodes|
    ensures IsKid(GrownShape(sh, p, item), c) <==> IsKid(sh, c) || c == |nodes|
  {
    var sh' := GrownShape(sh, p, item);
    var ks := sh.kids[p];
    assert forall x :: x in GrownKids(ks, |nodes|) <==> x in ks || x == |nodes|;
    if IsKid(sh', c) {
      var q :| 0 <= q < |sh'.kids| && c in sh'.kids[q];
      assert q < |nodes|;
      if c != |nodes| { assert c in sh.kids[q]; }
    }
    if IsKid(sh, c) {
      var q :| 0 <= q < |sh.kids| && c in sh.kids[q];
      assert c in sh'.kids[q];
    }
    assert |nodes| in sh'.kids[p];
  }

  lemma KidBound(nodes: seq<Fnode>, sh: Shape, c: nat)
    requires WellFormed(nodes, sh) && IsKid(sh, c)
    ensures c < |nodes|
  {
    var q :| 0 <= q < |sh.kids| && c in sh.kids[q];
    var k :| 0 <= k < |sh.kids[q]| && sh.kids[q][k] == c;
    assert KidOk(nodes, sh, q, k);
  }

  /** A node whose path is p's path and a non-hot item is a child of p with that item. */
  lemma NodeBelow(nodes: seq<Fnode>, sh: Shape, hashtable: seq<int>, numHot: nat, itemno: nat, i: nat, p: nat,
          c: nat, item: nat)
    requires WellFormed(nodes, sh) && PathsOk(nodes, sh, itemno) && Owned(sh, hashtable, numHot, i)
    requires p < |nodes| && c < |nodes| && numHot <= item && sh.path[c] == sh.path[p] + [item]
    ensures c in sh.kids[p] && nodes[c].itemname == item
  {
    assert sh.path[c] != sh.path[0];
    assert PathOk(nodes[c], sh.path[c], itemno) && OwnedAt(sh, hashtable, numHot, i, c);
    KidByPath(nodes, sh, p, c);
  }

  /** If no child of p has the item then no node at all has that path. */
  lemma NoKidNoPath(nodes: seq<Fnode>, sh: Shape, hashtable: seq<int>, numHot: nat, itemno: nat, i: nat, p: nat,
          item: nat)
    requires WellFormed(nodes, sh) && PathsOk(nodes, sh, itemno) && Owned(sh, hashtable, numHot, i)
    requires p < |nodes| && numHot <= item
    requires forall c :: c in sh.kids[p] && c < |nodes| ==> nodes[c].itemname != item
    ensures !HasPath(sh, sh.path[p] + [item])
  {
    if HasPath(sh, sh.path[p] + [item]) {
      var c :| 0 <= c < |sh.path| && sh.path[c] == sh.path[p] + [item];
      NodeBelow(nodes, sh, hashtable, numHot, itemno, i, p, c, item);
    }
  }

  lemma HashGrown(hashtable: seq<int>, sh: Shape, numHot: nat, p: nat, item: nat)
    requires p < |sh.path| == |sh.kids| && HashOk(hashtable, sh, numHot)
    ensures HashOk(hashtable, GrownShape(sh, p, item), numHot)
  {
    forall m | 0 <= m < Pow2(numHot) ensures HashEntry(hashtable[m], GrownShape(sh, p, item), m, numHot) {
      assert HashEntry(hashtable[m], sh, m, numHot);
    }
  }

  lemma HashBounds(hashtable: seq<int>, sh: Shape, numHot: nat, c: nat)
    requires HashOk(hashtable, sh, numHot) && InHash(hashtable, c)
    ensures c < |sh.path|
  {
    var m :| 0 <= m < |hashtable| && hashtable[m] == c;
    assert m < Pow2(numHot);
    assert HashEntry(hashtable[m], sh, m, numHot);
  }

  lemma OwnedGrown(nodes: seq<Fnode>, sh: Shape, hashtable: seq<int>, numHot: nat, i: nat, p: nat, item: nat)
    requires WellFormed(nodes, sh) && p < |nodes| && numHot <= item
    requires HashOk(hashtable, sh, numHot) && Owned(sh, hashtable, numHot, i)
    ensures Owned(GrownShape(sh, p, item), hashtable, numHot, i)
  {
    var sh' := GrownShape(sh, p, item);
    forall c | 0 < c < |sh'.path| ensures OwnedAt(sh', hashtable, numHot, i, c) {
      KidsGrown(nodes, sh, p, item, c);
      if c < |nodes| {
        assert OwnedAt(sh, hashtable, numHot, i, c);
      } else if InHash(hashtable, c) {
        HashBounds(hashtable, sh, numHot, c);
      }
    }
  }

  lemma PathsGrown(nodes: seq<Fnode>, sh: Shape, itemno: nat, p: nat, item: nat, count: nat)
    requires WellFormed(nodes, sh) && PathsOk(nodes, sh, itemno) && p < |nodes|
    requires Ascending(sh.path[p] + [item]) && Below(sh.path[p] + [item], itemno)
    ensures nodes[p].leftchild == NULL || 0 <= nodes[p].leftchild < |nodes|
    ensures PathsOk(WithChild(nodes, p, item, count), GrownShape(sh, p, item), itemno)
  {
    FirstChild(nodes, sh, p);
    var nodes' := WithChild(nodes, p, item, count);
    forall c | 0 < c < |nodes'| ensures PathOk(nodes'[c], GrownShape(sh, p, item).path[c], itemno) {
      if c < |nodes| { assert PathOk(nodes[c], sh.path[c], itemno); }
    }
  }

  lemma HasPathGrown(sh: Shape, p: nat, item: nat, path: seq<nat>)
    requires p < |sh.path| == |sh.kids|
    ensures HasPath(GrownShape(sh, p, item), path) <==> HasPath(sh, path) || path == sh.path[p] + [item]
  {
    var sh' := GrownShape(sh, p, item);
    if HasPath(sh, path) {
      var c :| 0 <= c < |sh.path| && sh.path[c] == path;
      assert sh'.path[c] == path;
    }
    assert sh'.path[|sh.path|] == sh.path[p] + [item];
  }

  lemma CoverGrown(log: seq<HotRow>, sh: Shape, hashtable: seq<int>, numHot: nat, i: nat, p: nat, item: nat)
    requires p < |sh.path| == |sh.kids|
    requires forall k :: 0 <= k < |log| ==> log[k].mask < Pow2(numHot)
    requires CoverAll(log, sh, hashtable, numHot, i)
    ensures CoverAll(log, GrownShape(sh, p, item), hashtable, numHot, i)
  {
    var sh' := GrownShape(sh, p, item);
    forall k | 0 <= k < |log| ensures CoverAt(log[k], sh', hashtable, numHot, i) {
      assert CoverAt(log[k], sh, hashtable, numHot, i);
      forall path | HasPath(sh, path) ensures HasPath(sh', path) { HasPathGrown(sh, p, item, path); }
    }
  }

  lemma UsedGrown(nodes: seq<Fnode>, sh: Shape, rows: seq<Row>, p: nat, item: nat)
    requires WellFormed(nodes, sh) && p < |nodes| && Used(sh, rows) && UsedAt(sh.path[p] + [item], rows)
    ensures Used(GrownShape(sh, p, item), rows)
  {
    var sh' := GrownShape(sh, p, item);
    forall c | 0 <= c < |sh'.path| && IsKid(sh', c) ensures UsedAt(sh'.path[c], rows) {
      KidsGrown(nodes, sh, p, item, c);
      if c < |sh.path| { assert UsedAt(sh.path[c], rows); }
    }
  }

  lemma CountsGrown(nodes: seq<Fnode>, sh: Shape, rows: seq<Row>, p: nat, item: nat, count: nat)
    requires WellFormed(nodes, sh) && Counts(nodes, sh, rows) && p < |nodes|
    requires count == PrefixWeight(rows, sh.path[p] + [item])
    ensures nodes[p].leftchild == NULL || 0 <= nodes[p].leftchild < |nodes|
    ensures Counts(WithChild(nodes, p, item, count), GrownShape(sh, p, item), rows)
  {
    FirstChild(nodes, sh, p);
    var nodes', sh' := WithChild(nodes, p, item, count), GrownShape(sh, p, item);
    forall c | 0 <= c < |nodes'| && IsKid(sh', c) ensures CountAt(nodes'[c], sh'.path[c], rows) {
      KidsGrown(nodes, sh, p, item, c);
      if c < |nodes| { assert CountAt(nodes[c], sh.path[c], rows); }
    }
  }

  lemma MemberGrown(nodes: seq<Fnode>, sh: Shape, p: nat, item: nat, count: nat, x: nat, c: nat)
    requires WellFormed(nodes, sh) && p < |nodes|
    ensures nodes[p].leftchild == NULL || 0 <= nodes[p].leftchild < |nodes|
    ensures c in KidsOf(WithChild(nodes, p, item, count), GrownShape(sh, p, item), x)
       <==> c in KidsOf(nodes, sh, x) || (c == |nodes| && x == item)
  {
    FirstChild(nodes, sh, p);
    KidsGrown(nodes, sh, p, item, c);
    if IsKid(sh, c) { KidBound(nodes, sh, c); }
    if c < |nodes| { assert WithChild(nodes, p, item, count)[c].itemname == nodes[c].itemname; }
  }

  lemma KidsOfGrown(nodes: seq<Fnode>, sh: Shape, p: nat, item: nat, count: nat, x: nat)
    requires WellFormed(nodes, sh) && p < |nodes|
    ensures nodes[p].leftchild == NULL || 0 <= nodes[p].leftchild < |nodes|
    ensures |KidsOf(WithChild(nodes, p, item, count), GrownShape(sh, p, item), x)|
         == |KidsOf(nodes, sh, x)| + (if x == item then 1 else 0)
  {
    FirstChild(nodes, sh, p);
    var before, after := KidsOf(nodes, sh, x), KidsOf(WithChild(nodes, p, item, count), GrownShape(sh, p, item), x);
    forall c: nat ensures c in after <==> c in before || (c == |nodes| && x == item) {
      MemberGrown(nodes, sh, p, item, count, x, c);
    }
    assert |nodes| !in before;
    assert after == before + (if x == item then {|nodes|} else {});
  }

  lemma NodeNumsGrown(nodenum: seq<nat>, nodes: seq<Fnode>, sh: Shape, p: nat, item: nat, count: nat)
    requires WellFormed(nodes, sh) && NodeNums(nodenum, nodes, sh) && p < |nodes| && item < |nodenum|
    ensures nodes[p].leftchild == NULL || 0 <= nodes[p].leftchild < |nodes|
    ensures NodeNums(nodenum[item := nodenum[item] + 1], WithChild(nodes, p, item, count), GrownShape(sh, p, item))
  {
    FirstChild(nodes, sh, p);
    forall x | 0 <= x < |nodenum|
      ensures |KidsOf(WithChild(nodes, p, item, count), GrownShape(sh, p, item), x)|
                == nodenum[item := nodenum[item] + 1][x]
    {
      KidsOfGrown(nodes, sh, p, item, count, x);
    }
  }

  lemma FastGrown(fast: map<(nat, nat), int>, sh: Shape, numHot: nat, p: nat, item: nat)
    requires p < |sh.path| == |sh.kids|
    requires FastSound(fast, sh, numHot) && FastComplete(fast, sh, numHot)
    requires forall m, x :: 0 <= m < Pow2(numHot) && m < FAST_RIGHTSIB_TABLE_SIZE && numHot <= x && (m, x) !in fast
               ==> sh.path[p] + [item] != Bits(m, numHot) + [x]
    ensures FastSound(fast, GrownShape(sh, p, item), numHot) && FastComplete(fast, GrownShape(sh, p, item), numHot)
  {
    var sh' := GrownShape(sh, p, item);
    forall e | e in fast ensures FastEntry(fast[e], e, sh', numHot) {
      assert FastEntry(fast[e], e, sh, numHot);
    }
    forall m, x | 0 <= m < Pow2(numHot) && m < FAST_RIGHTSIB_TABLE_SIZE && numHot <= x && (m, x) !in fast
      ensures !HasPath(sh', Bits(m, numHot) + [x])
    {
      HasPathGrown(sh, p, item, Bits(m, numHot) + [x]);
    }
  }

  // ---- Counts along the path of one insertion ----------------------------------------------------

  ghost function Top(numHot: nat): nat {
    Pow2(numHot) - 1
  }

  lemma {:induction false} ValueBelow(ids: seq<nat>, n: nat)
    requires Ascending(ids) && Below(ids, n)
    ensures Value(ids) < Pow2(n)
  {
    if ids != [] {
      var x := ids[|ids| - 1];
      ValueBelow(ids[..|ids| - 1], x);
      Pow2Monotone(x + 1, n);
    }
  }

  lemma {:induction false} Pow2Monotone(a: nat, b: nat)
    requires a <= b
    ensures Pow2(a) <= Pow2(b)
  {
    if a < b { Pow2Monotone(a, b - 1); }
  }

  /** While the table is being filled no child is hot. */
  lemma KidNotHot(nodes: seq<Fnode>, sh: Shape, hashtable: seq<int>, numHot: nat, itemno: nat, c: nat)
    requires PathsOk(nodes, sh, itemno) && Owned(sh, hashtable, numHot, Top(numHot))
    requires 0 < c < |nodes| && IsKid(sh, c)
    ensures !Hot(sh.path[c], numHot)
  {
    assert OwnedAt(sh, hashtable, numHot, Top(numHot), c);
    assert PathOk(nodes[c], sh.path[c], itemno);
    if Hot(sh.path[c], numHot) { ValueBelow(sh.path[c], numHot); }
  }

  /** A non-hot prefix of an inserted row has a node. */
  lemma CoveredPrefix(log: seq<HotRow>, sh: Shape, hashtable: seq<int>, numHot: nat, itemno: nat, k: nat,
          path: seq<nat>)
    requires LogOk(log, numHot, itemno) && CoverAll(log, sh, hashtable, numHot, Top(numHot))
    requires k < |log| && path <= Ids(log[k], numHot) && !Hot(path, numHot)
    ensures HasPath(sh, path)
  {
    var r := log[k];
    assert CoverAt(r, sh, hashtable, numHot, Top(numHot));
    BitsAscending(r.mask, numHot);
    assert path == Ids(r, numHot)[..|path|];
    assert path[|path| - 1] == Ids(r, numHot)[|path| - 1];
  }

  ghost predicate Touched(path: seq<nat>, base: seq<nat>, rest: seq<nat>, i: nat) {
    |base| < |path| <= |base| + i && path <= base + rest
  }

  /** The counts after walking i steps down the path of an insertion. */
  ghost predicate Bumped(before: seq<Fnode>, after: seq<Fnode>, sh: Shape, base: seq<nat>, rest: seq<nat>, i: nat,
          counts: nat) {
    && SameLinks(before, after) && |before| == |sh.path|
    && forall c :: 0 <= c < |before| ==> BumpedAt(before[c], after[c], sh.path[c], base, rest, i, counts)
  }

  ghost predicate BumpedAt(before: Fnode, after: Fnode, path: seq<nat>, base: seq<nat>, rest: seq<nat>, i: nat,
          counts: nat) {
    after.count == before.count + (if Touched(path, base, rest, i) then counts else 0)
  }

  lemma BumpStep(before: seq<Fnode>, after: seq<Fnode>, sh: Shape, base: seq<nat>, rest: seq<nat>, i: nat,
          counts: nat, c: nat)
    requires WellFormed(before, sh) && Bumped(before, after, sh, base, rest, i, counts)
    requires i < |rest| && c < |after| && sh.path[c] == base + rest[..i + 1]
    ensures Bumped(before, after[c := after[c].(count := after[c].count + counts)], sh, base, rest, i + 1, counts)
  {
    var next := after[c := after[c].(count := after[c].count + counts)];
    assert (base + rest)[..|base| + i + 1] == base + rest[..i + 1];
    forall d | 0 <= d < |before|
      ensures BumpedAt(before[d], next[d], sh.path[d], base, rest, i + 1, counts) && SameNode(before[d], next[d])
    {
      assert BumpedAt(before[d], after[d], sh.path[d], base, rest, i, counts) && SameNode(before[d], after[d]);
      if Touched(sh.path[d], base, rest, i + 1) && |sh.path[d]| == |base| + i + 1 {
        assert sh.path[d] == (base + rest)[..|base| + i + 1];
        SamePath(sh, c, d);
      }
    }
  }

  /** When the walk has stopped, the children's counts are right for the database with the row added. */
  lemma BumpedCounts(before: seq<Fnode>, after: seq<Fnode>, sh: Shape, hashtable: seq<int>, numHot: nat, itemno: nat,
                     log: seq<HotRow>, r: HotRow, i: nat)
    requires WellFormed(before, sh) && PathsOk(before, sh, itemno) && Owned(sh, hashtable, numHot, Top(numHot))
    requires LogOk(log, numHot, itemno) && RowOk(r, numHot, itemno)
    requires Used(sh, Rows(log, numHot, itemno)) && CoverAll(log, sh, hashtable, numHot, Top(numHot))
    requires Counts(before, sh, Rows(log, numHot, itemno))
    requires Bumped(before, after, sh, Bits(r.mask, numHot), r.rest, i, r.weight)
    requires i <= |r.rest|
    requires i < |r.rest| ==> !HasPath(sh, Bits(r.mask, numHot) + r.rest[..i + 1])
    ensures LogOk(log + [r], numHot, itemno)
    ensures Counts(after, sh, Rows(log + [r], numHot, itemno))
  {
    RowsAppend(log, r, numHot, itemno);
    var rows, row := Rows(log, numHot, itemno), Row(Ids(r, numHot), r.weight);
    forall c | 0 <= c < |after| && IsKid(sh, c) ensures CountAt(after[c], sh.path[c], rows + [row]) {
      assert CountAt(before[c], sh.path[c], rows);
      assert BumpedAt(before[c], after[c], sh.path[c], Bits(r.mask, numHot), r.rest, i, r.weight);
      PrefixWeightAppend(rows, row, sh.path[c]);
      KidIsNotRoot(before, sh, c);
      assert UsedAt(sh.path[c], rows);
      KidNotHot(before, sh, hashtable, numHot, itemno, c);
      TouchedExactly(before, sh, hashtable, numHot, itemno, log, r, i, c);
    }
  }

  lemma KidIsNotRoot(nodes: seq<Fnode>, sh: Shape, c: nat)
    requires WellFormed(nodes, sh) && IsKid(sh, c)
    ensures c > 0
  {
    var q :| 0 <= q < |sh.kids| && c in sh.kids[q];
    var k :| 0 <= k < |sh.kids[q]| && sh.kids[q][k] == c;
    assert KidOk(nodes, sh, q, k);
    assert sh.path[c] != sh.path[0];
  }

  lemma TouchedExactly(nodes: seq<Fnode>, sh: Shape, hashtable: seq<int>, numHot: nat, itemno: nat,
                       log: seq<HotRow>, r: HotRow, i: nat, c: nat)
    requires LogOk(log, numHot, itemno) && RowOk(r, numHot, itemno)
    requires 0 < c < |sh.path| && UsedAt(sh.path[c], Rows(log, numHot, itemno)) && !Hot(sh.path[c], numHot)
    requires CoverAll(log, sh, hashtable, numHot, Top(numHot))
    requires i <= |r.rest|
    requires i < |r.rest| ==> !HasPath(sh, Bits(r.mask, numHot) + r.rest[..i + 1])
    ensures sh.path[c] <= Ids(r, numHot) <==> Touched(sh.path[c], Bits(r.mask, numHot), r.rest, i)
  {
    var base, path := Bits(r.mask, numHot), sh.path[c];
    if path <= Ids(r, numHot) {
      BitsAscending(r.mask, numHot);
      assert path[|path| - 1] == Ids(r, numHot)[|path| - 1];
      if |path| > |base| + i { BeyondStop(log, sh, hashtable, numHot, itemno, r, i, path); }
    }
  }

  /** A path of an earlier row that reaches beyond the first i items shows that those have a node. */
  lemma BeyondStop(log: seq<HotRow>, sh: Shape, hashtable: seq<int>, numHot: nat, itemno: nat, r: HotRow, i: nat,
                   path: seq<nat>)
    requires LogOk(log, numHot, itemno) && RowOk(r, numHot, itemno)
    requires CoverAll(log, sh, hashtable, numHot, Top(numHot)) && UsedAt(path, Rows(log, numHot, itemno))
    requires path <= Ids(r, numHot) && |path| > |Bits(r.mask, numHot)| + i
    ensures i < |r.rest| && HasPath(sh, Bits(r.mask, numHot) + r.rest[..i + 1])
  {
    var base := Bits(r.mask, numHot);
    var k :| 0 <= k < |log| && path <= Rows(log, numHot, itemno)[k].ids;
    var front := base + r.rest[..i + 1];
    assert front == Ids(r, numHot)[..|base| + i + 1] == path[..|base| + i + 1];
    assert front[|front| - 1] == r.rest[i];
    CoveredPrefix(log, sh, hashtable, numHot, itemno, k, front);
  }

  /** A path without a node is the start of no row inserted so far. */
  lemma {:induction false} NoPathNoWeight(log: seq<HotRow>, sh: Shape, hashtable: seq<int>, numHot: nat, itemno: nat,
          path: seq<nat>)
    requires LogOk(log, numHot, itemno) && CoverAll(log, sh, hashtable, numHot, Top(numHot))
    requires !Hot(path, numHot) && !HasPath(sh, path)
    ensures PrefixWeight(Rows(log, numHot, itemno), path) == 0
  {
    if log != [] {
      var front := log[..|log| - 1];
      forall k | 0 <= k < |front| ensures CoverAt(front[k], sh, hashtable, numHot, Top(numHot)) {
        assert CoverAt(log[k], sh, hashtable, numHot, Top(numHot));
      }
      NoPathNoWeight(front, sh, hashtable, numHot, itemno, path);
      if path <= Ids(log[|log| - 1], numHot) {
        CoveredPrefix(log, sh, hashtable, numHot, itemno, |log| - 1, path);
      }
    }
  }

  // ---- A new hot node in the table ---------------------------------------------------------------

  ghost function WithHot(sh: Shape, m: nat, numHot: nat): Shape
    requires m < Pow2(numHot)
  {
    Shape(sh.path + [Bits(m, numHot)], sh.kids + [[]])
  }

  function HotNode(m: nat, numHot: nat): Fnode
    requires 0 < m < Pow2(numHot)
  {
    Fnode(TopBit(m, numHot), 0, NULL, NULL)
  }

  lemma HotBits(m: nat, numHot: nat)
    requires m < Pow2(numHot)
    ensures Hot(Bits(m, numHot), numHot)
    ensures m > 0 ==> Bits(m, numHot) != []
  {
    BitsAscending(m, numHot);
    if m > 0 { BitsOfParent(m, numHot); }
  }

  lemma NoHotNode(sh: Shape, hashtable: seq<int>, numHot: nat, i: nat, m: nat)
    requires HashOk(hashtable, sh, numHot) && Owned(sh, hashtable, numHot, i)
    requires |sh.path| > 0 && sh.path[0] == []
    requires 0 < m < Pow2(numHot) && m <= i && hashtable[m] == NULL
    ensures !HasPath(sh, Bits(m, numHot))
  {
    if HasPath(sh, Bits(m, numHot)) {
      var c :| 0 <= c < |sh.path| && sh.path[c] == Bits(m, numHot);
      HotBits(m, numHot);
      assert OwnedAt(sh, hashtable, numHot, i, c);
      ValueOfBits(m, numHot);
      assert InHash(hashtable, c);
      var m' :| 0 <= m' < |hashtable| && hashtable[m'] == c;
      assert HashEntry(hashtable[m'], sh, m', numHot);
      BitsInjective(m, m', numHot);
    }
  }

  lemma HotGrownWellFormed(nodes: seq<Fnode>, sh: Shape, numHot: nat, m: nat)
    requires WellFormed(nodes, sh) && 0 < m < Pow2(numHot)
    requires !HasPath(sh, Bits(m, numHot))
    ensures WellFormed(nodes + [HotNode(m, numHot)], WithHot(sh, m, numHot))
  {
    var nodes', sh' := nodes + [HotNode(m, numHot)], WithHot(sh, m, numHot);
    forall p | 0 <= p < |nodes'| ensures FirstOk(nodes', sh', p) {
      if p < |nodes| { assert FirstOk(nodes, sh, p); }
    }
    forall p, k | 0 <= p < |nodes'| && 0 <= k < |sh'.kids[p]| ensures KidOk(nodes', sh', p, k) {
      assert KidOk(nodes, sh, p, k);
    }
  }

  lemma HotGrownIsKid(sh: Shape, numHot: nat, m: nat, c: nat)
    requires m < Pow2(numHot)
    ensures IsKid(WithHot(sh, m, numHot), c) <==> IsKid(sh, c)
  {
    var sh' := WithHot(sh, m, numHot);
    if IsKid(sh, c) {
      var q :| 0 <= q < |sh.kids| && c in sh.kids[q];
      assert c in sh'.kids[q];
    }
  }

  lemma HotGrownPaths(nodes: seq<Fnode>, sh: Shape, itemno: nat, numHot: nat, m: nat)
    requires PathsOk(nodes, sh, itemno) && 0 < m < Pow2(numHot) && numHot <= itemno
    ensures PathsOk(nodes + [HotNode(m, numHot)], WithHot(sh, m, numHot), itemno)
  {
    var nodes', sh' := nodes + [HotNode(m, numHot)], WithHot(sh, m, numHot);
    forall c | 0 < c < |nodes'| ensures PathOk(nodes'[c], sh'.path[c], itemno) {
      if c < |nodes| {
        assert PathOk(nodes[c], sh.path[c], itemno);
      } else {
        BitsAscending(m, numHot);
        BitsOfParent(m, numHot);
      }
    }
  }

  lemma HotGrownHash(hashtable: seq<int>, sh: Shape, numHot: nat, m: nat)
    requires HashOk(hashtable, sh, numHot) && 0 < m < Pow2(numHot)
    ensures HashOk(hashtable[m := |sh.path|], WithHot(sh, m, numHot), numHot)
  {
    var h', sh' := hashtable[m := |sh.path|], WithHot(sh, m, numHot);
    forall x | 0 <= x < Pow2(numHot) ensures HashEntry(h'[x], sh', x, numHot) {
      assert HashEntry(hashtable[x], sh, x, numHot);
    }
  }

  lemma HotGrownOwned(nodes: seq<Fnode>, sh: Shape, hashtable: seq<int>, numHot: nat, i: nat, m: nat)
    requires WellFormed(nodes, sh) && HashOk(hashtable, sh, numHot) && Owned(sh, hashtable, numHot, i)
    requires 0 < m < Pow2(numHot) && hashtable[m] == NULL
    ensures Owned(WithHot(sh, m, numHot), hashtable[m := |sh.path|], numHot, i)
  {
    var sh', h' := WithHot(sh, m, numHot), hashtable[m := |sh.path|];
    forall c | 0 < c < |sh'.path| ensures OwnedAt(sh', h', numHot, i, c) {
      HotGrownIsKid(sh, numHot, m, c);
      if c < |sh.path| {
        assert OwnedAt(sh, hashtable, numHot, i, c);
        if InHash(hashtable, c) {
          var x :| 0 <= x < |hashtable| && hashtable[x] == c;
          assert h'[x] == c;
        }
        if InHash(h', c) {
          var x :| 0 <= x < |h'| && h'[x] == c;
          assert hashtable[x] == c;
        }
      } else {
        assert h'[m] == c;
        if IsKid(sh, c) { KidBound(nodes, sh, c); }
        HotBits(m, numHot);
      }
    }
  }

  lemma HotGrownCover(log: seq<HotRow>, sh: Shape, hashtable: seq<int>, numHot: nat, i: nat, m: nat, e: int)
    requires m < Pow2(numHot) && m < |hashtable| && e != NULL
    requires forall k :: 0 <= k < |log| ==> log[k].mask < Pow2(numHot)
    requires CoverAll(log, sh, hashtable, numHot, i)
    ensures CoverAll(log, WithHot(sh, m, numHot), hashtable[m := e], numHot, i)
  {
    var sh' := WithHot(sh, m, numHot);
    forall k | 0 <= k < |log| ensures CoverAt(log[k], sh', hashtable[m := e], numHot, i) {
      assert CoverAt(log[k], sh, hashtable, numHot, i);
      forall path | HasPath(sh, path) ensures HasPath(sh', path) {
        var c :| 0 <= c < |sh.path| && sh.path[c] == path;
        assert sh'.path[c] == path;
      }
    }
  }

  lemma HotGrownCounts(nodes: seq<Fnode>, sh: Shape, rows: seq<Row>, numHot: nat, m: nat)
    requires WellFormed(nodes, sh) && Counts(nodes, sh, rows) && 0 < m < Pow2(numHot)
    ensures Counts(nodes + [HotNode(m, numHot)], WithHot(sh, m, numHot), rows)
  {
    var nodes', sh' := nodes + [HotNode(m, numHot)], WithHot(sh, m, numHot);
    forall c | 0 <= c < |nodes'| && IsKid(sh', c) ensures CountAt(nodes'[c], sh'.path[c], rows) {
      HotGrownIsKid(sh, numHot, m, c);
      KidBound(nodes, sh, c);
      assert CountAt(nodes[c], sh.path[c], rows);
    }
  }

  lemma HotGrownNodeNums(nodenum: seq<nat>, nodes: seq<Fnode>, sh: Shape, numHot: nat, m: nat)
    requires WellFormed(nodes, sh) && NodeNums(nodenum, nodes, sh) && 0 < m < Pow2(numHot)
    ensures NodeNums(nodenum, nodes + [HotNode(m, numHot)], WithHot(sh, m, numHot))
  {
    var nodes', sh' := nodes + [HotNode(m, numHot)], WithHot(sh, m, numHot);
    forall x | 0 <= x < |nodenum| ensures nodenum[x] == |KidsOf(nodes', sh', x)| {
      forall c: nat ensures c in KidsOf(nodes', sh', x) <==> c in KidsOf(nodes, sh, x) {
        HotGrownIsKid(sh, numHot, m, c);
        if IsKid(sh, c) { KidBound(nodes, sh, c); }
      }
      assert KidsOf(nodes', sh', x) == KidsOf(nodes, sh, x);
    }
  }

  lemma HotGrownUsed(nodes: seq<Fnode>, sh: Shape, rows: seq<Row>, numHot: nat, m: nat)
    requires WellFormed(nodes, sh) && m < Pow2(numHot) && Used(sh, rows)
    ensures Used(WithHot(sh, m, numHot), rows)
  {
    var sh' := WithHot(sh, m, numHot);
    forall c | 0 <= c < |sh'.path| && IsKid(sh', c) ensures UsedAt(sh'.path[c], rows) {
      HotGrownIsKid(sh, numHot, m, c);
      KidBound(nodes, sh, c);
      assert UsedAt(sh.path[c], rows);
    }
  }

  lemma HotGrownFast(fast: map<(nat, nat), int>, sh: Shape, numHot: nat, m: nat)
    requires m < Pow2(numHot) && FastSound(fast, sh, numHot) && FastComplete(fast, sh, numHot)
    ensures FastSound(fast, WithHot(sh, m, numHot), numHot) && FastComplete(fast, WithHot(sh, m, numHot), numHot)
  {
    var sh' := WithHot(sh, m, numHot);
    forall e | e in fast ensures FastEntry(fast[e], e, sh', numHot) {
      assert FastEntry(fast[e], e, sh, numHot);
    }
    HotBits(m, numHot);
    forall b, x | 0 <= b < Pow2(numHot) && b < FAST_RIGHTSIB_TABLE_SIZE && numHot <= x && (b, x) !in fast
      ensures !HasPath(sh', Bits(b, numHot) + [x])
    {
      var path := Bits(b, numHot) + [x];
      assert path[|path| - 1] == x;
      assert path != Bits(m, numHot);
      forall c | 0 <= c < |sh'.path| ensures sh'.path[c] != path {
        if c < |sh.path| { assert sh.path[c] == sh'.path[c]; }
      }
    }
  }

  lemma {:induction false} HotDebtUpdate(hashtable: seq<int>, numHot: nat, m: nat, e: int, upto: nat)
    requires upto <= Pow2(numHot) <= |hashtable| && 0 < m < Pow2(numHot)
    ensures HotDebt(hashtable[m := e], numHot, upto)
            + (if m < upto && hashtable[m] != NULL then |Bits(m, numHot)| else 0)
         == HotDebt(hashtable, numHot, upto) + (if m < upto && e != NULL then |Bits(m, numHot)| else 0)
  {
    if upto > 1 { HotDebtUpdate(hashtable, numHot, m, e, upto - 1); }
  }

  lemma HotGrownDebt(sh: Shape, hashtable: seq<int>, numHot: nat, m: nat, newDataNum: nat)
    requires |sh.path| == |sh.kids|
    requires Pow2(numHot) <= |hashtable| && 0 < m < Pow2(numHot) && hashtable[m] == NULL
    requires newDataNum + HotDebt(hashtable, numHot, Pow2(numHot)) == LeafDepths(sh.path, sh.kids)
    ensures var sh' := WithHot(sh, m, numHot);
            newDataNum + HotDebt(hashtable[m := |sh.path|], numHot, Pow2(numHot)) == LeafDepths(sh'.path, sh'.kids)
  {
    var sh' := WithHot(sh, m, numHot);
    HotDebtUpdate(hashtable, numHot, m, |sh.path|, Pow2(numHot));
    assert sh'.path[..|sh.path|] == sh.path && sh'.kids[..|sh.kids|] == sh.kids;
  }

  ghost predicate ChainHas(sh: Shape, base: seq<nat>, rest: seq<nat>, i: nat) {
    i <= |rest| && forall j :: 0 < j <= i ==> HasPath(sh, base + rest[..j])
  }

  /** The new row is covered once the whole chain has nodes. */
  lemma NewRowCovered(log: seq<HotRow>, r: HotRow, sh: Shape, hashtable: seq<int>, numHot: nat, itemno: nat)
    requires LogOk(log, numHot, itemno) && RowOk(r, numHot, itemno)
    requires CoverAll(log, sh, hashtable, numHot, Top(numHot))
    requires r.mask < |hashtable| && hashtable[r.mask] != NULL
    requires ChainHas(sh, Bits(r.mask, numHot), r.rest, |r.rest|)
    ensures LogOk(log + [r], numHot, itemno)
    ensures CoverAll(log + [r], sh, hashtable, numHot, Top(numHot))
  {
    var base := Bits(r.mask, numHot);
    forall j | |base| < j <= |Ids(r, numHot)| ensures HasPath(sh, Ids(r, numHot)[..j]) {
      assert Ids(r, numHot)[..j] == base + r.rest[..j - |base|];
    }
    assert CoverAt(r, sh, hashtable, numHot, Top(numHot));
    forall k | 0 <= k < |log + [r]| ensures CoverAt((log + [r])[k], sh, hashtable, numHot, Top(numHot)) {
      if k < |log| { assert CoverAt(log[k], sh, hashtable, numHot, Top(numHot)); }
    }
  }

  lemma UsedAtMore(path: seq<nat>, rows: seq<Row>, row: Row)
    ensures UsedAt(path, rows) || path <= row.ids ==> UsedAt(path, rows + [row])
  {
    var all := rows + [row];
    if UsedAt(path, rows) {
      var k :| 0 <= k < |rows| && path <= rows[k].ids;
      assert path <= all[k].ids;
    } else if path <= row.ids {
      assert path <= all[|rows|].ids;
    }
  }

  lemma UsedMore(sh: Shape, rows: seq<Row>, row: Row)
    requires Used(sh, rows)
    ensures Used(sh, rows + [row])
  {
    forall c | 0 <= c < |sh.path| && IsKid(sh, c) ensures UsedAt(sh.path[c], rows + [row]) {
      UsedAtMore(sh.path[c], rows, row);
    }
  }

  lemma HashUsedMore(hashtable: seq<int>, numHot: nat, rows: seq<Row>, row: Row, m: nat, e: int)
    requires HashUsed(hashtable, numHot, rows) && m < Pow2(numHot) <= |hashtable|
    requires Bits(m, numHot) <= row.ids
    ensures HashUsed(hashtable[m := e], numHot, rows + [row])
  {
    forall b | 1 <= b < Pow2(numHot) && hashtable[m := e][b] != NULL ensures UsedAt(Bits(b, numHot), rows + [row]) {
      UsedAtMore(Bits(b, numHot), rows, row);
    }
  }

  lemma SameLinksPaths(a: seq<Fnode>, b: seq<Fnode>, sh: Shape, itemno: nat)
    requires PathsOk(a, sh, itemno) && SameLinks(a, b)
    ensures PathsOk(b, sh, itemno)
  {
    forall c | 0 < c < |b| ensures PathOk(b[c], sh.path[c], itemno) {
      assert PathOk(a[c], sh.path[c], itemno) && SameNode(a[c], b[c]);
    }
  }

  lemma SameLinksNodeNums(nodenum: seq<nat>, a: seq<Fnode>, b: seq<Fnode>, sh: Shape)
    requires NodeNums(nodenum, a, sh) && SameLinks(a, b)
    ensures NodeNums(nodenum, b, sh)
  {
    forall x | 0 <= x < |nodenum| ensures nodenum[x] == |KidsOf(b, sh, x)| {
      forall c: nat ensures c in KidsOf(a, sh, x) <==> c in KidsOf(b, sh, x) {
        assert c < |a| ==> SameNode(a[c], b[c]);
      }
      assert KidsOf(a, sh, x) == KidsOf(b, sh, x);
    }
  }

  // ---- The descending sweep over the hot nodes ---------------------------------------------------

  lemma {:induction false} LiftWeightStep(log: seq<HotRow>, numHot: nat, i: nat, m: nat)
    requires forall k :: 0 <= k < |log| ==> log[k].mask < Pow2(numHot)
    requires 0 < i < Pow2(numHot) && m < i
    ensures LiftWeight(log, numHot, i - 1, m)
         == LiftWeight(log, numHot, i, m) + (if m == Parent(i, numHot) then LiftWeight(log, numHot, i, i) else 0)
  {
    if log != [] {
      LiftWeightStep(log[..|log| - 1], numHot, i, m);
      LiftStep(log[|log| - 1].mask, i, numHot);
    }
  }

  /** What has been folded into mask i is the weight of the rows that start with i's bits. */
  lemma {:induction false} LiftWeightIsPrefixWeight(log: seq<HotRow>, numHot: nat, itemno: nat, i: nat)
    requires LogOk(log, numHot, itemno) && 0 < i < Pow2(numHot)
    ensures LiftWeight(log, numHot, i, i) == PrefixWeight(Rows(log, numHot, itemno), Bits(i, numHot))
  {
    if log != [] {
      var front, r := log[..|log| - 1], log[|log| - 1];
      LiftWeightIsPrefixWeight(front, numHot, itemno, i);
      RowsAppend(front, r, numHot, itemno);
      assert log == front + [r];
      PrefixWeightAppend(Rows(front, numHot, itemno), Row(Ids(r, numHot), r.weight), Bits(i, numHot));
      LiftReaches(r.mask, i, numHot);
      HotPrefix(r, numHot, itemno, i);
    }
  }

  lemma HotPrefix(r: HotRow, numHot: nat, itemno: nat, i: nat)
    requires RowOk(r, numHot, itemno) && i < Pow2(numHot)
    ensures Bits(i, numHot) <= Ids(r, numHot) <==> Bits(i, numHot) <= Bits(r.mask, numHot)
  {
    var b, be := Bits(i, numHot), Bits(r.mask, numHot);
    BitsAscending(i, numHot);
    if b <= Ids(r, numHot) {
      assert At(b, |be|) < numHot;
      assert b == Ids(r, numHot)[..|b|];
      assert At(b, |be|) == At(Ids(r, numHot)[..|b|], |be|);
    }
  }

  lemma {:induction false} NothingToLift(log: seq<HotRow>, sh: Shape, hashtable: seq<int>, numHot: nat, i: nat)
    requires forall k :: 0 <= k < |log| ==> log[k].mask < Pow2(numHot)
    requires CoverAll(log, sh, hashtable, numHot, i)
    requires i < |hashtable| && hashtable[i] == NULL
    ensures LiftWeight(log, numHot, i, i) == 0
  {
    if log != [] {
      var front := log[..|log| - 1];
      forall k | 0 <= k < |front| ensures CoverAt(front[k], sh, hashtable, numHot, i) {
        assert CoverAt(log[k], sh, hashtable, numHot, i);
      }
      NothingToLift(front, sh, hashtable, numHot, i);
      assert CoverAt(log[|log| - 1], sh, hashtable, numHot, i);
    }
  }

  /** A mask without a table node is passed over. */
  lemma SkipMask(log: seq<HotRow>, sh: Shape, hashtable: seq<int>, hotCount: seq<nat>, numHot: nat, i: nat)
    requires forall k :: 0 <= k < |log| ==> log[k].mask < Pow2(numHot)
    requires CoverAll(log, sh, hashtable, numHot, i) && HotCounts(hotCount, log, numHot, i)
    requires Owned(sh, hashtable, numHot, i)
    requires 0 < i < Pow2(numHot) <= |hashtable| && hashtable[i] == NULL
    ensures CoverAll(log, sh, hashtable, numHot, i - 1) && HotCounts(hotCount, log, numHot, i - 1)
    ensures Owned(sh, hashtable, numHot, i - 1)
  {
    SkipCover(log, sh, hashtable, numHot, i);
    SkipCounts(log, sh, hashtable, hotCount, numHot, i);
    SkipOwned(sh, hashtable, numHot, i);
  }

  lemma SkipCover(log: seq<HotRow>, sh: Shape, hashtable: seq<int>, numHot: nat, i: nat)
    requires forall k :: 0 <= k < |log| ==> log[k].mask < Pow2(numHot)
    requires CoverAll(log, sh, hashtable, numHot, i)
    requires 0 < i < Pow2(numHot) <= |hashtable| && hashtable[i] == NULL
    ensures CoverAll(log, sh, hashtable, numHot, i - 1)
  {
    forall k | 0 <= k < |log| ensures CoverAt(log[k], sh, hashtable, numHot, i - 1) {
      assert CoverAt(log[k], sh, hashtable, numHot, i);
      LiftStep(log[k].mask, i, numHot);
    }
  }

  lemma SkipCounts(log: seq<HotRow>, sh: Shape, hashtable: seq<int>, hotCount: seq<nat>, numHot: nat, i: nat)
    requires forall k :: 0 <= k < |log| ==> log[k].mask < Pow2(numHot)
    requires CoverAll(log, sh, hashtable, numHot, i) && HotCounts(hotCount, log, numHot, i)
    requires 0 < i < Pow2(numHot) <= |hashtable| && hashtable[i] == NULL
    ensures HotCounts(hotCount, log, numHot, i - 1)
  {
    NothingToLift(log, sh, hashtable, numHot, i);
    hide LiftWeight, CoverAll;
    forall m | 1 <= m <= i - 1 && m < |hotCount| ensures hotCount[m] == LiftWeight(log, numHot, i - 1, m) {
      LiftWeightStep(log, numHot, i, m);
    }
  }

  lemma SkipOwned(sh: Shape, hashtable: seq<int>, numHot: nat, i: nat)
    requires Owned(sh, hashtable, numHot, i) && 0 < i < |hashtable| && hashtable[i] == NULL
    ensures Owned(sh, hashtable, numHot, i - 1)
  {
    var i' := i - 1;
    hide InHash, IsKid;
    forall c | 0 < c < |sh.path| ensures OwnedAt(sh, hashtable, numHot, i', c) {
      assert OwnedAt(sh, hashtable, numHot, i, c);
    }
  }

  lemma HotCountsFolded(log: seq<HotRow>, hotCount: seq<nat>, numHot: nat, i: nat)
    requires forall k :: 0 <= k < |log| ==> log[k].mask < Pow2(numHot)
    requires 0 < i < Pow2(numHot) && HotCounts(hotCount, log, numHot, i)
    ensures var p := Parent(i, numHot);
            HotCounts(hotCount[p := hotCount[p] + hotCount[i]][i := 0], log, numHot, i - 1)
  {
    hide LiftWeight, Parent;
    var p := Parent(i, numHot);
    var h' := hotCount[p := hotCount[p] + hotCount[i]][i := 0];
    forall m | 1 <= m <= i - 1 && m < |h'| ensures h'[m] == LiftWeight(log, numHot, i - 1, m) {
      LiftWeightStep(log, numHot, i, m);
    }
  }

  lemma KidsFronted(sh: Shape, p: nat, h: nat, c: nat)
    requires p < |sh.kids|
    ensures IsKid(FrontShape(sh, p, h), c) <==> IsKid(sh, c) || c == h
  {
    var sh' := FrontShape(sh, p, h);
    assert sh'.kids[p] == [h] + sh.kids[p];
    if IsKid(sh', c) && c != h {
      var q :| 0 <= q < |sh'.kids| && c in sh'.kids[q];
      assert c in sh.kids[q];
    }
    if IsKid(sh, c) {
      var q :| 0 <= q < |sh.kids| && c in sh.kids[q];
      assert c in sh'.kids[q];
    }
    assert h in sh'.kids[p];
  }

  /** The situation in which mask i is linked below its parent. */
  ghost predicate Linkable(nodes: seq<Fnode>, sh: Shape, hashtable: seq<int>, numHot: nat, itemno: nat, i: nat,
          p: nat, h: nat) {
    && WellFormed(nodes, sh) && PathsOk(nodes, sh, itemno)
    && HashOk(hashtable, sh, numHot) && Owned(sh, hashtable, numHot, i)
    && 0 < i < Pow2(numHot) && p < |nodes| && h < |nodes|
    && hashtable[i] == h && hashtable[Parent(i, numHot)] == p
  }

  lemma LinkPaths(nodes: seq<Fnode>, sh: Shape, hashtable: seq<int>, numHot: nat, itemno: nat, i: nat, p: nat, h: nat)
    requires Linkable(nodes, sh, hashtable, numHot, itemno, i, p, h)
    ensures sh.path[h] == Bits(i, numHot) == sh.path[p] + [TopBit(i, numHot)]
    ensures nodes[h].itemname == TopBit(i, numHot) && p != h && 0 < h
    ensures !IsKid(sh, h)
  {
    assert HashEntry(hashtable[i], sh, i, numHot);
    assert HashEntry(hashtable[Parent(i, numHot)], sh, Parent(i, numHot), numHot);
    BitsOfParent(i, numHot);
    assert sh.path[h] != sh.path[0];
    assert PathOk(nodes[h], sh.path[h], itemno);
    assert OwnedAt(sh, hashtable, numHot, i, h);
    assert InHash(hashtable, h);
  }

  /** The linked node leaves the table and becomes a child. */
  lemma LinkOwnedHead(nodes: seq<Fnode>, sh: Shape, hashtable: seq<int>, numHot: nat, itemno: nat, i: nat, p: nat,
                      h: nat)
    requires Linkable(nodes, sh, hashtable, numHot, itemno, i, p, h)
    ensures h < |sh.path| && OwnedAt(FrontShape(sh, p, h), hashtable[i := NULL], numHot, i - 1, h)
  {
    hide *;
    LinkPaths(nodes, sh, hashtable, numHot, itemno, i, p, h);
    LinkableFacts(nodes, sh, hashtable, numHot, itemno, i, p, h);
    FrontPaths(sh, p, h);
    KidsFronted(sh, p, h, h);
    ValueOfBits(i, numHot);
    HashOnce(hashtable, sh, numHot, i, h);
    OwnedAsKid(FrontShape(sh, p, h), hashtable[i := NULL], numHot, i - 1, h);
  }

  lemma OwnedAsKid(sh: Shape, hashtable: seq<int>, numHot: nat, i: nat, c: nat)
    requires c < |sh.path| && !InHash(hashtable, c) && IsKid(sh, c) && Value(sh.path[c]) > i
    ensures OwnedAt(sh, hashtable, numHot, i, c)
  {
  }

  lemma HashOnce(hashtable: seq<int>, sh: Shape, numHot: nat, i: nat, h: nat)
    requires HashOk(hashtable, sh, numHot) && 0 < i < Pow2(numHot) && hashtable[i] == h
    ensures !InHash(hashtable[i := NULL], h)
  {
    hide Bits, Pow2;
    if InHash(hashtable[i := NULL], h) {
      var m :| 0 <= m < |hashtable| && hashtable[i := NULL][m] == h;
      assert HashEntry(hashtable[m], sh, m, numHot) && HashEntry(hashtable[i], sh, i, numHot);
      BitsInjective(m, i, numHot);
    }
  }

  /** Every other node stays where it was. */
  lemma LinkOwnedOther(sh: Shape, hashtable: seq<int>, numHot: nat, i: nat, p: nat, h: nat, c: nat)
    requires p < |sh.kids| && 0 < i < |hashtable| && hashtable[i] == h && c != h && c < |sh.path|
    requires OwnedAt(sh, hashtable, numHot, i, c)
    ensures OwnedAt(FrontShape(sh, p, h), hashtable[i := NULL], numHot, i - 1, c)
  {
    KidsFronted(sh, p, h, c);
    var h' := hashtable[i := NULL];
    if InHash(hashtable, c) {
      var m :| 0 <= m < |hashtable| && hashtable[m] == c;
      assert h'[m] == c;
    }
    if InHash(h', c) {
      var m :| 0 <= m < |h'| && h'[m] == c;
      assert hashtable[m] == c;
    }
  }

  lemma LinkOwned(nodes: seq<Fnode>, sh: Shape, hashtable: seq<int>, numHot: nat, itemno: nat, i: nat, p: nat, h: nat)
    requires Linkable(nodes, sh, hashtable, numHot, itemno, i, p, h)
    ensures Owned(FrontShape(sh, p, h), hashtable[i := NULL], numHot, i - 1)
  {
    hide OwnedAt, Linkable, FrontShape, HashOk, Pow2;
    LinkableFacts(nodes, sh, hashtable, numHot, itemno, i, p, h);
    LinkOwnedHead(nodes, sh, hashtable, numHot, itemno, i, p, h);
    var sh', h', i' := FrontShape(sh, p, h), hashtable[i := NULL], i - 1;
    FrontPaths(sh, p, h);
    forall c | 0 < c < |sh'.path| ensures OwnedAt(sh', h', numHot, i', c) {
      if c != h { LinkOwnedOther(sh, hashtable, numHot, i, p, h, c); }
    }
  }

  lemma LinkableFacts(nodes: seq<Fnode>, sh: Shape, hashtable: seq<int>, numHot: nat, itemno: nat, i: nat, p: nat,
                      h: nat)
    requires Linkable(nodes, sh, hashtable, numHot, itemno, i, p, h)
    ensures Owned(sh, hashtable, numHot, i) && p < |sh.kids| && 0 < i < |hashtable| && hashtable[i] == h
    ensures HashOk(hashtable, sh, numHot) && i < Pow2(numHot) && h < |sh.path|
  {
    hide Owned, Pow2, PathsOk;
  }

  lemma FrontPaths(sh: Shape, p: nat, h: nat)
    requires p < |sh.kids|
    ensures FrontShape(sh, p, h).path == sh.path
  {
  }

  lemma LinkHash(sh: Shape, hashtable: seq<int>, numHot: nat, i: nat, p: nat, h: nat)
    requires HashOk(hashtable, sh, numHot) && 0 < i < Pow2(numHot) && p < |sh.kids|
    ensures HashOk(hashtable[i := NULL], FrontShape(sh, p, h), numHot)
  {
    var h' := hashtable[i := NULL];
    forall m | 0 <= m < Pow2(numHot) ensures HashEntry(h'[m], FrontShape(sh, p, h), m, numHot) {
      assert HashEntry(hashtable[m], sh, m, numHot);
    }
  }

  lemma LinkPathsOk(nodes: seq<Fnode>, sh: Shape, itemno: nat, p: nat, h: nat, count: nat)
    requires PathsOk(nodes, sh, itemno) && p < |nodes| && h < |nodes| && p != h
    ensures PathsOk(WithFront(nodes, p, h, count), FrontShape(sh, p, h), itemno)
  {
    var nodes' := WithFront(nodes, p, h, count);
    forall c | 0 < c < |nodes'| ensures PathOk(nodes'[c], sh.path[c], itemno) {
      assert PathOk(nodes[c], sh.path[c], itemno);
    }
  }

  lemma LinkCounts(nodes: seq<Fnode>, sh: Shape, rows: seq<Row>, p: nat, h: nat, count: nat)
    requires WellFormed(nodes, sh) && Counts(nodes, sh, rows) && p < |nodes| && h < |nodes| && p != h
    requires count == PrefixWeight(rows, sh.path[h])
    ensures Counts(WithFront(nodes, p, h, count), FrontShape(sh, p, h), rows)
  {
    var nodes', sh' := WithFront(nodes, p, h, count), FrontShape(sh, p, h);
    forall c | 0 <= c < |nodes'| && IsKid(sh', c) ensures CountAt(nodes'[c], sh'.path[c], rows) {
      KidsFronted(sh, p, h, c);
      if c != h { assert CountAt(nodes[c], sh.path[c], rows); }
    }
  }

  lemma LinkUsed(sh: Shape, rows: seq<Row>, p: nat, h: nat)
    requires Used(sh, rows) && p < |sh.kids| && h < |sh.path| && UsedAt(sh.path[h], rows)
    ensures Used(FrontShape(sh, p, h), rows)
  {
    var sh' := FrontShape(sh, p, h);
    forall c | 0 <= c < |sh'.path| && IsKid(sh', c) ensures UsedAt(sh'.path[c], rows) {
      KidsFronted(sh, p, h, c);
      if c != h { assert UsedAt(sh.path[c], rows); }
    }
  }

  lemma LinkNodeNums(nodenum: seq<nat>, nodes: seq<Fnode>, sh: Shape, p: nat, h: nat, count: nat)
    requires WellFormed(nodes, sh) && NodeNums(nodenum, nodes, sh) && p < |nodes| && h < |nodes| && p != h
    requires !IsKid(sh, h) && nodes[h].itemname < |nodenum|
    ensures var x := nodes[h].itemname;
            NodeNums(nodenum[x := nodenum[x] + 1], WithFront(nodes, p, h, count), FrontShape(sh, p, h))
  {
    var nodes', sh', x0 := WithFront(nodes, p, h, count), FrontShape(sh, p, h), nodes[h].itemname;
    forall x | 0 <= x < |nodenum| ensures |KidsOf(nodes', sh', x)| == nodenum[x0 := nodenum[x0] + 1][x] {
      LinkKidsOf(nodes, sh, p, h, count, x);
    }
  }

  lemma LinkKidsOf(nodes: seq<Fnode>, sh: Shape, p: nat, h: nat, count: nat, x: nat)
    requires WellFormed(nodes, sh) && p < |nodes| && h < |nodes| && p != h && !IsKid(sh, h)
    ensures |KidsOf(WithFront(nodes, p, h, count), FrontShape(sh, p, h), x)|
         == |KidsOf(nodes, sh, x)| + (if x == nodes[h].itemname then 1 else 0)
  {
    var before, after := KidsOf(nodes, sh, x), KidsOf(WithFront(nodes, p, h, count), FrontShape(sh, p, h), x);
    forall c: nat ensures c in after <==> c in before || (c == h && x == nodes[h].itemname) {
      KidsFronted(sh, p, h, c);
      if c < |nodes| { assert WithFront(nodes, p, h, count)[c].itemname == nodes[c].itemname; }
    }
    assert h !in before;
    assert after == before + (if x == nodes[h].itemname then {h} else {});
  }

  lemma LinkAccount(sh: Shape, hashtable: seq<int>, numHot: nat, i: nat, p: nat, h: nat, newDataNum: nat)
    requires |sh.path| == |sh.kids| && p < |sh.path|
    requires Pow2(numHot) <= |hashtable| && 0 < i < Pow2(numHot) && hashtable[i] != NULL
    requires |Bits(i, numHot)| == |sh.path[p]| + 1
    requires newDataNum + HotDebt(hashtable, numHot, Pow2(numHot)) == LeafDepths(sh.path, sh.kids)
    ensures newDataNum + (if sh.kids[p] == [] then 1 else |Bits(i, numHot)|)
              + HotDebt(hashtable[i := NULL], numHot, Pow2(numHot))
         == LeafDepths(FrontShape(sh, p, h).path, FrontShape(sh, p, h).kids)
  {
    HotDebtUpdate(hashtable, numHot, i, NULL, Pow2(numHot));
    LeafDepthsUpdate(sh.path, sh.kids, p, [h] + sh.kids[p]);
  }

  lemma LinkCover(log: seq<HotRow>, nodes: seq<Fnode>, sh: Shape, hashtable: seq<int>, numHot: nat, itemno: nat,
          i: nat, p: nat, h: nat)
    requires LogOk(log, numHot, itemno) && Linkable(nodes, sh, hashtable, numHot, itemno, i, p, h)
    requires CoverAll(log, sh, hashtable, numHot, i)
    ensures CoverAll(log, FrontShape(sh, p, h), hashtable[i := NULL], numHot, i - 1)
  {
    var sh', h' := FrontShape(sh, p, h), hashtable[i := NULL];
    LinkPaths(nodes, sh, hashtable, numHot, itemno, i, p, h);
    forall k | 0 <= k < |log| ensures CoverAt(log[k], sh', h', numHot, i - 1) {
      var r := log[k];
      assert CoverAt(r, sh, hashtable, numHot, i);
      LiftStep(r.mask, i, numHot);
      forall path | HasPath(sh, path) ensures HasPath(sh', path) {
        var c :| 0 <= c < |sh.path| && sh.path[c] == path;
        assert sh'.path[c] == path;
      }
      if Lift(r.mask, i, numHot) == i {
        LiftReaches(r.mask, i, numHot);
        assert Bits(i, numHot) <= Ids(r, numHot);
        assert Ids(r, numHot)[..|Bits(i, numHot)|] == Bits(i, numHot) == sh'.path[h];
        BitsOfParent(i, numHot);
      }
    }
  }

  // ---- The tree under construction ---------------------------------------------------------------

  /** The per-thread tables that insertion uses; they are clean between two trees. */
  class HotTables {
    var hashtable: seq<int>
    var hotCount: seq<nat>
    var fast: map<(nat, nat), int>
    var backpatch: seq<(nat, nat)>

    constructor (size: nat)
      requires 0 < size
      ensures Clean() && |hashtable| == |hotCount| == size
    {
      hashtable, hotCount := seq(size, _ => NULL), seq(size, _ => 0);
      fast, backpatch := map[], [];
    }

    ghost predicate Clean()
      reads this
    {
      && 0 < |hashtable| <= |hotCount|
      && (forall m :: 1 <= m < |hashtable| ==> hashtable[m] == NULL)
      && (forall m :: 1 <= m < |hotCount| ==> hotCount[m] == 0)
      && fast == map[]
    }
  }

  class FpTree {
    const itemno: nat
    const numHot: nat
    const table: seq<Item>
    const count: seq<nat>
    var nodes: seq<Fnode>
    var nodenum: seq<nat>
    var newDataNum: nat
    ghost var sh: Shape
    ghost var log: seq<HotRow>

    /** An empty tree below the given header table. */
    constructor (table: seq<Item>, count: seq<nat>, numHot: nat)
      requires |count| == |table| && numHot <= |table|
      ensures this.table == table && this.count == count && this.itemno == |table| && this.numHot == numHot
      ensures nodes == [Fnode(0, 0, NULL, NULL)] && nodenum == seq(|table|, _ => 0) && newDataNum == 0
      ensures sh == Shape([[]], [[]]) && log == []
    {
      this.table, this.count, this.itemno, this.numHot := table, count, |table|, numHot;
      nodes := [Fnode(0, 0, NULL, NULL)];
      nodenum := seq(|table|, _ => 0);
      newDataNum := 0;
      sh, log := Shape([[]], [[]]), [];
    }

    ghost predicate Ready()
      reads this
    {
      && numHot <= itemno == |nodenum|
      && LogOk(log, numHot, itemno)
      && WellFormed(nodes, sh)
      && PathsOk(nodes, sh, itemno)
    }

    ghost function TreeRows(): seq<Row>
      reads this
      requires LogOk(log, numHot, itemno)
    {
      Rows(log, numHot, itemno)
    }

    /** The tree holds the rows of the log, with hot masks above i already linked in. */
    ghost predicate Holds(th: HotTables, i: nat, rows: seq<Row>)
      reads this, th`hashtable
    {
      && Ready()
      && HashOk(th.hashtable, sh, numHot)
      && Owned(sh, th.hashtable, numHot, i)
      && Used(sh, rows)
      && Counts(nodes, sh, rows)
      && NodeNums(nodenum, nodes, sh)
    }

    /** newDataNum is the sum of the leaf depths, less what the waiting hot nodes still owe, plus slack. */
    ghost predicate Accounted(th: HotTables, slack: nat)
      reads this`sh, this`newDataNum, th`hashtable
    {
      && |sh.path| == |sh.kids|
      && Pow2(numHot) <= |th.hashtable|
      && newDataNum + HotDebt(th.hashtable, numHot, Pow2(numHot)) == LeafDepths(sh.path, sh.kids) + slack
    }

    ghost predicate Shortcuts(th: HotTables)
      reads this`sh, th`fast, th`backpatch
    {
      && FastSound(th.fast, sh, numHot)
      && FastComplete(th.fast, sh, numHot)
      && forall e :: e in th.fast ==> e in th.backpatch
    }

    /** The sibling search: the child of p with the item, or NULL. */
    method FindChild(p: nat, item: nat) returns (c: int)
      requires Ready() && p < |nodes|
      ensures c == NULL ==> forall d :: d in sh.kids[p] && d < |nodes| ==> nodes[d].itemname != item
      ensures c != NULL ==> 0 <= c < |nodes| && c in sh.kids[p] && nodes[c].itemname == item
    {
      FirstChild(nodes, sh, p);
      c := nodes[p].leftchild;
      ghost var ks := sh.kids[p];
      ghost var k: nat := 0;
      while c != NULL && nodes[c].itemname != item
        invariant k <= |ks| && c == At(ks, k)
        invariant c != NULL ==> 0 <= c < |nodes|
        invariant forall j :: 0 <= j < k && ks[j] < |nodes| ==> nodes[ks[j]].itemname != item
        decreases |ks| - k
      {
        assert KidOk(nodes, sh, p, k);
        c := nodes[c].rightsibling;
        k := k + 1;
        if k < |ks| { assert KidOk(nodes, sh, p, k); }
      }
    }

    /** The walk stands at child, i steps below the table node, having added counts to the nodes passed. */
    ghost predicate WalkAt(start: seq<Fnode>, base: seq<nat>, compact: seq<nat>, i: nat, counts: nat, child: nat)
      reads this
    {
      && Ready() && WellFormed(start, sh)
      && Bumped(start, nodes, sh, base, compact, i, counts)
      && i <= |compact| && child < |nodes| && sh.path[child] == base + compact[..i]
      && ChainHas(sh, base, compact, i)
    }

    method Bump(ghost start: seq<Fnode>, ghost base: seq<nat>, compact: seq<nat>, i: nat, counts: nat, child: nat,
            temp: nat)
      requires WalkAt(start, base, compact, i, counts, child)
      requires i < |compact| && temp < |nodes| && sh.path[temp] == base + compact[..i + 1]
      modifies this`nodes
      ensures WalkAt(start, base, compact, i + 1, counts, temp)
    {
      BumpStep(start, nodes, sh, base, compact, i, counts, temp);
      ghost var before := nodes;
      nodes := nodes[temp := nodes[temp].(count := nodes[temp].count + counts)];
      SameLinksWellFormed(before, nodes, sh);
      SameLinksPaths(before, nodes, sh, itemno);
      assert HasPath(sh, base + compact[..i + 1]);
    }

    /** The shortcut for small masks: the first step of the walk, or a missing entry to patch. */
    method FastStep(th: HotTables, ghost start: seq<Fnode>, compact: seq<nat>, counts: nat, ntype: nat, child: nat)
      returns (next: nat, found: bool)
      requires ntype < Pow2(numHot) && ntype < FAST_RIGHTSIB_TABLE_SIZE
      requires WalkAt(start, Bits(ntype, numHot), compact, 0, counts, child)
      requires FastSound(th.fast, sh, numHot) && FastComplete(th.fast, sh, numHot)
      requires compact != [] && numHot <= compact[0]
      modifies this`nodes
      ensures found ==> WalkAt(start, Bits(ntype, numHot), compact, 1, counts, next)
      ensures !found ==> nodes == old(nodes) && (ntype, compact[0]) !in th.fast
      ensures !found ==> !HasPath(sh, Bits(ntype, numHot) + compact[..1])
    {
      ghost var base := Bits(ntype, numHot);
      assert base + compact[..1] == base + [compact[0]];
      found := (ntype, compact[0]) in th.fast;
      next := child;
      if found {
        next := th.fast[(ntype, compact[0])];
        assert FastEntry(next, (ntype, compact[0]), sh, numHot);
        Bump(start, base, compact, 0, counts, child, next);
      }
    }

    /** Add counts to the existing nodes on the path of the new row, down to the first missing one. */
    method WalkOn(th: HotTables, ghost start: seq<Fnode>, ghost base: seq<nat>, compact: seq<nat>, counts: nat,
            child0: nat, i0: nat)
      returns (child: nat, i: nat)
      requires WalkAt(start, base, compact, i0, counts, child0)
      requires Owned(sh, th.hashtable, numHot, Top(numHot))
      requires forall k :: 0 <= k < |compact| ==> numHot <= compact[k]
      modifies this`nodes
      ensures WalkAt(start, base, compact, i, counts, child) && i0 <= i
      ensures i < |compact| ==> !HasPath(sh, base + compact[..i + 1])
    {
      hide Owned, PathsOk, LogOk, ChainHas, Bumped, HasPath, WellFormed;
      child, i := child0, i0;
      while i < |compact|
        invariant WalkAt(start, base, compact, i, counts, child) && i0 <= i
      {
        assert base + compact[..i + 1] == base + compact[..i] + [compact[i]];
        var temp := FindChild(child, compact[i]);
        if temp == NULL {
          NoKidNoPath(nodes, sh, th.hashtable, numHot, itemno, Top(numHot), child, compact[i]);
          return;
        }
        KidExtends(nodes, sh, child, temp);
        Bump(start, base, compact, i, counts, child, temp);
        child, i := temp, i + 1;
      }
    }

    method WalkDown(th: HotTables, compact: seq<nat>, counts: nat, ntype: nat) returns (child: nat, i: nat,
            backpatch: bool)
      requires Ready() && HashOk(th.hashtable, sh, numHot) && Owned(sh, th.hashtable, numHot, Top(numHot))
      requires FastSound(th.fast, sh, numHot) && FastComplete(th.fast, sh, numHot)
      requires ntype < Pow2(numHot) && th.hashtable[ntype] != NULL
      requires compact != [] && forall k :: 0 <= k < |compact| ==> numHot <= compact[k]
      modifies this`nodes
      ensures WalkAt(old(nodes), Bits(ntype, numHot), compact, i, counts, child)
      ensures i < |compact| ==> !HasPath(sh, Bits(ntype, numHot) + compact[..i + 1])
      ensures backpatch <==> i == 0 && ntype < FAST_RIGHTSIB_TABLE_SIZE
      ensures backpatch ==> (ntype, compact[0]) !in th.fast
    {
      ghost var start, base := nodes, Bits(ntype, numHot);
      assert HashEntry(th.hashtable[ntype], sh, ntype, numHot);
      child, i, backpatch := th.hashtable[ntype], 0, false;
      assert base + compact[..0] == base;
      InitialBump(nodes, sh, base, compact, counts);
      if ntype < FAST_RIGHTSIB_TABLE_SIZE {
        var found: bool;
        child, found := FastStep(th, start, compact, counts, ntype, child);
        if !found {
          child, backpatch := th.hashtable[ntype], true;
          return;
        }
        i := 1;
      }
      child, i := WalkOn(th, start, base, compact, counts, child, i);
    }

    /** One new node below p; p is the last node of the chain or the place where a branch starts. */
    method AddNode(th: HotTables, ghost rows: seq<Row>, p: nat, item: nat, count: nat)
      requires Holds(th, Top(numHot), rows)
      requires p < |nodes| && numHot <= item
      requires Ascending(sh.path[p] + [item]) && Below(sh.path[p] + [item], itemno)
      requires !HasPath(sh, sh.path[p] + [item])
      requires UsedAt(sh.path[p] + [item], rows) && count == PrefixWeight(rows, sh.path[p] + [item])
      modifies this`nodes, this`nodenum, this`sh
      ensures Holds(th, Top(numHot), rows)
      ensures sh == GrownShape(old(sh), p, item) && |nodes| == |old(nodes)| + 1
    {
      WithChildWellFormed(nodes, sh, p, item, count);
      PathsGrown(nodes, sh, itemno, p, item, count);
      HashGrown(th.hashtable, sh, numHot, p, item);
      OwnedGrown(nodes, sh, th.hashtable, numHot, Top(numHot), p, item);
      UsedGrown(nodes, sh, rows, p, item);
      CountsGrown(nodes, sh, rows, p, item, count);
      EndsInLast(sh.path[p], item, itemno);
      NodeNumsGrown(nodenum, nodes, sh, p, item, count);
      nodes := WithChild(nodes, p, item, count);
      nodenum := nodenum[item := nodenum[item] + 1];
      sh := GrownShape(sh, p, item);
    }

    /** A walk that stopped at child with the counts already added: ready for the missing nodes. */
    ghost predicate Stopped(th: HotTables, r: HotRow, child: nat, i: nat)
      reads this, th`hashtable
    {
      && Ready() && RowOk(r, numHot, itemno) && LogOk(log + [r], numHot, itemno)
      && Holds(th, Top(numHot), Rows(log + [r], numHot, itemno))
      && CoverAll(log, sh, th.hashtable, numHot, Top(numHot))
      && i <= |r.rest| && child < |nodes| && sh.path[child] == Bits(r.mask, numHot) + r.rest[..i]
      && ChainHas(sh, Bits(r.mask, numHot), r.rest, i)
      && (i < |r.rest| ==> !HasPath(sh, Bits(r.mask, numHot) + r.rest[..i + 1]))
    }

    /** The walk part of an insertion. */
    method Walk(th: HotTables, ghost r: HotRow, compact: seq<nat>, counts: nat, ntype: nat)
      returns (child: nat, i: nat, backpatch: bool)
      requires Consistent(th) && ntype < |th.hashtable| && th.hashtable[ntype] != NULL
      requires r == HotRow(ntype, compact, counts) && RowOk(r, numHot, itemno) && compact != []
      modifies this`nodes
      ensures Stopped(th, r, child, i) && Accounted(th, 0) && Shortcuts(th)
      ensures backpatch <==> i == 0 && ntype < FAST_RIGHTSIB_TABLE_SIZE
      ensures backpatch ==> (ntype, compact[0]) !in th.fast
    {
      hide HashOk, Owned, Used, Counts, NodeNums, CoverAll, LogOk, Rows, RowOk, FastSound, FastComplete, LeafDepths,
           HotDebt, ChainHas, HasPath, WellFormed, PathsOk;
      ghost var before := nodes;
      RowOkFacts(r, numHot, itemno);
      child, i, backpatch := WalkDown(th, compact, counts, ntype);
      BumpedCounts(before, nodes, sh, th.hashtable, numHot, itemno, log, r, i);
      RowsAppend(log, r, numHot, itemno);
      UsedMore(sh, Rows(log, numHot, itemno), Row(Ids(r, numHot), r.weight));
      SameLinksNodeNums(nodenum, before, nodes, sh);
    }

    /** The next missing node of the chain. */
    method Extend(th: HotTables, ghost r: HotRow, compact: seq<nat>, counts: nat, child: nat,
            i: nat) returns (next: nat)
      requires Stopped(th, r, child, i) && i < |r.rest| && compact == r.rest && counts == r.weight
      modifies this`nodes, this`nodenum, this`sh
      ensures Stopped(th, r, next, i + 1)
      ensures next == |old(nodes)| && sh == GrownShape(old(sh), child, r.rest[i])
    {
      ghost var base := Bits(r.mask, numHot);
      assert sh.path[child] + [r.rest[i]] == base + r.rest[..i + 1];
      NextPath(log, r, sh, th.hashtable, numHot, itemno, i);
      CoverGrown(log, sh, th.hashtable, numHot, Top(numHot), child, r.rest[i]);
      ChainHasGrown(sh, base, r.rest, i, child);
      next := |nodes|;
      AddNode(th, Rows(log + [r], numHot, itemno), child, compact[i], counts);
      NothingBelowLeaf(nodes, sh, th.hashtable, numHot, itemno, base, r.rest, i + 1, next);
    }

    /** The chain's first node is in place, and the account already includes the rest of the chain. */
    ghost predicate Extending(th: HotTables, r: HotRow, child: nat, i: nat)
      reads this, th
    {
      && Stopped(th, r, child, i) && 0 < i
      && sh.kids[child] == [] && Accounted(th, |r.rest| - i) && Shortcuts(th)
    }

    method ExtendFurther(th: HotTables, ghost r: HotRow, compact: seq<nat>, counts: nat, child: nat,
            i: nat) returns (next: nat)
      requires Extending(th, r, child, i) && i < |r.rest| && compact == r.rest && counts == r.weight
      modifies this`nodes, this`nodenum, this`sh
      ensures Extending(th, r, next, i + 1)
    {
      LeafDepthsGrown(sh, child, r.rest[i]);
      FastDeeper(th.fast, sh, numHot, itemno, r, i, child);
      next := Extend(th, r, compact, counts, child, i);
    }

    /** The first missing node: it is charged the whole chain, and the whole path if it opens a branch. */
    method ChargeAndExtend(th: HotTables, ghost r: HotRow, compact: seq<nat>, counts: nat, ntype: nat, child: nat,
            i: nat)
      returns (next: nat)
      requires r == HotRow(ntype, compact, counts) && Stopped(th, r, child, i) && i < |compact|
      requires Accounted(th, 0)
      modifies this`nodes, this`nodenum, this`sh, this`newDataNum
      ensures Stopped(th, r, next, i + 1) && sh.kids[next] == [] && Accounted(th, |compact| - (i + 1))
      ensures next == |old(nodes)| && sh == GrownShape(old(sh), child, compact[i])
    {
      FirstChild(nodes, sh, child);
      LeafDepthsGrown(sh, child, r.rest[i]);
      newDataNum := newDataNum +
        if nodes[child].leftchild == NULL then |compact| - i else |compact| + |Bits(ntype, numHot)|;
      next := Extend(th, r, compact, counts, child, i);
    }

    method ExtendFirst(th: HotTables, ghost r: HotRow, compact: seq<nat>, counts: nat, ntype: nat, child: nat,
            i: nat, backpatch: bool)
      returns (next: nat)
      requires r == HotRow(ntype, compact, counts) && Stopped(th, r, child, i) && i < |compact|
      requires Accounted(th, 0) && Shortcuts(th)
      requires backpatch <==> i == 0 && ntype < FAST_RIGHTSIB_TABLE_SIZE
      modifies this`nodes, this`nodenum, this`sh, this`newDataNum, th`fast, th`backpatch
      ensures Extending(th, r, next, i + 1)
    {
      hide Owned, Used, Counts, NodeNums, CoverAll, LeafDepths, HotDebt, PathsOk;
      if backpatch {
        assert sh.path[child] == Bits(ntype, numHot);
        FastPatched(th.fast, sh, numHot, itemno, r, child);
      } else {
        FastDeeper(th.fast, sh, numHot, itemno, r, i, child);
      }
      next := ChargeAndExtend(th, r, compact, counts, ntype, child, i);
      if backpatch {
        th.fast := th.fast[(ntype, compact[0]) := next];
        th.backpatch := th.backpatch + [(ntype, compact[0])];
      }
    }

    method ExtendRest(th: HotTables, ghost r: HotRow, compact: seq<nat>, counts: nat, child0: nat,
            i0: nat) returns (child: nat)
      requires Extending(th, r, child0, i0) && i0 <= |compact| && compact == r.rest && counts == r.weight
      modifies this`nodes, this`nodenum, this`sh
      ensures Extending(th, r, child, |compact|)
    {
      hide *;
      child := child0;
      var i := i0;
      while i < |compact|
        invariant i <= |compact| && Extending(th, r, child, i)
      {
        child := ExtendFurther(th, r, compact, counts, child, i);
        i := i + 1;
      }
    }

    /** The tree stands for its log, apart from the counts of the waiting hot nodes. */
    ghost predicate Consistent(th: HotTables)
      reads this, th`hashtable, th`fast, th`backpatch
    {
      && Ready() && Holds(th, Top(numHot), TreeRows())
      && CoverAll(log, sh, th.hashtable, numHot, Top(numHot))
      && Accounted(th, 0) && Shortcuts(th)
    }

    /** The chain of the row is complete; only the log does not yet name it. */
    ghost predicate Chained(th: HotTables, r: HotRow)
      reads this, th
    {
      && Ready() && RowOk(r, numHot, itemno) && LogOk(log + [r], numHot, itemno)
      && Holds(th, Top(numHot), Rows(log + [r], numHot, itemno))
      && CoverAll(log, sh, th.hashtable, numHot, Top(numHot))
      && ChainHas(sh, Bits(r.mask, numHot), r.rest, |r.rest|)
      && Accounted(th, 0) && Shortcuts(th)
    }

    method AppendMissing(th: HotTables, ghost r: HotRow, compact: seq<nat>, counts: nat, ntype: nat, child: nat,
            i: nat, backpatch: bool)
      requires r == HotRow(ntype, compact, counts) && Stopped(th, r, child, i)
      requires Accounted(th, 0) && Shortcuts(th)
      requires backpatch <==> i == 0 && ntype < FAST_RIGHTSIB_TABLE_SIZE
      requires backpatch ==> compact != [] && (ntype, compact[0]) !in th.fast
      modifies this`nodes, this`nodenum, this`sh, this`newDataNum, th`fast, th`backpatch
      ensures Chained(th, r)
    {
      if i < |compact| {
        var next := ExtendFirst(th, r, compact, counts, ntype, child, i, backpatch);
        next := ExtendRest(th, r, compact, counts, next, i + 1);
      }
    }

    ghost method Commit(th: HotTables, r: HotRow)
      requires Chained(th, r) && th.hashtable[r.mask] != NULL
      modifies this`log
      ensures log == old(log) + [r] && Consistent(th)
    {
      NewRowCovered(log, r, sh, th.hashtable, numHot, itemno);
      log := log + [r];
    }

    /** Insert a row below its table node: share the existing part of its path, then append the rest. */
    method Insert(th: HotTables, compact: seq<nat>, counts: nat, ntype: nat)
      requires Consistent(th) && ntype < |th.hashtable| && th.hashtable[ntype] != NULL
      requires RowOk(HotRow(ntype, compact, counts), numHot, itemno) && compact != []
      modifies this`nodes, this`nodenum, this`sh, this`newDataNum, this`log, th`fast, th`backpatch
      ensures log == old(log) + [HotRow(ntype, compact, counts)]
      ensures Consistent(th)
    {
      hide *;
      ghost var r := HotRow(ntype, compact, counts);
      var child, i, backpatch := Walk(th, r, compact, counts, ntype);
      AppendMissing(th, r, compact, counts, ntype, child, i, backpatch);
      Commit(th, r);
    }

    /** A table node for mask m; hot masks above i may be linked in already. */
    method MakeHot(th: HotTables, m: nat, ghost i: nat, ghost rows: seq<Row>)
      requires Holds(th, i, rows) && CoverAll(log, sh, th.hashtable, numHot, i) && Accounted(th, 0)
      requires 0 < m < Pow2(numHot) && m <= i && th.hashtable[m] == NULL
      modifies this`nodes, this`sh, th`hashtable
      ensures Holds(th, i, rows) && CoverAll(log, sh, th.hashtable, numHot, i) && Accounted(th, 0)
      ensures th.hashtable == old(th.hashtable)[m := |old(nodes)|]
      ensures sh == WithHot(old(sh), m, numHot)
    {
      hide HashOk, Owned, Used, Counts, NodeNums, CoverAll, HotDebt, LeafDepths, PathsOk, Distinct;
      NoHotNode(sh, th.hashtable, numHot, i, m);
      HotGrownWellFormed(nodes, sh, numHot, m);
      HotGrownPaths(nodes, sh, itemno, numHot, m);
      HotGrownHash(th.hashtable, sh, numHot, m);
      HotGrownOwned(nodes, sh, th.hashtable, numHot, i, m);
      HotGrownUsed(nodes, sh, rows, numHot, m);
      HotGrownCounts(nodes, sh, rows, numHot, m);
      HotGrownNodeNums(nodenum, nodes, sh, numHot, m);
      HotGrownCover(log, sh, th.hashtable, numHot, i, m, |nodes|);
      HotGrownDebt(sh, th.hashtable, numHot, m, newDataNum);
      th.hashtable := th.hashtable[m := |nodes|];
      nodes := nodes + [Fnode(TopBit(m, numHot), 0, NULL, NULL)];
      sh := WithHot(sh, m, numHot);
    }

    /** Between two rows of the second scan. */
    ghost predicate Building(th: HotTables)
      reads this, th
    {
      && Consistent(th)
      && HotCounts(th.hotCount, log, numHot, Top(numHot))
      && HashUsed(th.hashtable, numHot, TreeRows())
    }

    method MakeRowHot(th: HotTables, ntype: nat)
      requires Consistent(th) && 0 < ntype < Pow2(numHot) && th.hashtable[ntype] == NULL
      modifies this`nodes, this`sh, th`hashtable
      ensures Consistent(th)
      ensures th.hashtable == old(th.hashtable)[ntype := |old(nodes)|] && |nodes| > 0
    {
      HotGrownFast(th.fast, sh, numHot, ntype);
      MakeHot(th, ntype, Top(numHot), TreeRows());
    }

    /** A row without items beyond the hot ones. */
    ghost method CommitHotOnly(th: HotTables, r: HotRow)
      requires Consistent(th) && RowOk(r, numHot, itemno) && r.rest == [] && th.hashtable[r.mask] != NULL
      modifies this`log
      ensures log == old(log) + [r] && Consistent(th)
    {
      InitialBump(nodes, sh, Bits(r.mask, numHot), [], r.weight);
      BumpedCounts(nodes, nodes, sh, th.hashtable, numHot, itemno, log, r, 0);
      RowsAppend(log, r, numHot, itemno);
      UsedMore(sh, Rows(log, numHot, itemno), Row(Ids(r, numHot), r.weight));
      Commit(th, r);
    }

    method TableNode(th: HotTables, ntype: nat)
      requires Consistent(th) && ntype < Pow2(numHot)
      modifies this`nodes, this`sh, th`hashtable
      ensures Consistent(th) && ntype < |th.hashtable| == |old(th.hashtable)| && th.hashtable[ntype] != NULL
      ensures th.hashtable == old(th.hashtable)[ntype := th.hashtable[ntype]]
    {
      if th.hashtable[ntype] == NULL {
        MakeRowHot(th, ntype);
      }
      assert th.hashtable == old(th.hashtable)[ntype := th.hashtable[ntype]];
    }

    method InsertRow(th: HotTables, compact: seq<nat>, counts: nat, ntype: nat)
      requires Consistent(th) && ntype < |th.hashtable| && th.hashtable[ntype] != NULL
      requires RowOk(HotRow(ntype, compact, counts), numHot, itemno)
      modifies this`nodes, this`nodenum, this`sh, this`newDataNum, this`log, th`fast, th`backpatch
      ensures Consistent(th) && log == old(log) + [HotRow(ntype, compact, counts)]
    {
      hide *;
      if compact != [] {
        Insert(th, compact, counts, ntype);
      } else {
        CommitHotOnly(th, HotRow(ntype, compact, counts));
      }
    }

    lemma BuildingBounds(th: HotTables, r: HotRow)
      requires Building(th) && RowOk(r, numHot, itemno)
      ensures r.mask < Pow2(numHot) <= |th.hotCount| && Pow2(numHot) <= |th.hashtable|
      ensures numHot <= itemno && LogOk(log, numHot, itemno) && LogOk(log + [r], numHot, itemno)
      ensures forall k :: 0 <= k < |log| ==> log[k].mask < Pow2(numHot)
      ensures Rows(log + [r], numHot, itemno) == Rows(log, numHot, itemno) + [Row(Ids(r, numHot), r.weight)]
      ensures Bits(r.mask, numHot) <= Row(Ids(r, numHot), r.weight).ids
      ensures HotCounts(th.hotCount, log, numHot, Top(numHot))
      ensures HashUsed(th.hashtable, numHot, Rows(log, numHot, itemno))
      ensures Consistent(th)
    {
      RowsAppend(log, r, numHot, itemno);
    }

    lemma BuildingAgain(th: HotTables)
      requires Consistent(th) && HotCounts(th.hotCount, log, numHot, Top(numHot))
      requires HashUsed(th.hashtable, numHot, Rows(log, numHot, itemno))
      ensures Building(th)
    {
    }

    /** One row of the second scan: weigh its mask, make sure the table node exists, insert the rest. */
    method AddRow(th: HotTables, compact: seq<nat>, counts: nat, ntype: nat)
      requires Building(th) && RowOk(HotRow(ntype, compact, counts), numHot, itemno) && ntype < |th.hotCount|
      modifies this`nodes, this`nodenum, this`sh, this`newDataNum, this`log
      modifies th`hashtable, th`hotCount, th`fast, th`backpatch
      ensures Building(th) && log == old(log) + [HotRow(ntype, compact, counts)]
      ensures |th.hashtable| == |old(th.hashtable)|
      ensures th.hotCount == old(th.hotCount)[ntype := old(th.hotCount)[ntype] + counts]
    {
      hide *;
      ghost var r := HotRow(ntype, compact, counts);
      ghost var table0, log0 := th.hashtable, log;
      BuildingBounds(th, r);
      HotCountsAdded(th.hotCount, log, r, numHot);
      th.hotCount := th.hotCount[ntype := th.hotCount[ntype] + counts];
      TableNode(th, ntype);
      HashUsedMore(table0, numHot, Rows(log, numHot, itemno), Row(Ids(r, numHot), counts), ntype, th.hashtable[ntype]);
      InsertRow(th, compact, counts, ntype);
      BuildingAgain(th);
    }

    /** The sweep has linked in every hot mask above i. */
    ghost predicate Sweeping(th: HotTables, i: nat)
      reads this, th`hashtable, th`hotCount
    {
      && Ready() && Holds(th, i, TreeRows()) && Accounted(th, 0)
      && SweepTables(th.hashtable, th.hotCount, sh, log, numHot, itemno, i)
    }

    method SkipHot(th: HotTables, ghost i: nat)
      requires 0 < i && Sweeping(th, i) && i < |th.hashtable| && i < |th.hotCount| && th.hashtable[i] == NULL
      ensures Sweeping(th, i - 1) && th.hotCount[i] == 0
    {
      NothingToLift(log, sh, th.hashtable, numHot, i);
      SkipMask(log, sh, th.hashtable, th.hotCount, numHot, i);
    }

    lemma SweepFacts(th: HotTables, i: nat)
      requires Sweeping(th, i)
      ensures LogOk(log, numHot, itemno) && numHot <= itemno == |nodenum|
      ensures WellFormed(nodes, sh) && PathsOk(nodes, sh, itemno)
      ensures HashOk(th.hashtable, sh, numHot) && Owned(sh, th.hashtable, numHot, i)
      ensures Used(sh, Rows(log, numHot, itemno))
      ensures Counts(nodes, sh, Rows(log, numHot, itemno)) && NodeNums(nodenum, nodes, sh)
      ensures SweepTables(th.hashtable, th.hotCount, sh, log, numHot, itemno, i)
      ensures i < Pow2(numHot) <= |th.hashtable| && Pow2(numHot) <= |th.hotCount| && |sh.path| == |sh.kids| == |nodes|
      ensures newDataNum + HotDebt(th.hashtable, numHot, Pow2(numHot)) == LeafDepths(sh.path, sh.kids)
      ensures |sh.path| > 0 && sh.path[0] == [] && th.hashtable[0] != NULL && |nodes| != NULL
    {
    }

    lemma SweepFromFacts(th: HotTables, i: nat)
      requires LogOk(log, numHot, itemno) && numHot <= itemno == |nodenum|
      requires WellFormed(nodes, sh) && PathsOk(nodes, sh, itemno)
      requires HashOk(th.hashtable, sh, numHot) && Owned(sh, th.hashtable, numHot, i)
      requires Used(sh, Rows(log, numHot, itemno))
      requires Counts(nodes, sh, Rows(log, numHot, itemno)) && NodeNums(nodenum, nodes, sh)
      requires SweepTables(th.hashtable, th.hotCount, sh, log, numHot, itemno, i)
      requires Pow2(numHot) <= |th.hashtable| && |sh.path| == |sh.kids|
      requires newDataNum + HotDebt(th.hashtable, numHot, Pow2(numHot)) == LeafDepths(sh.path, sh.kids)
      ensures Sweeping(th, i)
    {
    }

    /** The parent mask gets a node if it has none. */
    method EnsureParent(th: HotTables, i: nat)
      requires 0 < i && Sweeping(th, i) && th.hashtable[i] != NULL
      modifies this`nodes, this`sh, th`hashtable
      ensures Sweeping(th, i) && |th.hashtable| == |old(th.hashtable)|
      ensures forall m :: i <= m < |th.hashtable| ==> th.hashtable[m] == old(th.hashtable)[m]
      ensures th.hashtable[Parent(i, numHot)] != NULL
    {
      hide *;
      SweepFacts(th, i);
      var parent := Parent(i, numHot);
      if th.hashtable[parent] == NULL {
        ParentTables(th.hashtable, th.hotCount, sh, log, numHot, itemno, i, parent, |nodes|);
        NoHotNode(sh, th.hashtable, numHot, i, parent);
        HotGrownWellFormed(nodes, sh, numHot, parent);
        HotGrownPaths(nodes, sh, itemno, numHot, parent);
        HotGrownHash(th.hashtable, sh, numHot, parent);
        HotGrownOwned(nodes, sh, th.hashtable, numHot, i, parent);
        HotGrownUsed(nodes, sh, Rows(log, numHot, itemno), numHot, parent);
        HotGrownCounts(nodes, sh, Rows(log, numHot, itemno), numHot, parent);
        HotGrownNodeNums(nodenum, nodes, sh, numHot, parent);
        HotGrownDebt(sh, th.hashtable, numHot, parent, newDataNum);
        NewHotNode(sh, parent, numHot);
        th.hashtable := th.hashtable[parent := |nodes|];
        nodes := nodes + [HotNode(parent, numHot)];
        sh := WithHot(sh, parent, numHot);
        SweepFromFacts(th, i);
      }
    }

    /** Fold the weight of mask i into its parent's and put its node in front of the parent's children. */
    method LinkHot(th: HotTables, i: nat)
      requires 0 < i && Sweeping(th, i) && th.hashtable[i] != NULL && th.hashtable[Parent(i, numHot)] != NULL
      modifies this`nodes, this`nodenum, this`sh, this`newDataNum, th`hashtable, th`hotCount
      ensures Sweeping(th, i - 1)
      ensures |th.hashtable| == |old(th.hashtable)| && th.hashtable[i] == NULL
      ensures |th.hotCount| == |old(th.hotCount)| && th.hotCount[i] == 0
      ensures forall m :: i < m < |th.hashtable| ==> th.hashtable[m] == old(th.hashtable)[m]
      ensures forall m :: i < m < |th.hotCount| ==> th.hotCount[m] == old(th.hotCount)[m]
    {
      hide *;
      SweepFacts(th, i);
      var step, parent := TopBit(i, numHot), Parent(i, numHot);
      HashPointers(th.hashtable, sh, numHot, i, parent);
      var h, p, count := th.hashtable[i], th.hashtable[parent], th.hotCount[i];
      MakeLinkable(nodes, sh, th.hashtable, numHot, itemno, i, p, h);
      LinkTables(nodes, sh, th.hashtable, th.hotCount, log, numHot, itemno, i, p, h);
      LinkPaths(nodes, sh, th.hashtable, numHot, itemno, i, p, h);
      WithFrontWellFormed(nodes, sh, p, h, count);
      LinkPathsOk(nodes, sh, itemno, p, h, count);
      LinkHash(sh, th.hashtable, numHot, i, p, h);
      LinkOwned(nodes, sh, th.hashtable, numHot, itemno, i, p, h);
      LinkUsed(sh, Rows(log, numHot, itemno), p, h);
      LinkCounts(nodes, sh, Rows(log, numHot, itemno), p, h, count);
      LinkNodeNums(nodenum, nodes, sh, p, h, count);
      LinkAccount(sh, th.hashtable, numHot, i, p, h, newDataNum);
      FirstChild(nodes, sh, p);
      FrontSize(sh, p, h);
      newDataNum := newDataNum + if nodes[p].leftchild == NULL then 1 else |Bits(i, numHot)|;
      nodes := WithFront(nodes, p, h, count);
      nodenum := nodenum[step := nodenum[step] + 1];
      sh := FrontShape(sh, p, h);
      th.hashtable := th.hashtable[i := NULL];
      th.hotCount := th.hotCount[parent := th.hotCount[parent] + count][i := 0];
      SweepFromFacts(th, i - 1);
    }

    /** One mask of the sweep: nothing to do without a node. */
    method FoldHot(th: HotTables, i: nat)
      requires 0 < i && Sweeping(th, i) && i < |th.hashtable| && i < |th.hotCount|
      modifies this`nodes, this`nodenum, this`sh, this`newDataNum, th`hashtable, th`hotCount
      ensures Sweeping(th, i - 1) && |th.hashtable| == |old(th.hashtable)| && |th.hotCount| == |old(th.hotCount)|
      ensures th.hashtable[i] == NULL && th.hotCount[i] == 0
      ensures forall m :: i < m < |th.hashtable| ==> th.hashtable[m] == old(th.hashtable)[m]
      ensures forall m :: i < m < |th.hotCount| ==> th.hotCount[m] == old(th.hotCount)[m]
    {
      hide *;
      if th.hashtable[i] == NULL {
        SkipHot(th, i);
      } else {
        SweepFacts(th, i);
        EnsureParent(th, i);
        LinkHot(th, i);
      }
    }

    /** The finished tree stands for its rows: see Represents. */
    ghost predicate Built()
      reads this
    {
      && numHot <= itemno == |nodenum| && LogOk(log, numHot, itemno)
      && Represents(nodes, sh, Rows(log, numHot, itemno), itemno)
      && NodeNums(nodenum, nodes, sh)
      && newDataNum == LeafDepths(sh.path, sh.kids) + 1
    }

    lemma StartSweep(th: HotTables)
      requires Building(th)
      ensures Sweeping(th, Pow2(numHot) - 1)
      ensures Pow2(numHot) <= |th.hashtable| && Pow2(numHot) <= |th.hotCount| && Shortcuts(th)
      ensures forall m :: Pow2(numHot) <= m < |th.hashtable| ==> th.hashtable[m] == NULL
    {
      hide Owned, Used, Counts, NodeNums, CoverAll, LiftWeight, WellFormed, PathsOk, LeafDepths, HotDebt, HashUsed,
           FastSound, FastComplete;
    }

    lemma SweepDone(th: HotTables)
      requires Sweeping(th, 0) && (forall m :: 0 < m < |th.hashtable| ==> th.hashtable[m] == NULL)
      ensures numHot <= itemno == |nodenum| && LogOk(log, numHot, itemno)
      ensures Represents(nodes, sh, Rows(log, numHot, itemno), itemno)
      ensures NodeNums(nodenum, nodes, sh) && newDataNum == LeafDepths(sh.path, sh.kids)
      ensures 0 < |th.hashtable|
    {
      forall c | 0 < c < |sh.path| ensures IsKid(sh, c) {
        assert OwnedAt(sh, th.hashtable, numHot, 0, c);
      }
      NoDebt(th.hashtable, numHot, Pow2(numHot));
      SweptRowsCovered(log, sh, th.hashtable, numHot, itemno);
    }

    /** Link all hot nodes, highest mask first, and leave the tables clean for the next tree. */
    method LinkHotNodes(th: HotTables)
      requires Building(th) && |th.hashtable| <= |th.hotCount|
      requires forall m :: Pow2(numHot) <= m < |th.hotCount| ==> th.hotCount[m] == 0
      modifies this`nodes, this`nodenum, this`sh, this`newDataNum, th`hashtable, th`hotCount, th`fast, th`backpatch
      ensures Built() && th.Clean()
      ensures |th.hashtable| == |old(th.hashtable)| && |th.hotCount| == |old(th.hotCount)|
    {
      StartSweep(th);
      assert forall e :: e in th.fast ==> e in th.backpatch;
      Sweep(th);
      SweepDone(th);
      newDataNum := newDataNum + 1;
      ResetShortcuts(th);
    }

    method Sweep(th: HotTables)
      requires Sweeping(th, Pow2(numHot) - 1) && Pow2(numHot) <= |th.hashtable| && Pow2(numHot) <= |th.hotCount|
      requires forall m :: Pow2(numHot) <= m < |th.hashtable| ==> th.hashtable[m] == NULL
      requires forall m :: Pow2(numHot) <= m < |th.hotCount| ==> th.hotCount[m] == 0
      modifies this`nodes, this`nodenum, this`sh, this`newDataNum, th`hashtable, th`hotCount
      ensures Sweeping(th, 0)
      ensures |th.hashtable| == |old(th.hashtable)| && |th.hotCount| == |old(th.hotCount)|
      ensures forall m :: 0 < m < |th.hashtable| ==> th.hashtable[m] == NULL
      ensures forall m :: 0 < m < |th.hotCount| ==> th.hotCount[m] == 0
    {
      hide *;
      var i := Pow2(numHot) - 1;
      while i > 0
        invariant 0 <= i < Pow2(numHot) && Sweeping(th, i)
        invariant |th.hashtable| == |old(th.hashtable)| && |th.hotCount| == |old(th.hotCount)|
        invariant forall m :: i < m < |th.hashtable| ==> th.hashtable[m] == NULL
        invariant forall m :: i < m < |th.hotCount| ==> th.hotCount[m] == 0
      {
        FoldHot(th, i);
        i := i - 1;
      }
    }

    /** The root becomes the table node of the empty mask. */
    method Start(th: HotTables)
      requires th.Clean() && Pow2(numHot) <= |th.hashtable|
      requires numHot <= itemno && nodes == [Fnode(0, 0, NULL, NULL)]
      requires nodenum == seq(itemno, _ => 0) && newDataNum == 0
      requires sh == Shape([[]], [[]]) && log == []
      modifies th`hashtable
      ensures Building(th) && th.hashtable == old(th.hashtable)[0 := 0]
    {
      th.hashtable := th.hashtable[0 := 0];
      ZeroBits(numHot);
      EmptyTree(nodes, sh, itemno, numHot, th.hashtable);
      NoDebt(th.hashtable, numHot, Pow2(numHot));
      EmptyAccount(sh);
    }
  }

  lemma EmptyAccount(sh: Shape)
    requires sh == Shape([[]], [[]])
    ensures LeafDepths(sh.path, sh.kids) == 0
  {
    assert sh.path[..0] == [];
  }

  lemma EmptyTree(nodes: seq<Fnode>, sh: Shape, itemno: nat, numHot: nat, hashtable: seq<int>)
    requires nodes == [Fnode(0, 0, NULL, NULL)] && sh == Shape([[]], [[]])
    requires Pow2(numHot) <= |hashtable| && hashtable[0] == 0
    requires forall m :: 1 <= m < |hashtable| ==> hashtable[m] == NULL
    ensures WellFormed(nodes, sh) && PathsOk(nodes, sh, itemno)
    ensures HashOk(hashtable, sh, numHot) && Owned(sh, hashtable, numHot, Top(numHot))
    ensures NodeNums(seq(itemno, _ => 0), nodes, sh)
    ensures FastComplete(map[], sh, numHot)
    ensures forall c :: !IsKid(sh, c)
  {
    hide *;
    BareRoot(nodes, sh, itemno);
    BareTable(hashtable, sh, numHot);
    BareNodeNums(nodes, sh, itemno);
    BareFast(sh, numHot);
  }

  lemma BareRoot(nodes: seq<Fnode>, sh: Shape, itemno: nat)
    requires nodes == [Fnode(0, 0, NULL, NULL)] && sh == Shape([[]], [[]])
    ensures WellFormed(nodes, sh) && PathsOk(nodes, sh, itemno) && forall c :: !IsKid(sh, c)
  {
    forall p | 0 <= p < |nodes| ensures FirstOk(nodes, sh, p) {}
  }

  lemma BareTable(hashtable: seq<int>, sh: Shape, numHot: nat)
    requires sh == Shape([[]], [[]]) && Pow2(numHot) <= |hashtable| && hashtable[0] == 0
    requires forall m :: 1 <= m < |hashtable| ==> hashtable[m] == NULL
    ensures HashOk(hashtable, sh, numHot) && Owned(sh, hashtable, numHot, Top(numHot))
  {
    hide Pow2;
    ZeroBits(numHot);
    forall m | 0 <= m < Pow2(numHot) ensures HashEntry(hashtable[m], sh, m, numHot) {
      if m == 0 { assert sh.path[0] == []; }
    }
  }

  lemma BareNodeNums(nodes: seq<Fnode>, sh: Shape, itemno: nat)
    requires forall c :: !IsKid(sh, c)
    ensures NodeNums(seq(itemno, _ => 0), nodes, sh)
  {
    hide IsKid;
    forall x | 0 <= x < itemno ensures |KidsOf(nodes, sh, x)| == 0 {
      assert KidsOf(nodes, sh, x) == {};
    }
  }

  lemma BareFast(sh: Shape, numHot: nat)
    requires sh == Shape([[]], [[]])
    ensures FastComplete(map[], sh, numHot)
  {
    hide Bits, Pow2;
    forall path | path != [] ensures !HasPath(sh, path) {}
  }

  /** Take back every shortcut that was patched in. */
  method ResetShortcuts(th: HotTables)
    requires forall e :: e in th.fast ==> e in th.backpatch
    modifies th`fast, th`backpatch
    ensures th.fast == map[] && th.backpatch == []
  {
    var i := 0;
    while i < |th.backpatch|
      invariant 0 <= i <= |th.backpatch| && th.backpatch == old(th.backpatch)
      invariant forall e :: e in th.fast ==> e in th.backpatch[i..]
    {
      th.fast := th.fast - {th.backpatch[i]};
      i := i + 1;
    }
    th.backpatch := [];
  }

  ghost predicate CoveredRows(rows: seq<Row>, sh: Shape) {
    forall k :: 0 <= k < |rows| ==> CoveredRow(rows[k], sh)
  }

  ghost predicate CoveredRow(row: Row, sh: Shape) {
    forall j :: 0 < j <= |row.ids| ==> HasPath(sh, row.ids[..j])
  }

  ghost predicate AllLinked(sh: Shape) {
    forall c :: 0 < c < |sh.path| ==> IsKid(sh, c)
  }

  /** The prefix tree of the rows: its paths are the prefixes of the rows, each with the weight of the
      rows through it. */
  ghost predicate Represents(nodes: seq<Fnode>, sh: Shape, rows: seq<Row>, itemno: nat) {
    && WellFormed(nodes, sh)
    && PathsOk(nodes, sh, itemno)
    && AllLinked(sh)
    && Counts(nodes, sh, rows)
    && Used(sh, rows)
    && CoveredRows(rows, sh)
  }

  lemma {:induction false} NoDebt(hashtable: seq<int>, numHot: nat, m: nat)
    requires m <= Pow2(numHot) <= |hashtable|
    requires forall b :: 0 < b < |hashtable| ==> hashtable[b] == NULL
    ensures HotDebt(hashtable, numHot, m) == 0
  {
    if m > 1 { NoDebt(hashtable, numHot, m - 1); }
  }

  lemma SweptRowsCovered(log: seq<HotRow>, sh: Shape, hashtable: seq<int>, numHot: nat, itemno: nat)
    requires LogOk(log, numHot, itemno) && CoverAll(log, sh, hashtable, numHot, 0)
    requires forall b :: 0 < b < |hashtable| ==> hashtable[b] == NULL
    ensures CoveredRows(Rows(log, numHot, itemno), sh)
  {
    var rows := Rows(log, numHot, itemno);
    forall k | 0 <= k < |rows| ensures CoveredRow(rows[k], sh) {
      assert CoverAt(log[k], sh, hashtable, numHot, 0);
      ZeroBits(numHot);
    }
  }

  lemma FrontSize(sh: Shape, p: nat, h: nat)
    requires p < |sh.kids|
    ensures |FrontShape(sh, p, h).kids| == |sh.kids| && FrontShape(sh, p, h).path == sh.path
  {
  }

  lemma NewHotNode(sh: Shape, m: nat, numHot: nat)
    requires m < Pow2(numHot)
    ensures |WithHot(sh, m, numHot).path| == |sh.path| + 1 && |WithHot(sh, m, numHot).kids| == |sh.kids| + 1
  {
  }

  lemma HashPointers(hashtable: seq<int>, sh: Shape, numHot: nat, i: nat, parent: nat)
    requires HashOk(hashtable, sh, numHot) && i < Pow2(numHot) <= |hashtable| && parent < i
    requires hashtable[i] != NULL && hashtable[parent] != NULL
    ensures 0 <= hashtable[i] < |sh.path| && 0 <= hashtable[parent] < |sh.path|
  {
    assert HashEntry(hashtable[i], sh, i, numHot) && HashEntry(hashtable[parent], sh, parent, numHot);
  }

  lemma MakeLinkable(nodes: seq<Fnode>, sh: Shape, hashtable: seq<int>, numHot: nat, itemno: nat, i: nat, p: nat,
          h: nat)
    requires WellFormed(nodes, sh) && PathsOk(nodes, sh, itemno)
    requires HashOk(hashtable, sh, numHot) && Owned(sh, hashtable, numHot, i)
    requires 0 < i < Pow2(numHot) <= |hashtable| && p < |nodes| && h < |nodes|
    requires hashtable[i] == h && hashtable[Parent(i, numHot)] == p
    ensures Linkable(nodes, sh, hashtable, numHot, itemno, i, p, h)
  {
  }

  /** The tables while the sweep stands at mask i. */
  ghost predicate SweepTables(hashtable: seq<int>, hotCount: seq<nat>, sh: Shape, log: seq<HotRow>, numHot: nat,
          itemno: nat, i: nat) {
    && LogOk(log, numHot, itemno)
    && i < Pow2(numHot)
    && CoverAll(log, sh, hashtable, numHot, i)
    && HotCounts(hotCount, log, numHot, i)
    && HashUsed(hashtable, numHot, Rows(log, numHot, itemno))
  }

  lemma ParentTables(hashtable: seq<int>, hotCount: seq<nat>, sh: Shape, log: seq<HotRow>, numHot: nat, itemno: nat,
          i: nat, parent: nat, e: int)
    requires SweepTables(hashtable, hotCount, sh, log, numHot, itemno, i)
    requires 0 < i < Pow2(numHot) <= |hashtable| && hashtable[i] != NULL && parent == Parent(i, numHot) && e != NULL
    ensures SweepTables(hashtable[parent := e], hotCount, WithHot(sh, parent, numHot), log, numHot, itemno, i)
  {
    BitsOfParent(i, numHot);
    HashUsedParent(hashtable, numHot, Rows(log, numHot, itemno), i, parent, e);
    HotGrownCover(log, sh, hashtable, numHot, i, parent, e);
  }

  lemma LinkTables(nodes: seq<Fnode>, sh: Shape, hashtable: seq<int>, hotCount: seq<nat>, log: seq<HotRow>,
                   numHot: nat, itemno: nat, i: nat, p: nat, h: nat)
    requires Linkable(nodes, sh, hashtable, numHot, itemno, i, p, h)
    requires SweepTables(hashtable, hotCount, sh, log, numHot, itemno, i) && Pow2(numHot) <= |hotCount|
    ensures var parent := Parent(i, numHot);
            SweepTables(hashtable[i := NULL], hotCount[parent := hotCount[parent] + hotCount[i]][i := 0],
                        FrontShape(sh, p, h), log, numHot, itemno, i - 1)
    ensures hotCount[i] == PrefixWeight(Rows(log, numHot, itemno), sh.path[h])
    ensures UsedAt(sh.path[h], Rows(log, numHot, itemno))
  {
    LinkPaths(nodes, sh, hashtable, numHot, itemno, i, p, h);
    LiftWeightIsPrefixWeight(log, numHot, itemno, i);
    HotCountsFolded(log, hotCount, numHot, i);
    LinkCover(log, nodes, sh, hashtable, numHot, itemno, i, p, h);
  }

  lemma HashUsedParent(hashtable: seq<int>, numHot: nat, rows: seq<Row>, i: nat, parent: nat, e: int)
    requires HashUsed(hashtable, numHot, rows) && parent < |hashtable|
    requires i < Pow2(numHot) && parent < Pow2(numHot)
    requires UsedAt(Bits(i, numHot), rows) && Bits(parent, numHot) <= Bits(i, numHot)
    ensures HashUsed(hashtable[parent := e], numHot, rows)
  {
    forall m | 1 <= m < Pow2(numHot) && m < |hashtable| && hashtable[parent := e][m] != NULL
      ensures UsedAt(Bits(m, numHot), rows)
    {
      if m == parent {
        var k :| 0 <= k < |rows| && Bits(i, numHot) <= rows[k].ids;
        assert Bits(m, numHot) <= rows[k].ids;
      }
    }
  }

  lemma UnliftedMask(m: nat, numHot: nat)
    requires m < Pow2(numHot)
    ensures Lift(m, Top(numHot), numHot) == m
  {
  }

  lemma HotCountsAdded(hotCount: seq<nat>, log: seq<HotRow>, r: HotRow, numHot: nat)
    requires forall k :: 0 <= k < |log| ==> log[k].mask < Pow2(numHot)
    requires r.mask < Pow2(numHot) && HotCounts(hotCount, log, numHot, Top(numHot))
    ensures forall k :: 0 <= k < |log + [r]| ==> (log + [r])[k].mask < Pow2(numHot)
    ensures HotCounts(hotCount[r.mask := hotCount[r.mask] + r.weight], log + [r], numHot, Top(numHot))
  {
    hide Lift, LiftWeight, Pow2;
    forall m | 1 <= m <= Top(numHot)
      ensures LiftWeight(log + [r], numHot, Top(numHot), m)
           == LiftWeight(log, numHot, Top(numHot), m) + (if r.mask == m then r.weight else 0)
    {
      LiftWeightAppend(log, r, numHot, m);
    }
  }

  lemma LiftWeightAppend(log: seq<HotRow>, r: HotRow, numHot: nat, m: nat)
    requires r.mask < Pow2(numHot) && forall k :: 0 <= k < |log| ==> log[k].mask < Pow2(numHot)
    ensures LiftWeight(log + [r], numHot, Top(numHot), m)
         == LiftWeight(log, numHot, Top(numHot), m) + (if r.mask == m then r.weight else 0)
  {
    hide Lift, Pow2, Top;
    assert (log + [r])[..|log|] == log;
    UnliftedMask(r.mask, numHot);
  }

  /** Below the first non-hot item no shortcut is concerned. */
  lemma FastDeeper(fast: map<(nat, nat), int>, sh: Shape, numHot: nat, itemno: nat, r: HotRow, i: nat, p: nat)
    requires p < |sh.path| == |sh.kids| && RowOk(r, numHot, itemno) && i < |r.rest|
    requires sh.path[p] == Bits(r.mask, numHot) + r.rest[..i]
    requires i == 0 ==> r.mask >= FAST_RIGHTSIB_TABLE_SIZE
    requires FastSound(fast, sh, numHot) && FastComplete(fast, sh, numHot)
    ensures FastSound(fast, GrownShape(sh, p, r.rest[i]), numHot)
    ensures FastComplete(fast, GrownShape(sh, p, r.rest[i]), numHot)
  {
    forall m, x | 0 <= m < Pow2(numHot) && m < FAST_RIGHTSIB_TABLE_SIZE && numHot <= x
      ensures sh.path[p] + [r.rest[i]] != Bits(m, numHot) + [x]
    {
      if sh.path[p] + [r.rest[i]] == Bits(m, numHot) + [x] { FirstNonHot(r, numHot, itemno, i, m, x); }
    }
    FastGrown(fast, sh, numHot, p, r.rest[i]);
  }

  lemma FirstNonHot(r: HotRow, numHot: nat, itemno: nat, i: nat, m: nat, x: nat)
    requires RowOk(r, numHot, itemno) && i < |r.rest| && m < Pow2(numHot)
    requires Bits(r.mask, numHot) + r.rest[..i] + [r.rest[i]] == Bits(m, numHot) + [x]
    ensures i == 0 && m == r.mask && x == r.rest[0]
  {
    SameFront(Bits(r.mask, numHot) + r.rest[..i], r.rest[i], Bits(m, numHot), x);
    BitsAscending(m, numHot);
    assert Bits(r.mask, numHot) + r.rest[..i] == Bits(m, numHot);
    var k := |Bits(r.mask, numHot)|;
    assert At(Bits(m, numHot), k) == At(Bits(r.mask, numHot) + r.rest[..i], k);
    assert i == 0;
    assert Bits(r.mask, numHot) == Bits(r.mask, numHot) + r.rest[..0];
    BitsInjective(m, r.mask, numHot);
  }

  lemma FastPatched(fast: map<(nat, nat), int>, sh: Shape, numHot: nat, itemno: nat, r: HotRow, p: nat)
    requires p < |sh.path| == |sh.kids| && RowOk(r, numHot, itemno) && r.rest != []
    requires sh.path[p] == Bits(r.mask, numHot)
    requires FastSound(fast, sh, numHot) && FastComplete(fast, sh, numHot)
    ensures FastSound(fast[(r.mask, r.rest[0]) := |sh.path|], GrownShape(sh, p, r.rest[0]), numHot)
    ensures FastComplete(fast[(r.mask, r.rest[0]) := |sh.path|], GrownShape(sh, p, r.rest[0]), numHot)
  {
    var fast', sh' := fast[(r.mask, r.rest[0]) := |sh.path|], GrownShape(sh, p, r.rest[0]);
    forall e | e in fast' ensures FastEntry(fast'[e], e, sh', numHot) {
      if e != (r.mask, r.rest[0]) { assert FastEntry(fast[e], e, sh, numHot); }
    }
    forall m, x | 0 <= m < Pow2(numHot) && m < FAST_RIGHTSIB_TABLE_SIZE && numHot <= x && (m, x) !in fast'
      ensures !HasPath(sh', Bits(m, numHot) + [x])
    {
      HasPathGrown(sh, p, r.rest[0], Bits(m, numHot) + [x]);
      if sh.path[p] + [r.rest[0]] == Bits(m, numHot) + [x] {
        SameFront(sh.path[p], r.rest[0], Bits(m, numHot), x);
        BitsInjective(m, r.mask, numHot);
      }
    }
  }

  lemma NothingBelowLeaf(nodes: seq<Fnode>, sh: Shape, hashtable: seq<int>, numHot: nat, itemno: nat,
                         base: seq<nat>, rest: seq<nat>, i: nat, p: nat)
    requires WellFormed(nodes, sh) && PathsOk(nodes, sh, itemno) && Owned(sh, hashtable, numHot, Top(numHot))
    requires p < |nodes| && sh.kids[p] == []
    requires i <= |rest| && sh.path[p] == base + rest[..i]
    requires i < |rest| ==> numHot <= rest[i]
    ensures i < |rest| ==> !HasPath(sh, base + rest[..i + 1])
  {
    if i < |rest| {
      assert base + rest[..i + 1] == sh.path[p] + [rest[i]];
      NoKidNoPath(nodes, sh, hashtable, numHot, itemno, Top(numHot), p, rest[i]);
    }
  }

  lemma ChainHasGrown(sh: Shape, base: seq<nat>, rest: seq<nat>, i: nat, p: nat)
    requires ChainHas(sh, base, rest, i) && i < |rest|
    requires p < |sh.path| == |sh.kids| && sh.path[p] == base + rest[..i]
    ensures ChainHas(GrownShape(sh, p, rest[i]), base, rest, i + 1)
  {
    forall j | 0 < j <= i + 1 ensures HasPath(GrownShape(sh, p, rest[i]), base + rest[..j]) {
      HasPathGrown(sh, p, rest[i], base + rest[..j]);
      if j == i + 1 { assert base + rest[..j] == sh.path[p] + [rest[i]]; }
    }
  }

  /** The first missing prefix of a new row: what the node for it must be. */
  lemma NextPath(log: seq<HotRow>, r: HotRow, sh: Shape, hashtable: seq<int>, numHot: nat, itemno: nat, i: nat)
    requires LogOk(log, numHot, itemno) && RowOk(r, numHot, itemno) && numHot <= itemno
    requires CoverAll(log, sh, hashtable, numHot, Top(numHot))
    requires i < |r.rest| && !HasPath(sh, Bits(r.mask, numHot) + r.rest[..i + 1])
    ensures LogOk(log + [r], numHot, itemno)
    ensures var path, rows := Bits(r.mask, numHot) + r.rest[..i + 1], Rows(log + [r], numHot, itemno);
            Ascending(path) && Below(path, itemno) && UsedAt(path, rows) && PrefixWeight(rows, path) == r.weight
  {
    RowsAppend(log, r, numHot, itemno);
    var path, rows := Bits(r.mask, numHot) + r.rest[..i + 1], Rows(log, numHot, itemno);
    var row := Row(Ids(r, numHot), r.weight);
    PathOfRow(r, numHot, itemno, i);
    hide *;
    NoPathNoWeight(log, sh, hashtable, numHot, itemno, path);
    PrefixWeightAppend(rows, row, path);
    UsedAtMore(path, rows, row);
  }

  lemma PathOfRow(r: HotRow, numHot: nat, itemno: nat, i: nat)
    requires RowOk(r, numHot, itemno) && numHot <= itemno && i < |r.rest|
    ensures var path := Bits(r.mask, numHot) + r.rest[..i + 1];
            Ascending(path) && Below(path, itemno) && path <= Ids(r, numHot) && !Hot(path, numHot)
  {
    var path := Bits(r.mask, numHot) + r.rest[..i + 1];
    IdsAscending(r, numHot, itemno);
    assert path == Ids(r, numHot)[..|path|];
    assert path[|path| - 1] == r.rest[i];
  }

  lemma EndsInLast(path: seq<nat>, item: nat, n: nat)
    requires Below(path + [item], n)
    ensures item < n
  {
    assert (path + [item])[|path|] == item;
  }

  lemma InitialBump(nodes: seq<Fnode>, sh: Shape, base: seq<nat>, rest: seq<nat>, counts: nat)
    requires WellFormed(nodes, sh)
    ensures Bumped(nodes, nodes, sh, base, rest, 0, counts)
  {
  }

  lemma KidExtends(nodes: seq<Fnode>, sh: Shape, p: nat, c: nat)
    requires WellFormed(nodes, sh) && p < |nodes| && c in sh.kids[p]
    ensures c < |nodes| && sh.path[c] == sh.path[p] + [nodes[c].itemname]
  {
    var k :| 0 <= k < |sh.kids[p]| && sh.kids[p][k] == c;
    assert KidOk(nodes, sh, p, k);
  }
}
