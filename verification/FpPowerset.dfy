/** The single-path shortcut: all nonempty subsets of a path, counted by the running binomial. */
module FpPowerset {
  import opened FpDatabase
  import opened FpArena
  import opened FpTraversal
  import opened FpMining

  /** The order in which the recursion lists the subsets of {cur, .., n-1} added to what is chosen. */
  ghost function Subsets(n: nat, cur: nat, chosen: seq<nat>): seq<seq<nat>>
    decreases n - cur
  {
    if cur >= n then (if chosen == [] then [] else [chosen])
    else Subsets(n, cur + 1, chosen) + Subsets(n, cur + 1, chosen + [cur])
  }

  /** An ascending list below n that extends what is chosen by elements from cur on. */
  ghost predicate Extends(n: nat, cur: nat, chosen: seq<nat>, ids: seq<nat>) {
    && ids != [] && chosen <= ids && Ascending(ids) && Below(ids, n)
    && forall i :: |chosen| <= i < |ids| ==> cur <= ids[i]
  }

  ghost predicate ChosenOk(cur: nat, chosen: seq<nat>) {
    Ascending(chosen) && Below(chosen, cur)
  }

  lemma {:induction false} SubsetsSound(n: nat, cur: nat, chosen: seq<nat>, ids: seq<nat>)
    requires ChosenOk(cur, chosen) && cur <= n && ids in Subsets(n, cur, chosen)
    ensures Extends(n, cur, chosen, ids)
    decreases n - cur
  {
    if cur < n {
      if ids in Subsets(n, cur + 1, chosen) {
        SubsetsSound(n, cur + 1, chosen, ids);
      } else {
        SubsetsSound(n, cur + 1, chosen + [cur], ids);
        assert ids[|chosen|] == (chosen + [cur])[|chosen|];
      }
    }
  }

  /** Either the list goes on with cur, or with something behind it. */
  lemma ExtendsOn(n: nat, cur: nat, chosen: seq<nat>, ids: seq<nat>)
    requires cur < n && Extends(n, cur, chosen, ids)
    ensures Extends(n, cur + 1, chosen, ids) || Extends(n, cur + 1, chosen + [cur], ids)
  {
    if |chosen| < |ids| && ids[|chosen|] == cur {
      assert chosen + [cur] == ids[..|chosen| + 1];
    }
  }

  lemma ExtendsEnd(n: nat, chosen: seq<nat>, ids: seq<nat>)
    requires Extends(n, n, chosen, ids)
    ensures ids == chosen
  {
    assert At(ids, |chosen|) < n;
  }

  lemma {:induction false} SubsetsComplete(n: nat, cur: nat, chosen: seq<nat>, ids: seq<nat>)
    requires cur <= n && Extends(n, cur, chosen, ids)
    ensures ids in Subsets(n, cur, chosen)
    decreases n - cur
  {
    assert ids != [];
    hide Extends;
    if cur < n {
      ExtendsOn(n, cur, chosen, ids);
      if Extends(n, cur + 1, chosen, ids) {
        SubsetsComplete(n, cur + 1, chosen, ids);
      } else {
        SubsetsComplete(n, cur + 1, chosen + [cur], ids);
      }
    } else {
      ExtendsEnd(n, chosen, ids);
    }
  }

  lemma {:induction false} SubsetsDistinct(n: nat, cur: nat, chosen: seq<nat>)
    requires ChosenOk(cur, chosen) && cur <= n
    ensures Distinct(Subsets(n, cur, chosen))
    decreases n - cur
  {
    if cur < n {
      var without, with_ := Subsets(n, cur + 1, chosen), Subsets(n, cur + 1, chosen + [cur]);
      SubsetsDistinct(n, cur + 1, chosen);
      SubsetsDistinct(n, cur + 1, chosen + [cur]);
      assert (chosen + [cur])[|chosen|] == cur;
      forall ids | ids in without ensures ids !in with_ {
        SubsetsSound(n, cur + 1, chosen, ids);
        if ids in with_ { SubsetsSound(n, cur + 1, chosen + [cur], ids); }
      }
      DistinctConcat(without, with_);
    }
  }

  // ---- Sizes -------------------------------------------------------------------------------------

  function Binom(n: nat, k: nat): nat {
    if k == 0 then 1 else if n == 0 then 0 else Binom(n - 1, k - 1) + Binom(n - 1, k)
  }

  ghost function CountSize(lists: seq<seq<nat>>, k: nat): nat {
    if lists == [] then 0 else CountSize(lists[..|lists| - 1], k) + (if |lists[|lists| - 1]| == k then 1 else 0)
  }

  lemma {:induction false} CountSizeConcat(a: seq<seq<nat>>, b: seq<seq<nat>>, k: nat)
    ensures CountSize(a + b, k) == CountSize(a, k) + CountSize(b, k)
  {
    if b == [] {
      assert a + b == a;
    } else {
      CountSizeConcat(a, b[..|b| - 1], k);
      assert (a + b)[..|a + b| - 1] == a + b[..|b| - 1];
    }
  }

  /** There are Binom(m, j) ways to add j of the m remaining elements. */
  lemma {:induction false} SubsetsOfSize(n: nat, cur: nat, chosen: seq<nat>, k: nat)
    requires cur <= n && 0 < k
    ensures CountSize(Subsets(n, cur, chosen), k) == if k < |chosen| then 0 else Binom(n - cur, k - |chosen|)
    decreases n - cur
  {
    if cur >= n {
      if chosen != [] { assert [chosen][..0] == []; }
    } else {
      SubsetsOfSize(n, cur + 1, chosen, k);
      SubsetsOfSize(n, cur + 1, chosen + [cur], k);
      CountSizeConcat(Subsets(n, cur + 1, chosen), Subsets(n, cur + 1, chosen + [cur]), k);
    }
  }

  lemma BinomAbsorb(n: nat, k: nat)
    requires 1 <= n && 1 <= k
    ensures k * Binom(n, k) == n * Binom(n - 1, k - 1)
    decreases n
  {
    if n == 1 {
      if k >= 2 { assert Binom(0, k - 1) == 0; }
    } else {
      BinomAbsorb(n - 1, k);
      var a, b := Binom(n - 1, k - 1), Binom(n - 1, k);
      if k == 1 {
        assert n * Binom(n - 1, 0) == n;
        assert (n - 1) * Binom(n - 2, 0) == n - 1;
      } else {
        BinomAbsorb(n - 1, k - 1);
        var c, d := Binom(n - 2, k - 2), Binom(n - 2, k - 1);
        AbsorbSum(n, k, a, b, c, d);
      }
    }
  }

  lemma AbsorbSum(n: int, k: int, a: int, b: int, c: int, d: int)
    requires a == c + d && k * b == (n - 1) * d && (k - 1) * a == (n - 1) * c
    ensures k * (a + b) == n * a
  {
    assert k * (a + b) == (k - 1) * a + a + k * b;
    assert (n - 1) * c + (n - 1) * d == (n - 1) * (c + d);
    assert n * a == (n - 1) * a + a;
  }

  /** Each step of the running product is an exact division: what the ITlen loop relies on. */
  lemma BinomStep(n: nat, k: nat)
    requires 1 <= k <= n
    ensures Binom(n, k - 1) * (n - k + 1) == Binom(n, k) * k
    ensures Binom(n, k - 1) * (n - k + 1) / k == Binom(n, k)
  {
    BinomAbsorb(n, k);
    if k > 1 { BinomAbsorb(n, k - 1); }
    var b := if k > 1 then Binom(n - 1, k - 2) else 0;
    StepSum(n, k, Binom(n - 1, k - 1), b, Binom(n, k - 1), Binom(n, k));
    ExactDivision(Binom(n, k), k);
  }

  lemma StepSum(n: int, k: int, a: int, b: int, c: int, d: int)
    requires c == a + b && (k - 1) * c == n * b && k * d == n * a
    ensures c * (n - k + 1) == d * k
  {
    assert c * (n - k + 1) == c * n - (k - 1) * c;
    assert c * n == n * a + n * b;
  }

  lemma ExactDivision(q: nat, k: nat)
    requires k > 0
    ensures q * k / k == q
  {
    QuotientUnique(q * k, k, q);
  }

  lemma QuotientUnique(n: nat, k: nat, q: nat)
    requires k > 0 && n == q * k
    ensures n / k == q
  {
    var d, m := n / k, n % k;
    assert n == k * d + m;
    if q > d { Times(k, d + 1, q); }
    if q < d { Times(k, q + 1, d); }
  }

  lemma Times(k: nat, a: nat, b: nat)
    requires a <= b
    ensures k * a <= k * b && k * a == a * k && k * b == b * k
  {
  }

  // ---- What the subsets emit ---------------------------------------------------------------------

  function ItemsOf(table: seq<Item>, ids: seq<nat>): (items: seq<Item>)
    requires forall k :: 0 <= k < |ids| ==> ids[k] < |table|
    ensures |items| == |ids| && forall k :: 0 <= k < |ids| ==> items[k] == table[ids[k]]
  {
    seq(|ids|, k requires 0 <= k < |ids| => table[ids[k]])
  }

  /** On a single path the support of a set is the count of its deepest item. */
  ghost predicate PathSupport(db: Database, table: seq<Item>, count: seq<nat>, threshold: nat) {
    && |count| == |table|
    && forall ids :: Extends(|table|, 0, [], ids) ==>
         Support(db, ToSet(ItemsOf(table, ids))) == count[ids[|ids| - 1]] && threshold <= count[ids[|ids| - 1]]
  }

  ghost function Line(p: seq<Item>, table: seq<Item>, count: seq<nat>, ids: seq<nat>): Emission
    requires |count| == |table| && Extends(|table|, 0, [], ids)
  {
    Emission(p + ItemsOf(table, ids), count[ids[|ids| - 1]])
  }

  ghost function Lines(p: seq<Item>, table: seq<Item>, count: seq<nat>, lists: seq<seq<nat>>): (out: seq<Emission>)
    requires |count| == |table| && forall k :: 0 <= k < |lists| ==> Extends(|table|, 0, [], lists[k])
    ensures |out| == |lists| && forall k :: 0 <= k < |lists| ==> out[k] == Line(p, table, count, lists[k])
  {
    if lists == [] then []
    else Lines(p, table, count, lists[..|lists| - 1]) + [Line(p, table, count, lists[|lists| - 1])]
  }

  lemma {:induction false} LinesConcat(p: seq<Item>, table: seq<Item>, count: seq<nat>, a: seq<seq<nat>>,
          b: seq<seq<nat>>)
    requires |count| == |table|
    requires forall k :: 0 <= k < |a| ==> Extends(|table|, 0, [], a[k])
    requires forall k :: 0 <= k < |b| ==> Extends(|table|, 0, [], b[k])
    ensures forall k :: 0 <= k < |a + b| ==> Extends(|table|, 0, [], (a + b)[k])
    ensures Lines(p, table, count, a + b) == Lines(p, table, count, a) + Lines(p, table, count, b)
  {
  }

  lemma LineItems(p: seq<Item>, table: seq<Item>, count: seq<nat>, ids: seq<nat>)
    requires |count| == |table| && Extends(|table|, 0, [], ids)
    requires Distinct(table) && Distinct(p) && DisjointFrom(ToSet(p), table)
    ensures var e := Line(p, table, count, ids);
            && Distinct(e.items) && |e.items| == |p| + |ids|
            && ToSet(e.items) == ToSet(p) + ToSet(ItemsOf(table, ids))
            && ToSet(e.items) - ToSet(p) == ToSet(ItemsOf(table, ids))
            && ToSet(ItemsOf(table, ids)) <= ToSet(table) && ToSet(ItemsOf(table, ids)) != {}
  {
    var items := ItemsOf(table, ids);
    forall i, j | 0 <= i < j < |items| ensures items[i] != items[j] { assert ids[i] < ids[j]; }
    forall x | x in items ensures x in table && x !in ToSet(p) {
      var k :| 0 <= k < |items| && items[k] == x;
      assert table[ids[k]] == x;
    }
    DistinctConcat(p, items);
    assert items[0] in items;
    assert forall x :: x in p + items <==> x in p || x in items;
  }

  lemma LineSound(p: seq<Item>, db: Database, table: seq<Item>, count: seq<nat>, threshold: nat, ids: seq<nat>)
    requires PathSupport(db, table, count, threshold) && Extends(|table|, 0, [], ids)
    requires Distinct(table) && Distinct(p) && DisjointFrom(ToSet(p), table)
    ensures SoundAt(Line(p, table, count, ids), ToSet(p), db, table, 0, threshold)
  {
    LineItems(p, table, count, ids);
    var s := ToSet(ItemsOf(table, ids));
    assert table[ids[0]] in s by { assert ItemsOf(table, ids)[0] in ItemsOf(table, ids); }
  }

  /** A set of items is the items of exactly one ascending list. */
  lemma IdsOfSet(table: seq<Item>, s: set<Item>) returns (ids: seq<nat>)
    requires Distinct(table) && s <= ToSet(table) && s != {}
    ensures Extends(|table|, 0, [], ids) && ToSet(ItemsOf(table, ids)) == s
  {
    ids := Encode(table, s, |table|);
    var x :| x in s;
    assert x in table;
    var i :| 0 <= i < |table| && table[i] == x;
    assert i in ids;
    var items := ItemsOf(table, ids);
    forall y ensures y in items <==> y in s {
      if y in s {
        assert y in table;
        var k :| 0 <= k < |table| && table[k] == y;
        assert k in ids;
        var j :| 0 <= j < |ids| && ids[j] == k;
        assert items[j] == y;
      }
      if y in items {
        var j :| 0 <= j < |items| && items[j] == y;
        assert ids[j] in ids;
      }
    }
  }

  lemma SameItems(table: seq<Item>, a: seq<nat>, b: seq<nat>)
    requires Distinct(table) && Extends(|table|, 0, [], a) && Extends(|table|, 0, [], b)
    requires ToSet(ItemsOf(table, a)) == ToSet(ItemsOf(table, b))
    ensures a == b
  {
    forall x ensures x in a <==> x in b {
      if x in a { SameItem(table, a, b, x); }
      if x in b { SameItem(table, b, a, x); }
    }
    AscendingUnique(a, b);
  }

  lemma SameItem(table: seq<Item>, a: seq<nat>, b: seq<nat>, x: nat)
    requires Distinct(table) && Extends(|table|, 0, [], a) && Extends(|table|, 0, [], b)
    requires ToSet(ItemsOf(table, a)) == ToSet(ItemsOf(table, b)) && x in a
    ensures x in b
  {
    var k :| 0 <= k < |a| && a[k] == x;
    assert ItemsOf(table, a)[k] in ToSet(ItemsOf(table, a));
    assert table[x] in ItemsOf(table, b);
    var j :| 0 <= j < |b| && ItemsOf(table, b)[j] == table[x];
    assert b[j] == x;
  }

  ghost function AllSubsets(n: nat): (lists: seq<seq<nat>>)
    ensures forall k :: 0 <= k < |lists| ==> Extends(n, 0, [], lists[k])
  {
    var lists := Subsets(n, 0, []);
    assert forall k :: 0 <= k < |lists| ==> Extends(n, 0, [], lists[k]) by {
      forall k | 0 <= k < |lists| ensures Extends(n, 0, [], lists[k]) {
        assert lists[k] in lists;
        SubsetsSound(n, 0, [], lists[k]);
      }
    }
    lists
  }

  ghost predicate PathLevel(p: seq<Item>, db: Database, table: seq<Item>, count: seq<nat>, threshold: nat) {
    && PathSupport(db, table, count, threshold)
    && Distinct(table) && Distinct(p) && DisjointFrom(ToSet(p), table)
  }

  ghost function PathLines(p: seq<Item>, table: seq<Item>, count: seq<nat>): seq<Emission>
    requires |count| == |table|
  {
    Lines(p, table, count, AllSubsets(|table|))
  }

  lemma PathSound(p: seq<Item>, db: Database, table: seq<Item>, count: seq<nat>, threshold: nat)
    requires PathLevel(p, db, table, count, threshold)
    ensures Sound(PathLines(p, table, count), ToSet(p), db, table, 0, threshold)
  {
    var lists := AllSubsets(|table|);
    forall k | 0 <= k < |lists| ensures SoundAt(PathLines(p, table, count)[k], ToSet(p), db, table, 0, threshold) {
      LineSound(p, db, table, count, threshold, lists[k]);
    }
  }

  lemma PathUnique(p: seq<Item>, db: Database, table: seq<Item>, count: seq<nat>, threshold: nat)
    requires PathLevel(p, db, table, count, threshold)
    ensures Unique(PathLines(p, table, count))
  {
    var lists, out := AllSubsets(|table|), PathLines(p, table, count);
    SubsetsDistinct(|table|, 0, []);
    forall i, j | 0 <= i < j < |out| ensures ToSet(out[i].items) != ToSet(out[j].items) {
      LineItems(p, table, count, lists[i]);
      LineItems(p, table, count, lists[j]);
      if ToSet(out[i].items) == ToSet(out[j].items) { SameItems(table, lists[i], lists[j]); }
    }
  }

  lemma PathComplete(p: seq<Item>, db: Database, table: seq<Item>, count: seq<nat>, threshold: nat)
    requires PathLevel(p, db, table, count, threshold)
    ensures Complete(PathLines(p, table, count), ToSet(p), db, table, 0, threshold)
  {
    var lists, out := AllSubsets(|table|), PathLines(p, table, count);
    forall s | Family(db, table, 0, threshold, s) ensures Found(out, ToSet(p) + s) {
      var ids := IdsOfSet(table, s);
      SubsetsComplete(|table|, 0, [], ids);
      var k :| 0 <= k < |lists| && lists[k] == ids;
      LineItems(p, table, count, ids);
      assert ToSet(out[k].items) == ToSet(p) + s;
    }
  }

  /** The powerset listing of a single path is exactly the output owed for the level. */
  lemma PowersetEmits(p: seq<Item>, db: Database, table: seq<Item>, count: seq<nat>, threshold: nat)
    requires |count| == |table| && PathLevel(p, db, table, count, threshold)
    ensures Emits(PathLines(p, table, count), ToSet(p), db, table, 0, threshold)
  {
    hide *;
    PathSound(p, db, table, count, threshold);
    PathUnique(p, db, table, count, threshold);
    PathComplete(p, db, table, count, threshold);
    EmitsWhole(PathLines(p, table, count), ToSet(p), db, table, 0, threshold);
  }

  lemma {:induction false} LinesSizes(p: seq<Item>, table: seq<Item>, count: seq<nat>, lists: seq<seq<nat>>, k: nat)
    requires |count| == |table| && forall k :: 0 <= k < |lists| ==> Extends(|table|, 0, [], lists[k])
    ensures CountLen(Lines(p, table, count, lists), |p| + k) == CountSize(lists, k)
  {
    if lists != [] {
      LinesSizes(p, table, count, lists[..|lists| - 1], k);
      var front := Lines(p, table, count, lists[..|lists| - 1]);
      CountLenConcat(front, [Line(p, table, count, lists[|lists| - 1])], |p| + k);
      assert [Line(p, table, count, lists[|lists| - 1])][..0] == [];
    }
  }

  lemma PathLinesAre(p: seq<Item>, table: seq<Item>, count: seq<nat>)
    requires |count| == |table|
    ensures PathLines(p, table, count) == Lines(p, table, count, AllSubsets(|table|))
    ensures AllSubsets(|table|) == Subsets(|table|, 0, [])
  {
  }

  /** The listing holds Binom(n, k) sets of k items beyond the prefix. */
  lemma PathSizes(p: seq<Item>, table: seq<Item>, count: seq<nat>, k: nat)
    requires |count| == |table| && 1 <= k
    ensures CountLen(PathLines(p, table, count), |p| + k) == Binom(|table|, k)
  {
    hide *;
    PathLinesAre(p, table, count);
    LinesSizes(p, table, count, AllSubsets(|table|), k);
    SubsetsOfSize(|table|, 0, [], k);
  }
}
