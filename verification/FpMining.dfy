/** What mining one level means: every frequent set over the level's items, once, with its support. */
module FpMining {
  import opened FpDatabase
  import opened FpTraversal

  /** One line of output: the items in the order they were pushed, and the support. */
  datatype Emission = Emission(items: seq<Item>, support: nat)

  /** The frequent sets over the header table whose largest order number is at least lo. */
  ghost predicate Family(db: Database, table: seq<Item>, lo: nat, threshold: nat, s: set<Item>) {
    && s <= ToSet(table)
    && (exists i :: lo <= i < |table| && table[i] in s)
    && threshold <= Support(db, s)
  }

  ghost predicate SoundAt(e: Emission, prefix: set<Item>, db: Database, table: seq<Item>, lo: nat, threshold: nat) {
    && Distinct(e.items)
    && prefix <= ToSet(e.items)
    && Family(db, table, lo, threshold, ToSet(e.items) - prefix)
    && e.support == Support(db, ToSet(e.items) - prefix)
  }

  ghost predicate Sound(out: seq<Emission>, prefix: set<Item>, db: Database, table: seq<Item>, lo: nat,
          threshold: nat) {
    forall k :: 0 <= k < |out| ==> SoundAt(out[k], prefix, db, table, lo, threshold)
  }

  ghost predicate Unique(out: seq<Emission>) {
    forall i, j :: 0 <= i < j < |out| ==> ToSet(out[i].items) != ToSet(out[j].items)
  }

  ghost predicate Found(out: seq<Emission>, s: set<Item>) {
    exists k :: 0 <= k < |out| && ToSet(out[k].items) == s
  }

  ghost predicate Complete(out: seq<Emission>, prefix: set<Item>, db: Database, table: seq<Item>, lo: nat,
          threshold: nat) {
    forall s :: Family(db, table, lo, threshold, s) ==> Found(out, prefix + s)
  }

  /** out names each set of the family exactly once, prefixed, with its exact support, and nothing else. */
  ghost predicate Emits(out: seq<Emission>, prefix: set<Item>, db: Database, table: seq<Item>, lo: nat,
          threshold: nat) {
    && Sound(out, prefix, db, table, lo, threshold)
    && Unique(out)
    && Complete(out, prefix, db, table, lo, threshold)
  }

  ghost predicate DisjointFrom(prefix: set<Item>, table: seq<Item>) {
    forall i :: 0 <= i < |table| ==> table[i] !in prefix
  }

  lemma NothingYet(prefix: set<Item>, db: Database, table: seq<Item>, lo: nat, threshold: nat)
    requires lo >= |table|
    ensures Emits([], prefix, db, table, lo, threshold)
  {
  }

  // ---- One step of the mining loop ---------------------------------------------------------------

  /** The conditional database of the x-th item, as far as sets over the items before it can tell. */
  ghost predicate Conditional(db: Database, table: seq<Item>, x: nat, condDb: Database, condTable: seq<Item>,
          threshold: nat)
    requires x < |table|
  {
    && ToSet(condTable) <= ToSet(table[..x])
    && (forall y :: y in ToSet(table[..x]) && threshold <= Support(condDb, {y}) ==> y in ToSet(condTable))
    && (forall s :: s <= ToSet(table[..x]) ==> Support(condDb, s) == Support(db, s + {table[x]}))
  }

  lemma ToSetAppend<T>(s: seq<T>, x: T)
    ensures ToSet(s + [x]) == ToSet(s) + {x}
  {
    assert x in s + [x];
    assert forall y :: y in s ==> y in s + [x];
  }

  lemma NotBefore(table: seq<Item>, x: nat)
    requires Distinct(table) && x < |table|
    ensures forall i :: x <= i < |table| ==> table[i] !in ToSet(table[..x])
  {
  }

  /** The set of the item alone. */
  lemma ItemAlone(p: seq<Item>, db: Database, table: seq<Item>, x: nat, threshold: nat)
    requires Distinct(table) && Distinct(p) && DisjointFrom(ToSet(p), table) && x < |table|
    requires threshold <= Support(db, {table[x]})
    ensures SoundAt(Emission(p + [table[x]], Support(db, {table[x]})), ToSet(p), db, table, x, threshold)
    ensures ToSet(p + [table[x]]) == ToSet(p) + {table[x]}
  {
    ToSetAppend(p, table[x]);
    assert ToSet(p + [table[x]]) - ToSet(p) == {table[x]};
    assert table[x] in table;
  }

  /** A set found over the conditional database, with the item put back. */
  lemma PutBack(e: Emission, prefix: set<Item>, db: Database, table: seq<Item>, x: nat, threshold: nat,
                condDb: Database, condTable: seq<Item>)
    requires Distinct(table) && DisjointFrom(prefix, table) && x < |table|
    requires Conditional(db, table, x, condDb, condTable, threshold)
    requires SoundAt(e, prefix + {table[x]}, condDb, condTable, 0, threshold)
    ensures SoundAt(e, prefix, db, table, x, threshold)
    ensures ToSet(e.items) != prefix + {table[x]}
    ensures forall i :: x < i < |table| ==> table[i] !in ToSet(e.items)
  {
    var s := ToSet(e.items) - (prefix + {table[x]});
    assert s <= ToSet(condTable) <= ToSet(table[..x]);
    NotBefore(table, x);
    assert ToSet(e.items) - prefix == s + {table[x]};
    assert table[x] in table;
    forall y | y in s + {table[x]} ensures y in ToSet(table) {
      if y in s { assert y in ToSet(table[..x]); assert y in table[..x]; }
    }
    assert ToSet(e.items) == prefix + {table[x]} + s;
    var j :| 0 <= j < |condTable| && condTable[j] in s;
    forall i | x < i < |table| ensures table[i] !in ToSet(e.items) {
      assert table[i] !in ToSet(table[..x]);
    }
  }

  /** Sets found earlier have an item beyond the x-th. */
  lemma Earlier(e: Emission, prefix: set<Item>, db: Database, table: seq<Item>, x: nat, threshold: nat)
    requires SoundAt(e, prefix, db, table, x + 1, threshold)
    ensures SoundAt(e, prefix, db, table, x, threshold)
    ensures exists i :: x < i < |table| && table[i] in ToSet(e.items)
  {
    var i :| x + 1 <= i < |table| && table[i] in ToSet(e.items) - prefix;
    assert x < i;
  }

  ghost predicate StepPre(p: seq<Item>, db: Database, table: seq<Item>, x: nat, threshold: nat, condDb: Database,
          condTable: seq<Item>) {
    && Distinct(table) && Distinct(p) && DisjointFrom(ToSet(p), table) && x < |table|
    && threshold <= Support(db, {table[x]})
    && Conditional(db, table, x, condDb, condTable, threshold)
  }

  ghost function StepOut(out: seq<Emission>, p: seq<Item>, db: Database, table: seq<Item>, x: nat,
          sub: seq<Emission>): seq<Emission>
    requires x < |table|
  {
    out + [Emission(p + [table[x]], Support(db, {table[x]}))] + sub
  }

  lemma StepSound(out: seq<Emission>, p: seq<Item>, db: Database, table: seq<Item>, x: nat, threshold: nat,
                  condDb: Database, condTable: seq<Item>, sub: seq<Emission>)
    requires StepPre(p, db, table, x, threshold, condDb, condTable)
    requires Sound(out, ToSet(p), db, table, x + 1, threshold)
    requires Sound(sub, ToSet(p) + {table[x]}, condDb, condTable, 0, threshold)
    ensures Sound(StepOut(out, p, db, table, x, sub), ToSet(p), db, table, x, threshold)
  {
    var all := StepOut(out, p, db, table, x, sub);
    forall k | 0 <= k < |all| ensures SoundAt(all[k], ToSet(p), db, table, x, threshold) {
      if k < |out| {
        Earlier(out[k], ToSet(p), db, table, x, threshold);
      } else if k == |out| {
        ItemAlone(p, db, table, x, threshold);
      } else {
        PutBack(sub[k - |out| - 1], ToSet(p), db, table, x, threshold, condDb, condTable);
      }
    }
  }

  lemma StepUnique(out: seq<Emission>, p: seq<Item>, db: Database, table: seq<Item>, x: nat, threshold: nat,
                   condDb: Database, condTable: seq<Item>, sub: seq<Emission>)
    requires StepPre(p, db, table, x, threshold, condDb, condTable)
    requires Sound(out, ToSet(p), db, table, x + 1, threshold) && Unique(out)
    requires Sound(sub, ToSet(p) + {table[x]}, condDb, condTable, 0, threshold) && Unique(sub)
    ensures Unique(StepOut(out, p, db, table, x, sub))
  {
    var all := StepOut(out, p, db, table, x, sub);
    hide StepPre, Sound;
    forall i, j | 0 <= i < j < |all| ensures ToSet(all[i].items) != ToSet(all[j].items) {
      if j < |out| {
        assert all[i] == out[i] && all[j] == out[j];
      } else if i < |out| {
        OldAndNew(out, p, db, table, x, threshold, condDb, condTable, sub, i, j);
      } else if i == |out| {
        AloneAndLonger(out, p, db, table, x, threshold, condDb, condTable, sub, j);
      } else {
        assert all[i] == sub[i - |out| - 1] && all[j] == sub[j - |out| - 1];
      }
    }
  }

  /** A set found earlier and one found in this step differ: only the former has an item beyond x. */
  lemma OldAndNew(out: seq<Emission>, p: seq<Item>, db: Database, table: seq<Item>, x: nat, threshold: nat,
                  condDb: Database, condTable: seq<Item>, sub: seq<Emission>, i: nat, j: nat)
    requires StepPre(p, db, table, x, threshold, condDb, condTable)
    requires Sound(out, ToSet(p), db, table, x + 1, threshold)
    requires Sound(sub, ToSet(p) + {table[x]}, condDb, condTable, 0, threshold)
    requires i < |out| <= j < |StepOut(out, p, db, table, x, sub)|
    ensures var all := StepOut(out, p, db, table, x, sub);
            ToSet(all[i].items) != ToSet(all[j].items)
  {
    var all := StepOut(out, p, db, table, x, sub);
    StepLate(out, p, db, table, x, threshold, condDb, condTable, sub, j);
    assert all[i] == out[i];
    Earlier(out[i], ToSet(p), db, table, x, threshold);
  }

  /** The item alone and a set found in its conditional tree differ. */
  lemma AloneAndLonger(out: seq<Emission>, p: seq<Item>, db: Database, table: seq<Item>, x: nat, threshold: nat,
                       condDb: Database, condTable: seq<Item>, sub: seq<Emission>, j: nat)
    requires StepPre(p, db, table, x, threshold, condDb, condTable)
    requires Sound(sub, ToSet(p) + {table[x]}, condDb, condTable, 0, threshold)
    requires |out| < j < |StepOut(out, p, db, table, x, sub)|
    ensures var all := StepOut(out, p, db, table, x, sub);
            ToSet(all[|out|].items) != ToSet(all[j].items)
  {
    ItemAlone(p, db, table, x, threshold);
    PutBack(sub[j - |out| - 1], ToSet(p), db, table, x, threshold, condDb, condTable);
  }

  lemma StepLate(out: seq<Emission>, p: seq<Item>, db: Database, table: seq<Item>, x: nat, threshold: nat,
                 condDb: Database, condTable: seq<Item>, sub: seq<Emission>, j: nat)
    requires StepPre(p, db, table, x, threshold, condDb, condTable)
    requires Sound(sub, ToSet(p) + {table[x]}, condDb, condTable, 0, threshold)
    requires |out| <= j < |StepOut(out, p, db, table, x, sub)|
    ensures forall i :: x < i < |table| ==> table[i] !in ToSet(StepOut(out, p, db, table, x, sub)[j].items)
  {
    ItemAlone(p, db, table, x, threshold);
    if j > |out| {
      PutBack(sub[j - |out| - 1], ToSet(p), db, table, x, threshold, condDb, condTable);
    }
  }

  lemma StepComplete(out: seq<Emission>, p: seq<Item>, db: Database, table: seq<Item>, x: nat, threshold: nat,
                     condDb: Database, condTable: seq<Item>, sub: seq<Emission>)
    requires StepPre(p, db, table, x, threshold, condDb, condTable)
    requires Complete(out, ToSet(p), db, table, x + 1, threshold)
    requires Complete(sub, ToSet(p) + {table[x]}, condDb, condTable, 0, threshold)
    ensures Complete(StepOut(out, p, db, table, x, sub), ToSet(p), db, table, x, threshold)
  {
    var all := StepOut(out, p, db, table, x, sub);
    forall s | Family(db, table, x, threshold, s) ensures Found(all, ToSet(p) + s) {
      if Family(db, table, x + 1, threshold, s) {
        var k :| 0 <= k < |out| && ToSet(out[k].items) == ToSet(p) + s;
        assert all[k] == out[k];
      } else {
        SplitLast(db, table, x, threshold, s, condDb, condTable);
        var rest := s - {table[x]};
        if rest == {} {
          ToSetAppend(p, table[x]);
          assert s == {table[x]};
          assert ToSet(all[|out|].items) == ToSet(p) + s;
        } else {
          var k :| 0 <= k < |sub| && ToSet(sub[k].items) == ToSet(p) + {table[x]} + rest;
          assert all[|out| + 1 + k] == sub[k];
          assert ToSet(p) + {table[x]} + rest == ToSet(p) + s;
        }
      }
    }
  }

  lemma SplitLast(db: Database, table: seq<Item>, x: nat, threshold: nat, s: set<Item>, condDb: Database,
          condTable: seq<Item>)
    requires Distinct(table) && x < |table| && Conditional(db, table, x, condDb, condTable, threshold)
    requires Family(db, table, x, threshold, s) && !Family(db, table, x + 1, threshold, s)
    ensures table[x] in s
    ensures s != {table[x]} ==> Family(condDb, condTable, 0, threshold, s - {table[x]})
  {
    var i :| x <= i < |table| && table[i] in s;
    assert i == x;
    var rest := s - {table[x]};
    forall y | y in rest ensures y in ToSet(table[..x]) {
      assert y in table;
      var j :| 0 <= j < |table| && table[j] == y;
      assert j < x;
      assert table[..x][j] == y;
    }
    assert rest + {table[x]} == s;
    forall y | y in rest ensures y in ToSet(condTable) {
      SupportMonotone(condDb, {y}, rest);
    }
    if rest != {} {
      var y :| y in rest;
      assert y in condTable;
    }
  }

  /** The item, then what the recursive call finds: together the sets whose largest item is at least the x-th. */
  lemma Step(out: seq<Emission>, p: seq<Item>, db: Database, table: seq<Item>, x: nat, threshold: nat,
             condDb: Database, condTable: seq<Item>, sub: seq<Emission>)
    requires StepPre(p, db, table, x, threshold, condDb, condTable)
    requires Emits(out, ToSet(p), db, table, x + 1, threshold)
    requires x < |table| && Emits(sub, ToSet(p) + {table[x]}, condDb, condTable, 0, threshold)
    ensures Emits(StepOut(out, p, db, table, x, sub), ToSet(p), db, table, x, threshold)
  {
    hide *;
    EmitsParts(out, ToSet(p), db, table, x + 1, threshold);
    EmitsParts(sub, ToSet(p) + {table[x]}, condDb, condTable, 0, threshold);
    StepSound(out, p, db, table, x, threshold, condDb, condTable, sub);
    StepUnique(out, p, db, table, x, threshold, condDb, condTable, sub);
    StepComplete(out, p, db, table, x, threshold, condDb, condTable, sub);
    EmitsWhole(StepOut(out, p, db, table, x, sub), ToSet(p), db, table, x, threshold);
  }

  lemma EmitsParts(out: seq<Emission>, prefix: set<Item>, db: Database, table: seq<Item>, lo: nat, threshold: nat)
    requires Emits(out, prefix, db, table, lo, threshold)
    ensures Sound(out, prefix, db, table, lo, threshold) && Unique(out)
    ensures Complete(out, prefix, db, table, lo, threshold)
  {
  }

  lemma EmitsWhole(out: seq<Emission>, prefix: set<Item>, db: Database, table: seq<Item>, lo: nat, threshold: nat)
    requires Sound(out, prefix, db, table, lo, threshold) && Unique(out)
    requires Complete(out, prefix, db, table, lo, threshold)
    ensures Emits(out, prefix, db, table, lo, threshold)
  {
  }

  // ---- How many sets of each size ----------------------------------------------------------------

  ghost function CountLen(out: seq<Emission>, n: nat): nat {
    if out == [] then 0 else CountLen(out[..|out| - 1], n) + (if |out[|out| - 1].items| == n then 1 else 0)
  }

  lemma {:induction false} CountLenConcat(a: seq<Emission>, b: seq<Emission>, n: nat)
    ensures CountLen(a + b, n) == CountLen(a, n) + CountLen(b, n)
  {
    if b == [] {
      assert a + b == a;
    } else {
      CountLenConcat(a, b[..|b| - 1], n);
      assert (a + b)[..|a + b| - 1] == a + b[..|b| - 1];
    }
  }
}
