/** The depth-first order of a prefix tree: every node once, ancestors along its path. */
module FpTraversal {
  import opened FpDatabase
  import opened FpArena
  import opened FpTree

  ghost predicate DepthOk(sh: Shape, itemno: nat) {
    forall c :: 0 <= c < |sh.path| ==> |sh.path[c]| <= itemno
  }

  ghost predicate Tree(nodes: seq<Fnode>, sh: Shape, itemno: nat) {
    WellFormed(nodes, sh) && DepthOk(sh, itemno)
  }

  lemma {:induction false} AscendingShort(ids: seq<nat>, n: nat)
    requires Ascending(ids) && Below(ids, n)
    ensures |ids| <= n
  {
    if ids != [] { AscendingShort(ids[..|ids| - 1], ids[|ids| - 1]); }
  }

  lemma DepthsOk(nodes: seq<Fnode>, sh: Shape, itemno: nat)
    requires WellFormed(nodes, sh) && PathsOk(nodes, sh, itemno)
    ensures Tree(nodes, sh, itemno)
  {
    forall c | 0 <= c < |sh.path| ensures |sh.path[c]| <= itemno {
      if c > 0 {
        assert PathOk(nodes[c], sh.path[c], itemno);
        AscendingShort(sh.path[c], itemno);
      }
    }
  }

  lemma KidBelow(nodes: seq<Fnode>, sh: Shape, itemno: nat, p: nat, k: nat)
    requires Tree(nodes, sh, itemno) && p < |nodes| && k < |sh.kids[p]|
    ensures sh.kids[p][k] < |nodes|
    ensures sh.path[sh.kids[p][k]] == sh.path[p] + [nodes[sh.kids[p][k]].itemname]
    ensures |sh.path[p]| < |sh.path[sh.kids[p][k]]| <= itemno
  {
    assert KidOk(nodes, sh, p, k);
  }

  /** The children of p from the k-th on, each followed by its subtree. */
  ghost function Dfs(nodes: seq<Fnode>, sh: Shape, itemno: nat, p: nat, k: nat): seq<nat>
    requires Tree(nodes, sh, itemno) && p < |nodes| && k <= |sh.kids[p]|
    decreases itemno - |sh.path[p]|, |sh.kids[p]| - k
  {
    if k == |sh.kids[p]| then []
    else
      KidBelow(nodes, sh, itemno, p, k);
      [sh.kids[p][k]] + Dfs(nodes, sh, itemno, sh.kids[p][k], 0) + Dfs(nodes, sh, itemno, p, k + 1)
  }

  /** Is x in the subtree of the j-th child of p? */
  ghost predicate Under(sh: Shape, p: nat, j: nat, x: nat)
    requires p < |sh.kids| && j < |sh.kids[p]|
  {
    sh.kids[p][j] < |sh.path| && x < |sh.path| && sh.path[sh.kids[p][j]] <= sh.path[x]
  }

  lemma {:induction false} DfsMembers(nodes: seq<Fnode>, sh: Shape, itemno: nat, p: nat, k: nat, x: nat)
    requires Tree(nodes, sh, itemno) && p < |nodes| && k <= |sh.kids[p]|
    requires x in Dfs(nodes, sh, itemno, p, k)
    ensures x < |nodes| && sh.path[p] < sh.path[x]
    ensures exists j :: k <= j < |sh.kids[p]| && Under(sh, p, j, x)
    decreases itemno - |sh.path[p]|, |sh.kids[p]| - k
  {
    KidBelow(nodes, sh, itemno, p, k);
    var c := sh.kids[p][k];
    if x == c {
      assert Under(sh, p, k, x);
    } else if x in Dfs(nodes, sh, itemno, c, 0) {
      DfsMembers(nodes, sh, itemno, c, 0, x);
      assert Under(sh, p, k, x);
    } else {
      DfsMembers(nodes, sh, itemno, p, k + 1, x);
    }
  }

  /** Below any node on a linked node's path lies the child on that path. */
  lemma {:induction false} NextOnPath(nodes: seq<Fnode>, sh: Shape, itemno: nat, p: nat, x: nat) returns (j: nat)
    requires Tree(nodes, sh, itemno) && AllLinked(sh) && p < |nodes| && x < |nodes|
    requires sh.path[p] < sh.path[x]
    ensures j < |sh.kids[p]| && Under(sh, p, j, x)
    decreases |sh.path[x]|
  {
    assert x != 0;
    assert IsKid(sh, x);
    var q :| 0 <= q < |sh.kids| && x in sh.kids[q];
    var k :| 0 <= k < |sh.kids[q]| && sh.kids[q][k] == x;
    KidBelow(nodes, sh, itemno, q, k);
    assert sh.path[q] == sh.path[x][..|sh.path[x]| - 1];
    if |sh.path[p]| == |sh.path[q]| {
      SamePath(sh, p, q);
      j := k;
    } else {
      j := NextOnPath(nodes, sh, itemno, p, q);
    }
  }

  lemma {:induction false} DfsComplete(nodes: seq<Fnode>, sh: Shape, itemno: nat, p: nat, k: nat, j: nat, x: nat)
    requires Tree(nodes, sh, itemno) && AllLinked(sh) && p < |nodes|
    requires k <= j < |sh.kids[p]| && Under(sh, p, j, x) && x < |nodes|
    ensures x in Dfs(nodes, sh, itemno, p, k)
    decreases itemno - |sh.path[p]|, |sh.kids[p]| - k
  {
    KidBelow(nodes, sh, itemno, p, k);
    var c := sh.kids[p][k];
    if j > k {
      DfsComplete(nodes, sh, itemno, p, k + 1, j, x);
    } else if |sh.path[x]| == |sh.path[c]| {
      SamePath(sh, x, c);
    } else {
      var i := NextOnPath(nodes, sh, itemno, c, x);
      DfsComplete(nodes, sh, itemno, c, 0, i, x);
    }
  }

  lemma DistinctConcat<T>(a: seq<T>, b: seq<T>)
    requires Distinct(a) && Distinct(b)
    requires forall x :: x in a ==> x !in b
    ensures Distinct(a + b)
  {
    var s := a + b;
    forall i, j | 0 <= i < j < |s| ensures s[i] != s[j] {
      if i < |a| { assert s[i] in a; }
      if j >= |a| { assert s[j] in b; }
    }
  }

  /** Two different children of p have no common node below them. */
  lemma Apart(nodes: seq<Fnode>, sh: Shape, itemno: nat, p: nat, j: nat, k: nat, x: nat)
    requires Tree(nodes, sh, itemno) && p < |nodes|
    requires j < |sh.kids[p]| && k < |sh.kids[p]| && Under(sh, p, j, x) && Under(sh, p, k, x)
    ensures j == k
  {
    KidBelow(nodes, sh, itemno, p, j);
    KidBelow(nodes, sh, itemno, p, k);
    assert sh.path[sh.kids[p][j]] == sh.path[x][..|sh.path[p]| + 1] == sh.path[sh.kids[p][k]];
    SamePath(sh, sh.kids[p][j], sh.kids[p][k]);
    assert FirstOk(nodes, sh, p);
  }

  lemma {:induction false} DfsDistinct(nodes: seq<Fnode>, sh: Shape, itemno: nat, p: nat, k: nat)
    requires Tree(nodes, sh, itemno) && p < |nodes| && k <= |sh.kids[p]|
    ensures Distinct(Dfs(nodes, sh, itemno, p, k))
    decreases itemno - |sh.path[p]|, |sh.kids[p]| - k
  {
    if k < |sh.kids[p]| {
      KidBelow(nodes, sh, itemno, p, k);
      var c := sh.kids[p][k];
      var below, later := Dfs(nodes, sh, itemno, c, 0), Dfs(nodes, sh, itemno, p, k + 1);
      DfsDistinct(nodes, sh, itemno, c, 0);
      DfsDistinct(nodes, sh, itemno, p, k + 1);
      forall x | x in [c] ensures x !in below {
        if x in below { DfsMembers(nodes, sh, itemno, c, 0, x); }
      }
      DistinctConcat([c], below);
      forall x | x in [c] + below ensures x !in later {
        if x in later {
          DfsMembers(nodes, sh, itemno, p, k + 1, x);
          if x in below { DfsMembers(nodes, sh, itemno, c, 0, x); }
          var j :| k + 1 <= j < |sh.kids[p]| && Under(sh, p, j, x);
          assert Under(sh, p, k, x);
          Apart(nodes, sh, itemno, p, j, k, x);
        }
      }
      DistinctConcat([c] + below, later);
    }
  }

  /** The whole order: all nodes but the root, each once. */
  lemma DfsAll(nodes: seq<Fnode>, sh: Shape, itemno: nat, x: nat)
    requires Tree(nodes, sh, itemno) && AllLinked(sh)
    ensures Distinct(Dfs(nodes, sh, itemno, 0, 0))
    ensures x in Dfs(nodes, sh, itemno, 0, 0) <==> 0 < x < |nodes|
  {
    DfsDistinct(nodes, sh, itemno, 0, 0);
    if x in Dfs(nodes, sh, itemno, 0, 0) {
      DfsMembers(nodes, sh, itemno, 0, 0, x);
    }
    if 0 < x < |nodes| {
      assert sh.path[x] != sh.path[0];
      var j := NextOnPath(nodes, sh, itemno, 0, x);
      DfsComplete(nodes, sh, itemno, 0, 0, j, x);
    }
  }

  // ---- The nodes of one item ---------------------------------------------------------------------

  ghost function Of(nodes: seq<Fnode>, order: seq<nat>, x: nat): seq<nat> {
    if order == [] then []
    else
      var c := order[|order| - 1];
      Of(nodes, order[..|order| - 1], x) + (if c < |nodes| && nodes[c].itemname == x then [c] else [])
  }

  lemma OfAppend(nodes: seq<Fnode>, order: seq<nat>, c: nat, x: nat)
    ensures Of(nodes, order + [c], x)
              == Of(nodes, order, x) + (if c < |nodes| && nodes[c].itemname == x then [c] else [])
  {
    assert (order + [c])[..|order|] == order;
  }

  lemma {:induction false} OfMembers(nodes: seq<Fnode>, order: seq<nat>, x: nat, c: nat)
    ensures c in Of(nodes, order, x) <==> c in order && c < |nodes| && nodes[c].itemname == x
  {
    if order != [] {
      OfMembers(nodes, order[..|order| - 1], x, c);
      assert order == order[..|order| - 1] + [order[|order| - 1]];
    }
  }

  lemma {:induction false} OfDistinct(nodes: seq<Fnode>, order: seq<nat>, x: nat)
    requires Distinct(order)
    ensures Distinct(Of(nodes, order, x))
  {
    if order != [] {
      var front, c := order[..|order| - 1], order[|order| - 1];
      OfDistinct(nodes, front, x);
      assert c !in front;
      OfMembers(nodes, front, x, c);
      if c < |nodes| && nodes[c].itemname == x {
        DistinctConcat(Of(nodes, front, x), [c]);
      }
    }
  }

  lemma {:induction false} OfPrefix(nodes: seq<Fnode>, a: seq<nat>, b: seq<nat>, x: nat)
    ensures |Of(nodes, a, x)| <= |Of(nodes, a + b, x)|
  {
    if b == [] {
      assert a + b == a;
    } else {
      OfPrefix(nodes, a, b[..|b| - 1], x);
      assert a + b == (a + b[..|b| - 1]) + [b[|b| - 1]];
      OfAppend(nodes, a + b[..|b| - 1], b[|b| - 1], x);
    }
  }

  ghost function ToSet<T>(s: seq<T>): set<T> {
    set x | x in s
  }

  lemma {:induction false} DistinctSize<T>(s: seq<T>)
    requires Distinct(s)
    ensures |s| == |ToSet(s)|
  {
    if s != [] {
      var front, x := s[..|s| - 1], s[|s| - 1];
      DistinctSize(front);
      assert ToSet(s) == ToSet(front) + {x};
      assert x !in front;
    }
  }

  lemma OfCount(nodes: seq<Fnode>, sh: Shape, itemno: nat, x: nat)
    requires Tree(nodes, sh, itemno) && AllLinked(sh)
    ensures |Of(nodes, Dfs(nodes, sh, itemno, 0, 0), x)| == |KidsOf(nodes, sh, x)|
  {
    var all := Dfs(nodes, sh, itemno, 0, 0);
    DfsAll(nodes, sh, itemno, 0);
    OfDistinct(nodes, all, x);
    DistinctSize(Of(nodes, all, x));
    forall c: nat ensures c in Of(nodes, all, x) <==> c in KidsOf(nodes, sh, x) {
      OfMembers(nodes, all, x, c);
      DfsAll(nodes, sh, itemno, c);
      if IsKid(sh, c) { KidIsNotRoot(nodes, sh, c); }
    }
    assert ToSet(Of(nodes, all, x)) == KidsOf(nodes, sh, x);
  }

  // ---- Space -------------------------------------------------------------------------------------

  ghost function LeafCost(sh: Shape, c: nat): nat {
    if c < |sh.path| == |sh.kids| && sh.kids[c] == [] then |sh.path[c]| else 0
  }

  ghost function LeafNeed(sh: Shape, order: seq<nat>): nat {
    if order == [] then 0 else LeafNeed(sh, order[..|order| - 1]) + LeafCost(sh, order[|order| - 1])
  }

  lemma {:induction false} LeafNeedConcat(sh: Shape, a: seq<nat>, b: seq<nat>)
    ensures LeafNeed(sh, a + b) == LeafNeed(sh, a) + LeafNeed(sh, b)
  {
    if b == [] {
      assert a + b == a;
    } else {
      LeafNeedConcat(sh, a, b[..|b| - 1]);
      assert (a + b)[..|a + b| - 1] == a + b[..|b| - 1];
    }
  }

  ghost function Without(order: seq<nat>, k: nat): seq<nat>
    requires k < |order|
  {
    order[..k] + order[k + 1..]
  }

  lemma WithoutDistinct(order: seq<nat>, k: nat)
    requires k < |order| && Distinct(order)
    ensures Distinct(Without(order, k)) && order[k] !in Without(order, k)
    ensures forall c :: c in Without(order, k) ==> c in order
  {
    var s := Without(order, k);
    assert forall i :: 0 <= i < |s| ==> s[i] == if i < k then order[i] else order[i + 1];
  }

  lemma LeafNeedWithout(sh: Shape, order: seq<nat>, k: nat)
    requires k < |order|
    ensures LeafNeed(sh, order) == LeafNeed(sh, Without(order, k)) + LeafCost(sh, order[k])
  {
    LeafNeedConcat(sh, order[..k], order[k + 1..]);
    LeafNeedConcat(sh, order[..k + 1], order[k + 1..]);
    assert order == order[..k + 1] + order[k + 1..];
    assert order[..k + 1][..k] == order[..k];
  }

  lemma NeedsNothing(sh: Shape)
    ensures LeafNeed(sh, []) == 0
  {
  }

  /** A list of different nodes needs no more than all nodes together. */
  lemma {:induction false} LeafNeedBound(sh: Shape, order: seq<nat>, n: nat)
    requires |sh.path| == |sh.kids| && n <= |sh.path|
    requires Distinct(order) && Below(order, n)
    ensures LeafNeed(sh, order) <= LeafDepths(sh.path[..n], sh.kids[..n])
    decreases n
  {
    hide LeafNeed, Without;
    if order == [] {
      NeedsNothing(sh);
    } else {
      assert order[0] < n;
      assert sh.path[..n][..n - 1] == sh.path[..n - 1] && sh.kids[..n][..n - 1] == sh.kids[..n - 1];
      if n - 1 in order {
        var k :| 0 <= k < |order| && order[k] == n - 1;
        WithoutDistinct(order, k);
        BelowLess(Without(order, k), n);
        LeafNeedBound(sh, Without(order, k), n - 1);
        LeafNeedWithout(sh, order, k);
      } else {
        BelowLess(order, n);
        LeafNeedBound(sh, order, n - 1);
      }
    }
  }

  lemma BelowLess(order: seq<nat>, n: nat)
    requires n > 0 && n - 1 !in order && forall c :: c in order ==> c < n
    ensures Below(order, n - 1)
  {
    forall k | 0 <= k < |order| ensures order[k] < n - 1 {
      assert order[k] in order;
    }
  }
}
