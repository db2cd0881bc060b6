/** The prefix tree of freqmine in its own representation: nodes in a bump-allocated arena, linked by
    left-child and right-sibling pointers.  A pointer is an index; NULL is -1; the root is node 0.

    The ghost Shape gives each node its path from the root and its children in sibling order. */
module FpArena {
  import opened FpDatabase

  const NULL := -1

  datatype Fnode = Fnode(itemname: nat, count: nat, leftchild: int, rightsibling: int)

  datatype Shape = Shape(path: seq<seq<nat>>, kids: seq<seq<nat>>)

  function At(ks: seq<nat>, k: nat): int {
    if k < |ks| then ks[k] else NULL
  }

  ghost predicate Sized(nodes: seq<Fnode>, sh: Shape) {
    0 < |nodes| && |nodes| == |sh.path| == |sh.kids| && sh.path[0] == []
  }

  /** The child list of p starts at its left-child pointer and has no repetition. */
  ghost predicate FirstOk(nodes: seq<Fnode>, sh: Shape, p: nat)
    requires Sized(nodes, sh) && p < |nodes|
  {
    nodes[p].leftchild == At(sh.kids[p], 0) && Distinct(sh.kids[p])
  }

  /** The k-th child of p extends p's path by its item and points to the next child. */
  ghost predicate KidOk(nodes: seq<Fnode>, sh: Shape, p: nat, k: nat)
    requires Sized(nodes, sh) && p < |nodes| && k < |sh.kids[p]|
  {
    var c := sh.kids[p][k];
    && c < |nodes|
    && nodes[c].rightsibling == At(sh.kids[p], k + 1)
    && sh.path[c] == sh.path[p] + [nodes[c].itemname]
  }

  ghost predicate WellFormed(nodes: seq<Fnode>, sh: Shape) {
    && Sized(nodes, sh)
    && (forall p :: 0 <= p < |nodes| ==> FirstOk(nodes, sh, p))
    && (forall p, k :: 0 <= p < |nodes| && 0 <= k < |sh.kids[p]| ==> KidOk(nodes, sh, p, k))
    && Distinct(sh.path)
  }

  ghost predicate HasPath(sh: Shape, path: seq<nat>) {
    exists c :: 0 <= c < |sh.path| && sh.path[c] == path
  }

  ghost predicate IsKid(sh: Shape, c: nat) {
    exists p :: 0 <= p < |sh.kids| && c in sh.kids[p]
  }

  /** Every node carries the last item of its path, and paths ascend through the order numbers. */
  ghost predicate PathsOk(nodes: seq<Fnode>, sh: Shape, itemno: nat) {
    && Sized(nodes, sh)
    && forall c :: 0 < c < |nodes| ==> PathOk(nodes[c], sh.path[c], itemno)
  }

  ghost predicate PathOk(node: Fnode, path: seq<nat>, itemno: nat) {
    EndsIn(path, node.itemname) && Ascending(path) && Below(path, itemno)
  }

  lemma SamePath(sh: Shape, c: nat, d: nat)
    requires Distinct(sh.path) && c < |sh.path| && d < |sh.path| && sh.path[c] == sh.path[d]
    ensures c == d
  {
  }

  lemma SameFront(a: seq<nat>, x: nat, b: seq<nat>, y: nat)
    requires a + [x] == b + [y]
    ensures a == b && x == y
  {
    assert (a + [x])[|a|] == x && (b + [y])[|b|] == y;
    assert a == (a + [x])[..|a|] && b == (b + [y])[..|b|];
  }

  lemma KidHasOneParent(nodes: seq<Fnode>, sh: Shape, p: nat, k: nat, q: nat, j: nat)
    requires WellFormed(nodes, sh) && p < |nodes| && q < |nodes|
    requires k < |sh.kids[p]| && j < |sh.kids[q]| && sh.kids[p][k] == sh.kids[q][j]
    ensures p == q && k == j
  {
    assert KidOk(nodes, sh, p, k) && KidOk(nodes, sh, q, j);
    var x := nodes[sh.kids[p][k]].itemname;
    SameFront(sh.path[p], x, sh.path[q], x);
    SamePath(sh, p, q);
    assert FirstOk(nodes, sh, p);
  }

  /** A child's path determines whose child it is. */
  lemma KidByPath(nodes: seq<Fnode>, sh: Shape, p: nat, c: nat)
    requires WellFormed(nodes, sh) && p < |nodes| && c < |nodes|
    requires IsKid(sh, c) && sh.path[c] == sh.path[p] + [nodes[c].itemname]
    ensures c in sh.kids[p]
  {
    var q :| 0 <= q < |sh.kids| && c in sh.kids[q];
    var k :| 0 <= k < |sh.kids[q]| && sh.kids[q][k] == c;
    assert KidOk(nodes, sh, q, k);
    SameFront(sh.path[p], nodes[c].itemname, sh.path[q], nodes[c].itemname);
    SamePath(sh, p, q);
  }

  // ---- Count updates -----------------------------------------------------------------------------

  ghost predicate SameLinks(a: seq<Fnode>, b: seq<Fnode>) {
    |a| == |b| && forall c :: 0 <= c < |a| ==> SameNode(a[c], b[c])
  }

  ghost predicate SameNode(a: Fnode, b: Fnode) {
    b == a.(count := b.count)
  }

  lemma SameLinksWellFormed(a: seq<Fnode>, b: seq<Fnode>, sh: Shape)
    requires WellFormed(a, sh) && SameLinks(a, b)
    ensures WellFormed(b, sh)
  {
    forall p | 0 <= p < |b| ensures FirstOk(b, sh, p) {
      assert FirstOk(a, sh, p) && SameNode(a[p], b[p]);
    }
    forall p, k | 0 <= p < |b| && 0 <= k < |sh.kids[p]| ensures KidOk(b, sh, p, k) {
      assert KidOk(a, sh, p, k) && SameNode(a[sh.kids[p][k]], b[sh.kids[p][k]]);
    }
  }

  // ---- A new child -------------------------------------------------------------------------------

  /** The new node goes first if p has no child yet, else right behind the first child. */
  function WithChild(nodes: seq<Fnode>, p: nat, item: nat, count: nat): seq<Fnode>
    requires p < |nodes|
    requires nodes[p].leftchild == NULL || 0 <= nodes[p].leftchild < |nodes|
  {
    var new_ := |nodes|;
    var first := nodes[p].leftchild;
    if first == NULL then
      nodes[p := nodes[p].(leftchild := new_)] + [Fnode(item, count, NULL, NULL)]
    else
      nodes[first := nodes[first].(rightsibling := new_)] + [Fnode(item, count, NULL, nodes[first].rightsibling)]
  }

  ghost function GrownKids(ks: seq<nat>, new_: nat): seq<nat> {
    if ks == [] then [new_] else [ks[0], new_] + ks[1..]
  }

  ghost function GrownShape(sh: Shape, p: nat, item: nat): Shape
    requires p < |sh.path| == |sh.kids|
  {
    Shape(sh.path + [sh.path[p] + [item]], sh.kids[p := GrownKids(sh.kids[p], |sh.path|)] + [[]])
  }

  lemma FirstChild(nodes: seq<Fnode>, sh: Shape, p: nat)
    requires WellFormed(nodes, sh) && p < |nodes|
    ensures sh.kids[p] == [] <==> nodes[p].leftchild == NULL
    ensures sh.kids[p] != [] ==> nodes[p].leftchild == sh.kids[p][0] && 0 <= sh.kids[p][0] < |nodes|
  {
    assert FirstOk(nodes, sh, p);
    if sh.kids[p] != [] { assert KidOk(nodes, sh, p, 0); }
  }

  /** The k-th child of a node other than p, or a later child of p, is untouched by adding a child to p. */
  lemma WithChildOther(nodes: seq<Fnode>, sh: Shape, p: nat, item: nat, count: nat, q: nat, k: nat)
    requires WellFormed(nodes, sh) && p < |nodes| && q < |nodes| && k < |sh.kids[q]|
    requires q == p ==> k > 0
    ensures nodes[p].leftchild == NULL || 0 <= nodes[p].leftchild < |nodes|
    ensures sh.kids[q][k] < |nodes|
    ensures var c := sh.kids[q][k];
            WithChild(nodes, p, item, count)[c] == nodes[c].(leftchild := WithChild(nodes, p, item, count)[c].leftchild)
  {
    FirstChild(nodes, sh, p);
    assert KidOk(nodes, sh, q, k);
    if sh.kids[p] != [] && sh.kids[p][0] == sh.kids[q][k] { KidHasOneParent(nodes, sh, p, 0, q, k); }
  }

  lemma WithChildKid(nodes: seq<Fnode>, sh: Shape, p: nat, item: nat, count: nat, q: nat, k: nat)
    requires WellFormed(nodes, sh) && p < |nodes| && q <= |nodes|
    requires k < |GrownShape(sh, p, item).kids[q]|
    ensures nodes[p].leftchild == NULL || 0 <= nodes[p].leftchild < |nodes|
    ensures KidOk(WithChild(nodes, p, item, count), GrownShape(sh, p, item), q, k)
  {
    FirstChild(nodes, sh, p);
    var nodes', sh' := WithChild(nodes, p, item, count), GrownShape(sh, p, item);
    var ks := sh.kids[p];
    if q != p {
      WithChildOther(nodes, sh, p, item, count, q, k);
      assert KidOk(nodes, sh, q, k);
    } else if ks == [] {
      assert sh'.kids[p] == [|nodes|];
    } else if k == 0 {
      assert KidOk(nodes, sh, p, 0);
    } else if k == 1 {
      assert KidOk(nodes, sh, p, 0);
      assert At(sh'.kids[p], 2) == At(ks, 1);
    } else {
      WithChildOther(nodes, sh, p, item, count, p, k - 1);
      assert KidOk(nodes, sh, p, k - 1);
      assert sh'.kids[p][k] == ks[k - 1];
      assert At(sh'.kids[p], k + 1) == At(ks, k);
    }
  }

  lemma WithChildFirst(nodes: seq<Fnode>, sh: Shape, p: nat, item: nat, count: nat, q: nat)
    requires WellFormed(nodes, sh) && p < |nodes| && q <= |nodes|
    ensures nodes[p].leftchild == NULL || 0 <= nodes[p].leftchild < |nodes|
    ensures FirstOk(WithChild(nodes, p, item, count), GrownShape(sh, p, item), q)
  {
    FirstChild(nodes, sh, p);
    if q < |nodes| {
      assert FirstOk(nodes, sh, q);
      if q == p {
        var ks, ks' := sh.kids[p], GrownKids(sh.kids[p], |nodes|);
        forall k | 0 <= k < |ks| ensures ks[k] < |nodes| { assert KidOk(nodes, sh, p, k); }
        assert forall k :: 2 <= k < |ks'| ==> ks'[k] == ks[k - 1];
      }
    }
  }

  lemma WithChildWellFormed(nodes: seq<Fnode>, sh: Shape, p: nat, item: nat, count: nat)
    requires WellFormed(nodes, sh) && p < |nodes|
    requires !HasPath(sh, sh.path[p] + [item])
    ensures nodes[p].leftchild == NULL || 0 <= nodes[p].leftchild < |nodes|
    ensures WellFormed(WithChild(nodes, p, item, count), GrownShape(sh, p, item))
  {
    FirstChild(nodes, sh, p);
    var nodes', sh' := WithChild(nodes, p, item, count), GrownShape(sh, p, item);
    forall q | 0 <= q < |nodes'| ensures FirstOk(nodes', sh', q) {
      WithChildFirst(nodes, sh, p, item, count, q);
    }
    forall q, k | 0 <= q < |nodes'| && 0 <= k < |sh'.kids[q]| ensures KidOk(nodes', sh', q, k) {
      WithChildKid(nodes, sh, p, item, count, q, k);
    }
  }

  // ---- A subtree put in front of the children of p -----------------------------------------------

  function WithFront(nodes: seq<Fnode>, p: nat, h: nat, count: nat): seq<Fnode>
    requires p < |nodes| && h < |nodes| && p != h
  {
    nodes[h := nodes[h].(rightsibling := nodes[p].leftchild, count := count)][p := nodes[p].(leftchild := h)]
  }

  ghost function FrontShape(sh: Shape, p: nat, h: nat): Shape
    requires p < |sh.kids|
  {
    sh.(kids := sh.kids[p := [h] + sh.kids[p]])
  }

  lemma WithFrontWellFormed(nodes: seq<Fnode>, sh: Shape, p: nat, h: nat, count: nat)
    requires WellFormed(nodes, sh) && p < |nodes| && h < |nodes| && p != h
    requires !IsKid(sh, h) && sh.path[h] == sh.path[p] + [nodes[h].itemname]
    ensures WellFormed(WithFront(nodes, p, h, count), FrontShape(sh, p, h))
  {
    var nodes', sh' := WithFront(nodes, p, h, count), FrontShape(sh, p, h);
    forall q | 0 <= q < |nodes'| ensures FirstOk(nodes', sh', q) {
      assert FirstOk(nodes, sh, q);
      assert h !in sh.kids[q];
    }
    forall q, k | 0 <= q < |nodes'| && 0 <= k < |sh'.kids[q]| ensures KidOk(nodes', sh', q, k) {
      WithFrontKid(nodes, sh, p, h, count, q, k);
    }
  }

  lemma WithFrontKid(nodes: seq<Fnode>, sh: Shape, p: nat, h: nat, count: nat, q: nat, k: nat)
    requires WellFormed(nodes, sh) && p < |nodes| && h < |nodes| && p != h
    requires !IsKid(sh, h) && sh.path[h] == sh.path[p] + [nodes[h].itemname]
    requires q < |nodes| && k < |FrontShape(sh, p, h).kids[q]|
    ensures KidOk(WithFront(nodes, p, h, count), FrontShape(sh, p, h), q, k)
  {
    assert FirstOk(nodes, sh, q);
    if q != p {
      assert KidOk(nodes, sh, q, k) && sh.kids[q][k] in sh.kids[q];
    } else if k == 0 {
      assert At([h] + sh.kids[p], 1) == At(sh.kids[p], 0);
    } else {
      assert KidOk(nodes, sh, p, k - 1) && sh.kids[p][k - 1] in sh.kids[p];
      assert At([h] + sh.kids[p], k + 1) == At(sh.kids[p], k);
    }
  }

  // ---- Leaf depths: what the flattened array needs -----------------------------------------------

  /** Sum over the childless nodes of the length of their path. */
  ghost function LeafDepths(path: seq<seq<nat>>, kids: seq<seq<nat>>): nat
    requires |path| == |kids|
  {
    if path == [] then 0
    else LeafDepths(path[..|path| - 1], kids[..|kids| - 1])
         + (if kids[|kids| - 1] == [] then |path[|path| - 1]| else 0)
  }

  lemma {:induction false} LeafDepthsUpdate(path: seq<seq<nat>>, kids: seq<seq<nat>>, p: nat, ks: seq<nat>)
    requires |path| == |kids| && p < |kids|
    ensures LeafDepths(path, kids[p := ks]) + (if kids[p] == [] then |path[p]| else 0)
         == LeafDepths(path, kids) + (if ks == [] then |path[p]| else 0)
  {
    var n := |path| - 1;
    if p == n {
      assert kids[p := ks][..n] == kids[..n];
    } else {
      LeafDepthsUpdate(path[..n], kids[..n], p, ks);
      assert kids[p := ks][..n] == kids[..n][p := ks];
    }
  }

  lemma LeafDepthsGrown(sh: Shape, p: nat, item: nat)
    requires p < |sh.path| == |sh.kids|
    ensures LeafDepths(GrownShape(sh, p, item).path, GrownShape(sh, p, item).kids)
         == LeafDepths(sh.path, sh.kids) + 1 + (if sh.kids[p] == [] then 0 else |sh.path[p]|)
  {
    var sh' := GrownShape(sh, p, item);
    var n := |sh.path|;
    var ks := GrownKids(sh.kids[p], n);
    LeafDepthsUpdate(sh.path, sh.kids, p, ks);
    assert sh'.path[..n] == sh.path && sh'.kids[..n] == sh.kids[p := ks];
  }
}
