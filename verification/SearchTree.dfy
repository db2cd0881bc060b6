/** The binary search tree of the reorder stage: one node per coarse piece that has chunks waiting. */
module SearchTree {
  import opened BinHeap

  type Table = map<nat, PriorityQueue>

  class TreeNode {
    var l1: nat
    var queue: PriorityQueue
    var left: TreeNode?
    var right: TreeNode?
    ghost var repr: set<TreeNode>
    ghost var elems: Table

    constructor (l1: nat, queue: PriorityQueue)
      ensures Valid() && elems == map[l1 := queue] && repr == {this}
    {
      this.l1, this.queue, left, right := l1, queue, null, null;
      repr, elems := {this}, map[l1 := queue];
    }

    /** The nodes below form two disjoint trees with smaller and larger keys; elems is the table they hold. */
    ghost predicate Valid()
      reads this, repr
      decreases repr
    {
      && this in repr
      && (left != null ==> left in repr && left.repr < repr && this !in left.repr && left.Valid())
      && (right != null ==> right in repr && right.repr < repr && this !in right.repr && right.Valid())
      && (left != null && right != null ==> left.repr !! right.repr)
      && repr == {this} + (if left == null then {} else left.repr) + (if right == null then {} else right.repr)
      && Split(l1, queue, if left == null then map[] else left.elems,
               if right == null then map[] else right.elems, elems)
    }
  }

  /** all is small, the entry k, and large, in this order. */
  ghost predicate Split(k: nat, q: PriorityQueue, small: Table, large: Table, all: Table) {
    && (forall j :: j in small ==> j < k)
    && (forall j :: j in large ==> k < j)
    && all == small + large + map[k := q]
  }

  ghost function Nodes(t: TreeNode?): set<TreeNode>
    reads t
  {
    if t == null then {} else t.repr
  }

  ghost function Elems(t: TreeNode?): Table
    reads t
  {
    if t == null then map[] else t.elems
  }

  ghost predicate TreeOk(t: TreeNode?)
    reads t, Nodes(t)
  {
    t != null ==> t.Valid()
  }

  method TreeFind(value: nat, t: TreeNode?) returns (pos: TreeNode?)
    requires TreeOk(t)
    ensures pos == null <==> value !in Elems(t)
    ensures pos != null ==> pos in Nodes(t) && pos.l1 == value && pos.queue == Elems(t)[value]
    decreases Nodes(t)
  {
    if t == null { return null; }
    if value < t.l1 {
      pos := TreeFind(value, t.left);
    } else if value > t.l1 {
      pos := TreeFind(value, t.right);
    } else {
      pos := t;
    }
  }

  method TreeFindMin(t: TreeNode?) returns (pos: TreeNode?)
    requires TreeOk(t)
    ensures pos == null <==> t == null
    ensures pos != null ==> pos in Nodes(t) && pos.l1 in Elems(t) && pos.queue == Elems(t)[pos.l1]
    ensures pos != null ==> forall k :: k in Elems(t) ==> pos.l1 <= k
    decreases Nodes(t)
  {
    if t == null {
      pos := null;
    } else if t.left == null {
      pos := t;
    } else {
      pos := TreeFindMin(t.left);
    }
  }

  ghost function Put(m: Table, k: nat, q: PriorityQueue): Table {
    if k in m then m else m[k := q]
  }

  ghost function Without(m: Table, k: nat): Table {
    map j | j in m && j != k :: m[j]
  }

  lemma SplitPut(k: nat, q: PriorityQueue, small: Table, large: Table, all: Table, l1: nat, x: PriorityQueue)
    requires Split(k, q, small, large, all)
    ensures l1 < k ==> Split(k, q, Put(small, l1, x), large, Put(all, l1, x))
    ensures l1 > k ==> Split(k, q, small, Put(large, l1, x), Put(all, l1, x))
    ensures l1 == k ==> Put(all, l1, x) == all
  {
  }

  lemma SplitWithout(k: nat, q: PriorityQueue, small: Table, large: Table, all: Table, l1: nat)
    requires Split(k, q, small, large, all) && l1 in all
    ensures l1 < k ==> l1 in small && Split(k, q, Without(small, l1), large, Without(all, l1))
    ensures l1 > k ==> l1 in large && Split(k, q, small, Without(large, l1), Without(all, l1))
    ensures l1 == k && small == map[] ==> Without(all, l1) == large
    ensures l1 == k && large == map[] ==> Without(all, l1) == small
  {
  }

  /** The least of the large keys can take the place of a deleted one. */
  lemma SplitReplace(k: nat, q: PriorityQueue, small: Table, large: Table, all: Table, m: nat)
    requires Split(k, q, small, large, all) && m in large && forall j :: j in large ==> m <= j
    ensures Split(m, large[m], small, Without(large, m), Without(all, k))
  {
  }

  lemma ValidParts(t: TreeNode)
    requires t.Valid()
    ensures TreeOk(t.left) && TreeOk(t.right) && t !in Nodes(t.left)
    ensures t !in Nodes(t.right) && Nodes(t.left) !! Nodes(t.right)
    ensures t.left != null ==> t.left in Nodes(t.left)
    ensures t.right != null ==> t.right in Nodes(t.right)
    ensures Nodes(t.left) < t.repr && Nodes(t.right) < t.repr && t in t.repr
    ensures t.repr == {t} + Nodes(t.left) + Nodes(t.right)
    ensures Split(t.l1, t.queue, Elems(t.left), Elems(t.right), t.elems)
  {
  }

  lemma NodeIs(t: TreeNode)
    ensures Nodes(t) == t.repr && Elems(t) == t.elems && (TreeOk(t) <==> t.Valid())
  {
  }

  lemma NullIs()
    ensures Nodes(null) == {} && Elems(null) == map[]
  {
  }

  /** A node above two disjoint trees. */
  ghost method Attach(t: TreeNode, all: Table)
    requires TreeOk(t.left) && TreeOk(t.right) && t !in Nodes(t.left)
    requires t !in Nodes(t.right) && Nodes(t.left) !! Nodes(t.right)
    requires Split(t.l1, t.queue, Elems(t.left), Elems(t.right), all)
    modifies t`repr, t`elems
    ensures t.Valid() && t.elems == all && t.repr == {t} + Nodes(t.left) + Nodes(t.right)
    ensures Nodes(t.left) == old(Nodes(t.left)) && Nodes(t.right) == old(Nodes(t.right))
  {
    t.repr := {t} + Nodes(t.left) + Nodes(t.right);
    t.elems := all;
  }

  method TreeInsert(l1: nat, queue: PriorityQueue, t: TreeNode?) returns (r: TreeNode)
    requires TreeOk(t)
    modifies Nodes(t)
    ensures r.Valid() && r.elems == Put(old(Elems(t)), l1, queue)
    ensures fresh(r.repr - old(Nodes(t)))
    decreases Nodes(t)
  {
    if t == null {
      r := new TreeNode(l1, queue);
    } else {
      r := t;
      ValidParts(t);
      SplitPut(t.l1, t.queue, Elems(t.left), Elems(t.right), t.elems, l1, queue);
      ghost var all := Put(t.elems, l1, queue);
      if l1 < t.l1 {
        InsertLeft(t, l1, queue, all);
      } else if l1 > t.l1 {
        InsertRight(t, l1, queue, all);
      }
    }
  }

  method InsertLeft(t: TreeNode, l1: nat, queue: PriorityQueue, ghost all: Table)
    requires t.Valid() && Split(t.l1, t.queue, Put(Elems(t.left), l1, queue), Elems(t.right), all)
    modifies t.repr
    ensures t.Valid() && t.elems == all && fresh(t.repr - old(t.repr))
    decreases t.repr, 0
  {
    hide *;
    ValidParts(t);
    var left := TreeInsert(l1, queue, t.left);
    t.left := left;
    NodeIs(left);
    Attach(t, all);
  }

  method InsertRight(t: TreeNode, l1: nat, queue: PriorityQueue, ghost all: Table)
    requires t.Valid() && Split(t.l1, t.queue, Elems(t.left), Put(Elems(t.right), l1, queue), all)
    modifies t.repr
    ensures t.Valid() && t.elems == all && fresh(t.repr - old(t.repr))
    decreases t.repr, 0
  {
    hide *;
    ValidParts(t);
    var right := TreeInsert(l1, queue, t.right);
    t.right := right;
    NodeIs(right);
    Attach(t, all);
  }

  method TreeDelete(l1: nat, t: TreeNode) returns (r: TreeNode?)
    requires t.Valid() && l1 in t.elems
    modifies t.repr
    ensures TreeOk(r) && Elems(r) == Without(old(t.elems), l1)
    ensures Nodes(r) <= old(t.repr) && (r != null ==> r in Nodes(r))
    decreases t.repr, 2
  {
    hide *;
    ValidParts(t);
    NullIs();
    SplitWithout(t.l1, t.queue, Elems(t.left), Elems(t.right), t.elems, l1);
    ghost var all := Without(t.elems, l1);
    if l1 < t.l1 {
      DeleteLeft(t, l1, all);
      r := t;
      NodeIs(t);
      ValidParts(t);
    } else if l1 > t.l1 {
      DeleteRight(t, l1, all);
      r := t;
      NodeIs(t);
      ValidParts(t);
    } else if t.left != null && t.right != null {
      var tmp := TreeFindMin(t.right);
      SplitReplace(t.l1, t.queue, Elems(t.left), Elems(t.right), t.elems, tmp.l1);
      t.l1, t.queue := tmp.l1, tmp.queue;
      NodeIs(t.right);
      DropRight(t, t.l1, all);
      r := t;
      NodeIs(t);
      ValidParts(t);
    } else if t.left == null {
      r := t.right;
    } else {
      r := t.left;
    }
  }

  method DeleteLeft(t: TreeNode, l1: nat, ghost all: Table)
    requires t.Valid() && l1 in Elems(t.left) && Split(t.l1, t.queue, Without(Elems(t.left), l1), Elems(t.right), all)
    modifies t.repr
    ensures t.Valid() && t.elems == all && t.repr <= old(t.repr)
    decreases t.repr, 0
  {
    hide *;
    ValidParts(t);
    NullIs();
    NodeIs(t.left);
    var left := TreeDelete(l1, t.left);
    t.left := left;
    Attach(t, all);
  }

  method DeleteRight(t: TreeNode, l1: nat, ghost all: Table)
    requires t.Valid() && l1 in Elems(t.right) && Split(t.l1, t.queue, Elems(t.left), Without(Elems(t.right), l1), all)
    modifies t.repr
    ensures t.Valid() && t.elems == all && t.repr <= old(t.repr)
    decreases t.repr, 1
  {
    hide *;
    ValidParts(t);
    NullIs();
    DropRight(t, l1, all);
  }

  /** Take a key out of the right subtree; the node itself need not be in order before. */
  method DropRight(t: TreeNode, l1: nat, ghost all: Table)
    requires TreeOk(t.left) && TreeOk(t.right) && t !in Nodes(t.left)
    requires t !in Nodes(t.right) && Nodes(t.left) !! Nodes(t.right)
    requires t.right != null && t.right in Nodes(t.right) && (t.left != null ==> t.left in Nodes(t.left))
    requires l1 in Elems(t.right) && Split(t.l1, t.queue, Elems(t.left), Without(Elems(t.right), l1), all)
    modifies t, Nodes(t.right)
    ensures t.Valid() && t.elems == all && t.repr <= {t} + old(Nodes(t.left)) + old(Nodes(t.right))
    decreases {t} + Nodes(t.left) + Nodes(t.right), 0
  {
    hide *;
    if t.left != null { NodeIs(t.left); }
    NullIs();
    NodeIs(t.right);
    var right := TreeDelete(l1, t.right);
    t.right := right;
    Attach(t, all);
  }
}
