/** Flattening the prefix tree: each chain of the tree is written downward into one array, and each node
    leaves a (begin, count) pair in its item's list; reading upward from begin to the mark yields the
    node's ancestors. */
module FpArray {
  import opened FpDatabase
  import opened FpArena
  import opened FpTree
  import opened FpTraversal

  datatype Entry = Entry(begin: nat, count: nat)

  datatype FPArray = FPArray(cells: seq<nat>, lists: seq<seq<Entry>>)

  /** The mark is the largest value of the cell type, and the cell type is chosen by the item count. */
  function MarkFor(itemno: nat): nat {
    if itemno <= 0x100 then 0xff else if itemno <= 0x10000 then 0xffff else 0xffffffff
  }

  /** Reading upward from b gives the path anc backwards, and then the mark. */
  ghost predicate Reads(cells: seq<nat>, mark: nat, b: nat, anc: seq<nat>) {
    && b + |anc| < |cells|
    && cells[b + |anc|] == mark
    && forall k :: b <= k < b + |anc| ==> cells[k] == anc[|anc| - 1 - (k - b)]
  }

  ghost predicate EntryOk(cells: seq<nat>, mark: nat, bound: int, e: Entry, node: Fnode, path: seq<nat>) {
    bound < e.begin && e.count == node.count && Reads(cells, mark, e.begin, AllButLast(path))
  }

  ghost predicate ListOk(nodes: seq<Fnode>, sh: Shape, cells: seq<nat>, mark: nat, bound: int, list: seq<Entry>,
          order: seq<nat>) {
    && |list| == |order| && |nodes| == |sh.path|
    && forall j :: 0 <= j < |list| ==>
        order[j] < |nodes| && EntryOk(cells, mark, bound, list[j], nodes[order[j]], sh.path[order[j]])
  }

  /** The lists hold one good entry for each node of the order, all above the bound. */
  ghost predicate Listed(nodes: seq<Fnode>, sh: Shape, cells: seq<nat>, mark: nat, bound: int,
          lists: seq<seq<Entry>>, order: seq<nat>) {
    forall x :: 0 <= x < |lists| ==> ListOk(nodes, sh, cells, mark, bound, lists[x], Of(nodes, order, x))
  }

  /** Nothing above the bound has changed. */
  ghost predicate SameAbove(a: seq<nat>, b: seq<nat>, bound: int) {
    |a| == |b| && forall k :: 0 <= k < |a| && bound < k ==> b[k] == a[k]
  }

  lemma ReadsFrame(a: seq<nat>, b: seq<nat>, bound: int, mark: nat, begin: nat, anc: seq<nat>)
    requires Reads(a, mark, begin, anc) && SameAbove(a, b, bound) && bound < begin
    ensures Reads(b, mark, begin, anc)
  {
  }

  lemma ListedFrame(nodes: seq<Fnode>, sh: Shape, a: seq<nat>, b: seq<nat>, mark: nat, bound: int, bound': int,
                    lists: seq<seq<Entry>>, order: seq<nat>)
    requires Listed(nodes, sh, a, mark, bound, lists, order) && SameAbove(a, b, bound) && bound' <= bound
    ensures Listed(nodes, sh, b, mark, bound', lists, order)
  {
    forall x | 0 <= x < |lists| ensures ListOk(nodes, sh, b, mark, bound', lists[x], Of(nodes, order, x)) {
      var l, o := lists[x], Of(nodes, order, x);
      assert ListOk(nodes, sh, a, mark, bound, l, o);
      forall j | 0 <= j < |l| ensures EntryOk(b, mark, bound', l[j], nodes[o[j]], sh.path[o[j]]) {
        assert EntryOk(a, mark, bound, l[j], nodes[o[j]], sh.path[o[j]]);
        ReadsFrame(a, b, bound, mark, l[j].begin, AllButLast(sh.path[o[j]]));
      }
    }
  }

  lemma ListedAdd(nodes: seq<Fnode>, sh: Shape, cells: seq<nat>, mark: nat, bound: int, lists: seq<seq<Entry>>,
          order: seq<nat>,
                  c: nat, e: Entry)
    requires Listed(nodes, sh, cells, mark, bound, lists, order)
    requires c < |nodes| == |sh.path| && nodes[c].itemname < |lists|
    requires EntryOk(cells, mark, bound, e, nodes[c], sh.path[c])
    ensures Listed(nodes, sh, cells, mark, bound, lists[nodes[c].itemname := lists[nodes[c].itemname] + [e]],
                   order + [c])
  {
    hide ListOk, EntryOk, Of;
    var y := nodes[c].itemname;
    var lists' := lists[y := lists[y] + [e]];
    forall x | 0 <= x < |lists| ensures ListOk(nodes, sh, cells, mark, bound, lists'[x], Of(nodes, order + [c], x)) {
      OfAppend(nodes, order, c, x);
      assert ListOk(nodes, sh, cells, mark, bound, lists[x], Of(nodes, order, x));
      var o := Of(nodes, order, x);
      if x == y {
        ListOkAdd(nodes, sh, cells, mark, bound, lists[x], o, c, e);
        assert lists'[x] == lists[x] + [e];
      } else {
        assert o + [] == o;
      }
    }
  }

  lemma ListOkAdd(nodes: seq<Fnode>, sh: Shape, cells: seq<nat>, mark: nat, bound: int, list: seq<Entry>,
          order: seq<nat>, c: nat, e: Entry)
    requires ListOk(nodes, sh, cells, mark, bound, list, order) && c < |nodes| == |sh.path|
    requires EntryOk(cells, mark, bound, e, nodes[c], sh.path[c])
    ensures ListOk(nodes, sh, cells, mark, bound, list + [e], order + [c])
  {
    hide EntryOk;
  }

  // ---- The stack of the traversal ----------------------------------------------------------------

  /** Frame (p, k) stands for the children of p from the k-th on. */
  type Frame = (nat, nat)

  ghost predicate FrameOk(nodes: seq<Fnode>, sh: Shape, f: Frame) {
    f.0 < |nodes| == |sh.kids| && f.1 <= |sh.kids[f.0]|
  }

  ghost function DfsAt(nodes: seq<Fnode>, sh: Shape, itemno: nat, f: Frame): seq<nat> {
    if Tree(nodes, sh, itemno) && FrameOk(nodes, sh, f) then Dfs(nodes, sh, itemno, f.0, f.1) else []
  }

  /** The nodes still to be visited. */
  ghost function Rem(nodes: seq<Fnode>, sh: Shape, itemno: nat, frames: seq<Frame>): seq<nat> {
    if frames == [] then []
    else DfsAt(nodes, sh, itemno, frames[|frames| - 1]) + Rem(nodes, sh, itemno, frames[..|frames| - 1])
  }

  lemma RemPush(nodes: seq<Fnode>, sh: Shape, itemno: nat, frames: seq<Frame>, f: Frame)
    ensures Rem(nodes, sh, itemno, frames + [f]) == DfsAt(nodes, sh, itemno, f) + Rem(nodes, sh, itemno, frames)
  {
    assert (frames + [f])[..|frames|] == frames;
  }

  ghost predicate SlotOk(nodes: seq<Fnode>, sh: Shape, nodestack: seq<int>, itemstack: seq<nat>, f: Frame, j: nat)
    requires j < |nodestack| && j < |itemstack|
  {
    && FrameOk(nodes, sh, f)
    && f.0 < |sh.path|
    && nodestack[j] == At(sh.kids[f.0], f.1)
    && sh.path[f.0] == itemstack[..j]
  }

  ghost predicate StackOk(nodes: seq<Fnode>, sh: Shape, nodestack: seq<int>, itemstack: seq<nat>, frames: seq<Frame>) {
    && |frames| <= |nodestack| == |itemstack|
    && forall j :: 0 <= j < |frames| ==> SlotOk(nodes, sh, nodestack, itemstack, frames[j], j)
  }

  lemma StackPop(nodes: seq<Fnode>, sh: Shape, nodestack: seq<int>, itemstack: seq<nat>, frames: seq<Frame>)
    requires StackOk(nodes, sh, nodestack, itemstack, frames) && frames != []
    ensures StackOk(nodes, sh, nodestack, itemstack, frames[..|frames| - 1])
  {
    var front := frames[..|frames| - 1];
    forall j | 0 <= j < |front| ensures SlotOk(nodes, sh, nodestack, itemstack, front[j], j) {
      assert SlotOk(nodes, sh, nodestack, itemstack, frames[j], j);
    }
  }

  /** Writing slot s leaves the frames below it intact. */
  lemma StackPush(nodes: seq<Fnode>, sh: Shape, nodestack: seq<int>, itemstack: seq<nat>, frames: seq<Frame>,
                  nodestack': seq<int>, itemstack': seq<nat>, f: Frame)
    requires StackOk(nodes, sh, nodestack, itemstack, frames) && |frames| < |nodestack|
    requires |nodestack'| == |nodestack| && |itemstack'| == |itemstack|
    requires forall j :: 0 <= j < |frames| ==> nodestack'[j] == nodestack[j]
    requires itemstack'[..|frames|] == itemstack[..|frames|]
    requires SlotOk(nodes, sh, nodestack', itemstack', f, |frames|)
    ensures StackOk(nodes, sh, nodestack', itemstack', frames + [f])
  {
    var s := frames + [f];
    forall j | 0 <= j < |s| ensures SlotOk(nodes, sh, nodestack', itemstack', s[j], j) {
      if j < |frames| {
        assert SlotOk(nodes, sh, nodestack, itemstack, frames[j], j);
        assert itemstack'[..j] == itemstack'[..|frames|][..j] == itemstack[..|frames|][..j] == itemstack[..j];
      }
    }
  }

  // ---- What a chain costs ------------------------------------------------------------------------

  /** The space for the chain through q and everything below it. */
  ghost function ChainNeed(nodes: seq<Fnode>, sh: Shape, itemno: nat, q: nat): nat
    requires Tree(nodes, sh, itemno) && q < |nodes|
  {
    LeafCost(sh, q) + LeafNeed(sh, Dfs(nodes, sh, itemno, q, 0))
  }

  lemma {:induction false} ChainNeedSplit(nodes: seq<Fnode>, sh: Shape, itemno: nat, p: nat, k: nat)
    requires Tree(nodes, sh, itemno) && p < |nodes| && k < |sh.kids[p]|
    ensures sh.kids[p][k] < |nodes|
    ensures LeafNeed(sh, Dfs(nodes, sh, itemno, p, k))
         == ChainNeed(nodes, sh, itemno, sh.kids[p][k]) + LeafNeed(sh, Dfs(nodes, sh, itemno, p, k + 1))
  {
    KidBelow(nodes, sh, itemno, p, k);
    var c := sh.kids[p][k];
    var below, later := Dfs(nodes, sh, itemno, c, 0), Dfs(nodes, sh, itemno, p, k + 1);
    LeafNeedConcat(sh, [c] + below, later);
    LeafNeedConcat(sh, [c], below);
    assert [c][..0] == [];
  }

  lemma {:induction false} ChainNeedCovers(nodes: seq<Fnode>, sh: Shape, itemno: nat, q: nat)
    requires Tree(nodes, sh, itemno) && q < |nodes|
    ensures ChainNeed(nodes, sh, itemno, q) >= |sh.path[q]|
    decreases itemno - |sh.path[q]|
  {
    if sh.kids[q] != [] {
      KidBelow(nodes, sh, itemno, q, 0);
      ChainNeedCovers(nodes, sh, itemno, sh.kids[q][0]);
      ChainNeedSplit(nodes, sh, itemno, q, 0);
    }
  }

  // ---- The state of the traversal ----------------------------------------------------------------

  datatype Scan = Scan(cells: seq<nat>, nodestack: seq<int>,
                       itemstack: seq<nat>, lists: seq<seq<Entry>>, itemiter: int, kept: int)

  ghost predicate TreeOk(nodes: seq<Fnode>, sh: Shape, itemno: nat, nodenum: seq<nat>) {
    && Tree(nodes, sh, itemno) && AllLinked(sh) && PathsOk(nodes, sh, itemno)
    && |nodenum| == itemno && NodeNums(nodenum, nodes, sh)
  }

  ghost function Order(nodes: seq<Fnode>, sh: Shape, itemno: nat): seq<nat> {
    DfsAt(nodes, sh, itemno, (0, 0))
  }

  ghost predicate Buffers(s: Scan, itemno: nat) {
    |s.nodestack| == itemno == |s.itemstack| && |s.lists| == itemno
  }

  /** The top of the loop: the frames hold what is left, and the rest of the array suffices for it. */
  ghost predicate Walking(nodes: seq<Fnode>, sh: Shape, itemno: nat, mark: nat, s: Scan, frames: seq<Frame>,
          done: seq<nat>) {
    && Buffers(s, itemno)
    && StackOk(nodes, sh, s.nodestack, s.itemstack, frames)
    && done + Rem(nodes, sh, itemno, frames) == Order(nodes, sh, itemno)
    && Listed(nodes, sh, s.cells, mark, s.itemiter, s.lists, done)
    && LeafNeed(sh, Rem(nodes, sh, itemno, frames)) <= s.itemiter < |s.cells|
  }

  /** The kept position is that of the parent in the chain written last. */
  ghost predicate KeptOk(sh: Shape, mark: nat, s: Scan, frames: seq<Frame>) {
    frames != [] ==>
      && s.kept >= 0 && s.itemiter < s.kept
      && frames[|frames| - 1].0 < |sh.path|
      && Reads(s.cells, mark, s.kept, sh.path[frames[|frames| - 1].0])
  }

  lemma WalkingFacts(nodes: seq<Fnode>, sh: Shape, itemno: nat, mark: nat, s: Scan, frames: seq<Frame>, done: seq<nat>)
    requires Walking(nodes, sh, itemno, mark, s, frames, done)
    ensures |s.nodestack| == itemno == |s.itemstack| && |s.lists| == itemno && |frames| <= itemno
    ensures StackOk(nodes, sh, s.nodestack, s.itemstack, frames)
    ensures done + Rem(nodes, sh, itemno, frames) == Order(nodes, sh, itemno)
    ensures Listed(nodes, sh, s.cells, mark, s.itemiter, s.lists, done)
    ensures LeafNeed(sh, Rem(nodes, sh, itemno, frames)) <= s.itemiter < |s.cells|
  {
  }

  lemma WalkingFrom(nodes: seq<Fnode>, sh: Shape, itemno: nat, mark: nat, s: Scan, frames: seq<Frame>, done: seq<nat>)
    requires |s.nodestack| == itemno == |s.itemstack| && |s.lists| == itemno
    requires StackOk(nodes, sh, s.nodestack, s.itemstack, frames)
    requires done + Rem(nodes, sh, itemno, frames) == Order(nodes, sh, itemno)
    requires Listed(nodes, sh, s.cells, mark, s.itemiter, s.lists, done)
    requires LeafNeed(sh, Rem(nodes, sh, itemno, frames)) <= s.itemiter < |s.cells|
    ensures Walking(nodes, sh, itemno, mark, s, frames, done)
  {
  }

  lemma KeptFacts(sh: Shape, mark: nat, s: Scan, frames: seq<Frame>)
    requires KeptOk(sh, mark, s, frames) && frames != []
    ensures s.kept >= 0 && s.itemiter < s.kept
    ensures frames[|frames| - 1].0 < |sh.path| && Reads(s.cells, mark, s.kept, sh.path[frames[|frames| - 1].0])
  {
  }

  lemma KeptFrom(sh: Shape, mark: nat, s: Scan, front: seq<Frame>, f: Frame)
    requires s.kept >= 0 && s.itemiter < s.kept && f.0 < |sh.path| && Reads(s.cells, mark, s.kept, sh.path[f.0])
    ensures KeptOk(sh, mark, s, front + [f])
  {
  }

  lemma TopSlot(nodes: seq<Fnode>, sh: Shape, nodestack: seq<int>, itemstack: seq<nat>, frames: seq<Frame>)
    requires frames != [] && StackOk(nodes, sh, nodestack, itemstack, frames)
    ensures var top, f := |frames| - 1, frames[|frames| - 1];
            && top < |nodestack| == |itemstack|
            && f.0 < |nodes| && f.0 < |sh.path| && f.0 < |sh.kids| && f.1 <= |sh.kids[f.0]|
            && nodestack[top] == At(sh.kids[f.0], f.1)
            && sh.path[f.0] == itemstack[..top]
  {
    assert SlotOk(nodes, sh, nodestack, itemstack, frames[|frames| - 1], |frames| - 1);
  }

  lemma RemTop(nodes: seq<Fnode>, sh: Shape, itemno: nat, frames: seq<Frame>)
    requires frames != []
    ensures Rem(nodes, sh, itemno, frames)
         == DfsAt(nodes, sh, itemno, frames[|frames| - 1]) + Rem(nodes, sh, itemno, frames[..|frames| - 1])
  {
  }

  lemma DfsEnd(nodes: seq<Fnode>, sh: Shape, itemno: nat, f: Frame)
    requires f.0 < |sh.kids| && f.1 >= |sh.kids[f.0]|
    ensures DfsAt(nodes, sh, itemno, f) == []
  {
  }

  lemma AtNull(ks: seq<nat>, k: nat)
    requires At(ks, k) == NULL
    ensures k >= |ks|
  {
  }

  lemma PopNull(nodes: seq<Fnode>, sh: Shape, itemno: nat, mark: nat, s: Scan, frames: seq<Frame>, done: seq<nat>)
    requires Walking(nodes, sh, itemno, mark, s, frames, done) && frames != []
    requires |frames| <= |s.nodestack| && s.nodestack[|frames| - 1] == NULL
    ensures Walking(nodes, sh, itemno, mark, s.(kept := s.kept + 1), frames[..|frames| - 1], done)
  {
    hide *;
    var front, f := frames[..|frames| - 1], frames[|frames| - 1];
    WalkingFacts(nodes, sh, itemno, mark, s, frames, done);
    TopSlot(nodes, sh, s.nodestack, s.itemstack, frames);
    AtNull(sh.kids[f.0], f.1);
    StackPop(nodes, sh, s.nodestack, s.itemstack, frames);
    DfsEnd(nodes, sh, itemno, f);
    RemTop(nodes, sh, itemno, frames);
    assert [] + Rem(nodes, sh, itemno, front) == Rem(nodes, sh, itemno, front);
    WalkingFrom(nodes, sh, itemno, mark, s.(kept := s.kept + 1), front, done);
  }

  lemma PopNullKept(nodes: seq<Fnode>, sh: Shape, mark: nat, s: Scan, frames: seq<Frame>)
    requires StackOk(nodes, sh, s.nodestack, s.itemstack, frames) && KeptOk(sh, mark, s, frames) && frames != []
    ensures KeptOk(sh, mark, s.(kept := s.kept + 1), frames[..|frames| - 1])
  {
    var front := frames[..|frames| - 1];
    if front != [] {
      TopSlot(nodes, sh, s.nodestack, s.itemstack, frames);
      StackPop(nodes, sh, s.nodestack, s.itemstack, frames);
      TopSlot(nodes, sh, s.nodestack, s.itemstack, front);
    }
  }

  lemma AtIs(ks: seq<nat>, k: nat)
    requires At(ks, k) != NULL
    ensures k < |ks| && At(ks, k) == ks[k] && At(ks, k) >= 0
  {
  }

  /** The node on top of the stack, and what the traversal owes to it. */
  lemma TopNode(nodes: seq<Fnode>, sh: Shape, itemno: nat, nodenum: seq<nat>, p: nat, k: nat, c: int)
    requires TreeOk(nodes, sh, itemno, nodenum)
    requires p < |nodes| && c == At(sh.kids[p], k) && c != NULL
    ensures k < |sh.kids[p]| && 0 < c < |nodes| && c == sh.kids[p][k] && nodes[c].rightsibling == At(sh.kids[p], k + 1)
    ensures sh.path[c] == sh.path[p] + [nodes[c].itemname]
    ensures nodes[c].itemname < itemno
    ensures AllButLast(sh.path[c]) == sh.path[p] && |sh.path[c]| == |sh.path[p]| + 1 <= itemno
    ensures DfsAt(nodes, sh, itemno, (p, k))
         == [c] + DfsAt(nodes, sh, itemno, (c, 0)) + DfsAt(nodes, sh, itemno, (p, k + 1))
  {
    AtIs(sh.kids[p], k);
    KidBelow(nodes, sh, itemno, p, k);
    assert KidOk(nodes, sh, p, k);
    assert sh.path[c] != sh.path[0];
    assert PathOk(nodes[c], sh.path[c], itemno);
  }

  /** There is room for one more entry in the node's list. */
  lemma RoomInList(nodes: seq<Fnode>, sh: Shape, itemno: nat, nodenum: seq<nat>, s: Scan, mark: nat, bound: int,
                   done: seq<nat>, c: nat, rest: seq<nat>)
    requires TreeOk(nodes, sh, itemno, nodenum) && Buffers(s, itemno)
    requires Listed(nodes, sh, s.cells, mark, bound, s.lists, done)
    requires c < |nodes| && nodes[c].itemname < itemno
    requires done + ([c] + rest) == Order(nodes, sh, itemno)
    ensures |s.lists[nodes[c].itemname]| < nodenum[nodes[c].itemname]
  {
    var x := nodes[c].itemname;
    OfCount(nodes, sh, itemno, x);
    OfAppend(nodes, done, c, x);
    OfPrefix(nodes, done + [c], rest, x);
    assert done + [c] + rest == Order(nodes, sh, itemno);
    assert ListOk(nodes, sh, s.cells, mark, bound, s.lists[x], Of(nodes, done, x));
  }

  function AddEntry(lists: seq<seq<Entry>>, x: nat, e: Entry): seq<seq<Entry>>
    requires x < |lists|
  {
    lists[x := lists[x] + [e]]
  }

  lemma LeafFacts(nodes: seq<Fnode>, sh: Shape, itemno: nat, nodenum: seq<nat>, mark: nat, s: Scan,
          frames: seq<Frame>, done: seq<nat>,
                  p: nat, k: nat, c: nat)
    requires TreeOk(nodes, sh, itemno, nodenum)
    requires Walking(nodes, sh, itemno, mark, s, frames, done) && frames != []
    requires (p, k) == frames[|frames| - 1] && |frames| <= |s.nodestack| && c == s.nodestack[|frames| - 1]
    requires c < |nodes| && nodes[c].leftchild == NULL
    ensures p < |nodes| && nodes[c].itemname < itemno
    ensures |s.lists| == |nodenum| == itemno
    ensures p < |sh.kids| && c == At(sh.kids[p], k) && c < |sh.kids| && sh.kids[c] == []
    ensures |s.lists[nodes[c].itemname]| < nodenum[nodes[c].itemname]
    ensures Rem(nodes, sh, itemno, frames)
         == [c] + (DfsAt(nodes, sh, itemno, (p, k + 1)) + Rem(nodes, sh, itemno, frames[..|frames| - 1]))
  {
    hide *;
    WalkingFacts(nodes, sh, itemno, mark, s, frames, done);
    TopSlot(nodes, sh, s.nodestack, s.itemstack, frames);
    NatIsNotNull(c);
    TopNode(nodes, sh, itemno, nodenum, p, k, c);
    NoKids(nodes, sh, itemno, nodenum, c);
    DfsEnd(nodes, sh, itemno, (c, 0));
    RemTop(nodes, sh, itemno, frames);
    var rest := DfsAt(nodes, sh, itemno, (p, k + 1)) + Rem(nodes, sh, itemno, frames[..|frames| - 1]);
    assert Rem(nodes, sh, itemno, frames) == [c] + rest;
    RoomInList(nodes, sh, itemno, nodenum, s, mark, s.itemiter, done, c, rest);
  }

  lemma NatIsNotNull(c: nat)
    ensures c != NULL
  {
  }

  lemma NoKids(nodes: seq<Fnode>, sh: Shape, itemno: nat, nodenum: seq<nat>, c: nat)
    requires TreeOk(nodes, sh, itemno, nodenum) && c < |nodes|
    ensures c < |sh.kids| == |nodes| == |sh.path| && |nodenum| == itemno
    ensures nodes[c].leftchild == NULL <==> sh.kids[c] == []
    ensures nodes[c].leftchild == At(sh.kids[c], 0)
  {
    assert FirstOk(nodes, sh, c);
    FirstChild(nodes, sh, c);
  }

  lemma NextSlot(nodes: seq<Fnode>, sh: Shape, p: nat, k: nat, nodestack: seq<int>, itemstack: seq<nat>, j: nat)
    requires p < |nodes| == |sh.kids| == |sh.path| && k < |sh.kids[p]|
    requires j < |nodestack| && j < |itemstack| && sh.path[p] == itemstack[..j]
    requires nodestack[j] == At(sh.kids[p], k + 1)
    ensures SlotOk(nodes, sh, nodestack, itemstack, (p, k + 1), j)
  {
  }

  lemma NewEntry(cells: seq<nat>, mark: nat, bound: int, kept: nat, node: Fnode, path: seq<nat>, parent: seq<nat>)
    requires bound < kept && Reads(cells, mark, kept, parent) && AllButLast(path) == parent
    ensures EntryOk(cells, mark, bound, Entry(kept, node.count), node, path)
  {
  }

  lemma SameEntries(lists: seq<seq<Entry>>, x: nat, e: Entry)
    requires x < |lists|
    ensures AddEntry(lists, x, e) == lists[x := lists[x] + [e]]
  {
  }

  /** A leaf that is not the first node shares the kept part of the last chain. */
  lemma LeafWalks(nodes: seq<Fnode>, sh: Shape, itemno: nat, nodenum: seq<nat>, mark: nat, s: Scan, s': Scan,
          frames: seq<Frame>,
                  done: seq<nat>, p: nat, k: nat, c: nat)
    requires TreeOk(nodes, sh, itemno, nodenum)
    requires Walking(nodes, sh, itemno, mark, s, frames, done) && KeptOk(sh, mark, s, frames) && frames != []
    requires (p, k) == frames[|frames| - 1] && |frames| <= |s.nodestack| && c == s.nodestack[|frames| - 1]
    requires c < |nodes| && nodes[c].leftchild == NULL && nodes[c].itemname < itemno == |s.lists| && s.kept >= 0
    requires s' == s.(nodestack := s.nodestack[|frames| - 1 := nodes[c].rightsibling],
                      lists := AddEntry(s.lists, nodes[c].itemname, Entry(s.kept, nodes[c].count)))
    ensures Walking(nodes, sh, itemno, mark, s', frames[..|frames| - 1] + [(p, k + 1)], done + [c])
    ensures KeptOk(sh, mark, s', frames[..|frames| - 1] + [(p, k + 1)])
  {
    hide *;
    var front, f' := frames[..|frames| - 1], (p, k + 1);
    LeafFacts(nodes, sh, itemno, nodenum, mark, s, frames, done, p, k, c);
    WalkingFacts(nodes, sh, itemno, mark, s, frames, done);
    KeptFacts(sh, mark, s, frames);
    TopSlot(nodes, sh, s.nodestack, s.itemstack, frames);
    NatIsNotNull(c);
    TopNode(nodes, sh, itemno, nodenum, p, k, c);
    NoKids(nodes, sh, itemno, nodenum, c);
    StackPop(nodes, sh, s.nodestack, s.itemstack, frames);
    NextSlot(nodes, sh, p, k, s'.nodestack, s'.itemstack, |front|);
    StackPush(nodes, sh, s.nodestack, s.itemstack, front, s'.nodestack, s'.itemstack, f');
    RemPush(nodes, sh, itemno, front, f');
    NewEntry(s.cells, mark, s.itemiter, s.kept, nodes[c], sh.path[c], sh.path[p]);
    ListedAdd(nodes, sh, s.cells, mark, s.itemiter, s.lists, done, c, Entry(s.kept, nodes[c].count));
    SameEntries(s.lists, nodes[c].itemname, Entry(s.kept, nodes[c].count));
    var rest := Rem(nodes, sh, itemno, front + [f']);
    LeafNeedConcat(sh, [c], rest);
    assert done + [c] + rest == done + ([c] + rest);
    WalkingFrom(nodes, sh, itemno, mark, s', front + [f'], done + [c]);
    KeptFrom(sh, mark, s', front, f');
  }

  // ---- Writing a chain ---------------------------------------------------------------------------

  /** In the middle of a chain: the cells down to itemiter + 1 spell the path of q, and the j-th child
      of q comes next. */
  ghost predicate Chaining(nodes: seq<Fnode>, sh: Shape, itemno: nat, mark: nat, s: Scan, frames: seq<Frame>,
          done: seq<nat>, q: nat, j: nat) {
    && Buffers(s, itemno)
    && StackOk(nodes, sh, s.nodestack, s.itemstack, frames)
    && q < |nodes| && q < |sh.path| && |sh.path[q]| == |frames| <= itemno && sh.path[q] == s.itemstack[..|frames|]
    && done + (DfsAt(nodes, sh, itemno, (q, j)) + Rem(nodes, sh, itemno, frames)) == Order(nodes, sh, itemno)
    && 0 <= s.itemiter + 1 && s.itemiter < |s.cells|
    && Reads(s.cells, mark, s.itemiter + 1, sh.path[q])
    && Listed(nodes, sh, s.cells, mark, s.itemiter + 1, s.lists, done)
    && LeafCost(sh, q) + LeafNeed(sh, DfsAt(nodes, sh, itemno, (q, j))) + LeafNeed(sh, Rem(nodes, sh, itemno, frames))
       <= s.itemiter + 1 + |sh.path[q]|
  }

  lemma ChainingFacts(nodes: seq<Fnode>, sh: Shape, itemno: nat, mark: nat, s: Scan, frames: seq<Frame>,
          done: seq<nat>, q: nat, j: nat)
    requires Chaining(nodes, sh, itemno, mark, s, frames, done, q, j)
    ensures |s.nodestack| == itemno == |s.itemstack| && |s.lists| == itemno
    ensures StackOk(nodes, sh, s.nodestack, s.itemstack, frames)
    ensures q < |nodes| && q < |sh.path| && |sh.path[q]| == |frames| <= itemno && sh.path[q] == s.itemstack[..|frames|]
    ensures done + (DfsAt(nodes, sh, itemno, (q, j)) + Rem(nodes, sh, itemno, frames)) == Order(nodes, sh, itemno)
    ensures 0 <= s.itemiter + 1 && s.itemiter < |s.cells|
    ensures Reads(s.cells, mark, s.itemiter + 1, sh.path[q])
    ensures Listed(nodes, sh, s.cells, mark, s.itemiter + 1, s.lists, done)
    ensures LeafCost(sh, q) + LeafNeed(sh, DfsAt(nodes, sh, itemno, (q, j)))
              + LeafNeed(sh, Rem(nodes, sh, itemno, frames))
         <= s.itemiter + 1 + |sh.path[q]|
  {
  }

  lemma ChainingFrom(nodes: seq<Fnode>, sh: Shape, itemno: nat, mark: nat, s: Scan, frames: seq<Frame>,
          done: seq<nat>, q: nat, j: nat)
    requires |s.nodestack| == itemno == |s.itemstack| && |s.lists| == itemno
    requires StackOk(nodes, sh, s.nodestack, s.itemstack, frames)
    requires q < |nodes| && q < |sh.path| && |sh.path[q]| == |frames| <= itemno && sh.path[q] == s.itemstack[..|frames|]
    requires done + (DfsAt(nodes, sh, itemno, (q, j)) + Rem(nodes, sh, itemno, frames)) == Order(nodes, sh, itemno)
    requires 0 <= s.itemiter + 1 && s.itemiter < |s.cells|
    requires Reads(s.cells, mark, s.itemiter + 1, sh.path[q])
    requires Listed(nodes, sh, s.cells, mark, s.itemiter + 1, s.lists, done)
    requires LeafCost(sh, q) + LeafNeed(sh, DfsAt(nodes, sh, itemno, (q, j)))
              + LeafNeed(sh, Rem(nodes, sh, itemno, frames))
          <= s.itemiter + 1 + |sh.path[q]|
    ensures Chaining(nodes, sh, itemno, mark, s, frames, done, q, j)
  {
  }

  /** The chain node c is written: its cell, its stack slot, its entry. */
  ghost function ChainStep(s: Scan, top: nat, item: nat, right: int, count: nat): Scan
    requires top < |s.nodestack| && top < |s.itemstack| && item < |s.lists| && 0 <= s.itemiter < |s.cells|
  {
    Scan(s.cells[s.itemiter := item], s.nodestack[top := right], s.itemstack[top := item],
         AddEntry(s.lists, item, Entry(s.itemiter + 1, count)), s.itemiter - 1, s.kept)
  }

  lemma ReadsLonger(cells: seq<nat>, mark: nat, i: nat, path: seq<nat>, item: nat)
    requires i < |cells| && Reads(cells, mark, i + 1, path)
    ensures Reads(cells[i := item], mark, i, path + [item])
  {
  }

  lemma ReadsShorter(cells: seq<nat>, mark: nat, i: nat, path: seq<nat>)
    requires Reads(cells, mark, i, path) && path != []
    ensures Reads(cells, mark, i + 1, AllButLast(path))
  {
  }

  lemma LeafCostOfParent(sh: Shape, q: nat)
    requires q < |sh.kids| && sh.kids[q] != []
    ensures LeafCost(sh, q) == 0
  {
  }

  lemma ChainNeedAt(nodes: seq<Fnode>, sh: Shape, itemno: nat, nodenum: seq<nat>, q: nat, j: nat, c: nat)
    requires TreeOk(nodes, sh, itemno, nodenum)
    requires q < |nodes| && q < |sh.kids| && j < |sh.kids[q]| && c == sh.kids[q][j] && c < |sh.path|
    ensures LeafNeed(sh, DfsAt(nodes, sh, itemno, (q, j)))
         == LeafCost(sh, c) + LeafNeed(sh, DfsAt(nodes, sh, itemno, (c, 0)))
             + LeafNeed(sh, DfsAt(nodes, sh, itemno, (q, j + 1)))
    ensures LeafNeed(sh, DfsAt(nodes, sh, itemno, (q, j))) >= |sh.path[c]|
  {
    ChainNeedSplit(nodes, sh, itemno, q, j);
    ChainNeedCovers(nodes, sh, itemno, c);
  }

  lemma ChainRoom(nodes: seq<Fnode>, sh: Shape, itemno: nat, nodenum: seq<nat>, mark: nat, s: Scan,
          frames: seq<Frame>, done: seq<nat>,
                  q: nat, j: nat, c: nat)
    requires TreeOk(nodes, sh, itemno, nodenum)
    requires Chaining(nodes, sh, itemno, mark, s, frames, done, q, j)
    requires q < |sh.kids| && c == At(sh.kids[q], j)
    ensures c < |nodes| == |sh.path| && nodes[c].itemname < itemno
    ensures |s.lists| == |s.nodestack| == |s.itemstack| == |nodenum| == itemno
    ensures |frames| < itemno
    ensures 0 <= s.itemiter < |s.cells|
    ensures |s.lists[nodes[c].itemname]| < nodenum[nodes[c].itemname]
  {
    hide *;
    ChainingFacts(nodes, sh, itemno, mark, s, frames, done, q, j);
    NatIsNotNull(c);
    TopNode(nodes, sh, itemno, nodenum, q, j, c);
    NoKids(nodes, sh, itemno, nodenum, c);
    ChainNeedAt(nodes, sh, itemno, nodenum, q, j, c);
    var rest := DfsAt(nodes, sh, itemno, (c, 0))
        + DfsAt(nodes, sh, itemno, (q, j + 1)) + Rem(nodes, sh, itemno, frames);
    assert DfsAt(nodes, sh, itemno, (q, j)) + Rem(nodes, sh, itemno, frames) == [c] + rest;
    RoomInList(nodes, sh, itemno, nodenum, s, mark, s.itemiter + 1, done, c, rest);
  }

  lemma ChainStepOk(nodes: seq<Fnode>, sh: Shape, itemno: nat, nodenum: seq<nat>, mark: nat, s: Scan,
          frames: seq<Frame>, done: seq<nat>,
                    q: nat, j: nat, c: nat)
    requires TreeOk(nodes, sh, itemno, nodenum)
    requires Chaining(nodes, sh, itemno, mark, s, frames, done, q, j)
    requires q < |sh.kids| && c == At(sh.kids[q], j)
    requires c < |nodes| && nodes[c].itemname < itemno == |s.lists| && |frames| < |s.nodestack| == |s.itemstack|
    requires 0 <= s.itemiter < |s.cells|
    ensures Chaining(nodes, sh, itemno, mark,
              ChainStep(s, |frames|, nodes[c].itemname, nodes[c].rightsibling, nodes[c].count),
                     frames + [(q, j + 1)], done + [c], c, 0)
  {
    hide *;
    var item := nodes[c].itemname;
    var s' := ChainStep(s, |frames|, item, nodes[c].rightsibling, nodes[c].count);
    ChainStepFields(s, |frames|, item, nodes[c].rightsibling, nodes[c].count);
    ChainingFacts(nodes, sh, itemno, mark, s, frames, done, q, j);
    NatIsNotNull(c);
    TopNode(nodes, sh, itemno, nodenum, q, j, c);
    NoKids(nodes, sh, itemno, nodenum, c);
    ChainNeedAt(nodes, sh, itemno, nodenum, q, j, c);
    LeafCostOfParent(sh, q);
    NextSlot(nodes, sh, q, j, s'.nodestack, s'.itemstack, |frames|);
    StackPush(nodes, sh, s.nodestack, s.itemstack, frames, s'.nodestack, s'.itemstack, (q, j + 1));
    RemPush(nodes, sh, itemno, frames, (q, j + 1));
    var below, later, r := DfsAt(nodes, sh, itemno, (c, 0)),
        DfsAt(nodes, sh, itemno, (q, j + 1)), Rem(nodes, sh, itemno, frames);
    LeafNeedConcat(sh, later, r);
    assert done + [c] + (below + (later + r)) == done + ([c] + below + later + r);
    ReadsLonger(s.cells, mark, s.itemiter, sh.path[q], item);
    assert s'.itemstack[..|frames| + 1] == s.itemstack[..|frames|] + [item];
    ChainEntries(nodes, sh, mark, s, done, q, c, item);
    ChainingFrom(nodes, sh, itemno, mark, s', frames + [(q, j + 1)], done + [c], c, 0);
  }

  lemma ChainStepFields(s: Scan, top: nat, item: nat, right: int, count: nat)
    requires top < |s.nodestack| && top < |s.itemstack| && item < |s.lists| && 0 <= s.itemiter < |s.cells|
    ensures ChainStep(s, top, item, right, count)
         == Scan(s.cells[s.itemiter := item], s.nodestack[top := right], s.itemstack[top := item],
                 s.lists[item := s.lists[item] + [Entry(s.itemiter + 1, count)]], s.itemiter - 1, s.kept)
  {
  }

  lemma ChainEntries(nodes: seq<Fnode>, sh: Shape, mark: nat, s: Scan, done: seq<nat>, q: nat, c: nat, item: nat)
    requires c < |nodes| == |sh.path| && q < |sh.path| && item == nodes[c].itemname && item < |s.lists|
    requires 0 <= s.itemiter < |s.cells|
    requires Listed(nodes, sh, s.cells, mark, s.itemiter + 1, s.lists, done)
    requires Reads(s.cells, mark, s.itemiter + 1, sh.path[q]) && AllButLast(sh.path[c]) == sh.path[q]
    ensures Listed(nodes, sh, s.cells[s.itemiter := item], mark, s.itemiter,
                   s.lists[item := s.lists[item] + [Entry(s.itemiter + 1, nodes[c].count)]], done + [c])
  {
    var cells' := s.cells[s.itemiter := item];
    ListedFrame(nodes, sh, s.cells, cells', mark, s.itemiter + 1, s.itemiter, s.lists, done);
    assert SameAbove(s.cells, cells', s.itemiter);
    ReadsFrame(s.cells, cells', s.itemiter, mark, s.itemiter + 1, sh.path[q]);
    NewEntry(cells', mark, s.itemiter, s.itemiter + 1, nodes[c], sh.path[c], sh.path[q]);
    ListedAdd(nodes, sh, cells', mark, s.itemiter, s.lists, done, c, Entry(s.itemiter + 1, nodes[c].count));
  }

  /** The chain ends at a leaf, whose own cell may be overwritten by the next mark. */
  lemma ChainEnd(nodes: seq<Fnode>, sh: Shape, itemno: nat, nodenum: seq<nat>, mark: nat, s: Scan,
          frames: seq<Frame>, done: seq<nat>, q: nat)
    requires TreeOk(nodes, sh, itemno, nodenum)
    requires Chaining(nodes, sh, itemno, mark, s, frames, done, q, 0)
    requires q < |sh.kids| && sh.kids[q] == [] && s.itemiter + 1 < |s.cells| && frames != []
    requires frames[|frames| - 1].0 < |sh.path| && q < |sh.path|
    requires AllButLast(sh.path[q]) == sh.path[frames[|frames| - 1].0]
    ensures var s' := s.(itemiter := s.itemiter + 1, kept := s.itemiter + 2);
            Walking(nodes, sh, itemno, mark, s', frames, done) && KeptOk(sh, mark, s', frames)
  {
    hide *;
    var s' := s.(itemiter := s.itemiter + 1, kept := s.itemiter + 2);
    ChainingFacts(nodes, sh, itemno, mark, s, frames, done, q, 0);
    NoKids(nodes, sh, itemno, nodenum, q);
    DfsEnd(nodes, sh, itemno, (q, 0));
    LeafCostOfLeaf(sh, q);
    assert [] + Rem(nodes, sh, itemno, frames) == Rem(nodes, sh, itemno, frames);
    EmptyNeed(sh);
    WalkingFrom(nodes, sh, itemno, mark, s', frames, done);
    ReadsShorter(s.cells, mark, s.itemiter + 1, sh.path[q]);
    var front := frames[..|frames| - 1];
    assert frames == front + [frames[|frames| - 1]];
    KeptFrom(sh, mark, s', front, frames[|frames| - 1]);
  }

  lemma LeafCostOfLeaf(sh: Shape, q: nat)
    requires q < |sh.path| == |sh.kids| && sh.kids[q] == []
    ensures LeafCost(sh, q) == |sh.path[q]|
  {
  }

  lemma EmptyNeed(sh: Shape)
    ensures LeafNeed(sh, []) == 0
  {
  }

  /** The situation in which a new chain starts at the k-th child c of p. */
  lemma ChainStartRoom(nodes: seq<Fnode>, sh: Shape, itemno: nat, nodenum: seq<nat>, mark: nat, s: Scan,
          frames: seq<Frame>,
                       done: seq<nat>, p: nat, k: nat, c: nat)
    requires TreeOk(nodes, sh, itemno, nodenum)
    requires Walking(nodes, sh, itemno, mark, s, frames, done) && frames != []
    requires (p, k) == frames[|frames| - 1] && |frames| <= |s.nodestack| && c == s.nodestack[|frames| - 1]
    ensures c < |nodes| && p < |sh.path| && p < |sh.kids| && c == At(sh.kids[p], k)
    ensures |frames| <= itemno == |s.itemstack|
    ensures sh.path[p] == s.itemstack[..|frames| - 1]
    ensures forall t :: 0 <= t < |frames| - 1 ==> s.itemstack[t] < itemno
    ensures |frames| <= s.itemiter < |s.cells|
  {
    hide *;
    WalkingFacts(nodes, sh, itemno, mark, s, frames, done);
    TopSlot(nodes, sh, s.nodestack, s.itemstack, frames);
    NatIsNotNull(c);
    TopNode(nodes, sh, itemno, nodenum, p, k, c);
    NoKids(nodes, sh, itemno, nodenum, c);
    ChainNeedAt(nodes, sh, itemno, nodenum, p, k, c);
    RemTop(nodes, sh, itemno, frames);
    LeafNeedConcat(sh, DfsAt(nodes, sh, itemno, (p, k)), Rem(nodes, sh, itemno, frames[..|frames| - 1]));
    PathItems(nodes, sh, itemno, nodenum, p);
    assert forall t :: 0 <= t < |frames| - 1 ==> s.itemstack[t] == s.itemstack[..|frames| - 1][t];
  }

  lemma PathItems(nodes: seq<Fnode>, sh: Shape, itemno: nat, nodenum: seq<nat>, p: nat)
    requires TreeOk(nodes, sh, itemno, nodenum) && p < |sh.path|
    ensures forall t :: 0 <= t < |sh.path[p]| ==> sh.path[p][t] < itemno
  {
    if p > 0 { assert PathOk(nodes[p], sh.path[p], itemno); }
  }

  lemma ChainStart(nodes: seq<Fnode>, sh: Shape, itemno: nat, nodenum: seq<nat>, mark: nat, s: Scan, frames: seq<Frame>,
                   done: seq<nat>, p: nat, k: nat, c: nat, cells': seq<nat>)
    requires TreeOk(nodes, sh, itemno, nodenum)
    requires Walking(nodes, sh, itemno, mark, s, frames, done) && frames != []
    requires (p, k) == frames[|frames| - 1] && |frames| <= |s.nodestack| && c == s.nodestack[|frames| - 1]
    requires c < |nodes| && p < |sh.path| && |frames| <= s.itemiter < |s.cells|
    requires SameAbove(s.cells, cells', s.itemiter) && |cells'| == |s.cells|
    requires Reads(cells', mark, s.itemiter - (|frames| - 1), sh.path[p])
    ensures Chaining(nodes, sh, itemno, mark, s.(cells := cells', itemiter := s.itemiter - |frames|),
                     frames[..|frames| - 1], done, p, k)
  {
    hide *;
    var front := frames[..|frames| - 1];
    var s' := s.(cells := cells', itemiter := s.itemiter - |frames|);
    WalkingFacts(nodes, sh, itemno, mark, s, frames, done);
    TopSlot(nodes, sh, s.nodestack, s.itemstack, frames);
    NatIsNotNull(c);
    TopNode(nodes, sh, itemno, nodenum, p, k, c);
    NoKids(nodes, sh, itemno, nodenum, c);
    StackPop(nodes, sh, s.nodestack, s.itemstack, frames);
    RemTop(nodes, sh, itemno, frames);
    LeafNeedConcat(sh, DfsAt(nodes, sh, itemno, (p, k)), Rem(nodes, sh, itemno, front));
    LeafCostOfParent(sh, p);
    ListedFrame(nodes, sh, s.cells, cells', mark, s.itemiter, s'.itemiter + 1, s.lists, done);
    ChainingFrom(nodes, sh, itemno, mark, s', front, done, p, k);
  }

  method Put<T>(a: array<T>, i: nat, x: T)
    requires i < a.Length
    modifies a
    ensures a[..] == old(a[..])[i := x]
  {
    a[i] := x;
  }

  function Trunc(x: nat, mark: nat): nat {
    x % (mark + 1)
  }

  /** The mark and the items of the open ancestors, written downward from itemiter0. */
  method WritePrefix(cells: array<nat>, itemstack: seq<nat>, count: nat, itemiter0: nat,
          mark: nat) returns (itemiter: int)
    requires count <= itemiter0 < cells.Length && count <= |itemstack|
    requires forall t :: 0 <= t < count ==> itemstack[t] <= mark
    modifies cells
    ensures itemiter == itemiter0 - 1 - count
    ensures SameAbove(old(cells[..]), cells[..], itemiter0)
    ensures Reads(cells[..], mark, itemiter + 1, itemstack[..count])
  {
    cells[itemiter0] := mark;
    itemiter := itemiter0 - 1;
    var i := 0;
    while i < count
      invariant 0 <= i <= count && itemiter == itemiter0 - 1 - i
      invariant cells[itemiter0] == mark
      invariant forall k :: itemiter < k < itemiter0 ==> cells[k] == itemstack[itemiter0 - 1 - k]
      invariant forall k :: itemiter0 < k < cells.Length ==> cells[k] == old(cells[k])
    {
      cells[itemiter] := Trunc(itemstack[i], mark);
      itemiter := itemiter - 1;
      i := i + 1;
    }
  }

  /** One entry for each node of an item, whose count is the node's and which reads its ancestors. */
  ghost predicate Flattened(fpa: FPArray, nodes: seq<Fnode>, sh: Shape, itemno: nat, mark: nat) {
    && |fpa.lists| == itemno
    && Listed(nodes, sh, fpa.cells, mark, -1, fpa.lists, Order(nodes, sh, itemno))
  }

  lemma OrderSize(nodes: seq<Fnode>, sh: Shape, itemno: nat, mark: nat, s: Scan, frames: seq<Frame>, done: seq<nat>)
    requires Walking(nodes, sh, itemno, mark, s, frames, done)
    ensures |done| + |Rem(nodes, sh, itemno, frames)| == |Order(nodes, sh, itemno)|
    ensures 0 <= s.itemiter < |s.cells|
  {
    assert |done + Rem(nodes, sh, itemno, frames)| == |done| + |Rem(nodes, sh, itemno, frames)|;
  }

  lemma Initially(nodes: seq<Fnode>, sh: Shape, itemno: nat, nodenum: seq<nat>, mark: nat, s: Scan)
    requires TreeOk(nodes, sh, itemno, nodenum) && 0 < itemno
    requires |s.nodestack| == itemno == |s.itemstack| && |s.lists| == itemno
    requires s.nodestack[0] == nodes[0].leftchild
    requires forall x :: 0 <= x < itemno ==> s.lists[x] == []
    requires LeafDepths(sh.path, sh.kids) <= s.itemiter < |s.cells|
    ensures Walking(nodes, sh, itemno, mark, s, [(0, 0)], [])
  {
    hide *;
    var f: Frame := (0, 0);
    RootFacts(nodes, sh, itemno, nodenum);
    NoKids(nodes, sh, itemno, nodenum, 0);
    RootSlot(nodes, sh, s.nodestack, s.itemstack);
    StackEmpty(nodes, sh, s.nodestack, s.itemstack);
    StackPush(nodes, sh, s.nodestack, s.itemstack, [], s.nodestack, s.itemstack, f);
    assert [] + [f] == [f];
    RemPush(nodes, sh, itemno, [], f);
    RemNone(nodes, sh, itemno);
    OrderIs(nodes, sh, itemno);
    assert DfsAt(nodes, sh, itemno, f) + [] == DfsAt(nodes, sh, itemno, f);
    assert [] + Order(nodes, sh, itemno) == Order(nodes, sh, itemno);
    NothingListed(nodes, sh, s.cells, mark, s.itemiter, s.lists);
    OrderNeed(nodes, sh, itemno, nodenum);
    WalkingFrom(nodes, sh, itemno, mark, s, [f], []);
  }

  lemma RootFacts(nodes: seq<Fnode>, sh: Shape, itemno: nat, nodenum: seq<nat>)
    requires TreeOk(nodes, sh, itemno, nodenum)
    ensures 0 < |nodes| == |sh.path| == |sh.kids| && sh.path[0] == []
  {
  }

  lemma RootSlot(nodes: seq<Fnode>, sh: Shape, nodestack: seq<int>, itemstack: seq<nat>)
    requires 0 < |nodes| == |sh.path| == |sh.kids| && sh.path[0] == []
    requires 0 < |nodestack| == |itemstack| && nodestack[0] == At(sh.kids[0], 0)
    ensures SlotOk(nodes, sh, nodestack, itemstack, (0, 0), 0)
  {
  }

  lemma StackEmpty(nodes: seq<Fnode>, sh: Shape, nodestack: seq<int>, itemstack: seq<nat>)
    requires |nodestack| == |itemstack|
    ensures StackOk(nodes, sh, nodestack, itemstack, [])
  {
  }

  lemma RemNone(nodes: seq<Fnode>, sh: Shape, itemno: nat)
    ensures Rem(nodes, sh, itemno, []) == []
  {
  }

  lemma OrderIs(nodes: seq<Fnode>, sh: Shape, itemno: nat)
    ensures Order(nodes, sh, itemno) == DfsAt(nodes, sh, itemno, (0, 0))
  {
  }

  lemma NothingListed(nodes: seq<Fnode>, sh: Shape, cells: seq<nat>, mark: nat, bound: int, lists: seq<seq<Entry>>)
    requires |nodes| == |sh.path| && forall x :: 0 <= x < |lists| ==> lists[x] == []
    ensures Listed(nodes, sh, cells, mark, bound, lists, [])
  {
  }

  lemma OrderNeed(nodes: seq<Fnode>, sh: Shape, itemno: nat, nodenum: seq<nat>)
    requires TreeOk(nodes, sh, itemno, nodenum)
    ensures LeafNeed(sh, Order(nodes, sh, itemno)) <= LeafDepths(sh.path, sh.kids)
  {
    var order := Order(nodes, sh, itemno);
    DfsAll(nodes, sh, itemno, 0);
    forall k | 0 <= k < |order| ensures order[k] < |sh.path| {
      assert order[k] in order;
      DfsAll(nodes, sh, itemno, order[k]);
    }
    LeafNeedBound(sh, order, |sh.path|);
    assert sh.path[..|sh.path|] == sh.path && sh.kids[..|sh.kids|] == sh.kids;
  }

  lemma TruncSame(x: nat, mark: nat)
    requires x <= mark
    ensures Trunc(x, mark) == x
  {
  }

  /** One node of a chain: its stack slot, its cell, its entry. */
  method WriteNode(nodes: seq<Fnode>, ghost sh: Shape, itemno: nat, nodenum: seq<nat>, mark: nat,
                   cells: array<nat>, nodestack: array<int>, itemstack: array<nat>,
                   lists0: seq<seq<Entry>>, itemiter0: int,
                   stacktop0: int, temp: nat, ghost s: Scan, ghost frames: seq<Frame>,
                   ghost done: seq<nat>, ghost q: nat, ghost j: nat)
    returns (lists: seq<seq<Entry>>, itemiter: int, stacktop: int, ghost s': Scan)
    requires cells != itemstack && cells as object != nodestack && itemstack as object != nodestack
    requires s == Scan(cells[..], nodestack[..], itemstack[..], lists0, itemiter0, s.kept)
    requires itemno <= mark + 1 && q < |sh.kids| && temp == At(sh.kids[q], j) && stacktop0 == |frames| - 1
    requires TreeOk(nodes, sh, itemno, nodenum)
    requires Chaining(nodes, sh, itemno, mark, s, frames, done, q, j)
    modifies cells, nodestack, itemstack
    ensures s' == Scan(cells[..], nodestack[..], itemstack[..], lists, itemiter, s.kept)
    ensures temp < |nodes| == |sh.path| && q < |sh.path| && stacktop == |frames|
    ensures Chaining(nodes, sh, itemno, mark, s', frames + [(q, j + 1)], done + [temp], temp, 0)
    ensures AllButLast(sh.path[temp]) == sh.path[q]
  {
    hide *;
    ChainRoom(nodes, sh, itemno, nodenum, mark, s, frames, done, q, j, temp);
    ChainStepOk(nodes, sh, itemno, nodenum, mark, s, frames, done, q, j, temp);
    ChainingFacts(nodes, sh, itemno, mark, s, frames, done, q, j);
    NatIsNotNull(temp);
    TopNode(nodes, sh, itemno, nodenum, q, j, temp);
    var itemname, itemcount := nodes[temp].itemname, nodes[temp].count;
    ChainStepFields(s, |frames|, itemname, nodes[temp].rightsibling, itemcount);
    TruncSame(itemname, mark);
    stacktop := stacktop0 + 1;
    Put(nodestack, stacktop, nodes[temp].rightsibling);
    Put(itemstack, stacktop, itemname);
    Put(cells, itemiter0, Trunc(itemname, mark));
    itemiter := itemiter0 - 1;
    assert |lists0[itemname]| < nodenum[itemname];
    lists := lists0[itemname := lists0[itemname] + [Entry(itemiter + 2, itemcount)]];
    s' := Scan(cells[..], nodestack[..], itemstack[..], lists, itemiter, s.kept);
  }

  /** A whole chain, from the node on top of the stack down its first children to a leaf. */
  method WriteChain(nodes: seq<Fnode>, ghost sh: Shape, itemno: nat, nodenum: seq<nat>, mark: nat,
                    cells: array<nat>, nodestack: array<int>, itemstack: array<nat>,
                    lists0: seq<seq<Entry>>, itemiter0: int,
                    stacktop0: int, ghost s0: Scan, ghost frames0: seq<Frame>, ghost done0: seq<nat>)
    returns (lists: seq<seq<Entry>>, itemiter: int, stacktop: int, kept: int, ghost s: Scan,
            ghost frames: seq<Frame>, ghost done: seq<nat>)
    requires cells != itemstack && cells as object != nodestack && itemstack as object != nodestack
    requires s0 == Scan(cells[..], nodestack[..], itemstack[..], lists0, itemiter0, s0.kept)
    requires itemno <= mark + 1 && frames0 != [] && stacktop0 == |frames0| - 1 && |frames0| <= nodestack.Length
    requires nodestack[stacktop0] != NULL && nodestack[stacktop0] >= 0
    requires TreeOk(nodes, sh, itemno, nodenum)
    requires Walking(nodes, sh, itemno, mark, s0, frames0, done0)
    modifies cells, nodestack, itemstack
    ensures s == Scan(cells[..], nodestack[..], itemstack[..], lists, itemiter, kept)
    ensures stacktop == |frames| - 1 && |done| > |done0|
    ensures Walking(nodes, sh, itemno, mark, s, frames, done)
    ensures KeptOk(sh, mark, s, frames)
  {
    hide *;
    ghost var f := frames0[|frames0| - 1];
    var temp: int := nodestack[stacktop0];
    ChainStartRoom(nodes, sh, itemno, nodenum, mark, s0, frames0, done0, f.0, f.1, temp);
    lists, itemiter, stacktop := lists0, itemiter0, stacktop0 - 1;
    itemiter := WritePrefix(cells, itemstack[..], stacktop0, itemiter0, mark);
    ChainStart(nodes, sh, itemno, nodenum, mark, s0, frames0, done0, f.0, f.1, temp, cells[..]);
    frames, done := frames0[..|frames0| - 1], done0;
    ghost var q: nat, j: nat := f.0, f.1;
    s := Scan(cells[..], nodestack[..], itemstack[..], lists, itemiter, s0.kept);
    ChainSize(nodes, sh, itemno, mark, s, frames, done, q, j);
    while temp != NULL
      invariant q < |sh.kids| && q < |sh.path| && temp == At(sh.kids[q], j) && stacktop == |frames| - 1
      invariant s == Scan(cells[..], nodestack[..], itemstack[..], lists, itemiter, s0.kept)
      invariant Chaining(nodes, sh, itemno, mark, s, frames, done, q, j)
      invariant |done0| <= |done| <= |Order(nodes, sh, itemno)|
      invariant |done| == |done0| ==> temp != NULL
      invariant |done| > |done0| ==>
                  j == 0 && frames != [] && frames[|frames| - 1].0 < |sh.path|
                  && AllButLast(sh.path[q]) == sh.path[frames[|frames| - 1].0]
      decreases |Order(nodes, sh, itemno)| - |done|
    {
      AtIs(sh.kids[q], j);
      lists, itemiter, stacktop, s :=
        WriteNode(nodes, sh, itemno, nodenum, mark, cells, nodestack, itemstack, lists, itemiter, stacktop,
                                                temp, s, frames, done, q, j);
      frames, done, q, j := frames + [(q, j + 1)], done + [temp], temp, 0;
      ChainSize(nodes, sh, itemno, mark, s, frames, done, q, j);
      NoKids(nodes, sh, itemno, nodenum, temp);
      temp := nodes[temp].leftchild;
    }
    ChainingFacts(nodes, sh, itemno, mark, s, frames, done, q, j);
    AtNull(sh.kids[q], 0);
    ReadsBound(s.cells, mark, itemiter + 1, sh.path[q]);
    ChainEnd(nodes, sh, itemno, nodenum, mark, s, frames, done, q);
    kept := itemiter + 1;
    itemiter := itemiter + 1;
    kept := kept + 1;
    s := Scan(cells[..], nodestack[..], itemstack[..], lists, itemiter, kept);
  }

  lemma ReadsBound(cells: seq<nat>, mark: nat, b: nat, anc: seq<nat>)
    requires Reads(cells, mark, b, anc)
    ensures b < |cells|
  {
  }

  lemma ChainSize(nodes: seq<Fnode>, sh: Shape, itemno: nat, mark: nat, s: Scan, frames: seq<Frame>, done: seq<nat>,
          q: nat, j: nat)
    requires Chaining(nodes, sh, itemno, mark, s, frames, done, q, j)
    ensures |done| <= |Order(nodes, sh, itemno)|
  {
    assert |done + (DfsAt(nodes, sh, itemno, (q, j)) + Rem(nodes, sh, itemno, frames))| >= |done|;
  }

  /** A leaf popped after the first chain: one entry, no cell. */
  method PopNode(nodes: seq<Fnode>, ghost sh: Shape, itemno: nat, nodenum: seq<nat>, ghost mark: nat,
                 ghost cells: seq<nat>, nodestack: array<int>, ghost itemstack: seq<nat>, lists0: seq<seq<Entry>>,
                 ghost itemiter: int,
                 kept: int, stacktop: nat, temp: nat, ghost s: Scan, ghost frames: seq<Frame>, ghost done: seq<nat>)
    returns (lists: seq<seq<Entry>>, ghost s': Scan, ghost frames': seq<Frame>)
    requires s == Scan(cells, nodestack[..], itemstack, lists0, itemiter, kept)
    requires frames != [] && stacktop == |frames| - 1 && |frames| <= nodestack.Length && temp == nodestack[stacktop]
    requires temp < |nodes| && nodes[temp].leftchild == NULL
    requires TreeOk(nodes, sh, itemno, nodenum)
    requires Walking(nodes, sh, itemno, mark, s, frames, done)
    requires KeptOk(sh, mark, s, frames)
    modifies nodestack
    ensures s' == Scan(cells, nodestack[..], itemstack, lists, itemiter, kept)
    ensures |frames'| == |frames|
    ensures Walking(nodes, sh, itemno, mark, s', frames', done + [temp])
    ensures KeptOk(sh, mark, s', frames')
  {
    hide *;
    ghost var f := frames[|frames| - 1];
    LeafFacts(nodes, sh, itemno, nodenum, mark, s, frames, done, f.0, f.1, temp);
    KeptFacts(sh, mark, s, frames);
    var itemname, itemcount := nodes[temp].itemname, nodes[temp].count;
    SameEntries(lists0, itemname, Entry(kept, itemcount));
    Put(nodestack, stacktop, nodes[temp].rightsibling);
    assert |lists0[itemname]| < nodenum[itemname];
    lists := lists0[itemname := lists0[itemname] + [Entry(kept, itemcount)]];
    s' := Scan(cells, nodestack[..], itemstack, lists, itemiter, kept);
    frames' := frames[..|frames| - 1] + [(f.0, f.1 + 1)];
    LeafWalks(nodes, sh, itemno, nodenum, mark, s, s', frames, done, f.0, f.1, temp);
  }

  lemma Finished(nodes: seq<Fnode>, sh: Shape, itemno: nat, mark: nat, s: Scan, done: seq<nat>)
    requires Walking(nodes, sh, itemno, mark, s, [], done)
    ensures Flattened(FPArray(s.cells, s.lists), nodes, sh, itemno, mark)
  {
    assert done + [] == done;
    ListedFrame(nodes, sh, s.cells, s.cells, mark, s.itemiter, -1, s.lists, done);
  }

  /** What the top of the stack says about the next node. */
  lemma TopPointer(nodes: seq<Fnode>, sh: Shape, itemno: nat, nodenum: seq<nat>, mark: nat, s: Scan,
          frames: seq<Frame>, done: seq<nat>)
    requires TreeOk(nodes, sh, itemno, nodenum)
    requires Walking(nodes, sh, itemno, mark, s, frames, done) && frames != []
    ensures |frames| <= itemno == |s.nodestack|
    ensures s.nodestack[|frames| - 1] != NULL ==> 0 <= s.nodestack[|frames| - 1] < |nodes|
  {
    hide *;
    WalkingFacts(nodes, sh, itemno, mark, s, frames, done);
    TopSlot(nodes, sh, s.nodestack, s.itemstack, frames);
    if s.nodestack[|frames| - 1] != NULL {
      var f := frames[|frames| - 1];
      TopNode(nodes, sh, itemno, nodenum, f.0, f.1, s.nodestack[|frames| - 1]);
    }
  }

  /** Flatten the tree into dataNum cells. */
  method Transform(nodes: seq<Fnode>, itemno: nat, nodenum: seq<nat>, dataNum: nat, mark: nat,
          ghost sh: Shape) returns (fpa: FPArray)
    requires TreeOk(nodes, sh, itemno, nodenum)
    requires 0 < itemno <= mark + 1 && LeafDepths(sh.path, sh.kids) < dataNum
    ensures Flattened(fpa, nodes, sh, itemno, mark)
  {
    hide *;
    RootFacts(nodes, sh, itemno, nodenum);
    var cells, nodestack, itemstack := new nat[dataNum], new int[itemno], new nat[itemno];
    var lists: seq<seq<Entry>> := seq(itemno, _ => []);
    var itemiter: int, kept: int, stacktop: int, first := dataNum - 1, dataNum, 0, true;
    Put(nodestack, 0, nodes[0].leftchild);
    ghost var s := Scan(cells[..], nodestack[..], itemstack[..], lists, itemiter, kept);
    ghost var frames: seq<Frame>, done: seq<nat> := [(0, 0)], [];
    Initially(nodes, sh, itemno, nodenum, mark, s);
    OrderSize(nodes, sh, itemno, mark, s, frames, done);
    while stacktop != -1
      invariant stacktop == |frames| - 1 && |done| <= |Order(nodes, sh, itemno)|
      invariant s == Scan(cells[..], nodestack[..], itemstack[..], lists, itemiter, kept)
      invariant Walking(nodes, sh, itemno, mark, s, frames, done)
      invariant !first ==> KeptOk(sh, mark, s, frames)
      decreases |Order(nodes, sh, itemno)| - |done|, stacktop
    {
      TopPointer(nodes, sh, itemno, nodenum, mark, s, frames, done);
      var temp := nodestack[stacktop];
      if temp == NULL {
        PopNull(nodes, sh, itemno, mark, s, frames, done);
        if !first {
          WalkingFacts(nodes, sh, itemno, mark, s, frames, done);
          PopNullKept(nodes, sh, mark, s, frames);
        }
        stacktop, kept := stacktop - 1, kept + 1;
        s, frames := s.(kept := kept), frames[..|frames| - 1];
      } else if !first && nodes[temp].leftchild == NULL {
        lists, s, frames := PopNode(nodes, sh, itemno, nodenum, mark, s.cells,
            nodestack, s.itemstack, lists, itemiter, kept, stacktop, temp,
                                    s, frames, done);
        done := done + [temp];
      } else {
        first := false;
        lists, itemiter, stacktop, kept, s, frames, done :=
          WriteChain(nodes, sh, itemno, nodenum, mark, cells, nodestack,
              itemstack, lists, itemiter, stacktop, s, frames, done);
      }
      OrderSize(nodes, sh, itemno, mark, s, frames, done);
    }
    Finished(nodes, sh, itemno, mark, s, done);
    fpa := FPArray(cells[..], lists);
  }
}
