/** The binary heap in which the reorder stage keeps early chunks of one coarse piece, smallest second-level
    number first. */
module BinHeap {
  import opened DedupFormat
  import opened DedupFragment

  const MIN_PQ_SIZE := 16

  /** Slots 1 to size of e; every child is at least its parent. */
  ghost predicate Ordered(e: seq<Chunk>, size: nat) {
    size < |e| && forall j :: 2 <= j <= size ==> e[j / 2].l2 <= e[j].l2
  }

  ghost function Items(e: seq<Chunk>, size: nat): multiset<Chunk>
    requires size < |e|
  {
    multiset(e[1..size + 1])
  }

  /** Ordered but for slot i, which may be smaller than its parent. */
  ghost predicate OrderedAbove(e: seq<Chunk>, size: nat, i: nat) {
    && size < |e|
    && (forall j :: 2 <= j <= size && j != i ==> e[j / 2].l2 <= e[j].l2)
    && (i >= 2 ==> forall j :: 2 <= j <= size && j / 2 == i ==> e[i / 2].l2 <= e[j].l2)
  }

  /** Ordered but for slot i, which may be larger than its children. */
  ghost predicate OrderedBelow(e: seq<Chunk>, size: nat, i: nat) {
    && size < |e|
    && (forall j :: 2 <= j <= size && j / 2 != i ==> e[j / 2].l2 <= e[j].l2)
    && (i >= 2 ==> forall j :: 2 <= j <= size && j / 2 == i ==> e[i / 2].l2 <= e[j].l2)
  }

  lemma {:induction false} RootIsLeast(e: seq<Chunk>, size: nat, i: nat)
    requires Ordered(e, size) && 1 <= i <= size
    ensures e[1].l2 <= e[i].l2
  {
    if i > 1 { RootIsLeast(e, size, i / 2); }
  }

  function Swapped(e: seq<Chunk>, i: nat, k: nat): (s: seq<Chunk>)
    requires i < |e| && k < |e|
    ensures |s| == |e|
  {
    e[i := e[k]][k := e[i]]
  }

  lemma SwapItems(e: seq<Chunk>, size: nat, i: nat, k: nat)
    requires size < |e| && 1 <= i <= size && 1 <= k <= size
    ensures Items(Swapped(e, i, k), size) == Items(e, size)
  {
    var a, b := e[1..size + 1], Swapped(e, i, k)[1..size + 1];
    assert b == a[i - 1 := a[k - 1]][k - 1 := a[i - 1]];
  }

  /** One step up: the larger parent comes down into slot i. */
  lemma StepUp(e: seq<Chunk>, size: nat, i: nat)
    requires OrderedAbove(e, size, i) && 2 <= i <= size && e[i / 2].l2 > e[i].l2
    ensures OrderedAbove(Swapped(e, i, i / 2), size, i / 2)
    ensures Items(Swapped(e, i, i / 2), size) == Items(e, size)
  {
    var s := Swapped(e, i, i / 2);
    SwapItems(e, size, i, i / 2);
    forall j | 2 <= j <= size && j != i / 2 ensures s[j / 2].l2 <= s[j].l2 {
    }
    if i / 2 >= 2 {
      forall j | 2 <= j <= size && j / 2 == i / 2 ensures s[(i / 2) / 2].l2 <= s[j].l2 {
        assert e[(i / 2) / 2].l2 <= e[i / 2].l2;
        assert e[j / 2].l2 <= e[j].l2 || j == i;
      }
    }
  }

  /** One step down: the smaller child comes up into slot i. */
  lemma StepDown(e: seq<Chunk>, size: nat, i: nat, child: nat)
    requires OrderedBelow(e, size, i) && 1 <= i && 2 <= child <= size && child / 2 == i
    requires e[i].l2 > e[child].l2
    requires forall j :: 2 <= j <= size && j / 2 == i ==> e[child].l2 <= e[j].l2
    ensures OrderedBelow(Swapped(e, i, child), size, child)
    ensures Items(Swapped(e, i, child), size) == Items(e, size)
  {
    var s := Swapped(e, i, child);
    SwapItems(e, size, i, child);
    forall j | 2 <= j <= size && j / 2 != child ensures s[j / 2].l2 <= s[j].l2 {
      if j / 2 == i {
        assert e[child].l2 <= e[j].l2;
      }
    }
    forall j | 2 <= j <= size && j / 2 == child ensures s[child / 2].l2 <= s[j].l2 {
      assert e[j / 2].l2 <= e[j].l2;
    }
  }

  class PriorityQueue {
    var elements: seq<Chunk>
    var size: nat

    ghost predicate Valid()
      reads this
    {
      Ordered(elements, size) && 2 <= |elements|
    }

    ghost function Contents(): multiset<Chunk>
      reads this
      requires Valid()
    {
      Items(elements, size)
    }

    constructor (initCapacity: nat)
      requires MIN_PQ_SIZE <= initCapacity
      ensures Valid() && Contents() == multiset{} && size == 0 && |elements| == initCapacity + 1
    {
      elements := seq(initCapacity + 1, _ => Chunk(0, 0, false, []));
      size := 0;
    }

    predicate IsFull()
      reads this
    {
      size + 1 == |elements|
    }

    predicate IsEmpty()
      reads this
    {
      size == 0
    }

    lemma EmptyContents()
      requires Valid()
      ensures IsEmpty() <==> Contents() == multiset{}
    {
      if size > 0 { assert elements[1] in elements[1..size + 1]; }
    }

    method FindMin() returns (min: Chunk)
      requires Valid() && size != 0
      ensures min in Contents() && forall x :: x in Contents() ==> min.l2 <= x.l2
    {
      min := elements[1];
      RootIs(elements, size);
    }

    /** Double the capacity. */
    method Grow()
      requires Valid()
      modifies this
      ensures Valid() && size == old(size) && Contents() == old(Contents()) && size + 1 < |elements|
      ensures |elements| - 1 == 2 * (old(|elements|) - 1)
    {
      var more: seq<Chunk> := seq(|elements| - 1, _ => Chunk(0, 0, false, []));
      assert (elements + more)[1..size + 1] == elements[1..size + 1];
      elements := elements + more;
    }

    /** Make room for one more. */
    method Reserve()
      requires Valid()
      modifies this
      ensures Valid() && size == old(size) && Contents() == old(Contents()) && size + 1 < |elements|
      ensures |elements| == if old(size + 1 == |elements|) then 2 * old(|elements|) - 1 else old(|elements|)
    {
      hide Contents, Ordered;
      if IsFull() { Grow(); } else { ValidFacts(); }
    }

    lemma ValidFacts()
      requires Valid()
      ensures Ordered(elements, size) && size < |elements| && 2 <= |elements| && Contents() == Items(elements, size)
    {
    }

    lemma ValidFrom()
      requires Ordered(elements, size) && 2 <= |elements|
      ensures Valid() && Contents() == Items(elements, size)
    {
    }

    method Insert(x: Chunk)
      requires Valid()
      modifies this
      ensures Valid() && Contents() == old(Contents()) + multiset{x} && size == old(size) + 1
      ensures |elements| == if old(size + 1 == |elements|) then 2 * old(|elements|) - 1 else old(|elements|)
    {
      hide *;
      Reserve();
      ValidFacts();
      ghost var before := elements;
      size := size + 1;
      if size == 1 {
        elements := elements[1 := x];
        FirstElement(before, x);
        ValidFrom();
        return;
      }
      var i := size;
      Appended(before, size, x);
      ghost var e := elements[i := x];
      while i / 2 >= 1 && elements[i / 2].l2 > x.l2
        invariant 1 <= i <= size < |elements| && |elements| == |before|
        invariant e == elements[i := x] && OrderedAbove(e, size, i)
        invariant Items(e, size) == Items(before, size - 1) + multiset{x}
        invariant size == old(size) + 1
        decreases i
      {
        StepUp(e, size, i);
        MoveHole(elements, i, i / 2, x);
        e := Swapped(e, i, i / 2);
        elements := elements[i := elements[i / 2]];
        i := i / 2;
      }
      elements := elements[i := x];
      AboveDone(elements, size, i);
      ValidFrom();
    }

    /** Remove the root: the last element takes its place and sinks. */
    method DeleteMin() returns (min: Chunk)
      requires Valid() && size != 0
      modifies this
      ensures Valid() && min in old(Contents()) && Contents() == old(Contents()) - multiset{min}
      ensures forall x :: x in old(Contents()) ==> min.l2 <= x.l2
      ensures size == old(size) - 1 && |elements| == old(|elements|)
    {
      hide *;
      ValidFacts();
      RootIs(elements, size);
      Removed(elements, size);
      ghost var before := elements;
      min := elements[1];
      var last := elements[size];
      size := size - 1;
      var i := 1;
      ghost var e := elements[1 := last];
      while 2 * i <= size
        invariant 1 <= i && (i <= size || i == 1) && i < |elements| && size < |elements| == |before|
        invariant e == elements[i := last] && OrderedBelow(e, size, i) && size == old(size) - 1
        invariant Items(e, size) == Items(before, old(size)) - multiset{min}
        decreases size - i
      {
        var child := 2 * i;
        if child != size && elements[child + 1].l2 < elements[child].l2 { child := child + 1; }
        if last.l2 <= elements[child].l2 {
          SmallerChild(e, size, i, child);
          break;
        }
        SmallerChild(e, size, i, child);
        StepDown(e, size, i, child);
        MoveHole(elements, i, child, last);
        e := Swapped(e, i, child);
        elements := elements[i := elements[child]];
        i := child;
      }
      elements := elements[i := last];
      BelowDone(elements, size, i);
      ValidFrom();
    }
  }

  lemma FirstElement(e: seq<Chunk>, x: Chunk)
    requires 1 < |e|
    ensures Ordered(e[1 := x], 1) && Items(e[1 := x], 1) == Items(e, 0) + multiset{x}
  {
    assert e[1 := x][1..2] == e[1..1] + [x];
  }

  lemma MoveHole(e: seq<Chunk>, i: nat, k: nat, x: Chunk)
    requires i < |e| && k < |e| && i != k
    ensures Swapped(e[i := x], i, k) == e[i := e[k]][k := x]
  {
  }

  lemma AboveDone(e: seq<Chunk>, size: nat, i: nat)
    requires OrderedAbove(e, size, i) && 1 <= i <= size < |e| && (i / 2 >= 1 ==> e[i / 2].l2 <= e[i].l2)
    ensures Ordered(e, size)
  {
  }

  lemma BelowDone(e: seq<Chunk>, size: nat, i: nat)
    requires OrderedBelow(e, size, i) && 1 <= i && (i <= size || i == 1) && i < |e|
    requires forall j :: 2 <= j <= size && j / 2 == i ==> e[i].l2 <= At(e, j)
    ensures Ordered(e, size)
  {
    forall j | 2 <= j <= size ensures e[j / 2].l2 <= e[j].l2 {
      if j / 2 == i { assert e[i].l2 <= At(e, j); }
    }
  }

  function At(e: seq<Chunk>, j: nat): nat {
    if j < |e| then e[j].l2 else 0
  }

  lemma SmallerChild(e: seq<Chunk>, size: nat, i: nat, child: nat)
    requires size < |e| && 1 <= i && 2 * i <= size
    requires child == (if 2 * i != size && e[2 * i + 1].l2 < e[2 * i].l2 then 2 * i + 1 else 2 * i)
    ensures 2 <= child <= size && child / 2 == i
    ensures forall j :: 2 <= j <= size && j / 2 == i ==> e[child].l2 <= At(e, j) && e[child].l2 <= e[j].l2
  {
    forall j | 2 <= j <= size && j / 2 == i ensures e[child].l2 <= e[j].l2 {
      assert j == 2 * i || j == 2 * i + 1;
    }
  }

  lemma RootIs(e: seq<Chunk>, size: nat)
    requires Ordered(e, size) && size > 0
    ensures e[1] in Items(e, size) && forall x :: x in Items(e, size) ==> e[1].l2 <= x.l2
  {
    assert e[1] == e[1..size + 1][0];
    forall x | x in Items(e, size) ensures e[1].l2 <= x.l2 {
      var j :| 0 <= j < size && e[1..size + 1][j] == x;
      RootIsLeast(e, size, j + 1);
    }
  }

  lemma Appended(e: seq<Chunk>, size: nat, x: Chunk)
    requires 2 <= size < |e| && Ordered(e, size - 1)
    ensures OrderedAbove(e[size := x], size, size)
    ensures Items(e[size := x], size) == Items(e, size - 1) + multiset{x}
  {
    assert e[size := x][1..size + 1] == e[1..size] + [x];
  }

  lemma Removed(e: seq<Chunk>, size: nat)
    requires Ordered(e, size) && size > 0
    ensures OrderedBelow(e[1 := e[size]], size - 1, 1)
    ensures Items(e[1 := e[size]], size - 1) == Items(e, size) - multiset{e[1]}
  {
    var a := e[1..size + 1];
    if size == 1 {
      assert a == [e[1]];
      assert e[1 := e[size]][1..1] == [];
    } else {
      var b := e[1 := e[size]][1..size];
      assert a == [e[1]] + e[2..size] + [e[size]];
      assert b == [e[size]] + e[2..size];
    }
  }
}
