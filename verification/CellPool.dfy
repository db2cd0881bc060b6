/**
 * fluidanimate's cell allocator: blocks of cells, doubled when the list of free cells runs dry.
 *
 * A cell is named by its address.  Addresses below `statics` are the heads that the grid owns for
 * good; each block of the pool takes the next addresses.  `next` is the link field of every cell.
 */
module CellPool {
  const NULL := -1
  const PARTICLES_PER_CELL := 16
  const ALLOC_MIN_CELLS := 1024

  datatype Block = Block(start: nat, size: nat)

  /** The blocks, newest first, lie side by side and cover the addresses from lo up to hi. */
  ghost predicate Tile(blocks: seq<Block>, lo: nat, hi: nat) {
    if blocks == [] then lo == hi
    else blocks[0].start + blocks[0].size == hi && Tile(blocks[1..], lo, blocks[0].start)
  }

  /** The cell below position k of a stack, or NULL. */
  ghost function Under(stack: seq<int>, k: int): int
    requires 0 <= k <= |stack|
  {
    if k == 0 then NULL else stack[k - 1]
  }

  ghost predicate Links(next: seq<int>, stack: seq<int>, k: int)
    requires 0 <= k < |stack|
  {
    0 <= stack[k] < |next| && next[stack[k]] == Under(stack, k)
  }

  /** The list that starts at top runs through stack from its last element down to its first. */
  ghost predicate Stack(next: seq<int>, top: int, stack: seq<int>) {
    && top == Under(stack, |stack|) && (stack != [] ==> 0 <= top < |next|)
    && forall k :: 0 <= k < |stack| ==> Links(next, stack, k)
  }

  ghost predicate Distinct(s: seq<int>) {
    forall i, j :: 0 <= i < j < |s| ==> s[i] != s[j]
  }

  /** The links of a fresh block: each cell leads to the one after it. */
  ghost function Ramp(start: nat, size: nat): seq<int> {
    seq(size, k requires 0 <= k < size => if k == size - 1 then NULL else start + k + 1)
  }

  /** The cells of a fresh block, the lowest address on top. */
  ghost function Descending(start: nat, size: nat): (s: seq<int>)
    ensures |s| == size && Distinct(s)
    ensures forall k :: 0 <= k < size ==> s[k] == start + size - 1 - k
  {
    seq(size, k requires 0 <= k < size => start + size - 1 - k)
  }

  lemma FreshStack(next: seq<int>, start: nat, size: nat)
    requires size > 0 && |next| == start + size && next[start..] == Ramp(start, size)
    ensures Stack(next, start, Descending(start, size))
  {
    var s := Descending(start, size);
    forall k | 0 <= k < size
      ensures Links(next, s, k)
    {
      assert next[start..][size - 1 - k] == Ramp(start, size)[size - 1 - k];
    }
  }

  lemma TopIs(next: seq<int>, top: int, stack: seq<int>)
    requires Stack(next, top, stack)
    ensures stack == [] <==> top == NULL
    ensures stack != [] ==> 0 <= top < |next| && top == stack[|stack| - 1]
  {
  }

  lemma PopStack(next: seq<int>, top: int, stack: seq<int>)
    requires Stack(next, top, stack) && Distinct(stack) && stack != []
    ensures var rest := stack[..|stack| - 1];
            Stack(next[top := NULL], next[top], rest) && Distinct(rest) && top !in rest
    ensures stack == stack[..|stack| - 1] + [top]
  {
    var n, rest := |stack| - 1, stack[..|stack| - 1];
    assert Links(next, stack, n);
    forall k | 0 <= k < n
      ensures rest[k] != top && Links(next[top := NULL], rest, k)
    {
      assert Links(next, stack, k);
      assert stack[k] != stack[n];
    }
  }

  lemma PushStack(next: seq<int>, top: int, stack: seq<int>, cell: int)
    requires Stack(next, top, stack) && Distinct(stack) && cell !in stack && 0 <= cell < |next|
    ensures Stack(next[cell := top], cell, stack + [cell]) && Distinct(stack + [cell])
  {
    var longer, linked := stack + [cell], next[cell := top];
    forall k | 0 <= k < |longer|
      ensures Links(linked, longer, k)
    {
      if k < |stack| {
        assert Links(next, stack, k) && stack[k] in stack;
      }
    }
  }

  lemma KeepStack(next: seq<int>, top: int, stack: seq<int>, cell: int, to: int)
    requires Stack(next, top, stack) && cell !in stack && 0 <= cell < |next|
    ensures Stack(next[cell := to], top, stack)
  {
    var linked := next[cell := to];
    forall k | 0 <= k < |stack| ensures Links(linked, stack, k) {
      assert Links(next, stack, k) && stack[k] in stack;
    }
  }

  class CellPool {
    const statics: nat
    var next: seq<int>
    var cells: int
    var alloc: nat
    var datablocks: seq<Block>
    /** The free cells, the one handed out next at the end. */
    ghost var free: seq<int>

    ghost predicate Valid()
      reads this
    {
      && alloc > 0 && |next| == statics + alloc
      && Stack(next, cells, free) && Distinct(free)
      && (forall k :: 0 <= k < |free| ==> statics <= free[k])
      && Tile(datablocks, statics, |next|)
    }

    /** The pool beside statics grid cells, sized for the given number of particles. */
    constructor (statics: nat, particles: nat)
      requires particles > 0
      ensures Valid() && this.statics == statics && free == Descending(statics, alloc)
      ensures alloc == (if 4 * (particles / 16) < 1024 then 1024 else 4 * (particles / 16))
      ensures forall k :: 0 <= k < statics ==> next[k] == NULL
    {
      this.statics := statics;
      alloc := 4 * (particles / PARTICLES_PER_CELL);
      next := seq(statics, _ => NULL);
      new;
      alloc := if alloc < ALLOC_MIN_CELLS then ALLOC_MIN_CELLS else alloc;
      var block := AllocBlock(alloc);
      datablocks := [block];
      cells := block.start;
      free := Descending(block.start, alloc);
      FreshStack(next, block.start, alloc);
      assert Tile([], statics, statics) && datablocks[1..] == [];
      assert forall k :: 0 <= k < statics ==> next[k] == (next[..statics])[k];
    }

    /** Lay out a block of count cells and link them up, the lowest first. */
    method AllocBlock(count: nat) returns (block: Block)
      requires count > 0
      modifies this`next
      ensures block == Block(old(|next|), count) && |next| == old(|next|) + count
      ensures next[..old(|next|)] == old(next)
      ensures next[old(|next|)..] == Ramp(old(|next|), count)
    {
      block := Block(|next|, count);
      ghost var was := next;
      next := next + seq(count, _ => NULL);
      var i := 0;
      while i < count
        invariant 0 <= i <= count && |next| == |was| + count && next[..|was|] == was
        invariant forall k :: 0 <= k < i ==> next[|was| + k] == Ramp(|was|, count)[k]
      {
        var cell := block.start + i;
        next := next[cell := if i != count - 1 then cell + 1 else NULL];
        i := i + 1;
      }
      assert next[|was|..] == Ramp(|was|, count);
    }

    /** Allocate as many cells as there are already. */
    method Refill()
      requires Valid() && free == []
      modifies this
      ensures Valid() && alloc == 2 * old(alloc)
      ensures free == Descending(old(|next|), old(alloc))
      ensures |next| >= old(|next|) && next[..old(|next|)] == old(next)
    {
      var block := AllocBlock(alloc);
      FreshStack(next, block.start, alloc);
      free := Descending(block.start, alloc);
      alloc := 2 * alloc;
      datablocks := [block] + datablocks;
      assert datablocks[1..] == old(datablocks);
      cells := block.start;
    }

    /**
     * Hand out a free cell, after doubling the pool when none is left.  Whatever the free list does
     * not hold keeps its link.
     */
    method GetCell() returns (cell: int)
      requires Valid()
      modifies this
      ensures Valid() && statics <= cell < |next| && next[cell] == NULL
      ensures alloc == (if old(free) == [] then 2 * old(alloc) else old(alloc))
      ensures free + [cell] ==
              if old(free) == [] then Descending(old(|next|), old(alloc)) else old(free)
      ensures |next| >= old(|next|)
      ensures forall a :: 0 <= a < old(|next|) && a != cell ==> next[a] == old(next)[a]
      ensures cell !in free
    {
      hide Stack, Tile, Distinct;
      TopIs(next, cells, free);
      if cells == NULL {
        Refill();
      }
      TopIs(next, cells, free);
      PopStack(next, cells, free);
      cell := cells;
      free := free[..|free| - 1];
      cells := next[cell];
      next := next[cell := NULL];
    }

    /** Take back a cell that is not free: the next one to be handed out. */
    method ReturnCell(cell: int)
      requires Valid() && statics <= cell < |next| && cell !in free
      modifies this
      ensures Valid() && free == old(free) + [cell] && alloc == old(alloc)
      ensures |next| == old(|next|)
      ensures forall a :: 0 <= a < |next| && a != cell ==> next[a] == old(next)[a]
    {
      PushStack(next, cells, free, cell);
      next := next[cell := cells];
      cells := cell;
      free := free + [cell];
    }

    /** Change the link of a cell that is not free. */
    method SetNext(cell: int, to: int)
      requires Valid() && 0 <= cell < |next| && cell !in free
      modifies this`next
      ensures Valid() && next == old(next)[cell := to]
    {
      KeepStack(next, cells, free, cell, to);
      next := next[cell := to];
    }
  }
}
