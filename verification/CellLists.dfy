/**
 * The lists of cells that hold fluidanimate's particles: sixteen particles to a cell, every cell
 * full except the last.
 */
module CellLists {
  import opened CellPool

  datatype Vec3 = Vec3(x: real, y: real, z: real)

  /** What a particle carries from one step to the next. */
  datatype Particle = Particle(p: Vec3, hv: Vec3, v: Vec3)

  // ---- Memory ------------------------------------------------------------------------------------

  /** Where a cell belongs: nowhere, on the free stack, or in a list of the grid. */
  datatype Owner = Idle | InPool(pos: nat) | InList(list: nat, pos: nat)

  datatype Mem = Mem(statics: nat, next: seq<int>, data: map<(int, int), Particle>, owner: seq<Owner>)

  ghost predicate MemOk(m: Mem) { |m.owner| == |m.next| }

  ghost predicate SlotHas(data: map<(int, int), Particle>, cell: int, slot: int, v: Particle) {
    (cell, slot) in data && data[(cell, slot)] == v
  }

  function CellsFor(np: nat): nat {
    if np == 0 then 1 else (np + PARTICLES_PER_CELL - 1) / PARTICLES_PER_CELL
  }

  function CellAt(cells: seq<int>, k: nat): int {
    if k < |cells| then cells[k] else NULL
  }

  ghost predicate CellOk(m: Mem, cells: seq<int>, t: nat, k: nat)
    requires MemOk(m) && k < |cells|
  {
    && 0 <= cells[k] < |m.next| && m.owner[cells[k]] == InList(t, k)
    && m.next[cells[k]] == CellAt(cells, k + 1)
    && (k > 0 ==> m.statics <= cells[k])
  }

  ghost predicate PartOk(m: Mem, cells: seq<int>, parts: seq<Particle>, k: nat, s: nat)
    requires k < |cells|
  {
    16 * k + s < |parts| ==> SlotHas(m.data, cells[k], s, parts[16 * k + s])
  }

  /** From its cell number `from` on, the list t of the given cells holds the given particles. */
  ghost predicate ListOk(m: Mem, cells: seq<int>, parts: seq<Particle>, t: nat, from: nat) {
    && MemOk(m) && |cells| == CellsFor(|parts|) && from <= |cells|
    && (forall k :: from <= k < |cells| ==> CellOk(m, cells, t, k))
    && (forall k, s :: from <= k < |cells| && 0 <= s < 16 ==> PartOk(m, cells, parts, k, s))
  }

  ghost predicate FreeOk(owner: seq<Owner>, free: seq<int>) {
    forall k :: 0 <= k < |free| ==> 0 <= free[k] < |owner| && owner[free[k]] == InPool(k)
  }

  // ---- Frames ------------------------------------------------------------------------------------

  ghost predicate KeptAt(m: Mem, n: Mem, a: int)
    requires MemOk(m) && MemOk(n)
  {
    0 <= a < |m.next| ==>
      && a < |n.next| && n.owner[a] == m.owner[a] && n.next[a] == m.next[a]
      && forall s :: (a, s) in m.data ==> SlotHas(n.data, a, s, m.data[(a, s)])
  }

  /** Every cell of every list but t is as before. */
  ghost predicate OthersKept(m: Mem, n: Mem, t: nat) {
    && MemOk(m) && MemOk(n) && n.statics == m.statics
    && forall a :: 0 <= a < |m.next| && m.owner[a].InList? && m.owner[a].list != t ==> KeptAt(m, n, a)
  }

  /** Every cell of a list is as before, except perhaps c. */
  ghost predicate KeptExcept(m: Mem, n: Mem, c: int) {
    && MemOk(m) && MemOk(n) && n.statics == m.statics
    && forall a :: 0 <= a < |m.next| && m.owner[a].InList? && a != c ==> KeptAt(m, n, a)
  }

  lemma ListKept(m: Mem, n: Mem, cells: seq<int>, parts: seq<Particle>, t: nat, from: nat)
    requires ListOk(m, cells, parts, t, from) && MemOk(n) && n.statics == m.statics
    requires forall k :: from <= k < |cells| ==> KeptAt(m, n, cells[k])
    ensures ListOk(n, cells, parts, t, from)
  {
    forall k | from <= k < |cells| ensures CellOk(n, cells, t, k) {
      assert CellOk(m, cells, t, k) && KeptAt(m, n, cells[k]);
    }
    forall k, s | from <= k < |cells| && 0 <= s < 16 ensures PartOk(n, cells, parts, k, s) {
      assert CellOk(m, cells, t, k) && KeptAt(m, n, cells[k]) && PartOk(m, cells, parts, k, s);
    }
  }

  lemma OtherListKept(m: Mem, n: Mem, cells: seq<int>, parts: seq<Particle>, t: nat, from: nat, u: nat)
    requires ListOk(m, cells, parts, t, from) && OthersKept(m, n, u) && t != u
    ensures ListOk(n, cells, parts, t, from)
  {
    forall k | from <= k < |cells| ensures KeptAt(m, n, cells[k]) {
      assert CellOk(m, cells, t, k);
    }
    ListKept(m, n, cells, parts, t, from);
  }

  lemma ListKeptExcept(m: Mem, n: Mem, cells: seq<int>, parts: seq<Particle>, t: nat, from: nat, c: int)
    requires ListOk(m, cells, parts, t, from) && KeptExcept(m, n, c) && 0 <= c < |m.next|
    requires m.owner[c].InList? ==> m.owner[c].list != t || m.owner[c].pos < from
    ensures ListOk(n, cells, parts, t, from)
  {
    forall k | from <= k < |cells| ensures KeptAt(m, n, cells[k]) {
      assert CellOk(m, cells, t, k);
    }
    ListKept(m, n, cells, parts, t, from);
  }

  lemma Drop(m: Mem, cells: seq<int>, parts: seq<Particle>, t: nat, from: nat)
    requires ListOk(m, cells, parts, t, from) && from < |cells|
    ensures ListOk(m, cells, parts, t, from + 1)
  {
  }

  // ---- Appending a particle ----------------------------------------------------------------------

  ghost function WithSlot(m: Mem, cell: int, slot: int, v: Particle): Mem {
    m.(data := m.data[(cell, slot) := v])
  }

  ghost function WithCell(m: Mem, last: int, cell: int, t: nat, k: nat): Mem
    requires MemOk(m) && 0 <= last < |m.next| && 0 <= cell < |m.next|
  {
    m.(next := m.next[last := cell], owner := m.owner[cell := InList(t, k)])
  }

  lemma CellCount(np: nat)
    ensures np % 16 != 0 || np == 0 ==> CellsFor(np + 1) == CellsFor(np) && np == 16 * (CellsFor(np) - 1) + np % 16
    ensures np % 16 == 0 && np != 0 ==> CellsFor(np + 1) == CellsFor(np) + 1 && np == 16 * CellsFor(np)
    ensures 16 * (CellsFor(np) - 1) <= np <= 16 * CellsFor(np) && CellsFor(np) >= 1
    ensures np > 0 ==> np > 16 * (CellsFor(np) - 1)
  {
  }

  /** There is room in the last cell. */
  lemma AppendHere(m: Mem, cells: seq<int>, parts: seq<Particle>, t: nat, v: Particle)
    requires ListOk(m, cells, parts, t, 0) && (|parts| % 16 != 0 || parts == [])
    ensures |cells| > 0
    ensures var n := WithSlot(m, cells[|cells| - 1], |parts| % 16, v);
            ListOk(n, cells, parts + [v], t, 0) && OthersKept(m, n, t)
  {
    CellCount(|parts|);
    var last, slot, more := |cells| - 1, |parts| % 16, parts + [v];
    var n := WithSlot(m, cells[last], slot, v);
    assert CellOk(m, cells, t, last);
    forall k | 0 <= k < |cells| ensures CellOk(n, cells, t, k) {
      assert CellOk(m, cells, t, k);
    }
    forall k, s | 0 <= k < |cells| && 0 <= s < 16 ensures PartOk(n, cells, more, k, s) {
      assert CellOk(m, cells, t, k) && PartOk(m, cells, parts, k, s);
    }
    forall a | 0 <= a < |m.next| && m.owner[a].InList? && m.owner[a].list != t
      ensures KeptAt(m, n, a)
    {
    }
  }

  /** The last cell is full: a fresh cell is linked behind it. */
  lemma AppendThere(m: Mem, cells: seq<int>, parts: seq<Particle>, t: nat, c: int, v: Particle)
    requires ListOk(m, cells, parts, t, 0) && |parts| % 16 == 0 && parts != []
    requires m.statics <= c < |m.next| && m.owner[c] == Idle && m.next[c] == NULL
    ensures |cells| > 0 && 0 <= cells[|cells| - 1] < |m.next|
    ensures var n := WithSlot(WithCell(m, cells[|cells| - 1], c, t, |cells|), c, 0, v);
            ListOk(n, cells + [c], parts + [v], t, 0) && OthersKept(m, n, t)
  {
    CellCount(|parts|);
    var last, more, longer := |cells| - 1, parts + [v], cells + [c];
    assert CellOk(m, cells, t, last);
    var n := WithSlot(WithCell(m, cells[last], c, t, |cells|), c, 0, v);
    forall k | 0 <= k < |longer| ensures CellOk(n, longer, t, k) {
      if k < |cells| {
        assert CellOk(m, cells, t, k);
        assert k != last ==> cells[k] != cells[last];
      }
    }
    forall k, s | 0 <= k < |longer| && 0 <= s < 16 ensures PartOk(n, longer, more, k, s) {
      if k < |cells| {
        assert CellOk(m, cells, t, k) && PartOk(m, cells, parts, k, s);
      }
    }
    forall a | 0 <= a < |m.next| && m.owner[a].InList? && m.owner[a].list != t
      ensures KeptAt(m, n, a)
    {
    }
  }

  /** Particle j of a list is overwritten in place. */
  lemma Overwrite(m: Mem, cells: seq<int>, parts: seq<Particle>, t: nat, k: nat, j: nat, v: Particle)
    requires ListOk(m, cells, parts, t, 0) && j < |parts| && k == j / 16 && k < |cells|
    ensures var n := WithSlot(m, cells[k], j % 16, v);
            ListOk(n, cells, parts[j := v], t, 0) && OthersKept(m, n, t)
  {
    var n, more := WithSlot(m, cells[k], j % 16, v), parts[j := v];
    assert CellOk(m, cells, t, k);
    forall l | 0 <= l < |cells| ensures CellOk(n, cells, t, l) {
      assert CellOk(m, cells, t, l);
    }
    forall l, s | 0 <= l < |cells| && 0 <= s < 16 ensures PartOk(n, cells, more, l, s) {
      assert CellOk(m, cells, t, l) && PartOk(m, cells, parts, l, s);
    }
    forall a | 0 <= a < |m.next| && m.owner[a].InList? && m.owner[a].list != t
      ensures KeptAt(m, n, a)
    {
    }
  }

  // ---- Counting the cells ------------------------------------------------------------------------

  /** The cells of the lists that are not their heads. */
  ghost function Overflow(lists: seq<seq<int>>): int {
    if lists == [] then 0 else Overflow(lists[..|lists| - 1]) + |lists[|lists| - 1]| - 1
  }

  lemma {:induction false} OverflowUpdate(lists: seq<seq<int>>, d: nat, cells: seq<int>)
    requires d < |lists|
    ensures Overflow(lists[d := cells]) == Overflow(lists) + |cells| - |lists[d]|
  {
    var n := |lists| - 1;
    if d == n {
      assert lists[d := cells][..n] == lists[..n];
    } else {
      assert lists[d := cells][..n] == lists[..n][d := cells];
      OverflowUpdate(lists[..n], d, cells);
    }
  }

  lemma {:induction false} OverflowFirst(lists: seq<seq<int>>)
    requires lists != []
    ensures Overflow(lists) == |lists[0]| - 1 + Overflow(lists[1..])
  {
    var n := |lists| - 1;
    if n > 0 {
      OverflowFirst(lists[..n]);
      assert lists[..n][1..] == lists[1..][..n - 1];
    } else {
      assert lists[..n] == [] && lists[1..] == [];
    }
  }

  lemma {:induction false} OverflowHeads(lists: seq<seq<int>>)
    requires forall d :: 0 <= d < |lists| ==> |lists[d]| == 1
    ensures Overflow(lists) == 0
  {
    if lists != [] { OverflowHeads(lists[..|lists| - 1]); }
  }
}
