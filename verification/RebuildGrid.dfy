/** The serial version's grid: loading the particles and rebuilding the lists of cells. */
module RebuildGrid {
  import opened CellPool
  import opened CellLists
  import opened CellGrid
  import opened Walls

  // ---- All lists together ------------------------------------------------------------------------

  ghost predicate HomeOk(m: Mem, lists: seq<seq<int>>, parts: seq<seq<Particle>>, base: nat, d: nat)
    requires d < |lists| && d < |parts|
  {
    ListOk(m, lists[d], parts[d], base + d, 0) && lists[d] != [] && lists[d][0] == base + d
  }

  /** From list lo on, the lists that start at the heads from `base` hold the given particles. */
  ghost predicate ListsOk(m: Mem, lists: seq<seq<int>>, parts: seq<seq<Particle>>, base: nat, lo: nat) {
    && |lists| == |parts|
    && forall d :: lo <= d < |lists| ==> HomeOk(m, lists, parts, base, d)
  }

  ghost predicate CountsOk(counts: seq<int>, parts: seq<seq<Particle>>) {
    |counts| == |parts| && forall d :: 0 <= d < |parts| ==> counts[d] == |parts[d]|
  }

  ghost predicate LastsOk(lasts: seq<int>, lists: seq<seq<int>>) {
    && |lasts| == |lists|
    && forall d :: 0 <= d < |lists| ==> lists[d] != [] && lasts[d] == lists[d][|lists[d]| - 1]
  }

  lemma ListsAfterAppend(m: Mem, n: Mem, lists: seq<seq<int>>, parts: seq<seq<Particle>>, base: nat,
                         d: nat, cells: seq<int>, v: Particle)
    requires ListsOk(m, lists, parts, base, 0) && d < |lists| && OthersKept(m, n, base + d)
    requires ListOk(n, cells, parts[d] + [v], base + d, 0) && cells != [] && cells[0] == base + d
    ensures ListsOk(n, lists[d := cells], parts[d := parts[d] + [v]], base, 0)
  {
    var ls, ps := lists[d := cells], parts[d := parts[d] + [v]];
    forall e | 0 <= e < |ls| ensures HomeOk(n, ls, ps, base, e) {
      assert HomeOk(m, lists, parts, base, e);
      if e != d { OtherListKept(m, n, lists[e], parts[e], base + e, 0, base + d); }
    }
  }

  /** Lists are as they were when only list u, elsewhere, was touched. */
  lemma ListsApart(m: Mem, n: Mem, lists: seq<seq<int>>, parts: seq<seq<Particle>>, base: nat, lo: nat, u: nat)
    requires ListsOk(m, lists, parts, base, lo) && OthersKept(m, n, u)
    requires u < base + lo || base + |lists| <= u
    ensures ListsOk(n, lists, parts, base, lo)
  {
    forall d | lo <= d < |lists| ensures HomeOk(n, lists, parts, base, d) {
      assert HomeOk(m, lists, parts, base, d);
      OtherListKept(m, n, lists[d], parts[d], base + d, 0, u);
    }
  }

  /** Lists are as they were when only a cell c was touched that none of them has. */
  lemma ListsWithout(m: Mem, n: Mem, lists: seq<seq<int>>, parts: seq<seq<Particle>>, base: nat, lo: nat, c: int)
    requires ListsOk(m, lists, parts, base, lo) && KeptExcept(m, n, c) && 0 <= c < |m.next|
    requires m.owner[c].InList? ==> m.owner[c].list < base + lo || base + |lists| <= m.owner[c].list
    ensures ListsOk(n, lists, parts, base, lo)
  {
    forall d | lo <= d < |lists| ensures HomeOk(n, lists, parts, base, d) {
      assert HomeOk(m, lists, parts, base, d);
      ListKeptExcept(m, n, lists[d], parts[d], base + d, 0, c);
    }
  }

  lemma OthersKeptTrans(m: Mem, n: Mem, o: Mem, c: int, u: nat)
    requires KeptExcept(m, n, c) && OthersKept(n, o, u)
    requires 0 <= c < |m.next| ==> !m.owner[c].InList?
    ensures OthersKept(m, o, u)
  {
    forall a | 0 <= a < |m.next| && m.owner[a].InList? && m.owner[a].list != u
      ensures KeptAt(m, o, a)
    {
      assert KeptAt(m, n, a) && KeptAt(n, o, a);
    }
  }

  /** The owners once cells have been added to the pool and the top one has been taken. */
  ghost function Grown(owner: seq<Owner>, more: nat, c: int): seq<Owner>
    requires 0 <= c < |owner| + more
  {
    (owner + seq(more, k requires 0 <= k < more => InPool(more - 1 - k)))[c := Idle]
  }

  lemma TakenFree(owner: seq<Owner>, free: seq<int>, more: nat, c: int, rest: seq<int>)
    requires FreeOk(owner, free) && 0 <= c < |owner| + more && c !in rest
    requires more == 0 ==> rest + [c] == free
    requires more > 0 ==> rest + [c] == Descending(|owner|, more)
    ensures FreeOk(Grown(owner, more, c), rest)
    ensures c < |owner| ==> owner[c].InPool?
  {
    var all := rest + [c];
    assert all[|rest|] == c;
    forall k | 0 <= k < |rest|
      ensures 0 <= rest[k] < |owner| + more && Grown(owner, more, c)[rest[k]] == InPool(k)
    {
      assert rest[k] == all[k] && rest[k] in rest;
    }
  }

  lemma FreeApart(owner: seq<Owner>, free: seq<int>, c: int)
    requires FreeOk(owner, free) && 0 <= c < |owner| && !owner[c].InPool?
    ensures c !in free
  {
  }

  lemma FreeUpdate(owner: seq<Owner>, free: seq<int>, c: int, to: Owner)
    requires FreeOk(owner, free) && 0 <= c < |owner| && !owner[c].InPool?
    ensures FreeOk(owner[c := to], free)
  {
  }

  lemma LastOwned(m: Mem, cells: seq<int>, parts: seq<Particle>, t: nat)
    requires ListOk(m, cells, parts, t, 0)
    ensures cells != []
    ensures var last := cells[|cells| - 1];
            0 <= last < |m.next| && m.owner[last] == InList(t, |cells| - 1)
  {
    CellCount(|parts|);
    assert CellOk(m, cells, t, |cells| - 1);
  }

  lemma ExtendList(m: Mem, n: Mem, cells: seq<int>, parts: seq<Particle>, t: nat, c: int, v: Particle)
    requires ListOk(m, cells, parts, t, 0) && |parts| % 16 == 0 && parts != []
    requires KeptExcept(m, n, c) && n.statics <= c < |n.next| && n.owner[c] == Idle && n.next[c] == NULL
    requires c < |m.owner| ==> m.owner[c].InPool?
    ensures cells != []
    ensures var last := cells[|cells| - 1];
            && 0 <= last < |n.next| && n.owner[last] == InList(t, |cells| - 1)
            && var o := WithSlot(WithCell(n, last, c, t, |cells|), c, 0, v);
               ListOk(o, cells + [c], parts + [v], t, 0) && OthersKept(m, o, t)
  {
    forall k | 0 <= k < |cells| ensures KeptAt(m, n, cells[k]) {
      assert CellOk(m, cells, t, k);
    }
    ListKept(m, n, cells, parts, t, 0);
    LastOwned(n, cells, parts, t);
    AppendThere(n, cells, parts, t, c, v);
    OthersKeptTrans(m, n, WithSlot(WithCell(n, cells[|cells| - 1], c, t, |cells|), c, 0, v), c, t);
  }

  lemma NewLast(m: Mem, cells: seq<int>, c: int, parts: seq<Particle>, t: nat)
    requires ListOk(m, cells + [c], parts, t, 0) && cells != []
    ensures c != cells[|cells| - 1]
  {
    var longer := cells + [c];
    assert CellOk(m, longer, t, |cells|) && CellOk(m, longer, t, |cells| - 1);
  }

  lemma CountsAfter(counts: seq<int>, parts: seq<seq<Particle>>, d: nat, v: Particle)
    requires CountsOk(counts, parts) && d < |parts|
    ensures CountsOk(counts[d := counts[d] + 1], parts[d := parts[d] + [v]])
  {
  }

  /** One link further along a list. */
  lemma WalkOn(m: Mem, cells: seq<int>, parts: seq<Particle>, t: nat, k: nat)
    requires ListOk(m, cells, parts, t, 0) && k < |cells|
    ensures 0 <= cells[k] < |m.next| && m.next[cells[k]] == CellAt(cells, k + 1)
    ensures |parts| - 16 * k > 16 <==> k + 1 < |cells|
  {
    assert CellOk(m, cells, t, k);
    CellCount(|parts|);
  }

  lemma SlotRead(m: Mem, cells: seq<int>, parts: seq<Particle>, t: nat, k: nat, j: nat)
    requires ListOk(m, cells, parts, t, k) && j < |parts| && k == j / 16 && k < |cells|
    ensures SlotHas(m.data, cells[k], j % 16, parts[j])
  {
    assert PartOk(m, cells, parts, k, j % 16);
  }

  lemma SlotRead0(m: Mem, cells: seq<int>, parts: seq<Particle>, t: nat, k: nat, j: nat)
    requires ListOk(m, cells, parts, t, 0) && j < |parts| && k == j / 16 && k < |cells|
    ensures SlotHas(m.data, cells[k], j % 16, parts[j])
  {
    assert PartOk(m, cells, parts, k, j % 16);
  }

  /** What the first cell left of a list says: its link, its owner, and whether it is the head. */
  lemma CellRead(m: Mem, cells: seq<int>, parts: seq<Particle>, t: nat, k: nat)
    requires ListOk(m, cells, parts, t, k) && k < |cells| && t < m.statics && cells[0] == t
    ensures 0 <= cells[k] < |m.next| && |m.owner| == |m.next| && m.owner[cells[k]] == InList(t, k)
    ensures m.next[cells[k]] == CellAt(cells, k + 1)
    ensures k > 0 <==> cells[k] != t
    ensures k > 0 ==> m.statics <= cells[k]
  {
    assert CellOk(m, cells, t, k);
  }

  lemma SizesOkOf(m: Mem, lists: seq<seq<int>>, parts: seq<seq<Particle>>, base: nat)
    requires ListsOk(m, lists, parts, base, 0)
    ensures |lists| == |parts|
  {
  }

  /** How many cells of the pool are left of a list, once its first k cells are gone. */
  ghost function Left(cells: seq<int>, k: nat): int {
    |cells| - (if k == 0 then 1 else k)
  }

  lemma LeftIs(cells: seq<int>, k: nat)
    ensures Left(cells, k) == |cells| - (if k == 0 then 1 else k)
  {
  }

  lemma CellAtIs(cells: seq<int>, k: nat)
    ensures CellAt(cells, k) == if k < |cells| then cells[k] else NULL
  {
  }

  lemma OverflowNil()
    ensures Overflow([]) == 0
  {
  }

  lemma FlattenNext(parts: seq<seq<Particle>>, i: nat)
    requires i < |parts|
    ensures Flatten(parts[..i + 1]) == Flatten(parts[..i]) + parts[i]
  {
    assert parts[..i + 1][..i] == parts[..i];
  }

  lemma Sorted(dom: Domain, held: seq<seq<Particle>>)
    requires DomainOk(dom) && |held| == NumCells(dom)
    ensures var now := Scatter(dom, Flatten(held));
            && multiset(Flatten(now)) == multiset(Flatten(held))
            && AllHome(dom, now) && (AllHome(dom, held) ==> now == held)
  {
    hide Index, NumCells;
    var now := Scatter(dom, Flatten(held));
    ScatterKeepsAll(dom, Flatten(held));
    forall d, v | 0 <= d < |now| && v in now[d] ensures Index(dom, v) == d {
      ScatterPlaces(dom, Flatten(held), d);
    }
    if AllHome(dom, held) { SortedStays(dom, held); }
  }

  /** Particle j of list d has been overwritten. */
  lemma ListsAfterWrite(m: Mem, lists: seq<seq<int>>, parts: seq<seq<Particle>>, base: nat, d: nat,
                        k: nat, j: nat, v: Particle)
    requires ListsOk(m, lists, parts, base, 0) && d < |lists| && j < |parts[d]|
    requires k == j / 16 && k < |lists[d]|
    ensures ListsOk(WithSlot(m, lists[d][k], j % 16, v), lists, parts[d := parts[d][j := v]], base, 0)
  {
    hide ListOk, OthersKept;
    var n, ps := WithSlot(m, lists[d][k], j % 16, v), parts[d := parts[d][j := v]];
    assert HomeOk(m, lists, parts, base, d);
    Overwrite(m, lists[d], parts[d], base + d, k, j, v);
    forall e | 0 <= e < |lists| ensures HomeOk(n, lists, ps, base, e) {
      assert HomeOk(m, lists, parts, base, e);
      if e != d { OtherListKept(m, n, lists[e], parts[e], base + e, 0, base + d); }
    }
  }

  lemma Constants()
    ensures PARTICLES_PER_CELL == 16 && TOP == Wall(Y, true)
  {
  }

  /** All lists after a time step. */
  ghost function AllMoved(lists: seq<seq<Particle>>, a: (nat, nat) -> Vec3, dt: real): (now: seq<seq<Particle>>)
    ensures |now| == |lists| && forall d :: 0 <= d < |lists| ==> now[d] == MovedAll(lists[d], d, a, dt)
  {
    seq(|lists|, d requires 0 <= d < |lists| => MovedAll(lists[d], d, a, dt))
  }

  /** After a frame no particle is beyond a wall that it was found beyond, the upper y wall excepted. */
  lemma FrameTurns(dom: Domain, w: Wall, vs: seq<Particle>, a: (nat, nat) -> Vec3, dt: real, now: seq<seq<Particle>>)
    requires DomainOk(dom) && w != TOP && (w.upper || Cells(dom, w.axis) >= 2)
    requires AllPassed(dom, AllMoved(Scatter(dom, vs), a, dt), now)
    ensures TurnedBack(dom, w, Scatter(dom, vs), now)
  {
    hide Beyond, AllPassed, Index, Select, DomainOk, NumCells, Moved;
    var sorted, moved := Scatter(dom, vs), AllMoved(Scatter(dom, vs), a, dt);
    PassedSize(dom, moved, now);
    forall d, j | 0 <= d < |sorted| && 0 <= j < |sorted[d]| && Beyond(dom, w, sorted[d][j])
      ensures j < |now[d]| && !Beyond(dom, w, now[d][j])
    {
      ScatterPlaces(dom, vs, d);
      SortedIsTurned(dom, w, sorted, moved, now, d, j);
    }
  }

  lemma PassedSize(dom: Domain, was: seq<seq<Particle>>, now: seq<seq<Particle>>)
    requires DomainOk(dom) && AllPassed(dom, was, now)
    ensures |was| == |now|
  {
  }

  lemma AllMovedIs(lists: seq<seq<Particle>>, a: (nat, nat) -> Vec3, dt: real, now: seq<seq<Particle>>)
    requires |now| == |lists| && forall d :: 0 <= d < |now| ==> now[d] == MovedAll(lists[d], d, a, dt)
    ensures now == AllMoved(lists, a, dt)
  {
  }

  lemma HomeIs(m: Mem, lists: seq<seq<int>>, parts: seq<seq<Particle>>, base: nat, d: nat)
    requires ListsOk(m, lists, parts, base, 0) && d < |lists|
    ensures lists[d] != [] && lists[d][0] == base + d && ListOk(m, lists[d], parts[d], base + d, 0)
    ensures |lists[d]| == CellsFor(|parts[d]|)
    ensures 16 * (|lists[d]| - 1) <= |parts[d]| <= 16 * |lists[d]|
    ensures |parts[d]| > 0 ==> |parts[d]| > 16 * (|lists[d]| - 1)
  {
    assert HomeOk(m, lists, parts, base, d);
    CellCount(|parts[d]|);
  }

  // ---- The first state ---------------------------------------------------------------------------

  ghost function Heads(base: nat, n: nat): seq<seq<int>> {
    seq(n, d requires 0 <= d < n => [base + d])
  }

  ghost function FirstOwners(n: nat, alloc: nat): seq<Owner> {
    seq(2 * n, d requires 0 <= d < 2 * n => if d < n then InList(d, 0) else Idle)
    + seq(alloc, k requires 0 <= k < alloc => InPool(alloc - 1 - k))
  }

  lemma FirstFree(n: nat, alloc: nat, free: seq<int>)
    requires free == Descending(2 * n, alloc)
    ensures FreeOk(FirstOwners(n, alloc), free)
  {
  }

  /** Empty lists: each is its head alone. */
  lemma HeadsOk(m: Mem, base: nat, n: nat)
    requires MemOk(m) && base + n <= |m.next|
    requires forall a :: base <= a < base + n ==> m.owner[a] == InList(a, 0) && m.next[a] == NULL
    ensures ListsOk(m, Heads(base, n), seq(n, _ => []), base, 0)
    ensures Overflow(Heads(base, n)) == 0
  {
    var lists: seq<seq<int>>, parts: seq<seq<Particle>> := Heads(base, n), seq(n, _ => []);
    forall d | 0 <= d < n ensures HomeOk(m, lists, parts, base, d) {
      assert CellOk(m, lists[d], base + d, 0);
    }
    OverflowHeads(lists);
  }

  lemma HeadsLast(lasts: seq<int>, base: nat)
    requires forall d :: 0 <= d < |lasts| ==> lasts[d] == base + d
    ensures LastsOk(lasts, Heads(base, |lasts|))
  {
  }

  lemma FirstLists(dom: Domain, m: Mem, alloc: nat)
    requires DomainOk(dom) && m.owner == FirstOwners(NumCells(dom), alloc) && MemOk(m)
    requires forall d :: 0 <= d < NumCells(dom) ==> m.next[d] == NULL
    ensures ListsOk(m, Heads(0, NumCells(dom)), Scatter(dom, []), 0, 0)
    ensures Overflow(Heads(0, NumCells(dom))) == 0
  {
    ScatterNil(dom);
    HeadsOk(m, 0, NumCells(dom));
  }

  lemma FirstCounts(dom: Domain, counts: seq<int>)
    requires DomainOk(dom) && |counts| == NumCells(dom) && forall d :: 0 <= d < |counts| ==> counts[d] == 0
    ensures CountsOk(counts, Scatter(dom, []))
  {
    ScatterNil(dom);
  }

  lemma StaticApart(free: seq<int>, statics: nat, c: int)
    requires c < statics && forall k :: 0 <= k < |free| ==> statics <= free[k]
    ensures c !in free
  {
  }

  lemma FreeApartStatic(owner: seq<Owner>, free: seq<int>, c: int, to: Owner)
    requires FreeOk(owner, free) && 0 <= c < |owner| && c !in free
    ensures FreeOk(owner[c := to], free)
  {
    forall k | 0 <= k < |free| ensures free[k] != c && owner[free[k]] == InPool(k) {
      assert free[k] in free;
    }
  }

  lemma TouchedOne(m: Mem, n: Mem, c: int)
    requires MemOk(m) && MemOk(n) && n.statics == m.statics && n.data == m.data && |n.next| == |m.next|
    requires forall a :: 0 <= a < |m.next| && a != c ==> n.next[a] == m.next[a] && n.owner[a] == m.owner[a]
    ensures KeptExcept(m, n, c)
  {
  }

  /** A grid cell is in no list but the one it heads. */
  ghost predicate HeadsOwn(owner: seq<Owner>, heads: nat) {
    forall a :: 0 <= a < heads && a < |owner| && owner[a].InList? ==> owner[a].list == a
  }

  lemma HeadsOwnGrown(owner: seq<Owner>, heads: nat, more: nat, c: int)
    requires HeadsOwn(owner, heads) && heads <= c < |owner| + more && heads <= |owner|
    ensures HeadsOwn(Grown(owner, more, c), heads)
  {
  }

  lemma HeadsOwnUpdate(owner: seq<Owner>, heads: nat, c: int, to: Owner)
    requires HeadsOwn(owner, heads) && 0 <= c < |owner|
    requires c >= heads || (to.InList? ==> to.list == c)
    ensures HeadsOwn(owner[c := to], heads)
  {
  }

  // ---- The grid ----------------------------------------------------------------------------------

  class Grid {
    const dom: Domain
    const pool: CellPool
    var cells: nat
    var cells2: nat
    var cnumPars: array<int>
    var cnumPars2: array<int>
    const lastCells: array<int>
    var data: map<(int, int), Particle>
    ghost var owner: seq<Owner>
    /** The cells of each list, its head first. */
    ghost var lists: seq<seq<int>>
    /** The particles of each list. */
    ghost var parts: seq<seq<Particle>>

    function Size(): nat { NumCells(dom) }

    /** An empty grid whose pool is sized for the given number of particles. */
    constructor (dom: Domain, particles: nat)
      requires DomainOk(dom) && particles > 0
      ensures Valid() && this.dom == dom && parts == Scatter(dom, [])
      ensures fresh(pool) && fresh(cnumPars) && fresh(cnumPars2) && fresh(lastCells)
    {
      var n := NumCells(dom);
      this.dom := dom;
      var p := new CellPool(2 * n, particles);
      pool := p;
      cells, cells2 := 0, n;
      cnumPars := new int[n](_ => 0);
      cnumPars2 := new int[n](_ => 0);
      lastCells := new int[n](_ => 0);
      data := map[];
      new;
      hide *;
      parts := Scatter(dom, []);
      lists := Heads(0, n);
      owner := FirstOwners(n, pool.alloc);
      FirstIsValid(n);
    }

    lemma FirstIsValid(n: nat)
      requires DomainOk(dom) && n == NumCells(dom) && pool.Valid() && pool.statics == 2 * n
      requires pool.free == Descending(2 * n, pool.alloc) && forall d :: 0 <= d < n ==> pool.next[d] == NULL
      requires cells == 0 && cells2 == n && cnumPars.Length == cnumPars2.Length == lastCells.Length == n
      requires cnumPars != cnumPars2 && cnumPars != lastCells && cnumPars2 != lastCells
      requires forall d :: 0 <= d < n ==> cnumPars[d] == 0
      requires parts == Scatter(dom, []) && lists == Heads(0, n) && owner == FirstOwners(n, pool.alloc)
      ensures Valid()
    {
      hide ListOk, Overflow, HomeOk, Stack, Tile, Distinct, Scatter;
      FirstFree(n, pool.alloc, pool.free);
      FirstLists(dom, M(), pool.alloc);
      FirstCounts(dom, cnumPars[..]);
    }

    ghost function M(): Mem
      reads this, pool
    {
      Mem(pool.statics, pool.next, data, owner)
    }

    ghost predicate Shape()
      reads this, pool
    {
      && DomainOk(dom) && pool.Valid() && pool.statics == 2 * Size()
      && |owner| == |pool.next| && FreeOk(owner, pool.free) && HeadsOwn(owner, 2 * Size())
      && ((cells == 0 && cells2 == Size()) || (cells == Size() && cells2 == 0))
      && |lists| == |parts| == Size()
      && cnumPars.Length == cnumPars2.Length == lastCells.Length == Size()
      && cnumPars != cnumPars2 && cnumPars != lastCells && cnumPars2 != lastCells
    }

    /**
     * The lists of `cells` hold `parts`, cnumPars counts them, and every cell of the pool is free or
     * in a list.
     */
    ghost predicate Valid()
      reads this, pool, cnumPars
    {
      && Shape()
      && ListsOk(M(), lists, parts, cells, 0) && CountsOk(cnumPars[..], parts)
      && |pool.free| + Overflow(lists) == pool.alloc
    }

    ghost function Balance(): int
      reads this, pool
    {
      |pool.free| + Overflow(lists) - pool.alloc
    }

    /** Take a cell from the pool. */
    method TakeCell() returns (c: int)
      requires Shape()
      modifies pool, this`owner
      ensures Shape() && pool.statics <= c < |pool.next|
      ensures owner[c] == Idle && pool.next[c] == NULL
      ensures KeptExcept(old(M()), M(), c) && (c < |old(owner)| ==> old(owner)[c].InPool?)
      ensures Balance() == old(Balance()) - 1
    {
      ghost var more := if pool.free == [] then pool.alloc else 0;
      ghost var was, free := owner, pool.free;
      c := pool.GetCell();
      TakenFree(was, free, more, c, pool.free);
      HeadsOwnGrown(was, 2 * Size(), more, c);
      owner := Grown(was, more, c);
    }

    /** Link a cell from the pool behind the last cell of list d, to hold v. */
    method Extend(d: nat, last: int, ghost v: Particle) returns (c: int)
      requires Shape() && d < Size() && HomeOk(M(), lists, parts, cells, d)
      requires last == lists[d][|lists[d]| - 1] && |parts[d]| % 16 == 0 && parts[d] != []
      modifies pool, this`owner
      ensures Shape()
      ensures ListOk(WithSlot(M(), c, 0, v), lists[d] + [c], parts[d] + [v], cells + d, 0)
      ensures OthersKept(old(M()), WithSlot(M(), c, 0, v), cells + d)
      ensures Balance() == old(Balance()) - 1
    {
      hide ListOk, OthersKept, KeptExcept, FreeOk, NumCells, Overflow, Stack, Tile, Distinct, HeadsOwn;
      ghost var m := M();
      assert lists[d] != [] && ListOk(m, lists[d], parts[d], cells + d, 0);
      LastOwned(m, lists[d], parts[d], cells + d);
      c := TakeCell();
      ghost var n := M();
      ExtendList(m, n, lists[d], parts[d], cells + d, c, v);
      LinkBehind(last, c, cells + d, |lists[d]|);
    }

    /** Let a cell taken from the pool follow the last cell of a list. */
    method LinkBehind(last: int, c: int, ghost t: nat, ghost k: nat)
      requires Shape() && 0 <= last < |owner| && owner[last].InList? && 2 * Size() <= c < |owner| && owner[c] == Idle
      modifies pool, this`owner
      ensures Shape() && M() == WithCell(old(M()), last, c, t, k) && Balance() == old(Balance())
    {
      hide NumCells, Overflow, Stack, Tile, Distinct, HeadsOwn, FreeOk;
      FreeApart(owner, pool.free, last);
      FreeApart(owner, pool.free, c);
      pool.SetNext(last, c);
      FreeUpdate(owner, pool.free, c, InList(t, k));
      HeadsOwnUpdate(owner, 2 * Size(), c, InList(t, k));
      owner := owner[c := InList(t, k)];
    }

    /**
     * Write v behind the particles of list d, whose last cell is `last`.  The list gains a cell just
     * when the last one is full.
     */
    method Put(d: nat, last: int, np: int, v: Particle) returns (cell: int)
      requires Shape() && d < Size() && cnumPars[d] == |parts[d]| && np % 16 == |parts[d]| % 16
      requires HomeOk(M(), lists, parts, cells, d) && last == lists[d][|lists[d]| - 1]
      modifies pool, this`owner, this`data
      ensures Shape()
      ensures cell == last || Balance() == old(Balance()) - 1
      ensures cell == last ==> Balance() == old(Balance())
      ensures var longer := if cell == last then lists[d] else lists[d] + [cell];
              && ListOk(M(), longer, parts[d] + [v], cells + d, 0)
              && OthersKept(old(M()), M(), cells + d) && longer[|longer| - 1] == cell
    {
      hide ListOk, OthersKept, KeptExcept, FreeOk, NumCells, Overflow, Stack, Tile, Distinct;
      cell := last;
      ghost var m := M();
      assert lists[d] != [] && ListOk(m, lists[d], parts[d], cells + d, 0);
      if np % PARTICLES_PER_CELL == 0 && cnumPars[d] != 0 {
        cell := Extend(d, last, v);
        NewLast(WithSlot(M(), cell, 0, v), lists[d], cell, parts[d] + [v], cells + d);
        data := data[(cell, np % PARTICLES_PER_CELL) := v];
        assert M() == WithSlot(M().(data := old(data)), cell, 0, v);
      } else {
        AppendHere(m, lists[d], parts[d], cells + d, v);
        data := data[(cell, np % PARTICLES_PER_CELL) := v];
        assert M() == WithSlot(m, cell, np % 16, v);
      }
    }

    /** Record in the ghost fields that Put has written v to list d. */
    ghost method Note(m: Mem, d: nat, last: int, cell: int, v: Particle)
      requires d < |lists| && ListsOk(m, lists, parts, cells, 0) && OthersKept(m, M(), cells + d)
      requires lists[d] != [] && last == lists[d][|lists[d]| - 1]
      requires ListOk(M(), if cell == last then lists[d] else lists[d] + [cell], parts[d] + [v], cells + d, 0)
      modifies this`lists, this`parts
      ensures parts == old(parts)[d := old(parts)[d] + [v]]
      ensures lists == old(lists)[d := if cell == last then old(lists)[d] else old(lists)[d] + [cell]]
      ensures ListsOk(M(), lists, parts, cells, 0)
      ensures Overflow(lists) == old(Overflow(lists)) + (if cell == last then 0 else 1)
    {
      hide ListOk, OthersKept, Overflow;
      assert HomeOk(m, lists, parts, cells, d);
      var longer := if cell == last then lists[d] else lists[d] + [cell];
      ListsAfterAppend(m, M(), lists, parts, cells, d, longer, v);
      OverflowUpdate(lists, d, longer);
      lists := lists[d := longer];
      parts := parts[d := parts[d] + [v]];
    }

    /** InitSim for one particle: walk to the last cell of its list and put it there. */
    method Insert(v: Particle)
      requires Valid()
      modifies this`data, this`owner, this`lists, this`parts, pool, cnumPars
      ensures Valid() && 0 <= Index(dom, v) < |old(parts)|
      ensures parts == old(parts)[Index(dom, v) := old(parts)[Index(dom, v)] + [v]]
    {
      hide ListOk, OthersKept, KeptExcept, FreeOk, NumCells, Overflow, Stack, Tile, Distinct, Index;
      IndexInGrid(dom, v);
      var index := Index(dom, v);
      ghost var m := M();
      assert HomeOk(m, lists, parts, cells, index) && cnumPars[index] == cnumPars[..][index];
      var cell := cells + index;
      var np := cnumPars[index];
      ghost var k := 0;
      while np > PARTICLES_PER_CELL
        invariant 0 <= k < |lists[index]| && cell == lists[index][k]
        invariant np == |parts[index]| - 16 * k
        modifies {}
      {
        WalkOn(m, lists[index], parts[index], cells + index, k);
        cell := pool.next[cell];
        np, k := np - PARTICLES_PER_CELL, k + 1;
      }
      WalkOn(m, lists[index], parts[index], cells + index, k);
      var last := cell;
      cell := Put(index, cell, np, v);
      Note(m, index, last, cell, v);
      CountsAfter(cnumPars[..], old(parts), index, v);
      cnumPars[index] := cnumPars[index] + 1;
      assert cnumPars[..] == old(cnumPars[..])[index := old(cnumPars[..])[index] + 1];
    }

    /** InitSim's loop: every particle goes to the list of its cell. */
    method Load(vs: seq<Particle>)
      requires Valid() && parts == Scatter(dom, [])
      modifies this`data, this`owner, this`lists, this`parts, pool, cnumPars
      ensures Valid() && parts == Scatter(dom, vs)
    {
      hide *;
      var i := 0;
      assert vs[..0] == [];
      ValidDomain();
      while i < |vs|
        invariant 0 <= i <= |vs| && Valid() && parts == Scatter(dom, vs[..i])
      {
        Insert(vs[i]);
        assert vs[..i + 1] == vs[..i] + [vs[i]];
        ScatterSnoc(dom, vs[..i], vs[i]);
        i := i + 1;
      }
      assert vs[..|vs|] == vs;
    }

    lemma ValidDomain()
      requires Valid()
      ensures DomainOk(dom)
    {
    }

    /** Give a cell of a list back to the pool. */
    method Release(c: int)
      requires Shape() && 2 * Size() <= c < |owner| && owner[c].InList?
      modifies pool, this`owner
      ensures Shape() && KeptExcept(old(M()), M(), c) && Balance() == old(Balance()) + 1
    {
      FreeApart(owner, pool.free, c);
      pool.ReturnCell(c);
      owner := owner[c := InPool(|pool.free| - 1)];
    }

    // ---- Rebuilding ------------------------------------------------------------------------------

    /** The lists being filled. */
    ghost predicate Destination()
      reads this, pool, cnumPars, lastCells
    {
      && Shape() && ListsOk(M(), lists, parts, cells, 0)
      && CountsOk(cnumPars[..], parts) && LastsOk(lastCells[..], lists)
    }

    /** Put v behind the particles of list d. */
    method Deposit(d: nat, v: Particle)
      requires Destination() && d < Size()
      modifies this`data, this`owner, this`lists, this`parts, pool, cnumPars, lastCells
      ensures Destination() && Balance() == old(Balance())
      ensures parts == old(parts)[d := old(parts)[d] + [v]]
      ensures OthersKept(old(M()), M(), cells + d)
    {
      hide ListOk, OthersKept, KeptExcept, FreeOk, NumCells, Overflow, Stack, Tile, Distinct, HeadsOwn;
      ghost var m := M();
      assert HomeOk(m, lists, parts, cells, d);
      var last := lastCells[d];
      var np := cnumPars[d];
      assert last == lastCells[..][d] && np == cnumPars[..][d];
      var cell := Put(d, last, np, v);
      Note(m, d, last, cell, v);
      CountsAfter(cnumPars[..], old(parts), d, v);
      cnumPars[d] := cnumPars[d] + 1;
      assert cnumPars[..] == old(cnumPars[..])[d := old(cnumPars[..])[d] + 1];
      lastCells[d] := cell;
      assert lastCells[..] == old(lastCells[..])[d := cell];
    }

    /** Empty every list, and aim lastCells at the heads. */
    method StartRebuild()
      requires Valid()
      modifies this`cells, this`cells2, this`cnumPars, this`cnumPars2, this`owner, this`lists, this`parts
      modifies pool, cnumPars, cnumPars2, lastCells
      ensures Destination() && parts == seq(Size(), _ => []) && Overflow(lists) == 0
      ensures {cnumPars, cnumPars2} == old({cnumPars, cnumPars2})
      ensures ListsOk(M(), old(lists), old(parts), cells2, 0) && CountsOk(cnumPars2[..], old(parts))
      ensures |pool.free| == old(|pool.free|) && pool.alloc == old(pool.alloc)
    {
      hide ListOk, KeptExcept, FreeOk, NumCells, Overflow, Stack, Tile, Distinct, HeadsOwn;
      cells, cells2 := cells2, cells;
      cnumPars, cnumPars2 := cnumPars2, cnumPars;
      ghost var src, srcParts, counts := lists, parts, cnumPars2[..];
      ClearCounts();
      assert cnumPars2[..] == counts;
      ClearHeads(src, srcParts);
      HeadsOk(M(), cells, Size());
      HeadsLast(lastCells[..], cells);
      lists, parts := Heads(cells, Size()), seq(Size(), _ => []);
    }

    method ClearCounts()
      requires cnumPars.Length == Size()
      modifies cnumPars
      ensures CountsOk(cnumPars[..], seq(Size(), _ => []))
    {
      var i := 0;
      while i < Size()
        invariant 0 <= i <= Size() && forall d :: 0 <= d < i ==> cnumPars[d] == 0
      {
        cnumPars[i] := 0;
        i := i + 1;
      }
    }

    /** The loop that resets the heads of the destination. */
    method ClearHeads(ghost src: seq<seq<int>>, ghost srcParts: seq<seq<Particle>>)
      requires Shape() && ListsOk(M(), src, srcParts, cells2, 0) && |src| == Size()
      modifies pool, lastCells, this`owner
      ensures Shape() && ListsOk(M(), src, srcParts, cells2, 0)
      ensures pool.free == old(pool.free) && pool.alloc == old(pool.alloc)
      ensures forall a :: cells <= a < cells + Size() ==> owner[a] == InList(a, 0) && pool.next[a] == NULL
      ensures forall d :: 0 <= d < Size() ==> lastCells[d] == cells + d
    {
      hide ListOk, KeptExcept, FreeOk, NumCells, Overflow, Stack, Tile, Distinct, HeadsOwn, ListsOk;
      var i := 0;
      while i < Size()
        invariant 0 <= i <= Size() && Shape() && ListsOk(M(), src, srcParts, cells2, 0)
        invariant pool.free == old(pool.free) && pool.alloc == old(pool.alloc)
        invariant forall a :: cells <= a < cells + i ==> owner[a] == InList(a, 0) && pool.next[a] == NULL
        invariant forall d :: 0 <= d < i ==> lastCells[d] == cells + d
      {
        ClearHead(i, src, srcParts);
        lastCells[i] := cells + i;
        i := i + 1;
      }
    }

    method ClearHead(i: nat, ghost src: seq<seq<int>>, ghost srcParts: seq<seq<Particle>>)
      requires Shape() && ListsOk(M(), src, srcParts, cells2, 0) && |src| == Size() && i < Size()
      modifies pool`next, this`owner
      ensures Shape() && ListsOk(M(), src, srcParts, cells2, 0)
      ensures owner == old(owner)[cells + i := InList(cells + i, 0)]
      ensures pool.next == old(pool.next)[cells + i := NULL]
    {
      hide ListOk, NumCells, Overflow, Stack, Tile, Distinct, ListsOk;
      ghost var m := M();
      StaticApart(pool.free, pool.statics, cells + i);
      pool.SetNext(cells + i, NULL);
      FreeApartStatic(owner, pool.free, cells + i, InList(cells + i, 0));
      HeadsOwnUpdate(owner, 2 * Size(), cells + i, InList(cells + i, 0));
      owner := owner[cells + i := InList(cells + i, 0)];
      TouchedOne(m, M(), cells + i);
      ListsWithout(m, M(), src, srcParts, cells2, 0, cells + i);
    }

    /** Of the lists being emptied, list i from its cell k on and all later ones are left. */
    ghost predicate Source(src: seq<seq<int>>, held: seq<seq<Particle>>, i: nat, k: nat)
      reads this, pool, cnumPars2
    {
      && |src| == |held| == Size() && CountsOk(cnumPars2[..], held) && i < Size()
      && ListsOk(M(), src, held, cells2, i + 1)
      && ListOk(M(), src[i], held[i], cells2 + i, k) && src[i] != [] && src[i][0] == cells2 + i
    }

    /** Move the particle in the given slot of the source cell. */
    method MoveOne(i: nat, ghost k: nat, j: nat, cell2: int,
                   ghost src: seq<seq<int>>, ghost held: seq<seq<Particle>>)
      requires Destination() && Source(src, held, i, k)
      requires j < |held[i]| && k == j / 16 && k < |src[i]| && cell2 == src[i][k]
      modifies this`data, this`owner, this`lists, this`parts, pool, cnumPars, lastCells
      ensures Destination() && Source(src, held, i, k) && Balance() == old(Balance())
      ensures 0 <= Index(dom, held[i][j]) < |old(parts)|
      ensures var d := Index(dom, held[i][j]); parts == old(parts)[d := old(parts)[d] + [held[i][j]]]
    {
      hide ListOk, OthersKept, KeptExcept, FreeOk, NumCells, Overflow, Stack, Tile, Distinct, HeadsOwn,
           Index, ListsOk, LastsOk;
      ghost var m := M();
      SlotRead(m, src[i], held[i], cells2 + i, k, j);
      var v := data[(cell2, j % PARTICLES_PER_CELL)];
      IndexInGrid(dom, v);
      ghost var d := cells + Index(dom, v);
      SizesOk();
      Deposit(Index(dom, v), v);
      ListsApart(m, M(), src, held, cells2, i + 1, d);
      OtherListKept(m, M(), src[i], held[i], cells2 + i, k, d);
    }

    lemma SizesOk()
      requires Destination()
      ensures |parts| == Size()
    {
    }

    /** Step to the next source cell, giving the one just emptied back unless it is a head. */
    method NextCell(i: nat, ghost k: nat, cell2: int, ghost src: seq<seq<int>>, ghost held: seq<seq<Particle>>)
      returns (next2: int)
      requires Destination() && Source(src, held, i, k) && k < |src[i]| && cell2 == src[i][k]
      modifies this`owner, pool
      ensures Destination() && Source(src, held, i, k + 1) && next2 == CellAt(src[i], k + 1)
      ensures Balance() + Left(src[i], k + 1) == old(Balance()) + Left(src[i], k)
    {
      hide ListOk, OthersKept, KeptExcept, FreeOk, NumCells, Overflow, Stack, Tile, Distinct, HeadsOwn,
           ListsOk, LastsOk;
      ghost var m := M();
      CellRead(m, src[i], held[i], cells2 + i, k);
      var temp := cell2;
      next2 := pool.next[cell2];
      Drop(m, src[i], held[i], cells2 + i, k);
      if temp != cells2 + i {
        Release(temp);
        SizesOkOf(m, lists, parts, cells);
        ListsWithout(m, M(), lists, parts, cells, 0, temp);
        ListsWithout(m, M(), src, held, cells2, i + 1, temp);
        ListKeptExcept(m, M(), src[i], held[i], cells2 + i, k + 1, temp);
      }
    }

    /** Empty source list i into the destination. */
    method DrainList(i: nat, ghost src: seq<seq<int>>, ghost held: seq<seq<Particle>>, ghost seen: seq<Particle>)
      requires Destination() && Source(src, held, i, 0) && parts == Scatter(dom, seen)
      modifies this`data, this`owner, this`lists, this`parts, pool, cnumPars, lastCells
      ensures Destination() && CountsOk(cnumPars2[..], held) && ListsOk(M(), src, held, cells2, i + 1)
      ensures parts == Scatter(dom, seen + held[i])
      ensures Balance() == old(Balance()) + |src[i]| - 1
    {
      hide *;
      SourceIs(src, held, i, 0);
      var cell2 := cells2 + i;
      var np2 := cnumPars2[i];
      var j := 0;
      ghost var k := 0;
      ghost var total := Balance() + Left(src[i], 0);
      assert total == Balance() + |src[i]| - 1 by { LeftIs(src[i], 0); }
      assert seen + held[i][..0] == seen;
      while j < np2
        invariant 0 <= j <= np2 == |held[i]| && k == j / 16
        invariant Destination() && Source(src, held, i, k) && cell2 == CellAt(src[i], k)
        invariant parts == Scatter(dom, seen + held[i][..j])
        invariant Balance() + Left(src[i], k) == total
      {
        SourceIs(src, held, i, k);
        CellAtIs(src[i], k);
        MoveOne(i, k, j, cell2, src, held);
        Seen(seen, held[i], j);
        if j % 16 == 15 {
          cell2 := NextCell(i, k, cell2, src, held);
          k := k + 1;
        }
        j := j + 1;
      }
      SourceIs(src, held, i, k);
      assert held[i][..j] == held[i];
      FinalCell(src, held, i, k);
      if cell2 != NULL && cell2 != cells2 + i {
        var _ := NextCell(i, k, cell2, src, held);
        k := k + 1;
        SourceIs(src, held, i, k);
        LeftIs(src[i], k);
      }
    }

    /** Where the walk over list i ends: behind it, at its head, or at its last cell. */
    lemma FinalCell(src: seq<seq<int>>, held: seq<seq<Particle>>, i: nat, k: nat)
      requires Destination() && Source(src, held, i, k) && k == |held[i]| / 16
      ensures var c := CellAt(src[i], k);
              if c == NULL || c == cells2 + i then Left(src[i], k) == 0
              else k + 1 == |src[i]| && c == src[i][k]
    {
      hide NumCells, ListOk, ListsOk;
      SourceIs(src, held, i, k);
      if k < |src[i]| {
        CellRead(M(), src[i], held[i], cells2 + i, k);
      }
    }

    lemma Seen(seen: seq<Particle>, vs: seq<Particle>, j: nat)
      requires DomainOk(dom) && j < |vs|
      ensures 0 <= Index(dom, vs[j]) < NumCells(dom)
      ensures var before := Scatter(dom, seen + vs[..j]);
              Scatter(dom, seen + vs[..j + 1])
              == before[Index(dom, vs[j]) := before[Index(dom, vs[j])] + [vs[j]]]
    {
      hide Index, NumCells;
      assert seen + vs[..j + 1] == (seen + vs[..j]) + [vs[j]];
      ScatterSnoc(dom, seen + vs[..j], vs[j]);
    }

    lemma SourceIs(src: seq<seq<int>>, held: seq<seq<Particle>>, i: nat, k: nat)
      requires Destination() && Source(src, held, i, k)
      ensures DomainOk(dom) && |src| == |held| == Size() && i < Size() && cnumPars2.Length == Size()
      ensures cnumPars2[i] == |held[i]| && src[i] != [] && src[i][0] == cells2 + i
      ensures |src[i]| == CellsFor(|held[i]|) && k <= |src[i]|
      ensures 16 * (|src[i]| - 1) <= |held[i]| <= 16 * |src[i]|
      ensures |held[i]| > 0 ==> |held[i]| > 16 * (|src[i]| - 1)
      ensures CellAt(src[i], 0) == cells2 + i
      ensures CountsOk(cnumPars2[..], held) && ListsOk(M(), src, held, cells2, i + 1)
    {
      hide NumCells;
      assert cnumPars2[i] == cnumPars2[..][i];
      CellCount(|held[i]|);
    }

    /**
     * Rebuild the grid: every particle ends in the list of the cell it is in now, behind the ones that
     * came before it in the old lists, and the pool keeps count of its cells.
     */
    method RebuildGrid()
      requires Valid()
      modifies this, pool, cnumPars, cnumPars2, lastCells
      ensures Valid() && parts == Scatter(dom, Flatten(old(parts)))
      ensures multiset(Flatten(parts)) == multiset(Flatten(old(parts)))
      ensures AllHome(dom, parts) && (AllHome(dom, old(parts)) ==> parts == old(parts))
      ensures {cnumPars, cnumPars2} == old({cnumPars, cnumPars2})
    {
      hide *;
      ValidIs();
      ghost var src, held := lists, parts;
      StartRebuild();
      StartedIs();
      var i := 0;
      assert held[..0] == [] && src[0..] == src;
      while i < Size()
        invariant 0 <= i <= Size() == |src| == |held| && DomainOk(dom)
        invariant Destination() && CountsOk(cnumPars2[..], held) && ListsOk(M(), src, held, cells2, i)
        invariant parts == Scatter(dom, Flatten(held[..i]))
        invariant Balance() + Overflow(src[i..]) == 0
        invariant {cnumPars, cnumPars2} == old({cnumPars, cnumPars2})
      {
        SourceFirst(src, held, i);
        DrainList(i, src, held, Flatten(held[..i]));
        FlattenNext(held, i);
        OverflowFirst(src[i..]);
        assert src[i..][1..] == src[i + 1..] && src[i..][0] == src[i];
        i := i + 1;
      }
      assert held[..i] == held && src[i..] == [];
      OverflowNil();
      FinishIs();
      Sorted(dom, held);
    }

    lemma ValidIs()
      requires Valid()
      ensures DomainOk(dom) && |lists| == |parts| == Size() == NumCells(dom)
      ensures |pool.free| + Overflow(lists) == pool.alloc
    {
      hide NumCells, Overflow;
    }

    lemma StartedIs()
      requires Destination() && Overflow(lists) == 0 && parts == seq(Size(), _ => [])
      ensures DomainOk(dom) && Balance() == |pool.free| - pool.alloc && parts == Scatter(dom, Flatten([]))
    {
      hide Overflow;
      ScatterNil(dom);
    }

    lemma SourceFirst(src: seq<seq<int>>, held: seq<seq<Particle>>, i: nat)
      requires Destination() && i < Size() == |src| == |held|
      requires CountsOk(cnumPars2[..], held) && ListsOk(M(), src, held, cells2, i)
      ensures Source(src, held, i, 0)
    {
      hide NumCells, ListOk;
      assert HomeOk(M(), src, held, cells2, i);
    }

    lemma FinishIs()
      requires Destination() && Balance() == 0
      ensures Valid()
    {
      hide NumCells, Overflow;
    }

    // ---- A time step -----------------------------------------------------------------------------

    /** Move every particle in place under its acceleration; none changes its cell structure. */
    method AdvanceParticles(a: (nat, nat) -> Vec3, dt: real)
      requires Valid()
      modifies this`data, this`parts
      ensures Valid() && |parts| == |old(parts)|
      ensures forall d :: 0 <= d < |parts| ==> parts[d] == MovedAll(old(parts)[d], d, a, dt)
    {
      hide *;
      ValidIs();
      var i := 0;
      while i < Size()
        invariant 0 <= i <= Size() && Valid() && |parts| == |old(parts)| == Size()
        invariant forall d :: 0 <= d < i ==> parts[d] == MovedAll(old(parts)[d], d, a, dt)
        invariant forall d :: i <= d < Size() ==> parts[d] == old(parts)[d]
      {
        AdvanceList(i, a, dt);
        i := i + 1;
      }
    }

    method AdvanceList(i: nat, a: (nat, nat) -> Vec3, dt: real)
      requires Valid() && i < Size() == |parts|
      modifies this`data, this`parts
      ensures Valid() && parts == old(parts)[i := MovedAll(old(parts)[i], i, a, dt)]
    {
      hide *;
      Constants();
      ghost var was := parts[i];
      CountIs(i);
      ListIs(i);
      var cell := cells + i;
      var np := cnumPars[i];
      var j := 0;
      assert cell == lists[i][0];
      assert parts == old(parts)[i := was];
      while j < np
        invariant 0 <= j <= np == |was| && Valid() && |parts| == Size()
        invariant parts == old(parts)[i := parts[i]] && |parts[i]| == |was|
        invariant cell == CellAt(lists[i], j / 16)
        invariant forall l :: 0 <= l < j ==> parts[i][l] == Moved(was[l], a(i, l), dt)
        invariant forall l :: j <= l < np ==> parts[i][l] == was[l]
      {
        ListIs(i);
        CellAtIs(lists[i], j / 16);
        AdvanceOne(i, j, cell, a(i, j), dt);
        if j % 16 == 15 {
          ListIs(i);
          StepOver(i, j / 16);
          cell := pool.next[cell];
        }
        j := j + 1;
      }
      MovedAllIs(was, i, a, dt, parts[i]);
    }

    method AdvanceOne(i: nat, j: nat, cell: int, a: Vec3, dt: real)
      requires Valid() && i < Size() == |parts| && j < |parts[i]|
      requires j / 16 < |lists[i]| && cell == lists[i][j / 16]
      modifies this`data, this`parts
      ensures Valid() && parts == old(parts)[i := old(parts)[i][j := Moved(old(parts)[i][j], a, dt)]]
    {
      hide *;
      ListIs(i);
      ReadOne(i, j, cell);
      var slot := j % PARTICLES_PER_CELL;
      WriteOne(i, j, cell, slot, Moved(data[(cell, slot)], a, dt));
    }

    lemma ReadOne(i: nat, j: nat, cell: int)
      requires Valid() && i < Size() == |parts| && j < |parts[i]|
      requires i < |lists| && j / 16 < |lists[i]| && cell == lists[i][j / 16]
      ensures PARTICLES_PER_CELL == 16
      ensures (cell, j % 16) in data && data[(cell, j % 16)] == parts[i][j]
    {
      hide ListOk, ListsOk, NumCells, Overflow, HeadsOwn, FreeOk, Stack, Tile, Distinct;
      HomeIs(M(), lists, parts, cells, i);
      SlotRead0(M(), lists[i], parts[i], cells + i, j / 16, j);
    }

    /** Overwrite particle j of list i in the slot it is in. */
    method WriteOne(i: nat, ghost j: nat, cell: int, slot: nat, v: Particle)
      requires Valid() && i < Size() == |parts| && j < |parts[i]| && slot == j % 16
      requires j / 16 < |lists[i]| && cell == lists[i][j / 16]
      modifies this`data, this`parts
      ensures Valid() && parts == old(parts)[i := old(parts)[i][j := v]]
    {
      hide ListOk, ListsOk, NumCells, Overflow, HeadsOwn, FreeOk, Stack, Tile, Distinct;
      ghost var m := M();
      HomeIs(m, lists, parts, cells, i);
      ListsAfterWrite(m, lists, parts, cells, i, j / 16, j, v);
      data := data[(cell, slot) := v];
      parts := parts[i := parts[i][j := v]];
      assert M() == WithSlot(m, cell, slot, v);
    }

    lemma CountIs(i: nat)
      requires Valid() && i < Size()
      ensures cnumPars.Length == Size() == |parts| && cnumPars[i] == |parts[i]|
    {
      hide NumCells;
      assert cnumPars[i] == cnumPars[..][i];
    }

    lemma ListIs(i: nat)
      requires Valid() && i < Size()
      ensures |lists| == |parts| == Size() && lists[i] != [] && lists[i][0] == cells + i
      ensures |lists[i]| == CellsFor(|parts[i]|) && 16 * (|lists[i]| - 1) <= |parts[i]| <= 16 * |lists[i]|
      ensures CellAt(lists[i], 0) == cells + i
    {
      hide NumCells, ListOk;
      HomeIs(M(), lists, parts, cells, i);
    }

    lemma StepOver(i: nat, k: nat)
      requires Valid() && i < Size() == |lists| && k < |lists[i]|
      ensures 0 <= lists[i][k] < |pool.next| && pool.next[lists[i][k]] == CellAt(lists[i], k + 1)
    {
      hide NumCells, ListOk;
      HomeIs(M(), lists, parts, cells, i);
      WalkOn(M(), lists[i], parts[i], cells + i, k);
    }

    lemma MovedAllIs(qs: seq<Particle>, d: nat, a: (nat, nat) -> Vec3, dt: real, now: seq<Particle>)
      requires |now| == |qs| && forall l :: 0 <= l < |qs| ==> now[l] == Moved(qs[l], a(d, l), dt)
      ensures now == MovedAll(qs, d, a, dt)
    {
      hide Moved;
    }

    // ---- The walls -------------------------------------------------------------------------------

    /** Reflect the particle in a slot if it is beyond the wall. */
    method ReflectOne(i: nat, ghost l: nat, cell: int, slot: nat, w: Wall) returns (beyond: bool)
      requires Valid() && i < Size() == |parts| && l < |parts[i]| && slot == l % 16
      requires l / 16 < |lists[i]| && cell == lists[i][l / 16]
      modifies this`data, this`parts
      ensures Valid() && beyond == Beyond(dom, w, old(parts)[i][l])
      ensures parts == old(parts)[i := old(parts)[i][l := Reflect(dom, w, old(parts)[i][l])]]
    {
      hide *;
      ListIs(i);
      ReadOne(i, l, cell);
      var q := data[(cell, slot)];
      beyond := Beyond(dom, w, q);
      ReflectIs(dom, w, q);
      if beyond {
        WriteOne(i, l, cell, slot, Reflect(dom, w, q));
      } else {
        assert parts[i][l := q] == parts[i] && parts[i := parts[i]] == parts;
      }
    }

    /** The walk along one list of a perimeter cell. */
    method ReflectList(i: nat, w: Wall)
      requires Valid() && i < Size() == |parts| && w != TOP
      modifies this`data, this`parts
      ensures Valid() && parts == old(parts)[i := AfterWall(dom, w, old(parts)[i])]
    {
      hide *;
      Constants();
      ghost var was := parts[i];
      CountIs(i);
      ListIs(i);
      var cell := cells + i;
      var np := cnumPars[i];
      var j := 0;
      assert parts == old(parts)[i := was];
      while j < np
        invariant 0 <= j <= np == |was| && Valid() && |parts| == Size()
        invariant parts == old(parts)[i := parts[i]] && |parts[i]| == |was|
        invariant cell == CellAt(lists[i], j / 16)
        invariant forall l :: 0 <= l < j ==> parts[i][l] == Reflect(dom, w, was[l])
        invariant forall l :: j <= l < np ==> parts[i][l] == was[l]
      {
        ListIs(i);
        CellAtIs(lists[i], j / 16);
        var _ := ReflectOne(i, j, cell, j % PARTICLES_PER_CELL, w);
        if j % 16 == 15 {
          ListIs(i);
          StepOver(i, j / 16);
          cell := pool.next[cell];
        }
        j := j + 1;
      }
      AfterWallIs(dom, w, was, parts[i]);
    }

    /** The same walk along the upper y wall, where the step to the next cell is inside the test. */
    method ReflectTop(i: nat)
      requires Valid() && i < Size() == |parts|
      modifies this`data, this`parts
      ensures Valid() && parts == old(parts)[i := AfterWall(dom, TOP, old(parts)[i])]
    {
      hide *;
      Constants();
      ghost var was, k: nat := parts[i], 0;
      CountIs(i);
      ListIs(i);
      var cell := cells + i;
      var np := cnumPars[i];
      var j := 0;
      assert parts == old(parts)[i := was];
      while j < np
        invariant 0 <= j <= np == |was| && Valid() && |parts| == Size()
        invariant parts == old(parts)[i := parts[i]] && |parts[i]| == |was|
        invariant cell == CellAt(lists[i], k) && k <= j / 16
        invariant k < j / 16 ==> !Beyond(dom, TOP, was[16 * k + 15])
        invariant Limit(dom, was, 0) == Limit(dom, was, k)
        invariant forall l :: 0 <= l < np ==>
                    parts[i][l] == if l < j && l < 16 * (k + 1) then Reflect(dom, TOP, was[l]) else was[l]
      {
        ghost var l := 16 * k + j % 16;
        ListIs(i);
        CellAtIs(lists[i], k);
        ReflectMirrors(dom, TOP, was[l]);
        var beyond := ReflectOne(i, l, cell, j % PARTICLES_PER_CELL, TOP);
        LimitStep(dom, was, k);
        if beyond {
          if j % 16 == 15 {
            ListIs(i);
            StepOver(i, k);
            cell := pool.next[cell];
            k := k + 1;
          }
        }
        j := j + 1;
      }
      LimitStep(dom, was, k);
      AfterTopIs(dom, was, k, parts[i]);
    }

    /** The pass along one wall: two loops over the cells that touch it. */
    method WallPass(w: Wall)
      requires Valid()
      modifies this`data, this`parts
      ensures Valid() && DomainOk(dom) && PassDone(dom, w, old(parts), parts)
    {
      hide *;
      ValidIs();
      ghost var was := parts;
      PassStart(dom, w, was);
      var u := 0;
      while u < OuterSize(dom, w)
        invariant 0 <= u <= OuterSize(dom, w) && Valid() && PassTo(dom, w, was, parts, u, 0)
      {
        var t := 0;
        while t < InnerSize(dom, w)
          invariant 0 <= t <= InnerSize(dom, w) && Valid() && PassTo(dom, w, was, parts, u, t)
        {
          ValidIs();
          var ci := SpotNo(dom, w, u, t);
          PassStep(dom, w, was, parts, u, t);
          if w == TOP {
            ReflectTop(ci);
          } else {
            ReflectList(ci, w);
          }
          t := t + 1;
        }
        PassRow(dom, w, was, parts, u);
        u := u + 1;
      }
      IsPassDone(dom, w, was, parts);
    }

    /** ProcessCollisions2: particles that have moved beyond a wall are put back inside. */
    method ProcessCollisions2()
      requires Valid()
      modifies this`data, this`parts
      ensures Valid() && DomainOk(dom) && AllPassed(dom, old(parts), parts)
    {
      hide *;
      Constants();
      ghost var s0 := parts;
      WallPass(Wall(X, false));
      ghost var s1 := parts;
      WallPass(Wall(X, true));
      ghost var s2 := parts;
      WallPass(Wall(Y, false));
      ghost var s3 := parts;
      WallPass(TOP);
      ghost var s4 := parts;
      WallPass(Wall(Z, false));
      ghost var s5 := parts;
      WallPass(Wall(Z, true));
      SixPasses(dom, s0, s1, s2, s3, s4, s5, parts);
    }

    /**
     * A frame: particles go to their cells, move, and are turned back at the walls.  The accelerations that
     * forces and collisions have added up to are given.
     */
    method AdvanceFrame(a: (nat, nat) -> Vec3, dt: real)
      requires Valid()
      modifies this, pool, cnumPars, cnumPars2, lastCells
      ensures Valid() && DomainOk(dom) && |parts| == |old(parts)|
      ensures var moved := AllMoved(Scatter(dom, Flatten(old(parts))), a, dt);
              AllPassed(dom, moved, parts)
      ensures forall w: Wall :: w != TOP && (w.upper || Cells(dom, w.axis) >= 2) ==>
                TurnedBack(dom, w, Scatter(dom, Flatten(old(parts))), parts)
      ensures {cnumPars, cnumPars2} == old({cnumPars, cnumPars2})
    {
      hide *;
      ValidIs();
      RebuildGrid();
      ghost var sorted := parts;
      ValidIs();
      AdvanceParticles(a, dt);
      AllMovedIs(sorted, a, dt, parts);
      ValidIs();
      ProcessCollisions2();
      ValidIs();
      forall w: Wall | w != TOP && (w.upper || Cells(dom, w.axis) >= 2) ensures TurnedBack(dom, w, sorted, parts) {
        FrameTurns(dom, w, Flatten(old(parts)), a, dt, parts);
      }
    }

    // ---- What a valid grid means -----------------------------------------------------------------

    /**
     * List d has max(1, ceil(np/16)) cells, linked from its head to NULL, and its particle j is in slot
     * j % 16 of cell j / 16.
     */
    lemma ListsAreFull(d: nat)
      requires Valid() && d < Size()
      ensures cnumPars.Length == |parts| == |lists| == Size() && cnumPars[d] == |parts[d]|
      ensures var np := cnumPars[d];
              |lists[d]| == if np == 0 then 1 else (np + 15) / 16
      ensures lists[d][0] == cells + d
      ensures forall k :: 0 <= k < |lists[d]| ==>
                0 <= lists[d][k] < |pool.next| && pool.next[lists[d][k]] == CellAt(lists[d], k + 1)
      ensures forall j :: 0 <= j < |parts[d]| ==> SlotHas(data, lists[d][j / 16], j % 16, parts[d][j])
    {
      hide NumCells, ListOk;
      CountIs(d);
      HomeIs(M(), lists, parts, cells, d);
      forall k | 0 <= k < |lists[d]|
        ensures 0 <= lists[d][k] < |pool.next| && pool.next[lists[d][k]] == CellAt(lists[d], k + 1)
      {
        WalkOn(M(), lists[d], parts[d], cells + d, k);
      }
      forall j | 0 <= j < |parts[d]| ensures SlotHas(data, lists[d][j / 16], j % 16, parts[d][j]) {
        SlotRead0(M(), lists[d], parts[d], cells + d, j / 16, j);
      }
    }

    /**
     * No cell is in two places: not twice in the lists, not twice free, not both; and the free cells
     * and the overflow cells together are as many as the pool has allocated.
     */
    lemma NoSharing(d: nat, k: nat, e: nat, l: nat)
      requires Valid() && d < |lists| && k < |lists[d]| && e < |lists| && l < |lists[e]|
      ensures lists[d][k] == lists[e][l] ==> d == e && k == l
      ensures lists[d][k] !in pool.free && Distinct(pool.free)
      ensures k > 0 ==> pool.statics <= lists[d][k]
      ensures |pool.free| + Overflow(lists) == pool.alloc
    {
      hide NumCells, Overflow;
      assert HomeOk(M(), lists, parts, cells, d) && HomeOk(M(), lists, parts, cells, e);
      assert CellOk(M(), lists[d], cells + d, k) && CellOk(M(), lists[e], cells + e, l);
      FreeApart(owner, pool.free, lists[d][k]);
    }
  }
}
