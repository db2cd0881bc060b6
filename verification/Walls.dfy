/** The box's walls at the end of a frame: what the pass over the perimeter cells does to their particles. */
module Walls {
  import opened CellLists
  import opened CellGrid

  datatype Axis = X | Y | Z

  /** The six walls: the lower and the upper one of each axis. */
  datatype Wall = Wall(axis: Axis, upper: bool)

  const TOP := Wall(Y, true)

  function Along(v: Vec3, axis: Axis): real {
    match axis
    case X => v.x
    case Y => v.y
    case Z => v.z
  }

  function With(v: Vec3, axis: Axis, r: real): Vec3 {
    match axis
    case X => v.(x := r)
    case Y => v.(y := r)
    case Z => v.(z := r)
  }

  /** The far corner of the box. */
  function Far(dom: Domain): Vec3 {
    Vec3(dom.min.x + dom.nx as real * dom.delta.x, dom.min.y + dom.ny as real * dom.delta.y,
         dom.min.z + dom.nz as real * dom.delta.z)
  }

  function Bound(dom: Domain, w: Wall): real {
    Along(if w.upper then Far(dom) else dom.min, w.axis)
  }

  /** How far inside the wall a particle is. */
  function Depth(dom: Domain, w: Wall, q: Particle): real {
    if w.upper then Bound(dom, w) - Along(q.p, w.axis) else Along(q.p, w.axis) - Bound(dom, w)
  }

  predicate Beyond(dom: Domain, w: Wall, q: Particle) {
    Depth(dom, w, q) < 0.0
  }

  function Turned(v: Vec3, axis: Axis): Vec3 {
    With(v, axis, -Along(v, axis))
  }

  /** A particle beyond the wall is put back inside, with its velocities turned round. */
  function Reflect(dom: Domain, w: Wall, q: Particle): Particle {
    var diff := Depth(dom, w, q);
    if diff < 0.0 then
      var to := if w.upper then Bound(dom, w) + diff else Bound(dom, w) - diff;
      Particle(With(q.p, w.axis, to), Turned(q.hv, w.axis), Turned(q.v, w.axis))
    else q
  }

  /** A reflected particle is as far inside as it was outside, as fast the other way, and unmoved along the wall. */
  lemma ReflectMirrors(dom: Domain, w: Wall, q: Particle)
    ensures var r := Reflect(dom, w, q);
            && !Beyond(dom, w, r) && Reflect(dom, w, r) == r
            && Depth(dom, w, r) == (if Beyond(dom, w, q) then -Depth(dom, w, q) else Depth(dom, w, q))
            && (forall axis :: axis != w.axis ==> Along(r.p, axis) == Along(q.p, axis))
            && (forall axis :: axis != w.axis ==>
                  Along(r.v, axis) == Along(q.v, axis) && Along(r.hv, axis) == Along(q.hv, axis))
            && (if Beyond(dom, w, q) then
                  Along(r.v, w.axis) == -Along(q.v, w.axis) && Along(r.hv, w.axis) == -Along(q.hv, w.axis)
                else r == q)
  {
  }

  // ---- One list ----------------------------------------------------------------------------------

  /**
   * Up to which particle the pass along the upper y wall gets.  It steps to the next cell of a list only if the
   * last particle of the cell at hand was beyond the wall.
   */
  function Limit(dom: Domain, qs: seq<Particle>, b: nat): nat
    decreases |qs| - b
  {
    if 16 * b + 15 < |qs| && Beyond(dom, TOP, qs[16 * b + 15]) then Limit(dom, qs, b + 1) else 16 * (b + 1)
  }

  function ReflectedTo(dom: Domain, w: Wall, qs: seq<Particle>, n: nat): (rs: seq<Particle>)
    ensures |rs| == |qs|
    ensures forall l :: 0 <= l < |qs| ==> rs[l] == if l < n then Reflect(dom, w, qs[l]) else qs[l]
  {
    seq(|qs|, l requires 0 <= l < |qs| => if l < n then Reflect(dom, w, qs[l]) else qs[l])
  }

  /** A list behind the pass along wall w. */
  function AfterWall(dom: Domain, w: Wall, qs: seq<Particle>): seq<Particle> {
    ReflectedTo(dom, w, qs, if w == TOP then Limit(dom, qs, 0) else |qs|)
  }

  /** Behind every particle beyond the upper y wall stand only full cells whose last particle is, too. */
  ghost predicate AllReached(dom: Domain, qs: seq<Particle>) {
    forall j, b :: 0 <= b && 16 * b + 15 < j < |qs| ==> Reached(dom, qs, j, b)
  }

  ghost predicate Reached(dom: Domain, qs: seq<Particle>, j: int, b: int) {
    0 <= b && 16 * b + 15 < j < |qs| && Beyond(dom, TOP, qs[j]) ==> Beyond(dom, TOP, qs[16 * b + 15])
  }

  lemma ReachedAt(dom: Domain, qs: seq<Particle>, j: nat, b: nat)
    requires AllReached(dom, qs) && 16 * b + 15 < j < |qs| && Beyond(dom, TOP, qs[j])
    ensures Beyond(dom, TOP, qs[16 * b + 15])
  {
    assert Reached(dom, qs, j, b);
  }

  lemma {:induction false} LimitReaches(dom: Domain, qs: seq<Particle>, b: nat, j: nat)
    requires j < |qs| && AllReached(dom, qs) && Beyond(dom, TOP, qs[j])
    ensures j < Limit(dom, qs, b)
    decreases |qs| - b
  {
    if 16 * b + 15 < |qs| && Beyond(dom, TOP, qs[16 * b + 15]) {
      LimitReaches(dom, qs, b + 1, j);
    } else if 16 * b + 15 < j {
      ReachedAt(dom, qs, j, b);
    }
  }

  lemma {:induction false} LimitStops(dom: Domain, qs: seq<Particle>, b: nat, c: nat)
    requires b <= c && 16 * c + 15 < |qs| && !Beyond(dom, TOP, qs[16 * c + 15])
    ensures Limit(dom, qs, b) <= 16 * c + 16
    decreases c - b
  {
    if b < c && Beyond(dom, TOP, qs[16 * b + 15]) { LimitStops(dom, qs, b + 1, c); }
  }

  /** Every wall but the upper y wall turns back every particle of the lists along it. */
  lemma WallHolds(dom: Domain, w: Wall, qs: seq<Particle>, j: nat)
    requires w != TOP && j < |qs|
    ensures !Beyond(dom, w, AfterWall(dom, w, qs)[j])
  {
    ReflectMirrors(dom, w, qs[j]);
  }

  /** The upper y wall does so exactly if no particle beyond it stands behind a full cell that ends inside. */
  lemma TopHoldsIff(dom: Domain, qs: seq<Particle>)
    ensures (forall q :: q in AfterWall(dom, TOP, qs) ==> !Beyond(dom, TOP, q)) <==> AllReached(dom, qs)
  {
    hide Reflect, Beyond;
    var rs := AfterWall(dom, TOP, qs);
    if AllReached(dom, qs) {
      forall j | 0 <= j < |rs| ensures !Beyond(dom, TOP, rs[j]) {
        ReflectMirrors(dom, TOP, qs[j]);
        if Beyond(dom, TOP, qs[j]) { LimitReaches(dom, qs, 0, j); }
      }
    } else {
      var j, b :| 0 <= b && 16 * b + 15 < j < |qs| && !Reached(dom, qs, j, b);
      LimitStops(dom, qs, 0, b);
      assert rs[j] == qs[j] && rs[j] in rs;
    }
  }

  /** Seventeen particles of which only the last is beyond the wall: it stays there. */
  lemma TopLeaks(dom: Domain, inside: Particle, out: Particle)
    requires !Beyond(dom, TOP, inside) && Beyond(dom, TOP, out)
    ensures var qs := seq(16, _ => inside) + [out];
            AfterWall(dom, TOP, qs) == qs
  {
    var qs := seq(16, _ => inside) + [out];
    assert qs[15] == inside;
    assert Limit(dom, qs, 0) == 16;
    assert forall l :: 0 <= l < |qs| ==> AfterWall(dom, TOP, qs)[l] == qs[l];
  }

  lemma ReflectIs(dom: Domain, w: Wall, q: Particle)
    ensures !Beyond(dom, w, q) ==> Reflect(dom, w, q) == q
  {
  }

  lemma AfterWallIs(dom: Domain, w: Wall, qs: seq<Particle>, now: seq<Particle>)
    requires w != TOP && |now| == |qs| && forall l :: 0 <= l < |qs| ==> now[l] == Reflect(dom, w, qs[l])
    ensures now == AfterWall(dom, w, qs)
  {
    hide Reflect;
  }

  lemma LimitStep(dom: Domain, qs: seq<Particle>, b: nat)
    ensures Limit(dom, qs, b)
         == if 16 * b + 15 < |qs| && Beyond(dom, TOP, qs[16 * b + 15]) then Limit(dom, qs, b + 1) else 16 * (b + 1)
  {
  }

  lemma AfterTopIs(dom: Domain, qs: seq<Particle>, k: nat, now: seq<Particle>)
    requires Limit(dom, qs, 0) == 16 * (k + 1) && |now| == |qs|
    requires forall l :: 0 <= l < |qs| ==> now[l] == if l < 16 * (k + 1) then Reflect(dom, TOP, qs[l]) else qs[l]
    ensures now == AfterWall(dom, TOP, qs)
  {
    hide Reflect, Limit;
  }

  // ---- The cells along a wall --------------------------------------------------------------------

  function CellNo(dom: Domain, x: nat, y: nat, z: nat): nat {
    (z * dom.ny + y) * dom.nx + x
  }

  predicate InBox(dom: Domain, x: nat, y: nat, z: nat) {
    x < dom.nx && y < dom.ny && z < dom.nz
  }

  function Edge(n: nat, upper: bool): nat
    requires n >= 1
  {
    if upper then n - 1 else 0
  }

  predicate OnWall(dom: Domain, w: Wall, x: nat, y: nat, z: nat)
    requires DomainOk(dom)
  {
    match w.axis
    case X => x == Edge(dom.nx, w.upper)
    case Y => y == Edge(dom.ny, w.upper)
    case Z => z == Edge(dom.nz, w.upper)
  }

  /** The list of a cell behind the pass along w, which visits only the cells along w. */
  function Passed(dom: Domain, w: Wall, x: nat, y: nat, z: nat, qs: seq<Particle>): (rs: seq<Particle>)
    requires DomainOk(dom)
    ensures |rs| == |qs|
  {
    if OnWall(dom, w, x, y, z) then AfterWall(dom, w, qs) else qs
  }

  function AfterX(dom: Domain, x: nat, y: nat, z: nat, qs: seq<Particle>): seq<Particle>
    requires DomainOk(dom)
  {
    Passed(dom, Wall(X, true), x, y, z, Passed(dom, Wall(X, false), x, y, z, qs))
  }

  function AfterLowerY(dom: Domain, x: nat, y: nat, z: nat, qs: seq<Particle>): seq<Particle>
    requires DomainOk(dom)
  {
    Passed(dom, Wall(Y, false), x, y, z, AfterX(dom, x, y, z, qs))
  }

  /** All six passes, in the order of the code. */
  function AfterWalls(dom: Domain, x: nat, y: nat, z: nat, qs: seq<Particle>): (rs: seq<Particle>)
    requires DomainOk(dom)
    ensures |rs| == |qs|
  {
    var top := Passed(dom, TOP, x, y, z, AfterLowerY(dom, x, y, z, qs));
    Passed(dom, Wall(Z, true), x, y, z, Passed(dom, Wall(Z, false), x, y, z, top))
  }

  /** The same places along one axis. */
  ghost predicate SameAlong(axis: Axis, qs: seq<Particle>, rs: seq<Particle>) {
    |qs| == |rs| && forall j :: 0 <= j < |qs| ==> Along(qs[j].p, axis) == Along(rs[j].p, axis)
  }

  /** A pass moves no particle along another axis. */
  lemma PassKeeps(dom: Domain, w: Wall, x: nat, y: nat, z: nat, qs: seq<Particle>, axis: Axis)
    requires DomainOk(dom) && axis != w.axis
    ensures SameAlong(axis, qs, Passed(dom, w, x, y, z, qs))
  {
    hide Limit;
    forall j | 0 <= j < |qs| ensures Along(qs[j].p, axis) == Along(Passed(dom, w, x, y, z, qs)[j].p, axis) {
      ReflectMirrors(dom, w, qs[j]);
    }
  }

  /** A pass along a wall that a cell does not touch leaves its list alone. */
  lemma PassSkips(dom: Domain, w: Wall, x: nat, y: nat, z: nat, qs: seq<Particle>)
    requires DomainOk(dom) && !OnWall(dom, w, x, y, z)
    ensures Passed(dom, w, x, y, z, qs) == qs
  {
  }

  lemma SameBeyond(dom: Domain, w: Wall, qs: seq<Particle>, rs: seq<Particle>)
    requires SameAlong(w.axis, qs, rs)
    ensures forall j :: 0 <= j < |qs| ==> (Beyond(dom, w, qs[j]) <==> Beyond(dom, w, rs[j]))
  {
  }

  lemma SameReached(dom: Domain, qs: seq<Particle>, rs: seq<Particle>)
    requires SameAlong(Y, qs, rs) && AllReached(dom, qs)
    ensures AllReached(dom, rs)
  {
    SameBeyond(dom, TOP, qs, rs);
    hide Beyond;
    forall j, b | 0 <= b && 16 * b + 15 < j < |rs| ensures Reached(dom, rs, j, b) {
      assert Reached(dom, qs, j, b);
    }
  }

  lemma SameTrans(axis: Axis, qs: seq<Particle>, rs: seq<Particle>, ts: seq<Particle>)
    requires SameAlong(axis, qs, rs) && SameAlong(axis, rs, ts)
    ensures SameAlong(axis, qs, ts)
  {
  }

  function Cells(dom: Domain, axis: Axis): nat {
    match axis
    case X => dom.nx
    case Y => dom.ny
    case Z => dom.nz
  }

  /** The two passes along one axis. */
  lemma PairHolds(dom: Domain, w: Wall, x: nat, y: nat, z: nat, qs: seq<Particle>, j: nat)
    requires DomainOk(dom) && OnWall(dom, w, x, y, z) && w != TOP && j < |qs|
    requires w.upper || Cells(dom, w.axis) >= 2
    ensures var lower := Passed(dom, Wall(w.axis, false), x, y, z, qs);
            !Beyond(dom, w, Passed(dom, Wall(w.axis, true), x, y, z, lower)[j])
  {
    hide Beyond, AfterWall;
    var lower := Passed(dom, Wall(w.axis, false), x, y, z, qs);
    if w.upper {
      WallHolds(dom, w, lower, j);
    } else {
      PassSkips(dom, Wall(w.axis, true), x, y, z, lower);
      WallHolds(dom, w, qs, j);
    }
  }

  /** What the later passes do to the places along an axis: nothing. */
  lemma LaterPasses(dom: Domain, x: nat, y: nat, z: nat, qs: seq<Particle>)
    requires DomainOk(dom)
    ensures SameAlong(X, AfterX(dom, x, y, z, qs), AfterWalls(dom, x, y, z, qs))
    ensures SameAlong(Y, qs, AfterX(dom, x, y, z, qs))
    ensures SameAlong(Y, Passed(dom, TOP, x, y, z, AfterLowerY(dom, x, y, z, qs)), AfterWalls(dom, x, y, z, qs))
  {
    hide Passed, SameAlong;
    var xs0 := Passed(dom, Wall(X, false), x, y, z, qs);
    var xs, ys0 := AfterX(dom, x, y, z, qs), AfterLowerY(dom, x, y, z, qs);
    var ys := Passed(dom, TOP, x, y, z, ys0);
    var zs0 := Passed(dom, Wall(Z, false), x, y, z, ys);
    PassKeeps(dom, Wall(X, false), x, y, z, qs, Y);
    PassKeeps(dom, Wall(X, true), x, y, z, xs0, Y);
    SameTrans(Y, qs, xs0, xs);
    PassKeeps(dom, Wall(Y, false), x, y, z, xs, X);
    PassKeeps(dom, TOP, x, y, z, ys0, X);
    SameTrans(X, xs, ys0, ys);
    PassKeeps(dom, Wall(Z, false), x, y, z, ys, X);
    PassKeeps(dom, Wall(Z, true), x, y, z, zs0, X);
    SameTrans(X, xs, ys, zs0);
    SameTrans(X, xs, zs0, AfterWalls(dom, x, y, z, qs));
    PassKeeps(dom, Wall(Z, false), x, y, z, ys, Y);
    PassKeeps(dom, Wall(Z, true), x, y, z, zs0, Y);
    SameTrans(Y, ys, zs0, AfterWalls(dom, x, y, z, qs));
  }

  /**
   * Behind all six passes no particle of a list along a wall is beyond it, for every wall but the upper y wall;
   * for a lower wall provided that the cell does not touch the opposite wall as well.
   */
  lemma WallsHold(dom: Domain, w: Wall, x: nat, y: nat, z: nat, qs: seq<Particle>, j: nat)
    requires DomainOk(dom) && OnWall(dom, w, x, y, z) && w != TOP && j < |qs|
    requires w.upper || Cells(dom, w.axis) >= 2
    ensures !Beyond(dom, w, AfterWalls(dom, x, y, z, qs)[j])
  {
    hide Passed, Beyond, OnWall;
    LaterPasses(dom, x, y, z, qs);
    var xs, ys0 := AfterX(dom, x, y, z, qs), AfterLowerY(dom, x, y, z, qs);
    var ys := Passed(dom, TOP, x, y, z, ys0);
    match w.axis
    case X =>
      PairHolds(dom, w, x, y, z, qs, j);
      SameBeyond(dom, w, xs, AfterWalls(dom, x, y, z, qs));
    case Y =>
      PairHolds(dom, w, x, y, z, xs, j);
      SameBeyond(dom, w, ys, AfterWalls(dom, x, y, z, qs));
    case Z =>
      PairHolds(dom, w, x, y, z, ys, j);
  }

  /**
   * The upper y wall holds for the list of a cell along it exactly if every particle beyond it stands behind
   * full cells that end with a particle beyond it; with two or more cells along y that is decided by the list as
   * it was before the passes.
   */
  lemma TopWallHoldsIff(dom: Domain, x: nat, y: nat, z: nat, qs: seq<Particle>)
    requires DomainOk(dom) && OnWall(dom, TOP, x, y, z)
    ensures (forall q :: q in AfterWalls(dom, x, y, z, qs) ==> !Beyond(dom, TOP, q))
            <==> AllReached(dom, AfterLowerY(dom, x, y, z, qs))
    ensures dom.ny >= 2 ==> (AllReached(dom, AfterLowerY(dom, x, y, z, qs)) <==> AllReached(dom, qs))
  {
    LaterPasses(dom, x, y, z, qs);
    var ys0, all := AfterLowerY(dom, x, y, z, qs), AfterWalls(dom, x, y, z, qs);
    var ys := AfterWall(dom, TOP, ys0);
    if dom.ny >= 2 { PassSkips(dom, Wall(Y, false), x, y, z, AfterX(dom, x, y, z, qs)); }
    hide AfterWalls, AfterWall, AfterLowerY, Beyond, AllReached;
    TopHoldsIff(dom, ys0);
    SameBeyond(dom, TOP, ys, all);
    AllInside(dom, ys, all);
    if dom.ny >= 2 {
      if AllReached(dom, qs) { SameReached(dom, qs, ys0); }
      if AllReached(dom, ys0) { SameReached(dom, ys0, qs); }
    }
  }

  lemma AllInside(dom: Domain, qs: seq<Particle>, rs: seq<Particle>)
    requires |qs| == |rs| && forall j :: 0 <= j < |qs| ==> (Beyond(dom, TOP, qs[j]) <==> Beyond(dom, TOP, rs[j]))
    ensures (forall q :: q in qs ==> !Beyond(dom, TOP, q)) <==> (forall q :: q in rs ==> !Beyond(dom, TOP, q))
  {
    hide Beyond;
    if forall q :: q in qs ==> !Beyond(dom, TOP, q) {
      forall j | 0 <= j < |rs| ensures !Beyond(dom, TOP, rs[j]) { assert qs[j] in qs; }
    }
    if forall q :: q in rs ==> !Beyond(dom, TOP, q) {
      forall j | 0 <= j < |qs| ensures !Beyond(dom, TOP, qs[j]) { assert rs[j] in rs; }
    }
  }

  // ---- The loops of a pass -----------------------------------------------------------------------

  function OuterSize(dom: Domain, w: Wall): nat { if w.axis.X? then dom.ny else dom.nx }

  function InnerSize(dom: Domain, w: Wall): nat { if w.axis.Z? then dom.ny else dom.nz }

  /** The cell along w that the loops visit at counters u and t. */
  function Spot(dom: Domain, w: Wall, u: nat, t: nat): (int, int, int)
    requires DomainOk(dom)
  {
    match w.axis
    case X => (Edge(dom.nx, w.upper), u, t)
    case Y => (u, Edge(dom.ny, w.upper), t)
    case Z => (u, t, Edge(dom.nz, w.upper))
  }

  function SpotNo(dom: Domain, w: Wall, u: nat, t: nat): int
    requires DomainOk(dom)
  {
    var (x, y, z) := Spot(dom, w, u, t);
    (z * dom.ny + y) * dom.nx + x
  }

  /** Has the pass been at this cell before counters u and t? */
  ghost predicate Visited(dom: Domain, w: Wall, u: nat, t: nat, x: nat, y: nat, z: nat) {
    var (a, b) := match w.axis { case X => (y, z) case Y => (x, z) case Z => (x, y) };
    a < u || (a == u && b < t)
  }

  ghost predicate PassAt(dom: Domain, w: Wall, was: seq<seq<Particle>>, now: seq<seq<Particle>>, u: nat, t: nat,
          x: nat, y: nat, z: nat)
    requires DomainOk(dom)
  {
    InBox(dom, x, y, z) ==>
      var c := CellNo(dom, x, y, z);
      && 0 <= c < |was| && c < |now|
      && now[c] == if Visited(dom, w, u, t, x, y, z) then Passed(dom, w, x, y, z, was[c]) else was[c]
  }

  /** The lists when the loops of the pass along w have come to counters u and t. */
  ghost predicate PassTo(dom: Domain, w: Wall, was: seq<seq<Particle>>, now: seq<seq<Particle>>, u: nat, t: nat)
    requires DomainOk(dom)
  {
    |was| == |now| && forall x: nat, y: nat, z: nat :: PassAt(dom, w, was, now, u, t, x, y, z)
  }

  lemma PassStart(dom: Domain, w: Wall, was: seq<seq<Particle>>)
    requires DomainOk(dom) && |was| == NumCells(dom)
    ensures PassTo(dom, w, was, was, 0, 0)
  {
    forall x: nat, y: nat, z: nat ensures PassAt(dom, w, was, was, 0, 0, x, y, z) {
      if InBox(dom, x, y, z) { InGrid(z, y, x, dom.nz, dom.ny, dom.nx); }
    }
  }

  lemma SpotInBox(dom: Domain, w: Wall, u: nat, t: nat)
    requires DomainOk(dom) && u < OuterSize(dom, w) && t < InnerSize(dom, w)
    ensures var (x, y, z) := Spot(dom, w, u, t);
            && 0 <= x && 0 <= y && 0 <= z && InBox(dom, x, y, z) && OnWall(dom, w, x, y, z)
            && SpotNo(dom, w, u, t) == CellNo(dom, x, y, z) && 0 <= SpotNo(dom, w, u, t) < NumCells(dom)
            && !Visited(dom, w, u, t, x, y, z)
  {
    var (x, y, z) := Spot(dom, w, u, t);
    InGrid(z, y, x, dom.nz, dom.ny, dom.nx);
  }

  lemma PassStepAt(dom: Domain, w: Wall, was: seq<seq<Particle>>, now: seq<seq<Particle>>, u: nat, t: nat,
                   x: nat, y: nat, z: nat)
    requires DomainOk(dom) && u < OuterSize(dom, w) && t < InnerSize(dom, w)
    requires |now| == |was| && 0 <= SpotNo(dom, w, u, t) < |now| && PassAt(dom, w, was, now, u, t, x, y, z)
    requires now[SpotNo(dom, w, u, t)] == was[SpotNo(dom, w, u, t)]
    ensures var c := SpotNo(dom, w, u, t);
            PassAt(dom, w, was, now[c := AfterWall(dom, w, was[c])], u, t + 1, x, y, z)
  {
    hide AfterWall, NumCells;
    var (x', y', z') := Spot(dom, w, u, t);
    SpotInBox(dom, w, u, t);
    if InBox(dom, x, y, z) { RowMajor(z, y, x, z', y', x', dom.ny, dom.nx); }
  }

  lemma PassStep(dom: Domain, w: Wall, was: seq<seq<Particle>>, now: seq<seq<Particle>>, u: nat, t: nat)
    requires DomainOk(dom) && u < OuterSize(dom, w) && t < InnerSize(dom, w)
    requires PassTo(dom, w, was, now, u, t)
    ensures var c := SpotNo(dom, w, u, t);
            && 0 <= c < |now| == |was| && now[c] == was[c]
            && PassTo(dom, w, was, now[c := AfterWall(dom, w, was[c])], u, t + 1)
  {
    hide AfterWall, NumCells, SpotNo;
    var c := SpotNo(dom, w, u, t);
    SpotInBox(dom, w, u, t);
    var (x', y', z') := Spot(dom, w, u, t);
    assert PassAt(dom, w, was, now, u, t, x', y', z');
    hide PassAt, Visited, InBox;
    var next, t' := now[c := AfterWall(dom, w, was[c])], t + 1;
    forall x: nat, y: nat, z: nat ensures PassAt(dom, w, was, next, u, t', x, y, z) {
      PassStepAt(dom, w, was, now, u, t, x, y, z);
    }
  }

  lemma PassRow(dom: Domain, w: Wall, was: seq<seq<Particle>>, now: seq<seq<Particle>>, u: nat)
    requires DomainOk(dom) && PassTo(dom, w, was, now, u, InnerSize(dom, w))
    ensures PassTo(dom, w, was, now, u + 1, 0)
  {
    hide CellNo, Passed;
    var u' := u + 1;
    forall x: nat, y: nat, z: nat ensures PassAt(dom, w, was, now, u', 0, x, y, z) {
      assert PassAt(dom, w, was, now, u, InnerSize(dom, w), x, y, z);
    }
  }

  /** The lists of all cells behind the whole pass. */
  ghost predicate PassDone(dom: Domain, w: Wall, was: seq<seq<Particle>>, now: seq<seq<Particle>>)
    requires DomainOk(dom)
  {
    PassTo(dom, w, was, now, OuterSize(dom, w), 0)
  }

  lemma IsPassDone(dom: Domain, w: Wall, was: seq<seq<Particle>>, now: seq<seq<Particle>>)
    requires DomainOk(dom) && PassTo(dom, w, was, now, OuterSize(dom, w), 0)
    ensures PassDone(dom, w, was, now)
  {
  }

  lemma PassDoneAt(dom: Domain, w: Wall, was: seq<seq<Particle>>, now: seq<seq<Particle>>, x: nat, y: nat, z: nat)
    requires DomainOk(dom) && PassDone(dom, w, was, now) && InBox(dom, x, y, z)
    ensures var c := CellNo(dom, x, y, z);
            0 <= c < |was| == |now| && now[c] == Passed(dom, w, x, y, z, was[c])
  {
    hide CellNo, Passed;
    assert PassAt(dom, w, was, now, OuterSize(dom, w), 0, x, y, z);
  }

  /** The lists of all cells behind all six passes. */
  ghost predicate AllPassed(dom: Domain, was: seq<seq<Particle>>, now: seq<seq<Particle>>)
    requires DomainOk(dom)
  {
    |was| == |now| && forall x: nat, y: nat, z: nat :: InBox(dom, x, y, z) ==> PassedAt(dom, was, now, x, y, z)
  }

  ghost predicate PassedAt(dom: Domain, was: seq<seq<Particle>>, now: seq<seq<Particle>>, x: nat, y: nat, z: nat)
    requires DomainOk(dom)
  {
    var c := CellNo(dom, x, y, z);
    0 <= c < |was| && c < |now| && now[c] == AfterWalls(dom, x, y, z, was[c])
  }

  lemma SixPasses(dom: Domain, s0: seq<seq<Particle>>, s1: seq<seq<Particle>>, s2: seq<seq<Particle>>,
                  s3: seq<seq<Particle>>, s4: seq<seq<Particle>>, s5: seq<seq<Particle>>, s6: seq<seq<Particle>>)
    requires DomainOk(dom)
    requires PassDone(dom, Wall(X, false), s0, s1) && PassDone(dom, Wall(X, true), s1, s2)
    requires PassDone(dom, Wall(Y, false), s2, s3) && PassDone(dom, TOP, s3, s4)
    requires PassDone(dom, Wall(Z, false), s4, s5) && PassDone(dom, Wall(Z, true), s5, s6)
    ensures AllPassed(dom, s0, s6)
  {
    hide PassAt, CellNo, Passed;
    forall x: nat, y: nat, z: nat | InBox(dom, x, y, z) ensures PassedAt(dom, s0, s6, x, y, z) {
      PassDoneAt(dom, Wall(X, false), s0, s1, x, y, z);
      PassDoneAt(dom, Wall(X, true), s1, s2, x, y, z);
      PassDoneAt(dom, Wall(Y, false), s2, s3, x, y, z);
      PassDoneAt(dom, TOP, s3, s4, x, y, z);
      PassDoneAt(dom, Wall(Z, false), s4, s5, x, y, z);
      PassDoneAt(dom, Wall(Z, true), s5, s6, x, y, z);
    }
  }

  // ---- The cell of a particle --------------------------------------------------------------------

  function CellX(dom: Domain, q: Particle): int
    requires DomainOk(dom)
  {
    Coord(q.p.x, dom.min.x, dom.delta.x, dom.nx)
  }

  function CellY(dom: Domain, q: Particle): int
    requires DomainOk(dom)
  {
    Coord(q.p.y, dom.min.y, dom.delta.y, dom.ny)
  }

  function CellZ(dom: Domain, q: Particle): int
    requires DomainOk(dom)
  {
    Coord(q.p.z, dom.min.z, dom.delta.z, dom.nz)
  }

  lemma CellCoords(dom: Domain, q: Particle)
    requires DomainOk(dom)
    ensures 0 <= CellX(dom, q) && 0 <= CellY(dom, q) && 0 <= CellZ(dom, q)
    ensures InBox(dom, CellX(dom, q), CellY(dom, q), CellZ(dom, q))
  {
    CoordFinds(q.p.x, dom.min.x, dom.delta.x, dom.nx);
    CoordFinds(q.p.y, dom.min.y, dom.delta.y, dom.ny);
    CoordFinds(q.p.z, dom.min.z, dom.delta.z, dom.nz);
    hide Coord;
  }

  /** The cell that sorting puts a particle into is the one the passes know by its three coordinates. */
  lemma IndexIsCellNo(dom: Domain, q: Particle)
    requires DomainOk(dom)
    ensures 0 <= CellX(dom, q) && 0 <= CellY(dom, q) && 0 <= CellZ(dom, q)
    ensures Index(dom, q) == CellNo(dom, CellX(dom, q), CellY(dom, q), CellZ(dom, q))
  {
    CellCoords(dom, q);
    hide Coord;
  }

  /** A particle beyond a wall, or in the slab along it, is in a cell that the pass along the wall visits. */
  lemma BeyondIsOnWall(dom: Domain, w: Wall, q: Particle)
    requires DomainOk(dom) && Beyond(dom, w, q)
    ensures 0 <= CellX(dom, q) && 0 <= CellY(dom, q) && 0 <= CellZ(dom, q)
    ensures OnWall(dom, w, CellX(dom, q), CellY(dom, q), CellZ(dom, q))
  {
    CellCoords(dom, q);
    match w.axis
    case X => CoordFinds(q.p.x, dom.min.x, dom.delta.x, dom.nx);
    case Y => CoordFinds(q.p.y, dom.min.y, dom.delta.y, dom.ny);
    case Z => CoordFinds(q.p.z, dom.min.z, dom.delta.z, dom.nz);
    hide Coord;
  }

  /** Whatever was beyond the wall in one state of the lists is not beyond it in the other. */
  ghost predicate TurnedBack(dom: Domain, w: Wall, was: seq<seq<Particle>>, now: seq<seq<Particle>>) {
    |now| == |was| && forall d, j :: 0 <= d < |was| && 0 <= j < |was[d]| && Beyond(dom, w, was[d][j]) ==>
      j < |now[d]| && !Beyond(dom, w, now[d][j])
  }

  /**
   * A particle that is beyond a wall when it is sorted into its cell is inside it behind the passes, wherever it
   * has moved to in between; for the upper y wall that is not so.
   */
  lemma SortedIsTurned(dom: Domain, w: Wall, sorted: seq<seq<Particle>>, moved: seq<seq<Particle>>,
          now: seq<seq<Particle>>, d: nat, j: nat)
    requires DomainOk(dom) && w != TOP && (w.upper || Cells(dom, w.axis) >= 2)
    requires d < |sorted| == |moved| && |moved[d]| == |sorted[d]| && j < |sorted[d]|
    requires AllPassed(dom, moved, now) && Index(dom, sorted[d][j]) == d && Beyond(dom, w, sorted[d][j])
    ensures |now| == |moved| && j < |now[d]| && !Beyond(dom, w, now[d][j])
  {
    var q := sorted[d][j];
    CellCoords(dom, q);
    IndexIsCellNo(dom, q);
    BeyondIsOnWall(dom, w, q);
    var x: nat, y: nat, z: nat := CellX(dom, q), CellY(dom, q), CellZ(dom, q);
    hide Coord, Beyond, AfterWalls, OnWall, CellX, CellY, CellZ, Index;
    assert PassedAt(dom, moved, now, x, y, z);
    WallsHold(dom, w, x, y, z, moved[d], j);
  }
}
