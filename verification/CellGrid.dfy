/** Which cell of the grid a particle belongs to, and what sorting particles into cells means. */
module CellGrid {
  import opened CellLists

  /** The box: nx by ny by nz cells of size delta, from corner min. */
  datatype Domain = Domain(nx: nat, ny: nat, nz: nat, min: Vec3, delta: Vec3)

  predicate DomainOk(dom: Domain) {
    && dom.nx >= 1 && dom.ny >= 1 && dom.nz >= 1
    && dom.delta.x > 0.0 && dom.delta.y > 0.0 && dom.delta.z > 0.0
  }

  /** The conversion of a floating point number to an integer cuts off toward zero. */
  function Truncate(r: real): int {
    if r >= 0.0 then r.Floor else -((-r).Floor)
  }

  function Confine(c: int, n: nat): int
  {
    if c < 0 then 0 else if c >= n then n - 1 else c
  }

  function Coord(at: real, min: real, delta: real, n: nat): int
    requires delta > 0.0
  {
    Confine(Truncate((at - min) / delta), n)
  }

  /** The cell a particle is put into. */
  function Index(dom: Domain, v: Particle): int
    requires DomainOk(dom)
  {
    var ci := Coord(v.p.x, dom.min.x, dom.delta.x, dom.nx);
    var cj := Coord(v.p.y, dom.min.y, dom.delta.y, dom.ny);
    var ck := Coord(v.p.z, dom.min.z, dom.delta.z, dom.nz);
    (ck * dom.ny + cj) * dom.nx + ci
  }

  function NumCells(dom: Domain): nat { dom.nx * dom.ny * dom.nz }

  lemma Scale(q: real, k: int, delta: real)
    requires delta > 0.0
    ensures k as real <= q ==> k as real * delta <= q * delta
    ensures q < k as real ==> q * delta < k as real * delta
  {
  }

  /**
   * A particle inside the box gets the slab that its position lies in; one outside gets the nearest
   * slab.
   */
  lemma CoordFinds(at: real, min: real, delta: real, n: nat)
    requires delta > 0.0 && n >= 1
    ensures var c := Coord(at, min, delta, n);
            && 0 <= c < n
            && (at < min ==> c == 0)
            && (at >= min + n as real * delta ==> c == n - 1)
            && (min <= at < min + n as real * delta ==>
                  min + c as real * delta <= at < min + (c + 1) as real * delta)
  {
    var q := Quotient(at - min, delta);
    var c := Coord(at, min, delta, n);
    assert c == Confine(Truncate(q), n);
    ConfineIs(q, n);
    TruncateIs(q);
    hide *;
    Scale(q, 0, delta);
    Scale(q, n, delta);
    if min <= at < min + n as real * delta {
      assert c as real <= q < (c + 1) as real;
      Slab(q, c, delta, at - min);
    }
  }

  lemma Slab(q: real, c: int, delta: real, a: real)
    requires c as real <= q < (c + 1) as real && delta > 0.0 && q * delta == a
    ensures c as real * delta <= a < (c + 1) as real * delta
  {
    Scale(q, c, delta);
    Scale(q, c + 1, delta);
  }

  lemma Quotient(a: real, delta: real) returns (q: real)
    requires delta > 0.0
    ensures q == a / delta && q * delta == a
  {
    q := a / delta;
  }

  lemma TruncateIs(q: real)
    ensures q.Floor as real <= q < (q.Floor + 1) as real
    ensures q >= 0.0 ==> Truncate(q) == q.Floor
    ensures q < 0.0 ==> Truncate(q) <= 0
  {
  }

  lemma ConfineIs(q: real, n: nat)
    requires n >= 1
    ensures var c := Confine(Truncate(q), n);
            && 0 <= c < n
            && (q < 0.0 ==> c == 0)
            && (q >= n as real ==> c == n - 1)
            && (0.0 <= q < n as real ==> c == q.Floor)
  {
    TruncateIs(q);
  }

  lemma Row(a: int, b: int, n: int)
    requires a < b && n >= 1
    ensures a * n + n <= b * n
  {
    var k := b - a - 1;
    calc {
      b * n;
      (a + 1 + k) * n;
      a * n + n + k * n;
    }
    Product(k, n);
  }

  lemma Product(a: int, b: int)
    requires a >= 0 && b >= 0
    ensures a * b >= 0
  {
  }

  /** Different triples of coordinates never share a cell. */
  lemma RowMajor(ck: int, cj: int, ci: int, dk: int, dj: int, di: int, ny: int, nx: int)
    requires 0 <= ci < nx && 0 <= di < nx && 0 <= cj < ny && 0 <= dj < ny
    ensures (ck * ny + cj) * nx + ci == (dk * ny + dj) * nx + di <==> ck == dk && cj == dj && ci == di
  {
    var a, b := ck * ny + cj, dk * ny + dj;
    if a < b { Row(a, b, nx); } else if b < a { Row(b, a, nx); }
    if ck < dk { Row(ck, dk, ny); } else if dk < ck { Row(dk, ck, ny); }
  }

  lemma InGrid(ck: int, cj: int, ci: int, nz: int, ny: int, nx: int)
    requires 0 <= ci < nx && 0 <= cj < ny && 0 <= ck < nz
    ensures 0 <= (ck * ny + cj) * nx + ci < nx * ny * nz
  {
    var a := ck * ny + cj;
    Row(ck, nz, ny);
    Product(ck, ny);
    Row(a, nz * ny, nx);
    Product(a, nx);
    assert nz * ny * nx == nx * ny * nz;
  }

  lemma IndexInGrid(dom: Domain, v: Particle)
    requires DomainOk(dom)
    ensures 0 <= Index(dom, v) < NumCells(dom)
  {
    var ci := Coord(v.p.x, dom.min.x, dom.delta.x, dom.nx);
    var cj := Coord(v.p.y, dom.min.y, dom.delta.y, dom.ny);
    var ck := Coord(v.p.z, dom.min.z, dom.delta.z, dom.nz);
    InGrid(ck, cj, ci, dom.nz, dom.ny, dom.nx);
  }

  /** Two particles share a cell exactly when all three confined coordinates agree. */
  lemma SameCellIff(dom: Domain, v: Particle, w: Particle)
    requires DomainOk(dom)
    ensures Index(dom, v) == Index(dom, w) <==>
            && Coord(v.p.x, dom.min.x, dom.delta.x, dom.nx) == Coord(w.p.x, dom.min.x, dom.delta.x, dom.nx)
            && Coord(v.p.y, dom.min.y, dom.delta.y, dom.ny) == Coord(w.p.y, dom.min.y, dom.delta.y, dom.ny)
            && Coord(v.p.z, dom.min.z, dom.delta.z, dom.nz) == Coord(w.p.z, dom.min.z, dom.delta.z, dom.nz)
  {
    RowMajor(Coord(v.p.z, dom.min.z, dom.delta.z, dom.nz), Coord(v.p.y, dom.min.y, dom.delta.y, dom.ny),
             Coord(v.p.x, dom.min.x, dom.delta.x, dom.nx),
             Coord(w.p.z, dom.min.z, dom.delta.z, dom.nz), Coord(w.p.y, dom.min.y, dom.delta.y, dom.ny),
             Coord(w.p.x, dom.min.x, dom.delta.x, dom.nx), dom.ny, dom.nx);
  }

  // ---- Moving a particle -------------------------------------------------------------------------

  function Add(a: Vec3, b: Vec3): Vec3 { Vec3(a.x + b.x, a.y + b.y, a.z + b.z) }

  function Times(a: Vec3, r: real): Vec3 { Vec3(a.x * r, a.y * r, a.z * r) }

  /** One leapfrog step under acceleration a. */
  function Moved(q: Particle, a: Vec3, dt: real): Particle {
    var half := Add(q.hv, Times(a, dt));
    Particle(Add(q.p, Times(half, dt)), half, Times(Add(q.hv, half), 0.5))
  }

  /** A vector's component, by number. */
  function Part(a: Vec3, i: nat): real {
    if i == 0 then a.x else if i == 1 then a.y else a.z
  }

  /** Half a step's velocity grows by the acceleration, carries the particle on, and is averaged into the velocity. */
  lemma MovedLaws(q: Particle, a: Vec3, dt: real, i: nat)
    requires i < 3
    ensures var r := Moved(q, a, dt);
            && Part(r.hv, i) - Part(q.hv, i) == Part(a, i) * dt
            && Part(r.p, i) - Part(q.p, i) == Part(r.hv, i) * dt
            && 2.0 * Part(r.v, i) == Part(q.hv, i) + Part(r.hv, i)
  {
  }

  /** The particles of list d after a step, each under its own acceleration. */
  ghost function MovedAll(qs: seq<Particle>, d: nat, a: (nat, nat) -> Vec3, dt: real): seq<Particle> {
    seq(|qs|, j requires 0 <= j < |qs| => Moved(qs[j], a(d, j), dt))
  }

  // ---- Sorting particles into cells --------------------------------------------------------------

  /** The particles of cell d, in the order given. */
  ghost function Select(dom: Domain, vs: seq<Particle>, d: int): seq<Particle>
    requires DomainOk(dom)
  {
    if vs == [] then []
    else
      var n := |vs| - 1;
      Select(dom, vs[..n], d) + (if Index(dom, vs[n]) == d then [vs[n]] else [])
  }

  ghost function Scatter(dom: Domain, vs: seq<Particle>): (s: seq<seq<Particle>>)
    requires DomainOk(dom)
    ensures |s| == NumCells(dom)
    ensures forall d :: 0 <= d < |s| ==> s[d] == Select(dom, vs, d)
  {
    seq(NumCells(dom), d requires 0 <= d < NumCells(dom) => Select(dom, vs, d))
  }

  ghost function Flatten(parts: seq<seq<Particle>>): seq<Particle> {
    if parts == [] then [] else Flatten(parts[..|parts| - 1]) + parts[|parts| - 1]
  }

  lemma ScatterNil(dom: Domain)
    requires DomainOk(dom)
    ensures Scatter(dom, []) == seq(NumCells(dom), _ => [])
  {
  }

  lemma ScatterSnoc(dom: Domain, vs: seq<Particle>, v: Particle)
    requires DomainOk(dom)
    ensures 0 <= Index(dom, v) < NumCells(dom)
    ensures Scatter(dom, vs + [v]) ==
            Scatter(dom, vs)[Index(dom, v) := Scatter(dom, vs)[Index(dom, v)] + [v]]
  {
    hide Index, NumCells;
    IndexInGrid(dom, v);
    var more, was, e := Scatter(dom, vs + [v]), Scatter(dom, vs), Index(dom, v);
    assert (vs + [v])[..|vs|] == vs;
    forall d | 0 <= d < |was| ensures more[d] == if d == e then was[d] + [v] else was[d] {
      assert more[d] == Select(dom, vs + [v], d);
    }
  }

  lemma FlattenLast(parts: seq<seq<Particle>>)
    requires parts != []
    ensures Flatten(parts) == Flatten(parts[..|parts| - 1]) + parts[|parts| - 1]
  {
  }

  lemma {:induction false} FlattenUpdate(parts: seq<seq<Particle>>, d: nat, v: Particle)
    requires d < |parts|
    ensures multiset(Flatten(parts[d := parts[d] + [v]])) == multiset(Flatten(parts)) + multiset{v}
  {
    hide Flatten;
    var n, after := |parts| - 1, parts[d := parts[d] + [v]];
    FlattenLast(parts);
    FlattenLast(after);
    if d < n {
      FlattenUpdate(parts[..n], d, v);
      assert after[..n] == parts[..n][d := parts[d] + [v]];
    } else {
      assert after[..n] == parts[..n];
    }
  }

  lemma {:induction false} FlattenEmpties(n: nat)
    ensures Flatten(seq(n, _ => [])) == []
  {
    if n > 0 {
      var e: seq<seq<Particle>> := seq(n, _ => []);
      assert e[..n - 1] == seq(n - 1, _ => []);
      FlattenEmpties(n - 1);
    }
  }

  /** Sorting loses nothing and duplicates nothing. */
  lemma {:induction false} ScatterKeepsAll(dom: Domain, vs: seq<Particle>)
    requires DomainOk(dom)
    ensures multiset(Flatten(Scatter(dom, vs))) == multiset(vs)
  {
    if vs == [] {
      ScatterNil(dom);
      FlattenEmpties(NumCells(dom));
    } else {
      var n := |vs| - 1;
      ScatterKeepsAll(dom, vs[..n]);
      assert vs == vs[..n] + [vs[n]];
      ScatterSnoc(dom, vs[..n], vs[n]);
      FlattenUpdate(Scatter(dom, vs[..n]), Index(dom, vs[n]), vs[n]);
    }
  }

  /** Whatever is in list d after sorting belongs to cell d. */
  lemma {:induction false} ScatterPlaces(dom: Domain, vs: seq<Particle>, d: int)
    requires DomainOk(dom)
    ensures forall v :: v in Select(dom, vs, d) ==> Index(dom, v) == d
    ensures forall v :: v in vs && Index(dom, v) == d ==> v in Select(dom, vs, d)
  {
    if vs != [] { ScatterPlaces(dom, vs[..|vs| - 1], d); }
  }

  // ---- Particles that stay put -------------------------------------------------------------------

  lemma {:induction false} SelectCat(dom: Domain, a: seq<Particle>, b: seq<Particle>, d: int)
    requires DomainOk(dom)
    ensures Select(dom, a + b, d) == Select(dom, a, d) + Select(dom, b, d)
  {
    if b == [] {
      assert a + b == a;
    } else {
      var n := |b| - 1;
      assert (a + b)[..|a| + n] == a + b[..n];
      SelectCat(dom, a, b[..n], d);
    }
  }

  lemma {:induction false} SelectHome(dom: Domain, vs: seq<Particle>, e: int, d: int)
    requires DomainOk(dom) && forall v :: v in vs ==> Index(dom, v) == e
    ensures Select(dom, vs, d) == if d == e then vs else []
  {
    if vs != [] {
      SelectHome(dom, vs[..|vs| - 1], e, d);
      assert vs[|vs| - 1] in vs;
    }
  }

  ghost predicate AllHome(dom: Domain, parts: seq<seq<Particle>>)
    requires DomainOk(dom)
  {
    forall d, v :: 0 <= d < |parts| && v in parts[d] ==> Index(dom, v) == d
  }

  lemma {:induction false} SelectFlat(dom: Domain, parts: seq<seq<Particle>>, d: int)
    requires DomainOk(dom) && AllHome(dom, parts)
    ensures Select(dom, Flatten(parts), d) == if 0 <= d < |parts| then parts[d] else []
  {
    hide *;
    if parts == [] {
      SelectNone(dom, d);
    } else {
      var n := |parts| - 1;
      HomeParts(dom, parts);
      SelectFlat(dom, parts[..n], d);
      SelectCat(dom, Flatten(parts[..n]), parts[n], d);
      SelectHome(dom, parts[n], n, d);
    }
  }

  lemma SelectNone(dom: Domain, d: int)
    requires DomainOk(dom)
    ensures Flatten([]) == [] && Select(dom, [], d) == []
  {
  }

  lemma HomeParts(dom: Domain, parts: seq<seq<Particle>>)
    requires DomainOk(dom) && AllHome(dom, parts) && parts != []
    ensures var n := |parts| - 1;
            AllHome(dom, parts[..n]) && (forall v :: v in parts[n] ==> Index(dom, v) == n)
            && Flatten(parts) == Flatten(parts[..n]) + parts[n]
  {
    hide Index, DomainOk;
  }

  /** When no particle has left its cell, sorting again changes nothing, not even the order. */
  lemma SortedStays(dom: Domain, parts: seq<seq<Particle>>)
    requires DomainOk(dom) && |parts| == NumCells(dom) && AllHome(dom, parts)
    ensures Scatter(dom, Flatten(parts)) == parts
  {
    forall d | 0 <= d < |parts| ensures Scatter(dom, Flatten(parts))[d] == parts[d] {
      SelectFlat(dom, parts, d);
    }
  }
}
