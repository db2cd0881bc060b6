/**
 * What the random numbers decide in streamcluster: the order of points and candidates, and which points the first
 * solution opens.  The numbers are a given sequence; each use takes the next ones.
 */
module ClusterDraws {
  import opened ClusterGain
  import opened ClusterSearch

  /** What lrand48 gives. */
  type Draw = n: nat | n <= 0x7fff_ffff

  const INT_MAX: nat := 0x7fff_ffff

  /** Draw p as a fraction. */
  function Chance(draws: nat -> Draw, p: nat): (r: real)
    ensures 0.0 <= r <= 1.0
  {
    Fraction(draws(p))
  }

  function Fraction(r: Draw): (f: real)
    ensures 0.0 <= f <= 1.0
  {
    r as real / INT_MAX as real
  }

  /** The generator: what it gives, and how much of it has been used. */
  class Rand48 {
    const draws: nat -> Draw
    var drawn: nat

    method Lrand48() returns (r: Draw)
      modifies this
      ensures r == draws(old(drawn)) && drawn == old(drawn) + 1
    {
      r := draws(drawn);
      drawn := drawn + 1;
    }
  }

  // ---- Orders ------------------------------------------------------------------------------------

  function Swapped<T>(s: seq<T>, i: nat, j: nat): (r: seq<T>)
    requires i < |s| && j < |s|
    ensures |r| == |s|
  {
    s[i := s[j]][j := s[i]]
  }

  /** Where the entry for place i comes from. */
  function From(draws: nat -> Draw, p: nat, i: nat, n: nat): (j: nat)
    requires i < n
    ensures i <= j < n
  {
    Place(draws(p), i, n)
  }

  function Place(r: Draw, i: nat, n: nat): (j: nat)
    requires i < n
    ensures i <= j < n
  {
    i + r % (n - i)
  }

  /** Places i to m filled with entries drawn from those behind, beginning with draw p. */
  function Shuffled<T>(s: seq<T>, i: nat, m: nat, draws: nat -> Draw, p: nat): (r: seq<T>)
    requires m <= |s|
    ensures |r| == |s|
    decreases m - i
  {
    if i >= m then s else Shuffled(Swapped(s, i, From(draws, p, i, |s|)), i + 1, m, draws, p + 1)
  }

  lemma SwappedKeeps<T>(s: seq<T>, i: nat, j: nat)
    requires i < |s| && j < |s|
    ensures multiset(Swapped(s, i, j)) == multiset(s)
  {
  }

  lemma {:induction false} ShuffledKeeps<T>(s: seq<T>, i: nat, m: nat, draws: nat -> Draw, p: nat)
    requires m <= |s|
    ensures multiset(Shuffled(s, i, m, draws, p)) == multiset(s)
    decreases m - i
  {
    if i < m {
      SwappedKeeps(s, i, From(draws, p, i, |s|));
      ShuffledKeeps(Swapped(s, i, From(draws, p, i, |s|)), i + 1, m, draws, p + 1);
    }
  }

  lemma ShuffledStep<T>(s: seq<T>, i: nat, m: nat, draws: nat -> Draw, p: nat)
    requires i < m <= |s|
    ensures Shuffled(s, i, m, draws, p)
         == Shuffled(Swapped(s, i, From(draws, p, i, |s|)), i + 1, m, draws, p + 1)
  {
  }

  lemma ShuffledEnd<T>(s: seq<T>, m: nat, draws: nat -> Draw, p: nat)
    requires m <= |s|
    ensures Shuffled(s, m, m, draws, p) == s
  {
  }

  /** Only the draws from p on matter. */
  lemma {:induction false} SameDraws<T>(s: seq<T>, i: nat, m: nat, draws: nat -> Draw, draws': nat -> Draw, p: nat)
    requires m <= |s| && forall q :: p <= q ==> draws(q) == draws'(q)
    ensures Shuffled(s, i, m, draws, p) == Shuffled(s, i, m, draws', p)
    decreases m - i
  {
    if i < m { SameDraws(Swapped(s, i, From(draws, p, i, |s|)), i + 1, m, draws, draws', p + 1); }
  }

  lemma OneLeft<T>(s: seq<T>, t: seq<T>)
    requires |s| == |t| > 0 && multiset(s) == multiset(t) && s[..|s| - 1] == t[..|s| - 1]
    ensures s == t
  {
    var n := |s| - 1;
    assert s == s[..n] + [s[n]] && t == t[..n] + [t[n]];
    assert multiset([s[n]]) == multiset(s) - multiset(s[..n]) == multiset([t[n]]);
    assert s[n] in multiset([t[n]]);
  }

  lemma RestAlike<T>(s: seq<T>, t: seq<T>, i: nat)
    requires multiset(s) == multiset(t) && |s| == |t| && i <= |s| && s[..i] == t[..i]
    ensures multiset(s[i..]) == multiset(t[i..])
  {
    assert s == s[..i] + s[i..] && t == t[..i] + t[i..];
    assert multiset(s[i..]) == multiset(s) - multiset(s[..i]);
    assert multiset(t[i..]) == multiset(t) - multiset(t[..i]);
  }

  /** The wanted entry for place i is at i or behind. */
  lemma Behind<T>(s: seq<T>, t: seq<T>, i: nat) returns (j: nat)
    requires multiset(s) == multiset(t) && |s| == |t| && i < |s| && s[..i] == t[..i]
    ensures i <= j < |s| && s[j] == t[i]
  {
    RestAlike(s, t, i);
    var rest, wanted := s[i..], t[i..];
    assert wanted[0] in multiset(wanted);
    assert t[i] in rest;
    var k :| 0 <= k < |rest| && rest[k] == t[i];
    j := i + k;
  }

  /** first as draw p, and the others as in later. */
  function Then(first: Draw, p: nat, later: nat -> Draw): nat -> Draw {
    q => if q == p then first else later(q)
  }

  lemma FromThen(i: nat, j: nat, n: nat, p: nat, later: nat -> Draw)
    requires i <= j < n <= INT_MAX
    ensures From(Then(j - i, p, later), p, i, n) == j
  {
    Small(j - i, n - i);
  }

  lemma SwappedPrefix<T>(s: seq<T>, t: seq<T>, i: nat, j: nat)
    requires |s| == |t| && i <= j < |s| && s[..i] == t[..i] && s[j] == t[i]
    ensures Swapped(s, i, j)[..i + 1] == t[..i + 1]
  {
    var r := Swapped(s, i, j);
    forall k | 0 <= k < i + 1 ensures r[k] == t[k] {
      if k < i { assert s[k] == s[..i][k] == t[..i][k]; }
    }
  }

  /** Every order of the entries is what some draws lead to, whether the last place is drawn for or not. */
  lemma {:induction false} EveryOrder<T>(s: seq<T>, t: seq<T>, i: nat, m: nat, p: nat) returns (draws: nat -> Draw)
    requires multiset(s) == multiset(t) && |s| == |t| && m <= |s| <= m + 1 && |s| <= INT_MAX
    requires i <= m && s[..i] == t[..i]
    ensures Shuffled(s, i, m, draws, p) == t
    decreases m - i
  {
    if i == m {
      draws := _ => 0;
      if m < |s| { OneLeft(s, t); }
    } else {
      hide Swapped, From;
      var j := Behind(s, t, i);
      SwappedKeeps(s, i, j);
      SwappedPrefix(s, t, i, j);
      var later := EveryOrder(Swapped(s, i, j), t, i + 1, m, p + 1);
      draws := Then(j - i, p, later);
      FromThen(i, j, |s|, p, later);
      SameDraws(Swapped(s, i, j), i + 1, m, draws, later, p + 1);
    }
  }

  /** The first draw of round t, if every round takes n. */
  function StartOf(p: nat, n: nat, t: nat): nat {
    if t == 0 then p else StartOf(p, n, t - 1) + n
  }

  /** Every round goes through the candidates of the one before in a new order, drawn for from p on. */
  ghost predicate OrdersDrawn(draws: nat -> Draw, p: nat, feasible: seq<nat>, orders: seq<seq<nat>>) {
    forall t :: 0 <= t < |orders| ==> OrderDrawn(draws, p, feasible, orders, t)
  }

  ghost predicate OrderDrawn(draws: nat -> Draw, p: nat, feasible: seq<nat>, orders: seq<seq<nat>>, t: nat)
    requires t < |orders|
  {
    var before := if t == 0 then feasible else orders[t - 1];
    |before| == |feasible| && orders[t] == Shuffled(before, 0, |before|, draws, StartOf(p, |feasible|, t))
  }

  lemma NoOrders(draws: nat -> Draw, p: nat, feasible: seq<nat>)
    ensures OrdersDrawn(draws, p, feasible, []) && StartOf(p, |feasible|, 0) == p
  {
  }

  lemma NextOrder(draws: nat -> Draw, p: nat, feasible: seq<nat>, orders: seq<seq<nat>>, before: seq<nat>,
          order: seq<nat>)
    requires OrdersDrawn(draws, p, feasible, orders) && |before| == |feasible|
    requires before == if orders == [] then feasible else orders[|orders| - 1]
    requires order == Shuffled(before, 0, |before|, draws, StartOf(p, |feasible|, |orders|))
    ensures OrdersDrawn(draws, p, feasible, orders + [order])
    ensures StartOf(p, |feasible|, |orders| + 1) == StartOf(p, |feasible|, |orders|) + |feasible|
  {
    hide Shuffled;
    var more := orders + [order];
    forall t | 0 <= t < |more| ensures OrderDrawn(draws, p, feasible, more, t) {
      if t < |orders| { assert OrderDrawn(draws, p, feasible, orders, t); }
    }
  }

  // ---- The first centers -------------------------------------------------------------------------

  ghost predicate SpaceOk(sp: Space) {
    |sp.weight| == |sp.coord| && forall i :: 0 <= i < |sp.coord| ==> sp.dim <= |sp.coord[i]|
  }

  /** What point i costs at center x. */
  ghost function CostAt(sp: Space, i: nat, x: nat): real
    requires SpaceOk(sp) && i < |sp.coord| && x < |sp.coord|
  {
    SqDist(sp.coord[i], sp.coord[x], sp.dim) * sp.weight[i]
  }

  /** The chance drawn for point i is less than the part of the fee that it costs at any center opened before it. */
  ghost predicate Worth(sp: Space, open: set<nat>, i: nat, z: real, draws: nat -> Draw, p: nat)
    requires SpaceOk(sp) && 0 < i < |sp.coord| && z > 0.0 && Within(open, |sp.coord|)
  {
    forall c :: c in open && c < i ==> Chance(draws, p + i - 1) < CostAt(sp, i, c) / z
  }

  /** Of the first n points the first is open, and of the others those whose draw, from p on, makes them worth it. */
  ghost predicate Picked(sp: Space, open: set<nat>, n: nat, z: real, draws: nat -> Draw, p: nat) {
    && SpaceOk(sp) && 0 < n <= |sp.coord| && z > 0.0 && Within(open, n) && 0 in open
    && forall i :: 0 < i < n ==> (i in open <==> Worth(sp, open, i, z, draws, p))
  }

  /** That leaves no choice. */
  lemma {:induction false} PickedAgree(sp: Space, a: set<nat>, b: set<nat>, n: nat, z: real, draws: nat -> Draw, p: nat,
          m: nat)
    requires Picked(sp, a, n, z, draws, p) && Picked(sp, b, n, z, draws, p) && m <= n
    ensures forall i :: 0 <= i < m ==> (i in a <==> i in b)
  {
    if m > 1 {
      PickedAgree(sp, a, b, n, z, draws, p, m - 1);
      assert Worth(sp, a, m - 1, z, draws, p) <==> Worth(sp, b, m - 1, z, draws, p);
    }
  }

  lemma PickedUnique(sp: Space, a: set<nat>, b: set<nat>, n: nat, z: real, draws: nat -> Draw, p: nat)
    requires Picked(sp, a, n, z, draws, p) && Picked(sp, b, n, z, draws, p)
    ensures a == b
  {
    PickedAgree(sp, a, b, n, z, draws, p, n);
    hide Picked, Worth;
    PickedWithin(sp, a, n, z, draws, p);
    PickedWithin(sp, b, n, z, draws, p);
  }

  lemma PickedWithin(sp: Space, a: set<nat>, n: nat, z: real, draws: nat -> Draw, p: nat)
    requires Picked(sp, a, n, z, draws, p)
    ensures forall i :: i in a ==> 0 <= i < n
  {
  }

  lemma PickedFirst(sp: Space, z: real, draws: nat -> Draw, p: nat)
    requires SpaceOk(sp) && 0 < |sp.coord| && z > 0.0
    ensures Picked(sp, {0}, 1, z, draws, p)
  {
  }

  lemma WorthIs(sp: Space, open: set<nat>, n: nat, z: real, draws: nat -> Draw, p: nat, cost: real, nearest: nat)
    requires SpaceOk(sp) && 0 < n < |sp.coord| && z > 0.0 && Within(open, |sp.coord|)
    requires nearest in open && nearest < n && cost == CostAt(sp, n, nearest)
    requires forall c :: c in open && c < n ==> cost <= CostAt(sp, n, c)
    ensures Worth(sp, open, n, z, draws, p) <==> Chance(draws, p + n - 1) < cost / z
  {
    hide Chance, CostAt;
    forall c | c in open && c < n ensures cost / z <= CostAt(sp, n, c) / z { Over(cost, CostAt(sp, n, c), z); }
  }

  lemma WorthStays(sp: Space, open: set<nat>, more: set<nat>, i: nat, z: real, draws: nat -> Draw, p: nat)
    requires SpaceOk(sp) && 0 < i < |sp.coord| && z > 0.0 && Within(open, |sp.coord|) && Within(more, |sp.coord|)
    requires forall c :: 0 <= c < i ==> (c in open <==> c in more)
    ensures Worth(sp, open, i, z, draws, p) <==> Worth(sp, more, i, z, draws, p)
  {
    hide Chance, CostAt;
  }

  lemma PickedMore(sp: Space, open: set<nat>, n: nat, z: real, draws: nat -> Draw, p: nat, chosen: bool)
    requires Picked(sp, open, n, z, draws, p) && n < |sp.coord| && Within(open, |sp.coord|)
    requires chosen <==> Worth(sp, open, n, z, draws, p)
    ensures Picked(sp, if chosen then open + {n} else open, n + 1, z, draws, p)
  {
    var next := if chosen then open + {n} else open;
    hide Chance, CostAt, Worth;
    WorthStays(sp, open, next, n, z, draws, p);
    forall i | 0 < i < n ensures i in next <==> Worth(sp, next, i, z, draws, p) {
      WorthStays(sp, open, next, i, z, draws, p);
    }
  }

  lemma PickedIs(sp: Space, open: set<nat>, n: nat, z: real, draws: nat -> Draw, p: nat)
    requires Picked(sp, open, n, z, draws, p)
    ensures SpaceOk(sp) && 0 < n <= |sp.coord| && z > 0.0 && Within(open, n) && Within(open, |sp.coord|)
  {
    hide Worth;
  }

  /** What decides about point n is what it costs at the cheapest center. */
  lemma PickedNext(sp: Space, open: set<nat>, n: nat, z: real, draws: nat -> Draw, p: nat, cost: real, nearest: nat)
    requires Picked(sp, open, n, z, draws, p) && n < |sp.coord|
    requires nearest in open && nearest < n && cost == CostAt(sp, n, nearest)
    requires forall c :: c in open && c < n ==> cost <= CostAt(sp, n, c)
    ensures Picked(sp, if Chance(draws, p + n - 1) < cost / z then open + {n} else open, n + 1, z, draws, p)
  {
    PickedIs(sp, open, n, z, draws, p);
    hide Chance, CostAt, Worth, Picked;
    WorthIs(sp, open, n, z, draws, p, cost, nearest);
    PickedMore(sp, open, n, z, draws, p, Worth(sp, open, n, z, draws, p));
  }

  lemma Over(x: real, y: real, z: real)
    requires x <= y && z > 0.0
    ensures x / z <= y / z
  {
  }

  /** Every point belongs to the nearest open center, the first of them if there are several, and costs what it does. */
  ghost predicate Nearest(sp: Space, open: set<nat>, s: Solution) {
    && SpaceOk(sp) && Within(open, |sp.coord|) && |s.cost| == |s.assign| == |s.isCenter| == |sp.coord|
    && CenterSet(s.isCenter) == open
    && forall i :: 0 <= i < |sp.coord| ==> NearestAt(sp, open, s.cost[i], s.assign[i], i)
  }

  ghost predicate NearestAt(sp: Space, open: set<nat>, cost: real, center: nat, i: nat)
    requires SpaceOk(sp) && Within(open, |sp.coord|) && i < |sp.coord|
  {
    && center in open && cost == CostAt(sp, i, center)
    && forall c :: c in open ==> cost <= CostAt(sp, i, c) && (c < center ==> cost < CostAt(sp, i, c))
  }

  /** That leaves no choice either. */
  lemma NearestUnique(sp: Space, open: set<nat>, s: Solution, s': Solution)
    requires Nearest(sp, open, s) && Nearest(sp, open, s')
    ensures s == s'
  {
    hide CostAt;
    forall i | 0 <= i < |sp.coord| ensures s.cost[i] == s'.cost[i] && s.assign[i] == s'.assign[i] {
      assert NearestAt(sp, open, s.cost[i], s.assign[i], i) && NearestAt(sp, open, s'.cost[i], s'.assign[i], i);
    }
    forall i | 0 <= i < |sp.coord| ensures s.isCenter[i] == s'.isCenter[i] {
      assert i in CenterSet(s.isCenter) <==> i in CenterSet(s'.isCenter);
    }
  }

  // ---- The tries ---------------------------------------------------------------------------------

  /** One try for a first solution: the points in their order, the fee, the opened points, the first draw. */
  datatype Try = Try(coord: seq<seq<real>>, weight: seq<real>, z: real, open: set<nat>, from: nat)

  ghost predicate TryOk(dim: nat, draws: nat -> Draw, t: Try) {
    Picked(Space(t.coord, t.weight, dim), t.open, |t.coord|, t.z, draws, t.from)
  }

  /** The draws for the n points of a try begin after so many. */
  function Next(t: Try): nat {
    if t.coord == [] then t.from else t.from + |t.coord| - 1
  }

  /** The points of t in another order, drawn for from p on, tried with fee z. */
  ghost predicate Reordered(draws: nat -> Draw, coord: seq<seq<real>>, weight: seq<real>, p: nat, t: Try) {
    && 0 < |coord| == |weight|
    && t.coord == Shuffled(coord, 0, |coord| - 1, draws, p) && t.weight == Shuffled(weight, 0, |weight| - 1, draws, p)
    && t.from == p + |coord| - 1
  }

  /** After too few centers: once more with the same points and fee, then in new orders for half the fee each. */
  ghost predicate Retried(draws: nat -> Draw, kmin: nat, tries: seq<Try>, m: nat)
    requires 0 < m < |tries|
  {
    var t, t' := tries[m - 1], tries[m];
    && |t.open| < kmin
    && if m == 1 then t'.coord == t.coord && t'.weight == t.weight && t'.z == t.z && t'.from == Next(t)
       else Reordered(draws, t.coord, t.weight, Next(t), t') && t'.z == t.z / 2.0
  }

  /** The tries from the points in coord and weight and the draws from p on. */
  ghost predicate Tries(dim: nat, draws: nat -> Draw, kmin: nat, coord: seq<seq<real>>, weight: seq<real>, z: real,
          p: nat, tries: seq<Try>) {
    && tries != [] && Reordered(draws, coord, weight, p, tries[0]) && tries[0].z == z
    && (forall m :: 0 <= m < |tries| ==> TryOk(dim, draws, tries[m]))
    && forall m :: 0 < m < |tries| ==> Retried(draws, kmin, tries, m)
  }

  lemma OneTry(dim: nat, draws: nat -> Draw, kmin: nat, coord: seq<seq<real>>, weight: seq<real>, z: real,
          p: nat, t: Try)
    requires Reordered(draws, coord, weight, p, t) && TryOk(dim, draws, t) && t.z == z
    ensures Tries(dim, draws, kmin, coord, weight, z, p, [t])
  {
  }

  lemma OneMoreTry(dim: nat, draws: nat -> Draw, kmin: nat, coord: seq<seq<real>>, weight: seq<real>, z: real,
          p: nat, tries: seq<Try>, t: Try)
    requires Tries(dim, draws, kmin, coord, weight, z, p, tries) && TryOk(dim, draws, t)
    requires Retried(draws, kmin, tries + [t], |tries|)
    ensures Tries(dim, draws, kmin, coord, weight, z, p, tries + [t])
  {
    hide TryOk, Reordered;
    var more := tries + [t];
    forall m | 0 < m < |more| ensures Retried(draws, kmin, more, m) {
      if m < |tries| { assert Retried(draws, kmin, tries, m); }
    }
  }

  /** The tries are decided by the draws: of two lists one begins the other. */
  lemma {:induction false} TriesAgree(dim: nat, draws: nat -> Draw, kmin: nat, coord: seq<seq<real>>, weight: seq<real>,
          z: real, p: nat, tries: seq<Try>, tries': seq<Try>, m: nat)
    requires Tries(dim, draws, kmin, coord, weight, z, p, tries) && Tries(dim, draws, kmin, coord, weight, z, p, tries')
    requires m < |tries| && m < |tries'|
    ensures tries[m] == tries'[m]
  {
    hide Picked, Shuffled;
    if m > 0 {
      TriesAgree(dim, draws, kmin, coord, weight, z, p, tries, tries', m - 1);
      assert Retried(draws, kmin, tries, m) && Retried(draws, kmin, tries', m);
    }
    var t, t' := tries[m], tries'[m];
    assert TryOk(dim, draws, t) && TryOk(dim, draws, t');
    PickedUnique(Space(t.coord, t.weight, dim), t.open, t'.open, |t.coord|, t.z, draws, t.from);
  }
}
