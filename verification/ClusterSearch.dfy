/**
 * The local search of streamcluster as functions: what one candidate makes of a solution, what a round of
 * candidates does, and what the rounds come to.
 */
module ClusterSearch {
  import opened ClusterGain

  // ---- Distances ---------------------------------------------------------------------------------

  /** Squared Euclidean distance over the first d coordinates. */
  function SqDist(a: seq<real>, b: seq<real>, d: nat): real
    requires d <= |a| && d <= |b|
  {
    if d == 0 then 0.0 else SqDist(a, b, d - 1) + (a[d - 1] - b[d - 1]) * (a[d - 1] - b[d - 1])
  }

  lemma SquareOfNegative(r: real)
    ensures r * r == (-r) * (-r) && r * r >= 0.0
  {
  }

  lemma {:induction false} SqDistLaws(a: seq<real>, b: seq<real>, d: nat)
    requires d <= |a| && d <= |b|
    ensures SqDist(a, b, d) == SqDist(b, a, d) && SqDist(a, b, d) >= 0.0 && SqDist(a, a, d) == 0.0
  {
    if d > 0 {
      SqDistLaws(a, b, d - 1);
      var r := a[d - 1] - b[d - 1];
      SquareOfNegative(r);
      assert b[d - 1] - a[d - 1] == -r;
    }
  }

  method Dist(a: seq<real>, b: seq<real>, dim: nat) returns (result: real)
    requires dim <= |a| && dim <= |b|
    ensures result == SqDist(a, b, dim)
  {
    result := 0.0;
    var i := 0;
    while i < dim
      invariant i <= dim && result == SqDist(a, b, i)
    {
      result := result + (a[i] - b[i]) * (a[i] - b[i]);
      i := i + 1;
    }
  }

  /** The distance is 0 exactly between points that agree. */
  lemma {:induction false} SqDistZeroIff(a: seq<real>, b: seq<real>, d: nat)
    requires d <= |a| && d <= |b|
    ensures SqDist(a, b, d) == 0.0 <==> forall i :: 0 <= i < d ==> a[i] == b[i]
  {
    if d > 0 {
      SqDistZeroIff(a, b, d - 1);
      SqDistLaws(a, b, d - 1);
      NoSquare(a[d - 1] - b[d - 1]);
      SquareOfNegative(a[d - 1] - b[d - 1]);
    }
  }

  lemma SquareOver(r: real)
    requires r != 0.0
    ensures (r * r) / r == r
  {
  }

  lemma NoRoot(r: real)
    requires r * r == 0.0
    ensures r == 0.0
  {
    if r != 0.0 {
      SquareOver(r);
    }
  }

  lemma ZeroSquare(r: real)
    requires r == 0.0
    ensures r * r == 0.0
  {
  }

  lemma NoSquare(r: real)
    ensures r * r == 0.0 <==> r == 0.0
  {
    if r * r == 0.0 { NoRoot(r); }
    if r == 0.0 { ZeroSquare(r); }
  }

  /** Points that differ in coordinate k alone are as far apart as these coordinates. */
  lemma {:induction false} SqDistOne(a: seq<real>, b: seq<real>, d: nat, k: nat)
    requires d <= |a| && d <= |b| && k < d && forall i :: 0 <= i < d && i != k ==> a[i] == b[i]
    ensures SqDist(a, b, d) == (a[k] - b[k]) * (a[k] - b[k])
  {
    if k < d - 1 {
      SqDistOne(a, b, d - 1, k);
      assert a[d - 1] - b[d - 1] == 0.0;
    } else {
      SqDistZeroIff(a, b, d - 1);
    }
  }

  // ---- Solutions ---------------------------------------------------------------------------------

  /** Every point is assigned to a center. */
  ghost predicate AssignedOk(isCenter: seq<bool>, assign: seq<nat>) {
    |assign| == |isCenter| && forall i :: 0 <= i < |assign| ==> assign[i] < |isCenter| && isCenter[assign[i]]
  }

  ghost function CenterSet(isCenter: seq<bool>): (s: set<nat>)
    ensures Within(s, |isCenter|) && forall c :: c in s <==> 0 <= c < |isCenter| && isCenter[c]
  {
    set c: nat | c < |isCenter| && isCenter[c]
  }

  /** What the first n points would pay at x. */
  ghost function PriceList(coord: seq<seq<real>>, weight: seq<real>, dim: nat, n: nat, x: nat): (costs: seq<real>)
    requires n <= |coord| && n <= |weight| && x < |coord| && forall i :: 0 <= i < |coord| ==> dim <= |coord[i]|
    ensures |costs| == n
    ensures forall i :: 0 <= i < n ==> costs[i] == SqDist(coord[i], coord[x], dim) * weight[i]
  {
    seq(n, i requires 0 <= i < n => SqDist(coord[i], coord[x], dim) * weight[i])
  }

  /** The points: where they lie, and what they weigh. */
  datatype Space = Space(coord: seq<seq<real>>, weight: seq<real>, dim: nat)

  /** What each point costs, where it belongs, and which points are centers. */
  datatype Solution = Solution(cost: seq<real>, assign: seq<nat>, isCenter: seq<bool>)

  ghost predicate Fits(sp: Space, s: Solution) {
    && |sp.weight| == |sp.coord| == |s.cost| == |s.isCenter| && AssignedOk(s.isCenter, s.assign)
    && forall i :: 0 <= i < |sp.coord| ==> sp.dim <= |sp.coord[i]|
  }

  /** The solution as pgain sees it for candidate x. */
  ghost function ViewAt(sp: Space, s: Solution, x: nat): (v: View)
    requires Fits(sp, s) && x < |sp.coord|
    ensures ViewOk(v) && |v.cost| == |sp.coord|
  {
    View(s.cost, s.assign, PriceList(sp.coord, sp.weight, sp.dim, |s.cost|, x))
  }

  ghost function Price(sp: Space, s: Solution, z: real, x: nat): real
    requires Fits(sp, s) && x < |sp.coord|
  {
    OpeningCost(ViewAt(sp, s, x), z, CenterSet(s.isCenter))
  }

  /** What candidate x gains. */
  ghost function Gain(sp: Space, s: Solution, z: real, x: nat): (g: real)
    requires Fits(sp, s) && x < |sp.coord|
    ensures g >= 0.0
  {
    if Price(sp, s, z, x) < 0.0 then -Price(sp, s, z, x) else 0.0
  }

  /** The solution with x open and the centers in closed shut. */
  ghost function Opening(v: View, was: seq<bool>, closed: set<nat>, x: nat): Solution
    requires ViewOk(v) && |was| == |v.cost|
  {
    Solution(seq(|v.cost|, j requires 0 <= j < |v.cost| => NewCost(v, closed, j)),
             seq(|v.cost|, j requires 0 <= j < |v.cost| => NewAssign(v, closed, x, j)),
             seq(|v.cost|, j requires 0 <= j < |v.cost| => j == x || (was[j] && j !in closed)))
  }

  ghost function NewAssign(v: View, closed: set<nat>, x: nat, j: nat): nat
    requires ViewOk(v) && j < |v.cost|
  {
    if Switches(v, j) || v.assign[j] in closed then x else v.assign[j]
  }

  /** The solution behind candidate x: x is opened, and the best centers are shut, if that pays. */
  ghost function Improve(sp: Space, s: Solution, z: real, x: nat): (r: Solution)
    requires Fits(sp, s) && x < |sp.coord|
    ensures Fits(sp, r)
  {
    if Price(sp, s, z, x) < 0.0 then
      var v := ViewAt(sp, s, x);
      Opening(v, s.isCenter, Best(v, z, CenterSet(s.isCenter)), x)
    else s
  }

  // ---- A round -----------------------------------------------------------------------------------

  /** The candidates of a round: points, and at least one. */
  ghost predicate Candidates(sp: Space, order: seq<nat>) {
    order != [] && forall f :: f in order ==> f < |sp.coord|
  }

  /** The candidate of turn i; the round goes through them again and again. */
  ghost function Turn(sp: Space, order: seq<nat>, i: nat): (x: nat)
    requires Candidates(sp, order)
    ensures x in order && x < |sp.coord|
  {
    order[i % |order|]
  }

  /** The solution after n turns. */
  ghost function AfterTurns(sp: Space, s: Solution, z: real, order: seq<nat>, n: nat): (r: Solution)
    requires Fits(sp, s) && Candidates(sp, order)
    ensures Fits(sp, r)
  {
    if n == 0 then s else Improve(sp, AfterTurns(sp, s, z, order, n - 1), z, Turn(sp, order, n - 1))
  }

  /** What the n turns have gained. */
  ghost function Gained(sp: Space, s: Solution, z: real, order: seq<nat>, n: nat): (g: real)
    requires Fits(sp, s) && Candidates(sp, order)
    ensures g >= 0.0
  {
    if n == 0 then 0.0
    else Gained(sp, s, z, order, n - 1) + Gain(sp, AfterTurns(sp, s, z, order, n - 1), z, Turn(sp, order, n - 1))
  }

  lemma NoTurn(sp: Space, s: Solution, z: real, order: seq<nat>)
    requires Fits(sp, s) && Candidates(sp, order)
    ensures AfterTurns(sp, s, z, order, 0) == s && Gained(sp, s, z, order, 0) == 0.0
  {
  }

  lemma NextTurn(sp: Space, s: Solution, z: real, order: seq<nat>, i: nat)
    requires Fits(sp, s) && Candidates(sp, order)
    ensures |order| > 0 && order[i % |order|] < |sp.coord|
    ensures var now, x := AfterTurns(sp, s, z, order, i), order[i % |order|];
            && AfterTurns(sp, s, z, order, i + 1) == Improve(sp, now, z, x)
            && Gained(sp, s, z, order, i + 1) == Gained(sp, s, z, order, i) + Gain(sp, now, z, x)
  {
    hide Fits, Improve, Gain;
    var x := Turn(sp, order, i);
  }

  /** A round that gains nothing leaves the solution alone. */
  lemma {:induction false} NothingGained(sp: Space, s: Solution, z: real, order: seq<nat>, n: nat, i: nat)
    requires Fits(sp, s) && Candidates(sp, order) && Gained(sp, s, z, order, n) == 0.0 && i <= n
    ensures AfterTurns(sp, s, z, order, i) == s
    ensures i < n ==> Price(sp, s, z, Turn(sp, order, i)) >= 0.0
  {
    hide Fits, Candidates, Turn, Price, Opening, ViewAt, Best;
    NothingUpTo(sp, s, z, order, n, i);
    if i < n { NothingUpTo(sp, s, z, order, n, i + 1); }
    if i > 0 { NothingGained(sp, s, z, order, n, i - 1); }
  }

  lemma {:induction false} NothingUpTo(sp: Space, s: Solution, z: real, order: seq<nat>, n: nat, i: nat)
    requires Fits(sp, s) && Candidates(sp, order) && Gained(sp, s, z, order, n) == 0.0 && i <= n
    ensures Gained(sp, s, z, order, i) == 0.0
    decreases n - i
  {
    hide Fits, Candidates, Turn, Gain, AfterTurns;
    if i < n { NothingUpTo(sp, s, z, order, n, i + 1); }
  }

  /** If every candidate had its turn and nothing was gained, none of them pays. */
  lemma NonePays(sp: Space, s: Solution, z: real, order: seq<nat>, n: nat, x: nat)
    requires Fits(sp, s) && Candidates(sp, order) && Gained(sp, s, z, order, n) == 0.0
    requires |order| <= n && x in order
    ensures AfterTurns(sp, s, z, order, n) == s && x < |sp.coord| && Price(sp, s, z, x) >= 0.0
  {
    var i := TurnOf(sp, order, x);
    hide *;
    NothingGained(sp, s, z, order, n, n);
    NothingGained(sp, s, z, order, n, i);
  }

  lemma TurnOf(sp: Space, order: seq<nat>, x: nat) returns (i: nat)
    requires Candidates(sp, order) && x in order
    ensures i < |order| && Turn(sp, order, i) == x
  {
    i :| 0 <= i < |order| && order[i] == x;
    Small(i, |order|);
  }

  lemma Small(i: nat, n: nat)
    requires i < n
    ensures i % n == i
  {
  }

  // ---- Rounds ------------------------------------------------------------------------------------

  ghost predicate AllCandidates(sp: Space, orders: seq<seq<nat>>) {
    forall t :: 0 <= t < |orders| ==> Candidates(sp, orders[t])
  }

  /** Orders of the same candidates. */
  ghost predicate Orders(sp: Space, orders: seq<seq<nat>>, feasible: seq<nat>) {
    AllCandidates(sp, orders) && forall t :: 0 <= t < |orders| ==> multiset(orders[t]) == multiset(feasible)
  }

  /** The solution after the rounds of iter turns each. */
  ghost function AfterRounds(sp: Space, s: Solution, z: real, orders: seq<seq<nat>>, iter: nat): (r: Solution)
    requires Fits(sp, s) && AllCandidates(sp, orders)
    ensures Fits(sp, r)
  {
    if orders == [] then s
    else AfterTurns(sp, AfterRounds(sp, s, z, orders[..|orders| - 1], iter), z, orders[|orders| - 1], iter)
  }

  /** What round t has gained. */
  ghost function RoundGain(sp: Space, s: Solution, z: real, orders: seq<seq<nat>>, iter: nat, t: nat): real
    requires Fits(sp, s) && t < |orders| && AllCandidates(sp, orders)
  {
    Gained(sp, AfterRounds(sp, s, z, orders[..t], iter), z, orders[t], iter)
  }

  /** The running cost after n rounds. */
  ghost function CostAfter(sp: Space, s: Solution, z: real, cost: real, orders: seq<seq<nat>>, iter: nat, n: nat): real
    requires Fits(sp, s) && n <= |orders| && AllCandidates(sp, orders)
  {
    if n == 0 then cost
    else CostAfter(sp, s, z, cost, orders, iter, n - 1) - RoundGain(sp, s, z, orders, iter, n - 1)
  }

  /** Has round t gained more than e times the cost it has led to? */
  ghost predicate WentOn(sp: Space, s: Solution, z: real, cost: real, orders: seq<seq<nat>>, iter: nat, e: real, t: nat)
    requires Fits(sp, s) && t < |orders| && AllCandidates(sp, orders)
  {
    RoundGain(sp, s, z, orders, iter, t) > e * CostAfter(sp, s, z, cost, orders, iter, t + 1)
  }

  /** The first n rounds have. */
  ghost predicate AllWentOn(sp: Space, s: Solution, z: real, cost: real, orders: seq<seq<nat>>, iter: nat, e: real,
          n: int)
    requires Fits(sp, s) && n <= |orders| && AllCandidates(sp, orders)
  {
    forall t :: 0 <= t < n ==> WentOn(sp, s, z, cost, orders, iter, e, t)
  }

  /** The solution is the result of a round that has gained at most e times its cost. */
  ghost predicate Settled(sp: Space, s: Solution, z: real, cost: real, feasible: seq<nat>, iter: nat, e: real) {
    exists s0: Solution, order: seq<nat> :: SettledBy(sp, s, z, cost, feasible, iter, e, s0, order)
  }

  ghost predicate SettledBy(sp: Space, s: Solution, z: real, cost: real, feasible: seq<nat>, iter: nat, e: real,
          s0: Solution, order: seq<nat>) {
    && Fits(sp, s0) && Candidates(sp, order) && multiset(order) == multiset(feasible)
    && s == AfterTurns(sp, s0, z, order, iter) && Gained(sp, s0, z, order, iter) <= e * cost
  }

  lemma NoRounds(sp: Space, s: Solution, z: real, cost: real, iter: nat, e: real, feasible: seq<nat>)
    requires Fits(sp, s)
    ensures Orders(sp, [], feasible) && AfterRounds(sp, s, z, [], iter) == s
    ensures CostAfter(sp, s, z, cost, [], iter, 0) == cost && AllWentOn(sp, s, z, cost, [], iter, e, 0)
  {
  }

  lemma {:induction false} CostPrefix(sp: Space, s: Solution, z: real, cost: real, orders: seq<seq<nat>>,
          order: seq<nat>, iter: nat, n: nat)
    requires Fits(sp, s) && n <= |orders| && Candidates(sp, order)
    requires AllCandidates(sp, orders)
    ensures var more := orders + [order];
            && AllCandidates(sp, more)
            && CostAfter(sp, s, z, cost, more, iter, n) == CostAfter(sp, s, z, cost, orders, iter, n)
            && (n < |orders| ==> RoundGain(sp, s, z, more, iter, n) == RoundGain(sp, s, z, orders, iter, n))
  {
    hide Fits, Candidates, Gained, AfterRounds;
    var more := orders + [order];
    if n < |orders| { assert more[..n] == orders[..n]; }
    if n > 0 {
      CostPrefix(sp, s, z, cost, orders, order, iter, n - 1);
      assert more[..n - 1] == orders[..n - 1] && more[n - 1] == orders[n - 1];
    }
  }

  /** One more round. */
  lemma NextRound(sp: Space, s: Solution, z: real, cost: real, orders: seq<seq<nat>>, order: seq<nat>, iter: nat,
          e: real, feasible: seq<nat>)
    requires Fits(sp, s) && Orders(sp, orders, feasible) && Candidates(sp, order)
    requires multiset(order) == multiset(feasible) && AllWentOn(sp, s, z, cost, orders, iter, e, |orders|)
    ensures var more, now := orders + [order], AfterRounds(sp, s, z, orders, iter);
            && Orders(sp, more, feasible)
            && AfterRounds(sp, s, z, more, iter) == AfterTurns(sp, now, z, order, iter)
            && RoundGain(sp, s, z, more, iter, |orders|) == Gained(sp, now, z, order, iter)
            && CostAfter(sp, s, z, cost, more, iter, |more|)
               == CostAfter(sp, s, z, cost, orders, iter, |orders|) - Gained(sp, now, z, order, iter)
            && AllWentOn(sp, s, z, cost, more, iter, e, |orders|)
  {
    hide *;
    LastRound(sp, s, z, cost, orders, order, iter, feasible);
    StillWentOn(sp, s, z, cost, orders, order, iter, e);
  }

  lemma LastRound(sp: Space, s: Solution, z: real, cost: real, orders: seq<seq<nat>>, order: seq<nat>, iter: nat,
          feasible: seq<nat>)
    requires Fits(sp, s) && Orders(sp, orders, feasible) && Candidates(sp, order)
    requires multiset(order) == multiset(feasible)
    ensures AllCandidates(sp, orders) && AllCandidates(sp, orders + [order])
    ensures var more, now := orders + [order], AfterRounds(sp, s, z, orders, iter);
            && Orders(sp, more, feasible)
            && AfterRounds(sp, s, z, more, iter) == AfterTurns(sp, now, z, order, iter)
            && RoundGain(sp, s, z, more, iter, |orders|) == Gained(sp, now, z, order, iter)
            && CostAfter(sp, s, z, cost, more, iter, |more|)
               == CostAfter(sp, s, z, cost, orders, iter, |orders|) - Gained(sp, now, z, order, iter)
  {
    hide Fits, Candidates, Gained, AfterTurns;
    var more := orders + [order];
    assert more[..|orders|] == orders && more[..|more| - 1] == orders;
    CostPrefix(sp, s, z, cost, orders, order, iter, |orders|);
  }

  lemma StillWentOn(sp: Space, s: Solution, z: real, cost: real, orders: seq<seq<nat>>, order: seq<nat>, iter: nat,
          e: real)
    requires Fits(sp, s) && AllCandidates(sp, orders) && Candidates(sp, order)
    requires AllWentOn(sp, s, z, cost, orders, iter, e, |orders|)
    ensures AllCandidates(sp, orders + [order])
    ensures AllWentOn(sp, s, z, cost, orders + [order], iter, e, |orders|)
  {
    hide Fits, Candidates, RoundGain, CostAfter;
    var more := orders + [order];
    forall t | 0 <= t < |orders| ensures WentOn(sp, s, z, cost, more, iter, e, t) {
      assert WentOn(sp, s, z, cost, orders, iter, e, t);
      CostPrefix(sp, s, z, cost, orders, order, iter, t);
      CostPrefix(sp, s, z, cost, orders, order, iter, t + 1);
    }
  }

  lemma SettledAfter(sp: Space, s: Solution, z: real, cost: real, orders: seq<seq<nat>>, iter: nat, e: real,
          feasible: seq<nat>)
    requires Fits(sp, s) && orders != [] && Orders(sp, orders, feasible)
    requires !WentOn(sp, s, z, cost, orders, iter, e, |orders| - 1)
    ensures Settled(sp, AfterRounds(sp, s, z, orders, iter), z, CostAfter(sp, s, z, cost, orders, iter, |orders|),
                    feasible, iter, e)
  {
    hide Fits, Candidates, Gained, AfterTurns;
    var n := |orders| - 1;
    var s0 := AfterRounds(sp, s, z, orders[..n], iter);
    assert SettledBy(sp, AfterRounds(sp, s, z, orders, iter), z, CostAfter(sp, s, z, cost, orders, iter, |orders|),
                     feasible, iter, e, s0, orders[n]);
  }

  /** The search behind the rounds in orders, about to go on or not. */
  ghost predicate Running(sp: Space, s: Solution, z: real, cost: real, orders: seq<seq<nat>>, iter: nat, e: real,
          feasible: seq<nat>, now: Solution, total: real, go: bool) {
    && Fits(sp, s) && Orders(sp, orders, feasible)
    && now == AfterRounds(sp, s, z, orders, iter) && total == CostAfter(sp, s, z, cost, orders, iter, |orders|)
    && (e < 1.0 <==> orders != [] || go)
    && (go ==> AllWentOn(sp, s, z, cost, orders, iter, e, |orders|))
    && (!go ==> AllWentOn(sp, s, z, cost, orders, iter, e, |orders| - 1))
    && (!go && orders != [] ==> !WentOn(sp, s, z, cost, orders, iter, e, |orders| - 1))
  }

  lemma RunningStart(sp: Space, s: Solution, z: real, cost: real, iter: nat, e: real, feasible: seq<nat>)
    requires Fits(sp, s)
    ensures Running(sp, s, z, cost, [], iter, e, feasible, s, cost, e < 1.0)
  {
    hide Fits, Candidates;
    NoRounds(sp, s, z, cost, iter, e, feasible);
  }

  lemma RunningNext(sp: Space, s: Solution, z: real, cost: real, orders: seq<seq<nat>>, iter: nat, e: real,
          feasible: seq<nat>, now: Solution, total: real, order: seq<nat>, change: real)
    requires Running(sp, s, z, cost, orders, iter, e, feasible, now, total, true)
    requires Candidates(sp, order) && multiset(order) == multiset(feasible) && Fits(sp, now)
    requires change == Gained(sp, now, z, order, iter)
    ensures Running(sp, s, z, cost, orders + [order], iter, e, feasible, AfterTurns(sp, now, z, order, iter),
                    total - change, change > e * (total - change))
  {
    hide Fits, Candidates, Gained, AfterTurns, AfterRounds, CostAfter, RoundGain, AllWentOn, Orders;
    NextRound(sp, s, z, cost, orders, order, iter, e, feasible);
    OrdersCandidates(sp, orders + [order], feasible);
    var more, n := orders + [order], |orders|;
    if WentOn(sp, s, z, cost, more, iter, e, n) { AllWentOnNext(sp, s, z, cost, more, iter, e, n); }
  }

  lemma RunningEnd(sp: Space, s: Solution, z: real, cost: real, orders: seq<seq<nat>>, iter: nat, e: real,
          feasible: seq<nat>, now: Solution, total: real)
    requires Running(sp, s, z, cost, orders, iter, e, feasible, now, total, false)
    ensures Fits(sp, s) && Orders(sp, orders, feasible) && AllCandidates(sp, orders)
    ensures now == AfterRounds(sp, s, z, orders, iter)
    ensures total == CostAfter(sp, s, z, cost, orders, iter, |orders|)
    ensures e < 1.0 <==> orders != []
    ensures AllWentOn(sp, s, z, cost, orders, iter, e, |orders| - 1)
    ensures orders != [] ==> !WentOn(sp, s, z, cost, orders, iter, e, |orders| - 1)
    ensures e < 1.0 ==> Settled(sp, now, z, total, feasible, iter, e)
  {
    hide Fits, Candidates, AfterRounds, CostAfter, RoundGain, AllWentOn, WentOn, Settled, AllCandidates;
    if orders != [] { SettledAfter(sp, s, z, cost, orders, iter, e, feasible); }
  }

  lemma RunningIs(sp: Space, s: Solution, z: real, cost: real, orders: seq<seq<nat>>, iter: nat, e: real,
          feasible: seq<nat>, now: Solution, total: real, go: bool)
    requires Running(sp, s, z, cost, orders, iter, e, feasible, now, total, go)
    ensures Fits(sp, s) && Fits(sp, now)
  {
    hide Fits, Orders, CostAfter, AllWentOn, WentOn;
    OrdersCandidates(sp, orders, feasible);
  }

  lemma OrdersCandidates(sp: Space, orders: seq<seq<nat>>, feasible: seq<nat>)
    requires Orders(sp, orders, feasible)
    ensures AllCandidates(sp, orders)
  {
  }

  lemma AllWentOnNext(sp: Space, s: Solution, z: real, cost: real, orders: seq<seq<nat>>, iter: nat, e: real, t: nat)
    requires Fits(sp, s) && t < |orders| && AllCandidates(sp, orders)
    requires AllWentOn(sp, s, z, cost, orders, iter, e, t) && WentOn(sp, s, z, cost, orders, iter, e, t)
    ensures AllWentOn(sp, s, z, cost, orders, iter, e, t + 1)
  {
    hide WentOn;
  }

  lemma SettledLess(sp: Space, s: Solution, z: real, cost: real, feasible: seq<nat>, iter: nat, e: real, f: real)
    requires Settled(sp, s, z, cost, feasible, iter, e) && e <= f && cost >= 0.0
    ensures Settled(sp, s, z, cost, feasible, iter, f)
  {
    hide SettledBy;
    var s0, order :| SettledBy(sp, s, z, cost, feasible, iter, e, s0, order);
    SettledByLess(sp, s, z, cost, feasible, iter, e, f, s0, order);
  }

  lemma SettledByLess(sp: Space, s: Solution, z: real, cost: real, feasible: seq<nat>, iter: nat, e: real, f: real,
          s0: Solution, order: seq<nat>)
    requires SettledBy(sp, s, z, cost, feasible, iter, e, s0, order) && e <= f && cost >= 0.0
    ensures SettledBy(sp, s, z, cost, feasible, iter, f, s0, order)
  {
    hide Fits, Candidates, AfterTurns, Gained;
    LessTimes(e, f, cost);
    AtMost(Gained(sp, s0, z, order, iter), e * cost, f * cost);
  }

  lemma AtMost(g: real, a: real, b: real)
    requires a <= b
    ensures g <= a ==> g <= b
  {
  }

  lemma LessTimes(e: real, f: real, cost: real)
    requires e <= f && cost >= 0.0
    ensures e * cost <= f * cost
  {
  }
}
