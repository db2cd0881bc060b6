/** streamcluster's local search: opening a candidate center (pgain), the search over candidates (pFL), and
    the bookkeeping of the running cost. */
module Streamcluster {
  import opened ClusterDraws
  import opened ClusterFees
  import opened ClusterGain
  import opened ClusterSearch

  lemma ImproveIs(sp: Space, s: Solution, z: real, x: nat)
    requires Fits(sp, s) && x < |sp.coord|
    ensures |s.isCenter| == |s.cost| == |ViewAt(sp, s, x).cost|
    ensures var v, price := ViewAt(sp, s, x), Price(sp, s, z, x);
            && Gain(sp, s, z, x) == (if price < 0.0 then -price else 0.0)
            && Improve(sp, s, z, x)
               == (if price < 0.0 then Opening(v, s.isCenter, Best(v, z, CenterSet(s.isCenter)), x) else s)
  {
    hide ViewAt, Price, Best, Opening;
  }

  /** How often the first solution is tried again before the fee is halved. */
  const SP := 1

  // ---- Blocks ------------------------------------------------------------------------------------

  /** Where the block of processor p begins; the last block takes the rest. */
  function BlockStart(n: nat, nproc: nat, p: nat): nat
    requires 0 < nproc
  {
    if p == 0 then 0 else BlockStart(n, nproc, p - 1) + n / nproc
  }

  function BlockEnd(n: nat, nproc: nat, p: nat): nat
    requires p < nproc
  {
    if p == nproc - 1 then n else BlockStart(n, nproc, p + 1)
  }

  lemma {:induction false} BlockStartIs(n: nat, nproc: nat, p: nat)
    requires 0 < nproc
    ensures BlockStart(n, nproc, p) == (n / nproc) * p
  {
    if p > 0 { BlockStartIs(n, nproc, p - 1); }
  }

  /** The blocks lie one behind the other and end with the last point. */
  lemma BlockBounds(n: nat, nproc: nat, p: nat)
    requires p < nproc
    ensures BlockStart(n, nproc, p) <= BlockEnd(n, nproc, p) <= n
    ensures p + 1 < nproc ==> BlockEnd(n, nproc, p) == BlockStart(n, nproc, p + 1)
  {
    BlockStartIs(n, nproc, p);
    BlockStartIs(n, nproc, p + 1);
    BelowAll(n / nproc, p, nproc);
    BelowAll(n / nproc, p + 1, nproc);
    assert (n / nproc) * nproc <= n;
  }

  lemma BelowAll(b: nat, p: nat, q: nat)
    requires p <= q
    ensures b * p <= b * q
  {
  }

  // ---- Sums over block jobs ----------------------------------------------------------------------

  /** The sum of row entries j over the block jobs below p that are still pending. */
  ghost function PendingSum(rows: seq<seq<real>>, pending: set<(nat, nat)>, j: nat, p: nat): real
    requires p <= |rows| && forall q :: 0 <= q < |rows| ==> j < |rows[q]|
  {
    if p == 0 then 0.0
    else PendingSum(rows, pending, j, p - 1) + (if (p - 1, j) in pending then rows[p - 1][j] else 0.0)
  }

  lemma {:induction false} PendingWithout(rows: seq<seq<real>>, pending: set<(nat, nat)>, j: nat, p: nat, q: nat,
          i: nat)
    requires p <= |rows| && (forall r :: 0 <= r < |rows| ==> j < |rows[r]|) && (q, i) in pending && q < |rows|
    ensures PendingSum(rows, pending - {(q, i)}, j, p)
         == PendingSum(rows, pending, j, p) - (if i == j && q < p then rows[q][j] else 0.0)
  {
    if p > 0 { PendingWithout(rows, pending, j, p - 1, q, i); }
  }

  lemma {:induction false} PendingNone(rows: seq<seq<real>>, j: nat, p: nat)
    requires p <= |rows| && forall q :: 0 <= q < |rows| ==> j < |rows[q]|
    ensures PendingSum(rows, {}, j, p) == 0.0
  {
    if p > 0 { PendingNone(rows, j, p - 1); }
  }

  ghost function AllAdds(rows: nat, width: nat): set<(nat, nat)> {
    set p: nat, j: nat | p < rows && j < width :: (p, j)
  }

  ghost function ColumnSum(rows: seq<seq<real>>, j: nat, p: nat): real
    requires p <= |rows| && forall q :: 0 <= q < |rows| ==> j < |rows[q]|
  {
    if p == 0 then 0.0 else ColumnSum(rows, j, p - 1) + rows[p - 1][j]
  }

  lemma {:induction false} PendingAll(rows: seq<seq<real>>, width: nat, j: nat, p: nat)
    requires p <= |rows| && j < width && forall q :: 0 <= q < |rows| ==> width <= |rows[q]|
    ensures PendingSum(rows, AllAdds(|rows|, width), j, p) == ColumnSum(rows, j, p)
  {
    if p > 0 { PendingAll(rows, width, j, p - 1); }
  }

  /** The block jobs' atomic additions into the shared array, in whatever order they come. */
  method AddAll(rows: seq<seq<real>>, width: nat) returns (sums: seq<real>)
    requires forall q :: 0 <= q < |rows| ==> |rows[q]| == width
    ensures |sums| == width && forall j :: 0 <= j < width ==> sums[j] == ColumnSum(rows, j, |rows|)
  {
    sums := seq(width, _ => 0.0);
    var pending := set p: nat, j: nat | p < |rows| && j < width :: (p, j);
    forall j | 0 <= j < width ensures sums[j] + PendingSum(rows, pending, j, |rows|) == ColumnSum(rows, j, |rows|) {
      PendingAll(rows, width, j, |rows|);
    }
    while pending != {}
      invariant |sums| == width && forall a :: a in pending ==> a.0 < |rows| && a.1 < width
      invariant forall j :: 0 <= j < width ==>
                sums[j] + PendingSum(rows, pending, j, |rows|) == ColumnSum(rows, j, |rows|)
      decreases pending
    {
      var a :| a in pending;
      forall j | 0 <= j < width
        ensures PendingSum(rows, pending - {a}, j, |rows|)
                  == PendingSum(rows, pending, j, |rows|) - (if a.1 == j then rows[a.0][j] else 0.0)
      {
        PendingWithout(rows, pending, j, |rows|, a.0, a.1);
      }
      sums := sums[a.1 := sums[a.1] + rows[a.0][a.1]];
      pending := pending - {a};
    }
    forall j | 0 <= j < width ensures sums[j] == ColumnSum(rows, j, |rows|) {
      PendingNone(rows, j, |rows|);
    }
  }

  // ---- The clustering ----------------------------------------------------------------------------

  /** The index table gives different centers different slots below count. */
  ghost predicate TableOk(isCenter: seq<bool>, table: seq<nat>, count: nat) {
    && |table| == |isCenter|
    && (forall c :: 0 <= c < |isCenter| && isCenter[c] ==> table[c] < count)
    && forall c, d :: 0 <= c < d < |isCenter| && isCenter[c] && isCenter[d] ==> table[c] != table[d]
  }

  /** Slot by slot, the savings of the centers over the points in [lo, hi). */
  ghost predicate SavesOk(v: View, isCenter: seq<bool>, table: seq<nat>, saves: seq<real>, lo: nat, hi: nat)
    requires ViewOk(v) && hi <= |v.cost| && |isCenter| == |v.cost| && TableOk(isCenter, table, |saves|)
  {
    forall c :: 0 <= c < |isCenter| && isCenter[c] ==> saves[table[c]] == SaveSum(v, c, lo, hi)
  }

  lemma SaveOne(v: View, isCenter: seq<bool>, table: seq<nat>, saves: seq<real>, saves': seq<real>, lo: nat, i: nat)
    requires ViewOk(v) && lo <= i < |v.cost| && |isCenter| == |v.cost| && AssignedOk(isCenter, v.assign)
    requires TableOk(isCenter, table, |saves|) && SavesOk(v, isCenter, table, saves, lo, i)
    requires saves' == if Switches(v, i) then saves
                       else saves[table[v.assign[i]] := saves[table[v.assign[i]]] + (v.cost[i] - v.xCost[i])]
    ensures |saves'| == |saves| && SavesOk(v, isCenter, table, saves', lo, i + 1)
  {
  }

  class Clusters {
    const dim: nat
    var coord: seq<seq<real>>
    var weight: seq<real>
    var cost: seq<real>
    var assign: seq<nat>
    var isCenter: seq<bool>
    var centerTable: seq<nat>
    var switchMembership: seq<bool>
    var lower: seq<real>

    ghost predicate Sized()
      reads this
    {
      && |weight| == |coord| == |cost| == |assign| == |isCenter| == |centerTable| == |switchMembership|
      && forall i :: 0 <= i < |coord| ==> dim <= |coord[i]|
    }

    /** The cost of point i if it belongs to x. */
    ghost function CostTo(i: nat, x: nat): real
      reads this`coord, this`weight
      requires i < |coord| && x < |coord| && i < |weight| && dim <= |coord[i]| && dim <= |coord[x]|
    {
      SqDist(coord[i], coord[x], dim) * weight[i]
    }

    /** Costs are weighted distances to the assigned point, and assigned points are centers. */
    ghost predicate Consistent()
      reads this
    {
      && Sized() && AssignedOk(isCenter, assign)
      && forall i :: 0 <= i < |cost| ==> cost[i] == CostTo(i, assign[i])
    }

    ghost function CostsTo(n: nat, x: nat): (costs: seq<real>)
      reads this`coord, this`weight
      requires n <= |coord| && n <= |weight| && x < |coord| && forall i :: 0 <= i < |coord| ==> dim <= |coord[i]|
      ensures |costs| == n && forall i :: 0 <= i < n ==> costs[i] == CostTo(i, x)
    {
      PriceList(coord, weight, dim, n, x)
    }

    ghost function Seen(x: nat): (v: View)
      requires Sized() && x < |coord| && forall i :: 0 <= i < |assign| ==> assign[i] < |cost|
      reads this
      ensures ViewOk(v) && v.cost == cost && v.assign == assign
      ensures forall i :: 0 <= i < |cost| ==> v.xCost[i] == CostTo(i, x)
    {
      View(cost, assign, CostsTo(|cost|, x))
    }

    method BuildTable() returns (count: nat)
      requires Sized()
      modifies this`centerTable
      ensures Sized() && TableOk(isCenter, centerTable, count)
    {
      count := 0;
      var i := 0;
      while i < |isCenter|
        invariant i <= |isCenter| && Sized()
        invariant forall c :: 0 <= c < i && isCenter[c] ==> centerTable[c] < count
        invariant forall c, d :: 0 <= c < d < i && isCenter[c] && isCenter[d] ==> centerTable[c] != centerTable[d]
      {
        if isCenter[i] {
          centerTable := centerTable[i := count];
          count := count + 1;
        }
        i := i + 1;
      }
    }

    /** One point of the first phase. */
    method PointGain(i: nat, x: nat, localLower0: seq<real>, localCost0: real, ghost v: View, ghost k1: nat)
      returns (localLower: seq<real>, localCost: real, switches: bool)
      requires Sized() && x < |coord| && AssignedOk(isCenter, assign) && v == Seen(x) && k1 <= i < |cost|
      requires TableOk(isCenter, centerTable, |localLower0|) && localCost0 == SwitchSum(v, k1, i)
      requires SavesOk(v, isCenter, centerTable, localLower0, k1, i)
      ensures |localLower| == |localLower0| && switches == Switches(v, i) && localCost == SwitchSum(v, k1, i + 1)
      ensures SavesOk(v, isCenter, centerTable, localLower, k1, i + 1)
    {
      var d := Dist(coord[i], coord[x], dim);
      var xCost := d * weight[i];
      assert xCost == v.xCost[i];
      localLower, localCost := localLower0, localCost0;
      switches := xCost < cost[i];
      if switches {
        localCost := localCost + (xCost - cost[i]);
      } else {
        var a := centerTable[assign[i]];
        localLower := localLower[a := localLower[a] + (cost[i] - xCost)];
      }
      SaveOne(v, isCenter, centerTable, localLower0, localLower, k1, i);
    }

    lemma SeenIs(x: nat)
      requires Sized() && x < |coord| && AssignedOk(isCenter, assign)
      ensures forall i :: 0 <= i < |assign| ==> assign[i] < |cost|
      ensures Seen(x) == View(cost, assign, CostsTo(|cost|, x))
    {
    }

    lemma SizesFrom(n: nat)
      requires |weight| == |coord| == |cost| == |assign| == |isCenter| == |centerTable| == |switchMembership| == n
      requires forall i :: 0 <= i < |coord| ==> dim <= |coord[i]|
      ensures Sized()
    {
    }

    /** The job of one block in the first phase: its switches, their total, and the savings of the centers. */
    method LocalGain(x: nat, k1: nat, k2: nat, count: nat, ghost v: View) returns (localLower: seq<real>,
            localCost: real)
      requires Sized() && x < |coord| && AssignedOk(isCenter, assign) && v == Seen(x)
      requires k1 <= k2 <= |cost| && TableOk(isCenter, centerTable, count)
      modifies this`switchMembership
      ensures Sized() && ViewOk(v) && |v.cost| == |cost| && |localLower| == count && localCost == SwitchSum(v, k1, k2)
      ensures SavesOk(v, isCenter, centerTable, localLower, k1, k2)
      ensures Marked(v, switchMembership, old(switchMembership), k1, k2)
    {
      hide *;
      SizedFacts();
      localCost, localLower := 0.0, seq(count, _ => 0.0);
      var i := k1;
      NothingSaved(v, isCenter, centerTable, localLower, k1);
      MarkedNone(v, switchMembership, k1);
      SeenIs(x);
      while i < k2
        invariant k1 <= i <= k2 && Sized() && |localLower| == count
        invariant localCost == SwitchSum(v, k1, i) && SavesOk(v, isCenter, centerTable, localLower, k1, i)
        invariant Marked(v, switchMembership, old(switchMembership), k1, i)
      {
        SizedFacts();
        SeenIs(x);
        var switches;
        localLower, localCost, switches := PointGain(i, x, localLower, localCost, v, k1);
        MarkedNext(v, switchMembership, old(switchMembership), k1, i);
        switchMembership := switchMembership[i := switches];
        SizesFrom(|cost|);
        i := i + 1;
      }
    }

    /** The first phase: one job per block, the additions in any order. */
    method Gather(x: nat, count: nat, nproc: nat, ghost v: View) returns (saves: seq<real>, opening: real)
      requires Sized() && x < |coord| && AssignedOk(isCenter, assign) && v == Seen(x)
      requires 0 < nproc && TableOk(isCenter, centerTable, count)
      modifies this`switchMembership
      ensures Sized() && ViewOk(v) && |v.cost| == |cost| && |saves| == count && opening == SwitchSum(v, 0, |cost|)
      ensures SavesOk(v, isCenter, centerTable, saves, 0, |cost|)
      ensures forall i :: 0 <= i < |cost| ==> switchMembership[i] == Switches(v, i)
    {
      hide SaveSum, SwitchSum, TableOk, Seen, Switches, CostTo, BlockStart, BlockEnd, Marked, SavesOk;
      ghost var marks0 := switchMembership;
      var rows: seq<seq<real>>, p, n := [], 0, |cost|;
      NoMarks(v, marks0);
      while p < nproc
        invariant p <= nproc && Sized() && |rows| == p && n == |cost|
        invariant RowsOk(v, isCenter, centerTable, rows, count, nproc)
        invariant Marked(v, switchMembership, marks0, 0, Reached(n, nproc, p))
      {
        BlockBounds(n, nproc, p);
        ReachedIs(n, nproc, p);
        ghost var marks := switchMembership;
        var localLower, localCost := LocalGain(x, BlockStart(n, nproc, p), BlockEnd(n, nproc, p), count, v);
        MarkedMore(v, marks0, marks, switchMembership, BlockStart(n, nproc, p), BlockEnd(n, nproc, p));
        RowsMore(v, isCenter, centerTable, rows, count, nproc, localLower, localCost);
        rows := rows + [localLower + [localCost]];
        p := p + 1;
      }
      ReachedAll(n, nproc);
      RowsWidth(v, isCenter, centerTable, rows, count, nproc);
      var sums := AddAll(rows, count + 1);
      Columns(v, isCenter, centerTable, rows, count, nproc, sums);
      saves, opening := sums[..count], sums[count];
      AllMarked(v, switchMembership, marks0);
    }

    /** The second phase, by one thread: add the fees and count what is worth closing. */
    method Decide(saves: seq<real>, opening0: real, z: real, ghost v: View) returns (low: seq<real>, opening: real,
            closing: nat)
      requires Sized() && ViewOk(v) && |v.cost| == |cost| && TableOk(isCenter, centerTable, |saves|)
      requires SavesOk(v, isCenter, centerTable, saves, 0, |cost|) && opening0 == SwitchSum(v, 0, |cost|)
      ensures |low| == |saves| && LowersOk(v, z, isCenter, centerTable, low, |cost|)
      ensures opening == OpeningCost(v, z, CenterSet(isCenter))
      ensures closing == CountIn(Best(v, z, CenterSet(isCenter)), |cost|)
    {
      hide SaveSum, SwitchSum;
      ghost var best := Best(v, z, CenterSet(isCenter));
      low, opening, closing := saves, opening0, 0;
      var i := 0;
      while i < |isCenter|
        invariant i <= |isCenter| && |low| == |saves| && LowersOk(v, z, isCenter, centerTable, low, i)
        invariant opening == SwitchSum(v, 0, |cost|) - LowerSum(v, z, best, i) && closing == CountIn(best, i)
      {
        if isCenter[i] {
          var t := centerTable[i];
          assert low[t] == SaveSum(v, i, 0, |v.cost|);
          low := low[t := low[t] + z];
          if low[t] > 0.0 {
            closing := closing + 1;
            opening := opening - low[t];
          }
        }
        i := i + 1;
      }
      opening := opening + z;
    }

    /** Where the third phase has been: costs, assignments and centers of the points below i are new. */
    ghost predicate Committed(v: View, closed: set<nat>, x: nat, was: seq<bool>, i: nat, c: nat, xDone: bool)
      requires ViewOk(v) && |was| == |v.cost|
      reads this
    {
      && Sized() && |cost| == |v.cost| && x < |cost|
      && (forall j :: 0 <= j < |cost| ==>
            && cost[j] == (if j < i then NewCost(v, closed, j) else v.cost[j])
            && assign[j] == (if j < i && (Switches(v, j) || v.assign[j] in closed) then x else v.assign[j]))
      && forall j :: 0 <= j < |cost| ==>
            isCenter[j] == if j == x && xDone then true else if j < c then was[j] && j !in closed else was[j]
    }

    /** One block of the third phase. */
    method CommitBlock(x: nat, k1: nat, k2: nat, low: seq<real>, ghost v: View, ghost closed: set<nat>,
            ghost was: seq<bool>)
      requires ViewOk(v) && |was| == |v.cost| && k1 <= k2 <= |v.cost| && Committed(v, closed, x, was, k1, k1, x < k1)
      requires AssignedOk(was, v.assign) && TableOk(was, centerTable, |low|) && CloseOk(was, centerTable, low, closed)
      requires forall i :: 0 <= i < |cost| ==> switchMembership[i] == Switches(v, i)
      requires forall i :: 0 <= i < |cost| ==> v.xCost[i] == CostTo(i, x)
      modifies this`cost, this`assign, this`isCenter
      ensures Committed(v, closed, x, was, k2, k2, x < k2)
    {
      hide *;
      MoveBlock(x, k1, k2, low, v, closed, was);
      ShutBlock(x, k1, k2, low, v, closed, was);
      if k1 <= x < k2 { OpenX(x, k1, k2, v, closed, was); } else { XElsewhere(x, k1, k2, v, closed, was); }
    }

    method OpenX(x: nat, k1: nat, k2: nat, ghost v: View, ghost closed: set<nat>, ghost was: seq<bool>)
      requires ViewOk(v) && |was| == |v.cost| && Committed(v, closed, x, was, k2, k2, x < k1) && k1 <= x < k2
      modifies this`isCenter
      ensures Committed(v, closed, x, was, k2, k2, x < k2)
    {
      hide Switches, NewCost;
      isCenter := isCenter[x := true];
    }

    lemma XElsewhere(x: nat, k1: nat, k2: nat, v: View, closed: set<nat>, was: seq<bool>)
      requires ViewOk(v) && |was| == |v.cost| && Committed(v, closed, x, was, k2, k2, x < k1)
      requires k1 <= k2 && !(k1 <= x < k2)
      ensures Committed(v, closed, x, was, k2, k2, x < k2)
    {
    }

    /** The points that switch and those whose center is closed go to x. */
    method MoveBlock(x: nat, k1: nat, k2: nat, low: seq<real>, ghost v: View, ghost closed: set<nat>,
            ghost was: seq<bool>)
      requires ViewOk(v) && |was| == |v.cost| && k1 <= k2 <= |v.cost| && Committed(v, closed, x, was, k1, k1, x < k1)
      requires AssignedOk(was, v.assign) && TableOk(was, centerTable, |low|) && CloseOk(was, centerTable, low, closed)
      requires forall i :: 0 <= i < |cost| ==> switchMembership[i] == Switches(v, i)
      requires forall i :: 0 <= i < |cost| ==> v.xCost[i] == CostTo(i, x)
      modifies this`cost, this`assign
      ensures Committed(v, closed, x, was, k2, k1, x < k1)
    {
      hide Switches, CostTo;
      var i := k1;
      while i < k2
        invariant k1 <= i <= k2 && Committed(v, closed, x, was, i, k1, x < k1)
      {
        var closeCenter := low[centerTable[assign[i]]] > 0.0;
        if switchMembership[i] || closeCenter {
          MovePoint(i, x);
          assign := assign[i := x];
        }
        i := i + 1;
      }
    }

    /** The centers worth closing are shut. */
    method ShutBlock(x: nat, k1: nat, k2: nat, low: seq<real>, ghost v: View, ghost closed: set<nat>,
            ghost was: seq<bool>)
      requires ViewOk(v) && |was| == |v.cost| && k1 <= k2 <= |v.cost| && Committed(v, closed, x, was, k2, k1, x < k1)
      requires TableOk(was, centerTable, |low|) && CloseOk(was, centerTable, low, closed)
      modifies this`isCenter
      ensures Committed(v, closed, x, was, k2, k2, x < k1)
    {
      hide Switches, NewCost;
      var i := k1;
      while i < k2
        invariant k1 <= i <= k2 && Committed(v, closed, x, was, k2, i, x < k1)
      {
        if isCenter[i] && low[centerTable[i]] > 0.0 {
          isCenter := isCenter[i := false];
        }
        i := i + 1;
      }
    }

    method MovePoint(i: nat, x: nat)
      requires Sized() && i < |cost| && x < |cost|
      modifies this`cost
      ensures Sized() && cost == old(cost)[i := CostTo(i, x)]
    {
      var d := Dist(coord[i], coord[x], dim);
      Commute(weight[i], d);
      var moved := weight[i] * d;
      assert moved == CostTo(i, x);
      cost := cost[i := moved];
    }

    /** The third phase, block by block. */
    method Commit(x: nat, nproc: nat, low: seq<real>, ghost v: View, ghost closed: set<nat>)
      requires ViewOk(v) && Sized() && x < |cost| && AssignedOk(isCenter, assign) && v == Seen(x) && 0 < nproc
      requires TableOk(isCenter, centerTable, |low|) && CloseOk(isCenter, centerTable, low, closed)
      requires forall i :: 0 <= i < |cost| ==> switchMembership[i] == Switches(v, i)
      modifies this`cost, this`assign, this`isCenter
      ensures Committed(v, closed, x, old(isCenter), |old(cost)|, |old(cost)|, true)
    {
      hide Switches, CostTo, BlockStart, BlockEnd;
      ghost var was := isCenter;
      var p, n := 0, |cost|;
      while p < nproc
        invariant p <= nproc && n == |cost| == |v.cost| && Reached(n, nproc, p) <= n
        invariant Committed(v, closed, x, was, Reached(n, nproc, p), Reached(n, nproc, p), x < Reached(n, nproc, p))
      {
        BlockBounds(n, nproc, p);
        ReachedIs(n, nproc, p);
        CommitBlock(x, BlockStart(n, nproc, p), BlockEnd(n, nproc, p), low, v, closed, was);
        p := p + 1;
      }
      ReachedAll(n, nproc);
    }

    /** The sum of the costs and the fees of k centers. */
    ghost function Total(z: real, k: nat): real
      reads this
    {
      CostSum(cost, |cost|) + Fees(z, k)
    }

    /** The points. */
    ghost function Where(): Space
      reads this`coord, this`weight
    {
      Space(coord, weight, dim)
    }

    /** The solution at hand. */
    ghost function Now(): Solution
      reads this`cost, this`assign, this`isCenter
    {
      Solution(cost, assign, isCenter)
    }

    lemma NowFits()
      requires Consistent()
      ensures Fits(Where(), Now())
    {
    }

    lemma NowSeen(x: nat, z: real)
      requires Consistent() && x < |coord| && forall i :: 0 <= i < |assign| ==> assign[i] < |cost|
      ensures Fits(Where(), Now()) && Now().isCenter == isCenter && ViewAt(Where(), Now(), x) == Seen(x)
      ensures Price(Where(), Now(), z, x) == OpeningCost(Seen(x), z, CenterSet(isCenter))
    {
      hide CostTo, OpeningCost;
    }

    /** What the third phase leaves is the solution with x open and the centers in closed shut. */
    lemma CommittedIs(v: View, closed: set<nat>, x: nat, was: seq<bool>)
      requires ViewOk(v) && |was| == |v.cost| && Committed(v, closed, x, was, |v.cost|, |v.cost|, true)
      ensures Now() == Opening(v, was, closed, x)
    {
      hide NewCost, Switches, Sized;
      CommittedSizes(v, closed, x, was);
      var o := Opening(v, was, closed, x);
      assert cost == o.cost && assign == o.assign && isCenter == o.isCenter;
    }

    lemma CommittedSizes(v: View, closed: set<nat>, x: nat, was: seq<bool>)
      requires ViewOk(v) && |was| == |v.cost| && Committed(v, closed, x, was, |v.cost|, |v.cost|, true)
      ensures |cost| == |assign| == |isCenter| == |v.cost|
    {
    }

    /** Open x if that pays, close what then is worth closing, and say how much was gained. */
    method PGain(x: nat, z: real, numCenters: nat, nproc: nat) returns (gain: real, num: nat)
      requires Consistent() && x < |coord| && z >= 0.0 && 0 < nproc && numCenters == |CenterSet(isCenter)|
      modifies this`cost, this`assign, this`isCenter, this`centerTable, this`switchMembership, this`lower
      ensures Consistent()
      ensures var v, centers := old(Seen(x)), CenterSet(old(isCenter));
              && gain == (if OpeningCost(v, z, centers) < 0.0 then -OpeningCost(v, z, centers) else 0.0)
              && (gain > 0.0 ==> CenterSet(isCenter) == After(centers, Best(v, z, centers), x))
              && (gain > 0.0 ==>
                    CostSum(cost, |cost|) + Fees(z, |CenterSet(isCenter)|)
                    == Potential(v, z, centers, Best(v, z, centers), x))
      ensures Total(z, num) == old(Total(z, numCenters)) - gain
      ensures num == |CenterSet(isCenter)| + (if gain > 0.0 && old(isCenter)[x] && z == 0.0 then 1 else 0)
      ensures Fits(Where(), old(Now())) && Now() == Improve(Where(), old(Now()), z, x)
      ensures gain == Gain(Where(), old(Now()), z, x)
    {
      hide *;
      TotalIs(z, numCenters);
      ConsistentFacts();
      ghost var v, centers := Seen(x), CenterSet(isCenter);
      ghost var best, was := Best(v, z, centers), isCenter;
      SeenOk(x, z);
      NowSeen(x, z);
      ghost var sp, s := Where(), Now();
      ImproveIs(sp, s, z, x);
      var count := BuildTable();
      SeenSame(x, v);
      var saves, opening := Gather(x, count, nproc, v);
      var low, cost1, closing := Decide(saves, opening, z, v);
      gain, num := 0.0, numCenters;
      GainIsExact(v, z, centers, x);
      TotalIs(z, numCenters);
      ConsistentAgain();
      if cost1 < 0.0 {
        ClosesBest(v, z, isCenter, centerTable, low);
        SeenSame(x, v);
        Commit(x, nproc, low, v, best);
        CommittedFacts(v, best, x, was);
        CommittedIs(v, best, x, was);
        ClosingCount(v, z, centers, x, closing);
        num := numCenters + 1 - closing;
        gain := -cost1;
        PotentialDef(v, z, centers, best, x);
        TotalIs(z, num);
      }
    }

    lemma TotalIs(z: real, k: nat)
      ensures Total(z, k) == CostSum(cost, |cost|) + Fees(z, k)
    {
    }

    lemma ConsistentAgain()
      requires Sized() && AssignedOk(isCenter, assign)
      requires forall i :: 0 <= i < |cost| ==> cost[i] == CostTo(i, assign[i])
      ensures Consistent()
    {
    }

    lemma ConsistentFacts()
      requires Consistent()
      ensures Sized() && AssignedOk(isCenter, assign) && |cost| == |coord| == |isCenter| == |assign| == |weight|
      ensures forall i :: 0 <= i < |assign| ==> assign[i] < |cost|
      ensures forall i :: 0 <= i < |coord| ==> dim <= |coord[i]|
      ensures forall i :: 0 <= i < |cost| ==> cost[i] == CostTo(i, assign[i])
    {
    }

    lemma SeenOk(x: nat, z: real)
      requires Consistent() && x < |coord| && z >= 0.0 && forall i :: 0 <= i < |assign| ==> assign[i] < |cost|
      ensures ViewOk(Seen(x)) && |Seen(x).cost| == |cost| == |Seen(x).xCost|
      ensures CandidateOk(Seen(x), z, CenterSet(isCenter), x)
    {
      hide CostTo;
    }

    lemma SeenSame(x: nat, v: View)
      requires Sized() && x < |coord| && forall i :: 0 <= i < |assign| ==> assign[i] < |cost|
      requires v.cost == cost && v.assign == assign && |v.xCost| == |cost|
      requires forall i :: 0 <= i < |cost| ==> v.xCost[i] == CostTo(i, x)
      ensures v == Seen(x)
    {
      hide CostTo;
      assert v.xCost == Seen(x).xCost;
    }

    /** The committed state is consistent, has the new centers, and costs what was predicted. */
    lemma CommittedFacts(v: View, closed: set<nat>, x: nat, was: seq<bool>)
      requires ViewOk(v) && |was| == |v.cost| && Committed(v, closed, x, was, |v.cost|, |v.cost|, true)
      requires AssignedOk(was, v.assign)
      requires forall i :: 0 <= i < |v.cost| ==> v.xCost[i] == CostTo(i, x) && v.cost[i] == CostTo(i, v.assign[i])
      ensures Consistent() && CenterSet(isCenter) == After(CenterSet(was), closed, x)
      ensures |cost| == |v.cost| && CostSum(cost, |cost|) == NewSum(v, closed, |cost|)
    {
      hide CostTo, Switches;
      CostSumNew(v, closed, cost, |cost|);
    }

    // ---- The search over candidates --------------------------------------------------------------

    ghost predicate Weighted()
      reads this`weight
    {
      forall i :: 0 <= i < |weight| ==> weight[i] >= 0.0
    }

    /** What the running cost stands for: the costs of the points and the fees of the centers. */
    ghost predicate Accounted(running: real, z: real, k: nat)
      reads this
    {
      Consistent() && Weighted() && 0 < |coord| && k == |CenterSet(isCenter)| && running == Total(z, k)
    }

    lemma TotalAtLeastFee(running: real, z: real, k: nat)
      requires Accounted(running, z, k) && z >= 0.0
      ensures running >= z && k >= 1
    {
      forall i | 0 <= i < |cost| ensures cost[i] >= 0.0 {
        SqDistLaws(coord[i], coord[assign[i]], dim);
        ProductNotNegative(SqDist(coord[i], coord[assign[i]], dim), weight[i]);
      }
      CostSumNotNegative(cost, |cost|);
      assert assign[0] in CenterSet(isCenter);
      FeesAtLeastOne(z, k);
    }

    lemma AreCandidates(feasible: seq<nat>)
      requires feasible != [] && forall f :: f in feasible ==> f < |coord|
      ensures Candidates(Where(), feasible)
    {
    }

    /** One round over the candidates: the solution and the change are those of its turns, one after the other. */
    method Round(feasible: seq<nat>, z: real, k0: nat, iter: nat, nproc: nat,
            ghost running: real) returns (change: real, k: nat)
      requires Accounted(running, z, k0) && z > 0.0 && 0 < nproc
      requires feasible != [] && forall f :: f in feasible ==> f < |coord|
      modifies this`cost, this`assign, this`isCenter, this`centerTable, this`switchMembership, this`lower
      ensures change >= 0.0 && Accounted(running - change, z, k)
      ensures Fits(Where(), old(Now())) && Candidates(Where(), feasible)
      ensures Now() == AfterTurns(Where(), old(Now()), z, feasible, iter)
      ensures change == Gained(Where(), old(Now()), z, feasible, iter)
    {
      hide *;
      change, k := 0.0, k0;
      AccountedFacts(running, z, k0);
      NowFits();
      AreCandidates(feasible);
      ghost var sp, s := Where(), Now();
      NoTurn(sp, s, z, feasible);
      var i := 0;
      while i < iter
        invariant i <= iter && change >= 0.0 && Accounted(running - change, z, k) && Where() == sp
        invariant Now() == AfterTurns(sp, s, z, feasible, i) && change == Gained(sp, s, z, feasible, i)
      {
        var x := i % |feasible|;
        NextTurn(sp, s, z, feasible, i);
        assert feasible[x] in feasible;
        var gain;
        gain, k := GainAccounted(feasible[x], z, k, nproc, running - change);
        change := change + gain;
        i := i + 1;
      }
    }

    method GainAccounted(x: nat, z: real, k0: nat, nproc: nat, ghost running: real) returns (gain: real, k: nat)
      requires Accounted(running, z, k0) && z > 0.0 && 0 < nproc && x < |coord|
      modifies this`cost, this`assign, this`isCenter, this`centerTable, this`switchMembership, this`lower
      ensures gain >= 0.0 && Accounted(running - gain, z, k)
      ensures Fits(Where(), old(Now())) && x < |Where().coord|
      ensures Now() == Improve(Where(), old(Now()), z, x) && gain == Gain(Where(), old(Now()), z, x)
    {
      AccountedFacts(running, z, k0);
      hide Consistent, Total, OpeningCost, Best, Potential, CenterSet, After, Seen, Improve, Gain, Fits, Now;
      gain, k := PGain(x, z, k0, nproc);
      AccountedIs(running - gain, z, k);
    }

    lemma AccountedFacts(running: real, z: real, k: nat)
      requires Accounted(running, z, k)
      ensures Consistent() && Weighted() && 0 < |coord| && k == |CenterSet(isCenter)| && running == Total(z, k)
    {
    }

    lemma AccountedIs(running: real, z: real, k: nat)
      requires Consistent() && Weighted() && 0 < |coord| && k == |CenterSet(isCenter)| && running == Total(z, k)
      ensures Accounted(running, z, k)
    {
    }

    /**
     * pFL: rounds in random candidate order until a round gains too little.  It ends, because every round but the
     * last lowers the total by more than e times the fee, and it never makes things worse.  Unless e is 1 or more
     * there is a round at all, and the solution is what the last one has left.
     */
    /** The candidates in the order that the draws decide. */
    method IntShuffle(rng: Rand48, a: seq<nat>) returns (b: seq<nat>)
      modifies rng
      ensures b == Shuffled(a, 0, |a|, rng.draws, old(rng.drawn)) && rng.drawn == old(rng.drawn) + |a|
      ensures multiset(b) == multiset(a) && |b| == |a| && forall f :: f in b ==> f in a
    {
      hide *;
      b := a;
      var i := 0;
      while i < |a|
        invariant i <= |a| == |b| && rng.drawn == old(rng.drawn) + i
        invariant Shuffled(b, i, |a|, rng.draws, rng.drawn) == Shuffled(a, 0, |a|, rng.draws, old(rng.drawn))
      {
        ShuffledStep(b, i, |a|, rng.draws, rng.drawn);
        var r := rng.Lrand48();
        var j := Place(r, i, |b|);
        PlaceIs(rng, r, rng.drawn - 1, i, |b|);
        b := Swapped(b, i, j);
        i := i + 1;
      }
      ShuffledEnd(b, |a|, rng.draws, rng.drawn);
      ShuffledKeeps(a, 0, |a|, rng.draws, old(rng.drawn));
      forall f | f in b ensures f in a {
        assert f in multiset(b);
      }
    }

    method PFL(rng: Rand48, feasible0: seq<nat>, z: real, k0: nat, cost0: real, iter: nat, e: real, nproc: nat)
      returns (total: real, k: nat, ghost orders: seq<seq<nat>>)
      requires Accounted(cost0, z, k0) && z > 0.0 && e > 0.0 && 0 < nproc
      requires feasible0 != [] && forall f :: f in feasible0 ==> f < |coord|
      modifies this`cost, this`assign, this`isCenter, this`centerTable, this`switchMembership, this`lower, rng
      ensures Accounted(total, z, k) && total <= cost0
      ensures Fits(Where(), old(Now())) && Orders(Where(), orders, feasible0)
      ensures Now() == AfterRounds(Where(), old(Now()), z, orders, iter)
      ensures total == CostAfter(Where(), old(Now()), z, cost0, orders, iter, |orders|)
      ensures e < 1.0 <==> orders != []
      ensures AllWentOn(Where(), old(Now()), z, cost0, orders, iter, e, |orders| - 1)
      ensures orders != [] ==> !WentOn(Where(), old(Now()), z, cost0, orders, iter, e, |orders| - 1)
      ensures e < 1.0 ==> Settled(Where(), Now(), z, total, feasible0, iter, e)
      ensures Running(Where(), old(Now()), z, cost0, orders, iter, e, feasible0, Now(), total, false)
      ensures OrdersDrawn(rng.draws, old(rng.drawn), feasible0, orders)
      ensures rng.drawn == StartOf(old(rng.drawn), |feasible0|, |orders|)
    {
      hide *;
      TotalAtLeastFee(cost0, z, k0);
      AccountedFacts(cost0, z, k0);
      NowFits();
      ghost var sp, s := Where(), Now();
      total, k, orders := cost0, k0, [];
      RunningStart(sp, s, z, cost0, iter, e, feasible0);
      NoOrders(rng.draws, rng.drawn, feasible0);
      var change, feasible: seq<nat> := total, feasible0;
      PositiveProduct(e, z);
      QuotientOfSame(total);
      var go := change / total > e;
      while go
        invariant Accounted(total, z, k) && total <= cost0 && feasible != [] && total > 0.0 && total >= z
        invariant multiset(feasible) == multiset(feasible0) && forall f :: f in feasible ==> f < |coord|
        invariant Where() == sp && Running(sp, s, z, cost0, orders, iter, e, feasible0, Now(), total, go)
        invariant OrdersDrawn(rng.draws, old(rng.drawn), feasible0, orders) && |feasible| == |feasible0|
        invariant rng.drawn == StartOf(old(rng.drawn), |feasible0|, |orders|)
        invariant feasible == if orders == [] then feasible0 else orders[|orders| - 1]
        decreases go, Steps(total, e * z)
      {
        ghost var last := feasible;
        feasible := IntShuffle(rng, feasible);
        NextOrder(rng.draws, old(rng.drawn), feasible0, orders, last, feasible);
        ghost var before, now := total, Now();
        RunningIs(sp, s, z, cost0, orders, iter, e, feasible0, now, total, go);
        change, k := Round(feasible, z, k, iter, nproc, total);
        RunningNext(sp, s, z, cost0, orders, iter, e, feasible0, now, total, feasible, change);
        total := total - change;
        TotalAtLeastFee(total, z, k);
        go := change / total > e;
        QuotientIff(change, total, e);
        if go { RoundPays(before, total, change, z, e); }
        orders := orders + [feasible];
      }
      RunningEnd(sp, s, z, cost0, orders, iter, e, feasible0, Now(), total);
    }

    // ---- A first solution ------------------------------------------------------------------------

    /** Points belong to the opened center nearest to them, the first of them, and cost what they cost there. */
    ghost predicate Opened(openSet: set<nat>)
      reads this
    {
      && Sized() && Weighted() && Within(openSet, |cost|)
      && (forall i :: 0 <= i < |cost| ==> assign[i] in openSet && cost[i] == CostTo(i, assign[i]) && cost[i] >= 0.0)
      && (forall c :: c in openSet ==> assign[c] == c)
      && forall i, c :: 0 <= i < |cost| && c in openSet ==>
           cost[i] <= CostTo(i, c) && (c < assign[i] ==> cost[i] < CostTo(i, c))
    }

    lemma CostToIs(i: nat, x: nat)
      requires i < |coord| && x < |coord| && |weight| == |coord|
      requires forall k :: 0 <= k < |coord| ==> dim <= |coord[k]|
      ensures CostTo(i, x) == SqDist(coord[i], coord[x], dim) * weight[i]
    {
    }

    lemma OwnCost(i: nat, c: nat)
      requires i < |coord| && c < |coord| && |weight| == |coord| && Weighted()
      requires forall k :: 0 <= k < |coord| ==> dim <= |coord[k]|
      ensures CostTo(i, c) >= 0.0 && CostTo(c, c) == 0.0
      ensures SqDist(coord[i], coord[c], dim) == SqDist(coord[c], coord[i], dim)
    {
      SqDistLaws(coord[i], coord[c], dim);
      SqDistLaws(coord[c], coord[i], dim);
      ProductNotNegative(SqDist(coord[i], coord[c], dim), weight[i]);
    }

    method FirstCenter()
      requires Sized() && Weighted() && 0 < |coord|
      modifies this`cost, this`assign
      ensures Opened({0})
    {
      hide SqDist, CostTo, PriceList;
      var k := 0;
      while k < |cost|
        invariant k <= |cost| && Sized() && Weighted()
        invariant forall i :: 0 <= i < k ==> assign[i] == 0 && cost[i] == CostTo(i, 0) && cost[i] >= 0.0
      {
        OwnCost(k, 0);
        CostToIs(k, 0);
        var distance := Dist(coord[k], coord[0], dim);
        cost, assign := cost[k := distance * weight[k]], assign[k := 0];
        k := k + 1;
      }
    }

    /** Open i: points that are cheaper at i move there, i among them. */
    method OpenAt(i: nat, ghost openSet: set<nat>)
      requires Opened(openSet) && i < |cost| && cost[i] > 0.0 && forall c :: c in openSet ==> c < i
      modifies this`cost, this`assign
      ensures Opened(openSet + {i}) && i !in openSet
    {
      hide CostTo;
      OwnCost(i, i);
      forall c | c in openSet ensures cost[c] == 0.0 { OwnCost(c, c); }
      ghost var cost0, assign0 := cost, assign;
      var k := 0;
      while k < |cost|
        invariant k <= |cost| == |cost0| && Sized() && |assign0| == |assign|
        invariant forall j :: 0 <= j < |cost| ==>
                    if j < k && CostTo(j, i) < cost0[j] then assign[j] == i && cost[j] == CostTo(j, i) && cost[j] >= 0.0
                    else assign[j] == assign0[j] && cost[j] == cost0[j]
      {
        OwnCost(k, i);
        var distance := Dist(coord[i], coord[k], dim);
        MoveIfCheaper(k, i, distance);
        k := k + 1;
      }
    }

    method MoveIfCheaper(k: nat, i: nat, distance: real)
      requires Sized() && k < |cost| && i < |cost| && distance == SqDist(coord[k], coord[i], dim)
      modifies this`cost, this`assign
      ensures Sized()
      ensures if CostTo(k, i) < old(cost)[k] then cost == old(cost)[k := CostTo(k, i)] && assign == old(assign)[k := i]
              else cost == old(cost) && assign == old(assign)
    {
      if distance * weight[k] < cost[k] {
        cost, assign := cost[k := distance * weight[k]], assign[k := i];
      }
    }

    /** Where the first point is open. */
    lemma SpaceFacts()
      requires Sized() && Weighted()
      ensures SpaceOk(Where()) && Where().coord == coord && |coord| == |cost|
    {
    }

    /** Whether point i is worth opening is seen from its cost. */
    lemma NextPicked(rng: Rand48, i: nat, z: real, openSet: set<nat>, p: nat)
      requires Opened(openSet) && Picked(Where(), openSet, i, z, rng.draws, p) && i < |cost|
      ensures SpaceOk(Where()) && |coord| == |cost|
      ensures Picked(Where(), if Chance(rng.draws, p + i - 1) < cost[i] / z then openSet + {i} else openSet, i + 1, z,
                     rng.draws, p)
    {
      hide Picked, Chance, SqDist, CostTo;
      PickedIs(Where(), openSet, i, z, rng.draws, p);
      assert assign[i] in openSet && cost[i] == CostTo(i, assign[i]);
      forall c | c in openSet ensures CostAt(Where(), i, c) == CostTo(i, c) { CostsAlike(i, c); }
      PickedNext(Where(), openSet, i, z, rng.draws, p, cost[i], assign[i]);
    }

    lemma CostsAlike(i: nat, c: nat)
      requires Sized() && i < |coord| && c < |coord|
      ensures SpaceOk(Where()) && CostAt(Where(), i, c) == CostTo(i, c)
    {
      hide SqDist;
    }

    /** Open points at random, more likely the more they cost. */
    method OpenCenters(rng: Rand48, z: real) returns (kcenter: nat, ghost openSet: set<nat>)
      requires Sized() && Weighted() && 0 < |coord| && z > 0.0
      modifies this`cost, this`assign, rng
      ensures Opened(openSet) && kcenter == |openSet| && Sized()
      ensures Picked(Where(), openSet, |coord|, z, rng.draws, old(rng.drawn))
      ensures rng.drawn == old(rng.drawn) + |coord| - 1
    {
      hide *;
      FirstCenter();
      openSet, kcenter := {0}, 1;
      OpenedSize(openSet);
      SpaceFacts();
      PickedFirst(Where(), z, rng.draws, rng.drawn);
      var i := 1;
      while i < |cost|
        invariant 1 <= i <= |cost| && Opened(openSet) && kcenter == |openSet| && Sized() && |cost| == |coord|
        invariant Picked(Where(), openSet, i, z, rng.draws, old(rng.drawn)) && rng.drawn == old(rng.drawn) + i - 1
        decreases |coord| - i
      {
        var r := rng.Lrand48();
        var chance := Fraction(r);
        ChanceIs(rng, r, rng.drawn - 1);
        NextPicked(rng, i, z, openSet, old(rng.drawn));
        PositiveIfChosen(chance, cost[i], z);
        if chance < cost[i] / z {
          PickedWithin(Where(), openSet, i, z, rng.draws, old(rng.drawn));
          OpenAt(i, openSet);
          openSet, kcenter := openSet + {i}, kcenter + 1;
          OpenedSize(openSet);
        }
        i := i + 1;
      }
    }

    /** pspeedy: the result is the total, summed up block by block. */
    method PSpeedy(rng: Rand48, z: real, nproc: nat) returns (total: real, kcenter: nat, ghost openSet: set<nat>)
      requires Sized() && Weighted() && 0 < |coord| && z > 0.0 && 0 < nproc
      modifies this`cost, this`assign, rng
      ensures Opened(openSet) && kcenter == |openSet| && total == Total(z, kcenter)
      ensures Picked(Where(), openSet, |coord|, z, rng.draws, old(rng.drawn))
      ensures rng.drawn == old(rng.drawn) + |coord| - 1
    {
      hide *;
      kcenter, openSet := OpenCenters(rng, z);
      FeesIs(z, kcenter);
      total := z * (kcenter as real);
      var p, n := 0, |cost|;
      NothingReached(n, nproc, cost);
      while p < nproc
        invariant p <= nproc && Reached(n, nproc, p) <= n == |cost| && Opened(openSet)
        invariant total == Fees(z, kcenter) + CostSum(cost, Reached(n, nproc, p))
        invariant rng.drawn == old(rng.drawn) + |coord| - 1
      {
        BlockBounds(n, nproc, p);
        ReachedIs(n, nproc, p);
        total := AddBlock(total, BlockStart(n, nproc, p), BlockEnd(n, nproc, p), Fees(z, kcenter));
        p := p + 1;
      }
      ReachedAll(n, nproc);
      TotalIs(z, kcenter);
    }

    method AddBlock(total0: real, k1: nat, k2: nat, ghost fees: real) returns (total: real)
      requires k1 <= k2 <= |cost| && total0 == fees + CostSum(cost, k1)
      ensures total == fees + CostSum(cost, k2)
    {
      var mytotal, k := 0.0, k1;
      while k < k2
        invariant k1 <= k <= k2 && CostSum(cost, k) == CostSum(cost, k1) + mytotal
      {
        mytotal := mytotal + cost[k];
        k := k + 1;
      }
      total := total0 + mytotal;
    }

    lemma OpenedSize(openSet: set<nat>)
      requires Opened(openSet)
      ensures Sized() && |cost| == |coord|
    {
    }

    /** Mark the assigned points as centers: exactly the opened ones. */
    method MarkCenters(ghost openSet: set<nat>)
      requires Opened(openSet) && forall c :: 0 <= c < |isCenter| ==> !isCenter[c]
      modifies this`isCenter
      ensures Consistent() && CenterSet(isCenter) == openSet && Nearest(Where(), openSet, Now())
    {
      hide CostTo;
      var i := 0;
      while i < |assign|
        invariant i <= |assign| && Sized()
        invariant forall c :: 0 <= c < |isCenter| ==> (isCenter[c] <==> exists j :: 0 <= j < i && assign[j] == c)
      {
        isCenter := isCenter[assign[i] := true];
        i := i + 1;
      }
      forall c | 0 <= c < |isCenter| ensures isCenter[c] <==> c in openSet {
        if c in openSet { assert assign[c] == c; }
      }
      IsNearest(openSet);
    }

    lemma IsNearest(openSet: set<nat>)
      requires Opened(openSet) && CenterSet(isCenter) == openSet
      ensures Nearest(Where(), openSet, Now())
    {
      hide CostTo;
      SpaceFacts();
      forall i | 0 <= i < |coord| ensures NearestAt(Where(), openSet, cost[i], assign[i], i) {
        CostsAlike(i, assign[i]);
        forall c | c in openSet
          ensures cost[i] <= CostAt(Where(), i, c) && (c < assign[i] ==> cost[i] < CostAt(Where(), i, c))
        {
          CostsAlike(i, c);
        }
      }
    }

    // ---- The binary search for the fee -----------------------------------------------------------

    lemma CentersAre(running: real, z: real, k: nat)
      requires Accounted(running, z, k)
      ensures k == Centers(Now())
    {
      hide CostTo;
    }

    /** A rough search, and a finer one if the number of centers is about right: one leg. */
    method PFLTwice(rng: Rand48, feasible: seq<nat>, kmin: nat, kmax: nat, z: real, k0: nat, cost0: real, iter: nat,
            nproc: nat, ghost fee: Fee)
      returns (total: real, k: nat, ghost leg: Leg)
      requires Accounted(cost0, z, k0) && z > 0.0 && 0 < nproc && fee.z == z && fee.cost == cost0
      requires feasible != [] && forall f :: f in feasible ==> f < |coord|
      modifies this`cost, this`assign, this`isCenter, this`centerTable, this`switchMembership, this`lower, rng
      ensures Accounted(total, z, k) && total <= cost0
      ensures Settled(Where(), Now(), z, total, feasible, iter, 0.1)
      ensures kmin <= k <= kmax ==> Settled(Where(), Now(), z, total, feasible, iter, 0.001)
      ensures leg.fee == fee && leg.start == old(Now()) && leg.from == old(rng.drawn)
      ensures leg.end == Now() && leg.endCost == total && k == Centers(leg.end)
      ensures LegOk(Where(), Goal(kmin, kmax, feasible, iter), rng.draws, leg)
      ensures rng.drawn == LegEnd(Goal(kmin, kmax, feasible, iter), leg)
    {
      hide *;
      ghost var orders, sp, g, s, p := [], Where(), Goal(kmin, kmax, feasible, iter), Now(), rng.drawn;
      total, k, orders := PFL(rng, feasible, z, k0, cost0, iter, 0.1, nproc);
      IsSearched(sp, g, z, 0.1, rng.draws, p, s, cost0, orders, Now(), total);
      CentersAre(total, z, k);
      leg := Leg(fee, s, p, orders, Now(), total, [], Now(), total);
      ghost var midK := k;
      RightIs(kmin, kmax, k);
      if (k as real <= 1.1 * (kmax as real) && k as real >= 0.9 * (kmin as real))
         || (k <= kmax + 2 && k >= kmin - 2) {
        total, k, orders := PFL(rng, feasible, z, k, total, iter, 0.001, nproc);
        IsSearched(sp, g, z, 0.001, rng.draws, StartOf(p, |feasible|, |leg.rough|), leg.mid, leg.midCost, orders, Now(),
                   total);
        CentersAre(total, z, k);
        leg := leg.(fine := orders, end := Now(), endCost := total);
        TotalAtLeastFee(total, z, k);
        SettledLess(Where(), Now(), z, total, feasible, iter, 0.001, 0.1);
      } else {
        NoOrders(rng.draws, rng.drawn, feasible);
      }
      IsLeg(sp, g, rng.draws, leg, midK);
    }

    /**
     * The search of pkmedian: whenever the fee changes the running cost is corrected, and it is always the total for
     * the current fee.  The search ends once the number of centers is right or the bounds of the fee have met; each
     * round that does not end it halves what is between the bounds, so that without an end the fee goes to 0.
     */
    method SearchFee(rng: Rand48, feasible: seq<nat>, kmin: nat, kmax: nat, iter: nat, hiz0: real, k0: nat, cost0: real,
            nproc: nat, fuel: nat)
      returns (total: real, k: nat, z: real, done: bool, ghost loz: real, ghost hiz: real, ghost legs: seq<Leg>)
      requires hiz0 > 0.0 && Accounted(cost0, hiz0 / 2.0, k0) && 0 < nproc
      requires feasible != [] && forall f :: f in feasible ==> f < |coord|
      modifies this`cost, this`assign, this`isCenter, this`centerTable, this`switchMembership, this`lower, rng
      ensures Accounted(total, z, k) && 0.0 <= loz <= z <= hiz <= hiz0 && z > 0.0
      ensures done ==> kmin <= k <= kmax || loz >= 0.999 * hiz
      ensures done && kmin <= k <= kmax ==> Settled(Where(), Now(), z, total, feasible, iter, 0.001)
      ensures done && k > kmax && k >= kmin ==>
                Settled(Where(), Now(), loz, Recosted(total, z, loz, k), feasible, iter, 0.1)
      ensures done && k < kmin && k <= kmax ==>
                Settled(Where(), Now(), hiz, Recosted(total, z, hiz, k), feasible, iter, 0.1)
      ensures !done ==> z < 1000.0 * Halved(hiz0, fuel)
      ensures var g, fee := Goal(kmin, kmax, feasible, iter), Fee(0.0, hiz0, hiz0 / 2.0, cost0);
              && Legs(Where(), g, rng.draws, fee, old(Now()), old(rng.drawn), legs)
              && Stands(g, fee, old(Now()), old(rng.drawn), legs, Fee(loz, hiz, z, total), Now(), rng.drawn, done)
      ensures |legs| <= fuel && (!done ==> |legs| == fuel)
    {
      hide *;
      var high, low := hiz0, 0.0;
      total, k, z, done := cost0, k0, (high + low) / 2.0, false;
      HalvedNone(hiz0);
      var left := fuel;
      ghost var g, fee := Goal(kmin, kmax, feasible, iter), Fee(low, high, z, total);
      ghost var sp, s, p := Where(), Now(), rng.drawn;
      legs := [];
      NoLegs(sp, g, rng.draws, fee, s, p);
      while left > 0 && !done
        invariant Accounted(total, z, k) && 0 <= left <= fuel
        invariant 0.0 <= low && low <= high <= hiz0 && high > 0.0 && z == (high + low) / 2.0
        invariant done ==> kmin <= k <= kmax || low >= 0.999 * high
        invariant done && kmin <= k <= kmax ==> Settled(Where(), Now(), z, total, feasible, iter, 0.001)
        invariant done && k > kmax && k >= kmin ==>
                    Settled(Where(), Now(), low, Recosted(total, z, low, k), feasible, iter, 0.1)
        invariant done && k < kmin && k <= kmax ==>
                    Settled(Where(), Now(), high, Recosted(total, z, high, k), feasible, iter, 0.1)
        invariant !done ==> low < 0.999 * high && high - low <= Halved(hiz0, fuel - left)
        invariant Where() == sp && Legs(sp, g, rng.draws, fee, s, p, legs) && |legs| == fuel - left
        invariant Stands(g, fee, s, p, legs, Fee(low, high, z, total), Now(), rng.drawn, done)
        decreases left
      {
        ghost var leg;
        total, k, leg := PFLTwice(rng, feasible, kmin, kmax, z, k, total, iter, nproc, Fee(low, high, z, total));
        OneMoreLeg(sp, g, rng.draws, fee, s, p, legs, leg);
        legs := legs + [leg];
        NextFeeIs(g, leg, k);
        ghost var up := Raised(kmax, Fee(low, high, z, total), k);
        RaisedIs(kmax, Fee(low, high, z, total), k);
        if k > kmax {
          low := z;
          z := (high + low) / 2.0;
          FeeChanged(total, low, z, k);
          RecostedIs(total, z, low, k);
          total := total + (z - low) * (k as real);
        }
        assert up == Fee(low, high, z, total);
        LoweredIs(kmin, up, k);
        if k < kmin {
          high := z;
          z := (high + low) / 2.0;
          FeeChanged(total, high, z, k);
          RecostedIs(total, z, high, k);
          total := total + (z - high) * (k as real);
        }
        assert Lowered(kmin, up, k) == Fee(low, high, z, total);
        if (k <= kmax && k >= kmin) || low >= 0.999 * high { done := true; }
        HalvedOnce(hiz0, fuel - left);
        left := left - 1;
      }
      loz, hiz := low, high;
      assert !done ==> fuel - left == fuel;
    }

    lemma FeeChanged(running: real, z: real, z': real, k: nat)
      requires Accounted(running, z, k)
      ensures Accounted(running + (z' - z) * (k as real), z', k)
    {
      FeesIs(z, k);
      FeesIs(z', k);
      Distribute(z, z', k as real);
      hide CostTo, Fees;
    }

    /** The upper bound of the fee: what all points cost if the first is their only center. */
    ghost function AllAtFirst(n: nat): real
      reads this`coord, this`weight
      requires n <= |coord| && 0 < |coord| && |weight| == |coord| && forall i :: 0 <= i < |coord| ==> dim <= |coord[i]|
    {
      CostSum(CostsTo(|coord|, 0), n)
    }

    lemma AllAtFirstIs(n: nat)
      requires 0 < n <= |coord| && |weight| == |coord| && forall i :: 0 <= i < |coord| ==> dim <= |coord[i]|
      ensures AllAtFirst(0) == 0.0 && AllAtFirst(n) == AllAtFirst(n - 1) + CostTo(n - 1, 0)
    {
    }

    /** The blocks' parts of that bound, added up. */
    method Hiz(nproc: nat) returns (hiz: real)
      requires Sized() && 0 < |coord| && 0 < nproc
      ensures hiz == AllAtFirst(|coord|)
    {
      hide *;
      hiz := 0.0;
      SizedFacts();
      var p, n := 0, |coord|;
      AllAtFirstIs(n);
      NothingReached(n, nproc, cost);
      while p < nproc
        invariant p <= nproc && Reached(n, nproc, p) <= n && hiz == AllAtFirst(Reached(n, nproc, p))
      {
        BlockBounds(n, nproc, p);
        ReachedIs(n, nproc, p);
        var myhiz := HizBlock(BlockStart(n, nproc, p), BlockEnd(n, nproc, p));
        hiz := hiz + myhiz;
        p := p + 1;
      }
      ReachedAll(n, nproc);
    }

    method HizBlock(k1: nat, k2: nat) returns (myhiz: real)
      requires Sized() && 0 < |coord| && k1 <= k2 <= |coord|
      ensures AllAtFirst(k2) == AllAtFirst(k1) + myhiz
    {
      hide SqDist, CostSum, AllAtFirst, PriceList;
      myhiz := 0.0;
      var k := k1;
      while k < k2
        invariant k1 <= k <= k2 && AllAtFirst(k) == AllAtFirst(k1) + myhiz
      {
        AllAtFirstIs(k + 1);
        var d := Dist(coord[k], coord[0], dim);
        assert CostTo(k, 0) == d * weight[k];
        myhiz := myhiz + d * weight[k];
        k := k + 1;
      }
    }

    lemma SizedFacts()
      requires Sized()
      ensures |weight| == |coord| == |cost| == |assign| == |isCenter| == |centerTable| == |switchMembership|
      ensures forall i :: 0 <= i < |coord| ==> dim <= |coord[i]|
    {
    }

    lemma SizedFrom()
      requires Consistent()
      ensures Sized()
    {
    }

    /** With room for every point to be a center each point stays where it is. */
    method AllOwn()
      requires Sized()
      modifies this`cost, this`assign
      ensures Sized() && forall i :: 0 <= i < |cost| ==> assign[i] == i && cost[i] == 0.0
    {
      var k := 0;
      while k < |cost|
        invariant k <= |cost| && Sized() && forall i :: 0 <= i < k ==> assign[i] == i && cost[i] == 0.0
      {
        assign, cost := assign[k := k], cost[k := 0.0];
        k := k + 1;
      }
    }

    // ---- The order of the points and the candidates ----------------------------------------------

    /** The points, wherever they stand. */
    ghost function Points(): (s: seq<Point>)
      requires |coord| == |weight|
      reads this`coord, this`weight
      ensures |s| == |coord|
    {
      PointsOf(coord, weight)
    }

    /** How many places of the points are drawn for: all but the last. */
    function Places(): (m: nat)
      reads this`coord
      ensures m <= |coord|
    {
      if |coord| == 0 then 0 else |coord| - 1
    }

    /** The order that the draws decide; costs and assignments move with their points. */
    method Shuffle(rng: Rand48)
      requires Sized()
      modifies this`coord, this`weight, this`cost, this`assign, rng
      ensures Sized() && |coord| == |old(coord)| && (old(Weighted()) ==> Weighted())
      ensures multiset(Points()) == multiset(old(Points()))
      ensures multiset(Entries(coord, weight, cost, assign)) == multiset(old(Entries(coord, weight, cost, assign)))
      ensures coord == Shuffled(old(coord), 0, Places(), rng.draws, old(rng.drawn))
      ensures weight == Shuffled(old(weight), 0, Places(), rng.draws, old(rng.drawn))
      ensures cost == Shuffled(old(cost), 0, Places(), rng.draws, old(rng.drawn))
      ensures assign == Shuffled(old(assign), 0, Places(), rng.draws, old(rng.drawn))
      ensures rng.drawn == old(rng.drawn) + Places()
    {
      hide *;
      SizedFacts();
      var i, m := 0, Places();
      PlacesIs();
      while i + 1 < |coord|
        invariant i <= m == Places() && |coord| == |old(coord)| == |weight| == |cost| == |assign|
        invariant Sized() && (old(Weighted()) ==> Weighted()) && rng.drawn == old(rng.drawn) + i
        invariant multiset(Points()) == multiset(old(Points()))
        invariant multiset(Entries(coord, weight, cost, assign)) == multiset(old(Entries(coord, weight, cost, assign)))
        invariant Shuffled(coord, i, m, rng.draws, rng.drawn) == Shuffled(old(coord), 0, m, rng.draws, old(rng.drawn))
        invariant Shuffled(weight, i, m, rng.draws, rng.drawn) == Shuffled(old(weight), 0, m, rng.draws, old(rng.drawn))
        invariant Shuffled(cost, i, m, rng.draws, rng.drawn) == Shuffled(old(cost), 0, m, rng.draws, old(rng.drawn))
        invariant Shuffled(assign, i, m, rng.draws, rng.drawn) == Shuffled(old(assign), 0, m, rng.draws, old(rng.drawn))
        decreases |coord| - i
      {
        PlacesIs();
        ShuffledStep(coord, i, m, rng.draws, rng.drawn);
        ShuffledStep(weight, i, m, rng.draws, rng.drawn);
        ShuffledStep(cost, i, m, rng.draws, rng.drawn);
        ShuffledStep(assign, i, m, rng.draws, rng.drawn);
        var r := rng.Lrand48();
        var j := Place(r, i, |coord|);
        PlaceIs(rng, r, rng.drawn - 1, i, |coord|);
        SwapPoints(i, j);
        SizedFacts();
        PlacesIs();
        i := i + 1;
      }
      PlacesIs();
      ShuffledEnd(coord, m, rng.draws, rng.drawn);
      ShuffledEnd(weight, m, rng.draws, rng.drawn);
      ShuffledEnd(cost, m, rng.draws, rng.drawn);
      ShuffledEnd(assign, m, rng.draws, rng.drawn);
    }

    lemma PlacesIs()
      ensures Places() == if |coord| == 0 then 0 else |coord| - 1
    {
    }

    lemma SwappedSized(i: nat, j: nat)
      requires Sized() && i < |coord| && j < |coord|
      ensures |Swapped(coord, i, j)| == |coord| && |Swapped(weight, i, j)| == |weight|
      ensures |Swapped(cost, i, j)| == |cost| && |Swapped(assign, i, j)| == |assign|
      ensures forall k :: 0 <= k < |coord| ==> dim <= |Swapped(coord, i, j)[k]|
      ensures Weighted() ==> forall k :: 0 <= k < |weight| ==> Swapped(weight, i, j)[k] >= 0.0
    {
    }

    method SwapPoints(i: nat, j: nat)
      requires Sized() && i < |coord| && j < |coord|
      modifies this`coord, this`weight, this`cost, this`assign
      ensures Sized() && |coord| == |old(coord)| && (old(Weighted()) ==> Weighted())
      ensures multiset(Points()) == multiset(old(Points()))
      ensures multiset(Entries(coord, weight, cost, assign)) == multiset(old(Entries(coord, weight, cost, assign)))
      ensures coord == Swapped(old(coord), i, j) && weight == Swapped(old(weight), i, j)
      ensures cost == Swapped(old(cost), i, j) && assign == Swapped(old(assign), i, j)
    {
      PointsSwapped(coord, weight, i, j);
      EntriesSwapped(coord, weight, cost, assign, i, j);
      SwappedSized(i, j);
      hide PointsOf, Entries, Swapped, SqDist;
      coord := Swapped(coord, i, j);
      weight := Swapped(weight, i, j);
      cost := Swapped(cost, i, j);
      assign := Swapped(assign, i, j);
    }

    /**
     * selectfeasible_fast: all points if no more are wanted, otherwise points drawn by weight, found by binary
     * search in the accumulated weights.
     */
    method SelectFeasible(rng: Rand48, wanted: real) returns (feasible: seq<nat>)
      requires Sized() && Weighted() && 0 < |coord| && wanted >= 0.0
      modifies rng
      ensures Selected(weight, wanted, rng.draws, old(rng.drawn), feasible)
      ensures rng.drawn == old(rng.drawn) + if |coord| as real <= wanted then 0 else |feasible|
    {
      if |coord| as real <= wanted {
        feasible := seq(|coord|, i => i);
        return;
      }
      SizedFacts();
      hide *;
      var accumweight := Accumulate();
      feasible := DrawFeasible(rng, accumweight, wanted.Floor);
      IsSelected(weight, wanted, rng.draws, old(rng.drawn), feasible);
    }

    method DrawFeasible(rng: Rand48, accumweight: seq<real>, count: nat) returns (feasible: seq<nat>)
      requires Sized() && Weighted() && 0 < |coord| == |accumweight|
      requires forall i :: 0 <= i < |coord| ==> accumweight[i] == CostSum(weight, i + 1)
      modifies rng
      ensures |feasible| == count && rng.drawn == old(rng.drawn) + count
      ensures forall i :: 0 <= i < count ==> DrawnBy(weight, rng.draws, old(rng.drawn) + i, feasible[i])
    {
      SizedFacts();
      Accumulated(weight, 0, |coord|);
      assert CostSum(weight, 0) == 0.0;
      hide *;
      feasible := [];
      while |feasible| < count
        invariant |feasible| <= count && rng.drawn == old(rng.drawn) + |feasible| && Sized() && Weighted()
        invariant forall i :: 0 <= i < |feasible| ==> DrawnBy(weight, rng.draws, old(rng.drawn) + i, feasible[i])
      {
        var r := rng.Lrand48();
        var w := Fraction(r) * accumweight[|coord| - 1];
        var f := Locate(accumweight, w);
        IsDrawn(rng, weight, r, rng.drawn - 1, accumweight[|coord| - 1], f);
        feasible := feasible + [f];
      }
    }

    method Accumulate() returns (accumweight: seq<real>)
      requires Sized() && 0 < |coord|
      ensures |accumweight| == |coord|
      ensures forall i :: 0 <= i < |coord| ==> accumweight[i] == CostSum(weight, i + 1)
    {
      accumweight := [weight[0]];
      var i := 1;
      assert CostSum(weight, 0) == 0.0;
      while i < |coord|
        invariant 1 <= i <= |coord| && |accumweight| == i
        invariant forall j :: 0 <= j < i ==> accumweight[j] == CostSum(weight, j + 1)
      {
        accumweight := accumweight + [accumweight[i - 1] + weight[i]];
        i := i + 1;
      }
    }

    method Locate(accumweight: seq<real>, w: real) returns (r: nat)
      requires Sized() && Weighted() && 0 < |coord| == |accumweight|
      requires forall i :: 0 <= i < |coord| ==> accumweight[i] == CostSum(weight, i + 1)
      ensures r < |coord| && PlaceOf(weight, w, r)
    {
      if accumweight[0] > w {
        return 0;
      }
      var l := 0;
      r := |coord| - 1;
      while l + 1 < r
        invariant 0 <= l < |coord| && r < |coord| && (l < r || r == 0) && accumweight[l] <= w
        invariant r == |coord| - 1 || accumweight[r] > w
      {
        var k := (l + r) / 2;
        if accumweight[k] > w { r := k; } else { l := k; }
      }
      forall j | 0 < j <= r ensures CostSum(weight, j) <= w {
        Accumulated(weight, j, l + 1);
      }
    }

    /** A solution for the points in another order. */
    method Afresh(rng: Rand48, z: real, nproc: nat) returns (total: real, k: nat, ghost openSet: set<nat>)
      requires Sized() && Weighted() && 0 < |coord| && z > 0.0 && 0 < nproc
      modifies this`coord, this`weight, this`cost, this`assign, rng
      ensures Opened(openSet) && k == |openSet| && total == Total(z, k) && Sized() && Weighted()
      ensures |coord| == |old(coord)| == |weight| && multiset(Points()) == multiset(old(Points()))
      ensures var t := Try(coord, weight, z, openSet, old(rng.drawn) + |coord| - 1);
              && Reordered(rng.draws, old(coord), old(weight), old(rng.drawn), t) && TryOk(dim, rng.draws, t)
              && rng.drawn == Next(t)
    {
      hide *;
      SizedFacts();
      PlacesIs();
      Shuffle(rng);
      PlacesIs();
      SizedFacts();
      ghost var p := rng.drawn;
      total, k, openSet := PSpeedy(rng, z, nproc);
      OpenedSize(openSet);
      ReorderedIs(rng, old(coord), old(weight), old(rng.drawn), z, openSet);
      TryIs(rng, z, openSet, p);
    }

    lemma ReorderedIs(rng: Rand48, coord0: seq<seq<real>>, weight0: seq<real>, p: nat, z: real, openSet: set<nat>)
      requires 0 < |coord0| == |weight0| == |coord|
      requires coord == Shuffled(coord0, 0, |coord0| - 1, rng.draws, p)
      requires weight == Shuffled(weight0, 0, |coord0| - 1, rng.draws, p)
      ensures Reordered(rng.draws, coord0, weight0, p, Try(coord, weight, z, openSet, p + |coord| - 1))
    {
      hide Shuffled;
    }

    lemma TryIs(rng: Rand48, z: real, openSet: set<nat>, p: nat)
      requires 0 < |coord| && Picked(Where(), openSet, |coord|, z, rng.draws, p)
      ensures var t := Try(coord, weight, z, openSet, p); TryOk(dim, rng.draws, t) && Next(t) == p + |coord| - 1
    {
      hide Picked;
    }

    /** One more try with the same points and fee. */
    method Again(rng: Rand48, z: real, nproc: nat) returns (total: real, k: nat, ghost openSet: set<nat>)
      requires Sized() && Weighted() && 0 < |coord| && z > 0.0 && 0 < nproc
      modifies this`cost, this`assign, rng
      ensures Opened(openSet) && k == |openSet| && total == Total(z, k) && Sized() && |weight| == |coord|
      ensures var t := Try(coord, weight, z, openSet, old(rng.drawn)); TryOk(dim, rng.draws, t) && rng.drawn == Next(t)
    {
      hide *;
      total, k, openSet := PSpeedy(rng, z, nproc);
      OpenedSize(openSet);
      SizedFacts();
      TryIs(rng, z, openSet, old(rng.drawn));
    }

    /** The solution at hand is that of the last try. */
    ghost predicate LastTry(rng: Rand48, tries: seq<Try>, z: real, openSet: set<nat>, coord0: seq<seq<real>>,
            weight0: seq<real>, kmin: nat, z0: real, p: nat)
      reads this`coord, this`weight, rng
    {
      && Tries(dim, rng.draws, kmin, coord0, weight0, z0, p, tries)
      && var t := tries[|tries| - 1];
         t.coord == coord && t.weight == weight && t.z == z && t.open == openSet && rng.drawn == Next(t)
    }

    lemma FirstTry(rng: Rand48, t: Try, openSet: set<nat>, coord0: seq<seq<real>>, weight0: seq<real>, kmin: nat,
            z: real, p: nat)
      requires Reordered(rng.draws, coord0, weight0, p, t) && TryOk(dim, rng.draws, t)
      requires t == Try(coord, weight, z, openSet, t.from) && rng.drawn == Next(t)
      ensures LastTry(rng, [t], z, openSet, coord0, weight0, kmin, z, p)
    {
      hide Reordered, TryOk;
      OneTry(dim, rng.draws, kmin, coord0, weight0, z, p, t);
    }

    lemma AnotherTry(rng: Rand48, tries: seq<Try>, t: Try, openSet: set<nat>, coord0: seq<seq<real>>,
            weight0: seq<real>, kmin: nat, z0: real, p: nat)
      requires Tries(dim, rng.draws, kmin, coord0, weight0, z0, p, tries) && TryOk(dim, rng.draws, t)
      requires Retried(rng.draws, kmin, tries + [t], |tries|)
      requires t == Try(coord, weight, t.z, openSet, t.from) && rng.drawn == Next(t)
      ensures LastTry(rng, tries + [t], t.z, openSet, coord0, weight0, kmin, z0, p)
    {
      hide Tries, TryOk, Retried;
      OneMoreTry(dim, rng.draws, kmin, coord0, weight0, z0, p, tries, t);
    }

    /** The first solution; while it has too few centers it is tried again, once more and then with half the fee. */
    method FirstSolution(rng: Rand48, kmin: nat, hiz0: real, nproc: nat, fuel: nat)
      returns (total: real, k: nat, z: real, high: real, ghost openSet: set<nat>, ghost tries: seq<Try>)
      requires Sized() && Weighted() && 0 < |coord| && 0 < nproc && hiz0 > 0.0
      modifies this`coord, this`weight, this`cost, this`assign, rng
      ensures Opened(openSet) && k == |openSet| && total == Total(z, k) && Sized() && Weighted()
      ensures |coord| == |old(coord)| && multiset(Points()) == multiset(old(Points()))
      ensures 0.0 < high <= hiz0 && z == high / 2.0
      ensures k < kmin ==> high <= Halved(hiz0, fuel)
      ensures LastTry(rng, tries, z, openSet, old(coord), old(weight), kmin, hiz0 / 2.0, old(rng.drawn))
      ensures k >= kmin || |tries| == fuel + 2
    {
      hide *;
      high, z := hiz0, hiz0 / 2.0;
      SizedFacts();
      total, k, openSet := Afresh(rng, z, nproc);
      tries := [Try(coord, weight, z, openSet, old(rng.drawn) + |coord| - 1)];
      FirstTry(rng, tries[0], openSet, old(coord), old(weight), kmin, z, old(rng.drawn));
      var i, left := 0, fuel;
      TriesAre1();
      while k < kmin && i < SP
        invariant Opened(openSet) && k == |openSet| && total == Total(z, k) && Sized() && Weighted() && i <= SP
        invariant |coord| == |old(coord)| == |weight| && multiset(Points()) == multiset(old(Points()))
        invariant LastTry(rng, tries, z, openSet, old(coord), old(weight), kmin, hiz0 / 2.0, old(rng.drawn))
        invariant |tries| == i + 1
        decreases SP - i
      {
        LastTryIs(rng, tries, z, openSet, old(coord), old(weight), kmin, hiz0 / 2.0, old(rng.drawn));
        ghost var p := rng.drawn;
        total, k, openSet := Again(rng, z, nproc);
        SameAgain(rng, tries, Try(coord, weight, z, openSet, p), kmin);
        ghost var t := Try(coord, weight, z, openSet, p);
        AnotherTry(rng, tries, t, openSet, old(coord), old(weight), kmin, hiz0 / 2.0, old(rng.drawn));
        tries := tries + [t];
        SizedFacts();
        i := i + 1;
      }
      HalvedNone(hiz0);
      while k < kmin && left > 0
        invariant Opened(openSet) && k == |openSet| && total == Total(z, k) && Sized() && Weighted()
        invariant |coord| == |old(coord)| == |weight| && multiset(Points()) == multiset(old(Points()))
        invariant 0 <= left <= fuel && (k < kmin ==> i >= SP && |tries| == fuel - left + 2)
        invariant 0.0 < high <= Halved(hiz0, fuel - left) && high <= hiz0 && z == high / 2.0
        invariant LastTry(rng, tries, z, openSet, old(coord), old(weight), kmin, hiz0 / 2.0, old(rng.drawn))
        decreases left
      {
        LastTryIs(rng, tries, z, openSet, old(coord), old(weight), kmin, hiz0 / 2.0, old(rng.drawn));
        if i >= SP {
          high := z;
          z := high / 2.0;
          i := 0;
        }
        ghost var p := rng.drawn + |coord| - 1;
        total, k, openSet := Afresh(rng, z, nproc);
        HalfAgain(rng, tries, Try(coord, weight, z, openSet, p), kmin);
        ghost var t := Try(coord, weight, z, openSet, p);
        AnotherTry(rng, tries, t, openSet, old(coord), old(weight), kmin, hiz0 / 2.0, old(rng.drawn));
        tries := tries + [t];
        HalvedOnce(hiz0, fuel - left);
        i, left := i + 1, left - 1;
      }
      assert k < kmin ==> fuel - left == fuel;
    }

    lemma LastTryIs(rng: Rand48, tries: seq<Try>, z: real, openSet: set<nat>, coord0: seq<seq<real>>,
            weight0: seq<real>, kmin: nat, z0: real, p: nat)
      requires LastTry(rng, tries, z, openSet, coord0, weight0, kmin, z0, p)
      ensures Tries(dim, rng.draws, kmin, coord0, weight0, z0, p, tries) && tries != []
      ensures var t := tries[|tries| - 1];
              t.coord == coord && t.weight == weight && t.z == z && t.open == openSet && rng.drawn == Next(t)
    {
    }

    lemma SameAgain(rng: Rand48, tries: seq<Try>, t: Try, kmin: nat)
      requires |tries| == 1 && |tries[0].open| < kmin
      requires t.coord == tries[0].coord && t.weight == tries[0].weight && t.z == tries[0].z && t.from == Next(tries[0])
      ensures Retried(rng.draws, kmin, tries + [t], |tries|)
    {
      hide Reordered;
    }

    lemma HalfAgain(rng: Rand48, tries: seq<Try>, t: Try, kmin: nat)
      requires |tries| > 1 && |tries[|tries| - 1].open| < kmin
      requires var u := tries[|tries| - 1]; Reordered(rng.draws, u.coord, u.weight, Next(u), t) && t.z == u.z / 2.0
      ensures Retried(rng.draws, kmin, tries + [t], |tries|)
    {
      hide Reordered;
    }

    /**
     * pkmedian: the points shuffled, a first solution, its centers marked, candidates chosen, and the search.  With
     * at most kmax points each point is its own center, no fee is charged, and the count of an earlier call, k0, is
     * handed on.
     */
    method PKMedian(rng: Rand48, kmin: nat, kmax: nat, iter: nat, wanted: real, nproc: nat, fuel: nat, k0: nat)
      returns (total: real, k: nat, z: real, done: bool, ghost loz: real, ghost hiz: real, ghost candidates: seq<nat>,
               ghost tries: seq<Try>, ghost first: Solution, ghost legs: seq<Leg>)
      requires Sized() && Weighted() && 0 < |coord| && 0 < nproc && AllAtFirst(|coord|) > 0.0
      requires wanted >= 1.0 && forall c :: 0 <= c < |isCenter| ==> !isCenter[c]
      modifies this`coord, this`weight, this`cost, this`assign
      modifies this`isCenter, this`centerTable, this`switchMembership, this`lower, rng
      ensures Sized() && |coord| == |old(coord)| && multiset(Points()) == multiset(old(Points()))
      ensures |coord| > kmax ==> Accounted(total, z, k) && z > 0.0 && 0.0 <= loz <= z <= hiz
      ensures |coord| > kmax && done ==> kmin <= k <= kmax || loz >= 0.999 * hiz
      ensures |coord| > kmax ==>
                && Prepared(rng.draws, kmin, wanted, fuel, old(Where()), old(AllAtFirst(|coord|)), old(rng.drawn),
                            Where(), tries, candidates, first)
                && Concluded(rng.draws, Goal(kmin, kmax, candidates, iter), wanted, Where(), tries[|tries| - 1], first,
                             legs, Fee(loz, hiz, z, total), Now(), rng.drawn, done)
      ensures |coord| > kmax && !done ==> |tries| == fuel + 2 || |legs| == fuel
      ensures |coord| > kmax && done && kmin <= k <= kmax ==>
                Settled(Where(), Now(), z, total, candidates, iter, 0.001)
      ensures |coord| > kmax && done && k > kmax && k >= kmin ==>
                Settled(Where(), Now(), loz, Recosted(total, z, loz, k), candidates, iter, 0.1)
      ensures |coord| > kmax && done && k < kmin && k <= kmax ==>
                Settled(Where(), Now(), hiz, Recosted(total, z, hiz, k), candidates, iter, 0.1)
      ensures |coord| > kmax && !done ==> z < 1000.0 * Halved(old(AllAtFirst(|coord|)), fuel)
      ensures |coord| <= kmax ==> done && total == 0.0 && k == k0 && isCenter == old(isCenter)
      ensures |coord| <= kmax ==> coord == old(coord) && weight == old(weight)
      ensures |coord| <= kmax ==> forall i :: 0 <= i < |cost| ==> assign[i] == i && cost[i] == 0.0
    {
      hide *;
      SizedFacts();
      var hiz0 := Hiz(nproc);
      if |coord| <= kmax {
        AllOwn();
        return 0.0, k0, hiz0, true, 0.0, hiz0, [], [], Solution([], [], []), [];
      }
      var high;
      ghost var openSet;
      total, k, z, high, openSet, tries := FirstSolution(rng, kmin, hiz0, nproc, fuel);
      LastTryIs(rng, tries, z, openSet, old(coord), old(weight), kmin, hiz0 / 2.0, old(rng.drawn));
      ghost var last := tries[|tries| - 1];
      var feasible := SelectFeasible(rng, wanted);
      candidates := feasible;
      SizedFacts();
      SelectedFacts(weight, wanted, rng.draws, Next(last), candidates);
      TotalIs(z, k);
      MarkCenters(openSet);
      first := Now();
      WhereIs();
      IsPrepared(rng.draws, kmin, wanted, fuel, old(Where()), hiz0, old(rng.drawn), Where(), tries, candidates, first);
      TotalIs(z, k);
      AccountedIs(total, z, k);
      HalvedMore(high, hiz0, fuel);
      legs := [];
      StartsWith(last, first, total, high);
      ChosenIs(weight, wanted, last, candidates);
      if k < kmin {
        SizedFrom();
        IsConcluded(rng.draws, Goal(kmin, kmax, candidates, iter), wanted, Where(), last, first, [],
                    Fee(0.0, high, z, total), Now(), rng.drawn, false);
        return total, k, z, false, 0.0, high, candidates, tries, first, [];
      }
      total, k, z, done, loz, hiz, legs := SearchFee(rng, feasible, kmin, kmax, iter, high, k, total, nproc, fuel);
      IsConcluded(rng.draws, Goal(kmin, kmax, candidates, iter), wanted, Where(), last, first, legs,
                  Fee(loz, hiz, z, total), Now(), rng.drawn, done);
      AccountedFacts(total, z, k);
      SizedFrom();
    }

    twostate lemma WhereIs()
      ensures Where() == Space(coord, weight, dim) && old(Where()) == Space(old(coord), old(weight), dim)
    {
    }

    lemma StartsWith(last: Try, first: Solution, total: real, high: real)
      requires first == Now() && last.z == high / 2.0 && total == Total(last.z, |last.open|)
      ensures FirstFee(last, first) == Fee(0.0, high, high / 2.0, total)
    {
      hide CostSum;
    }
  }

  /** The fee of the last try and its bounds, and the total of the first solution. */
  ghost function FirstFee(last: Try, first: Solution): Fee {
    Fee(0.0, 2.0 * last.z, last.z, CostSum(first.cost, |first.cost|) + Fees(last.z, |last.open|))
  }

  /** The first draw behind the choice of the candidates. */
  ghost function Chosen(weight: seq<real>, wanted: real, last: Try, candidates: seq<nat>): nat {
    Next(last) + if |weight| as real <= wanted then 0 else |candidates|
  }

  lemma ChosenIs(weight: seq<real>, wanted: real, last: Try, candidates: seq<nat>)
    ensures Chosen(weight, wanted, last, candidates)
         == Next(last) + if |weight| as real <= wanted then 0 else |candidates|
  {
    hide Next;
  }

  /** What comes before the search: tries until there are enough centers, candidates, and the solution of the last. */
  ghost predicate Prepared(draws: nat -> Draw, kmin: nat, wanted: real, fuel: nat, sp0: Space, hiz0: real, p: nat,
          sp: Space, tries: seq<Try>, candidates: seq<nat>, first: Solution) {
    && Tries(sp0.dim, draws, kmin, sp0.coord, sp0.weight, hiz0 / 2.0, p, tries)
    && var last := tries[|tries| - 1];
       && sp == Space(last.coord, last.weight, sp0.dim) && (|last.open| >= kmin || |tries| == fuel + 2)
       && Selected(sp.weight, wanted, draws, Next(last), candidates)
       && Nearest(sp, last.open, first)
  }

  /** The search from there on, if there are enough centers. */
  ghost predicate Concluded(draws: nat -> Draw, g: Goal, wanted: real, sp: Space, last: Try, first: Solution,
          legs: seq<Leg>, fee: Fee, now: Solution, p: nat, done: bool) {
    var start, p0 := FirstFee(last, first), Chosen(sp.weight, wanted, last, g.feasible);
    && (|last.open| < g.kmin ==> legs == [])
    && Legs(sp, g, draws, start, first, p0, legs)
    && Stands(g, start, first, p0, legs, fee, now, p, done)
  }

  lemma IsPrepared(draws: nat -> Draw, kmin: nat, wanted: real, fuel: nat, sp0: Space, hiz0: real, p: nat,
                   sp: Space, tries: seq<Try>, candidates: seq<nat>, first: Solution)
    requires tries != [] && Tries(sp0.dim, draws, kmin, sp0.coord, sp0.weight, hiz0 / 2.0, p, tries)
    requires var last := tries[|tries| - 1];
             && sp == Space(last.coord, last.weight, sp0.dim) && (|last.open| >= kmin || |tries| == fuel + 2)
             && Selected(sp.weight, wanted, draws, Next(last), candidates) && Nearest(sp, last.open, first)
    ensures Prepared(draws, kmin, wanted, fuel, sp0, hiz0, p, sp, tries, candidates, first)
  {
    hide Tries, Selected, Nearest;
  }

  lemma IsConcluded(draws: nat -> Draw, g: Goal, wanted: real, sp: Space, last: Try, first: Solution, legs: seq<Leg>,
                    fee: Fee, now: Solution, p: nat, done: bool)
    requires |last.open| < g.kmin ==>
               legs == [] && fee == FirstFee(last, first) && now == first && !done
               && p == Chosen(sp.weight, wanted, last, g.feasible)
    requires |last.open| >= g.kmin ==>
               var start, p0 := FirstFee(last, first), Chosen(sp.weight, wanted, last, g.feasible);
               && Legs(sp, g, draws, start, first, p0, legs)
               && Stands(g, start, first, p0, legs, fee, now, p, done)
    ensures Concluded(draws, g, wanted, sp, last, first, legs, fee, now, p, done)
  {
    hide LegOk, NextFee, Good, FirstFee, Chosen;
  }

  datatype Point = Point(coord: seq<real>, weight: real)

  ghost function PointsOf(coord: seq<seq<real>>, weight: seq<real>): (s: seq<Point>)
    requires |coord| == |weight|
    ensures |s| == |coord| && forall i :: 0 <= i < |s| ==> s[i] == Point(coord[i], weight[i])
  {
    seq(|coord|, i requires 0 <= i < |coord| => Point(coord[i], weight[i]))
  }

  /** The entries of the array of points, with what the search keeps in them. */
  ghost function Entries(coord: seq<seq<real>>, weight: seq<real>, cost: seq<real>, assign: seq<nat>):
      (s: seq<(Point, real, nat)>)
    requires |coord| == |weight| == |cost| == |assign|
    ensures |s| == |coord|
    ensures forall i :: 0 <= i < |s| ==> s[i] == (Point(coord[i], weight[i]), cost[i], assign[i])
  {
    seq(|coord|, i requires 0 <= i < |coord| => (Point(coord[i], weight[i]), cost[i], assign[i]))
  }

  lemma PointsSwapped(coord: seq<seq<real>>, weight: seq<real>, i: nat, j: nat)
    requires i < |coord| == |weight| && j < |coord|
    ensures multiset(PointsOf(Swapped(coord, i, j), Swapped(weight, i, j))) == multiset(PointsOf(coord, weight))
  {
    assert PointsOf(Swapped(coord, i, j), Swapped(weight, i, j)) == Swapped(PointsOf(coord, weight), i, j);
  }

  lemma EntriesSwapped(coord: seq<seq<real>>, weight: seq<real>, cost: seq<real>, assign: seq<nat>, i: nat, j: nat)
    requires i < |coord| == |weight| == |cost| == |assign| && j < |coord|
    ensures multiset(Entries(Swapped(coord, i, j), Swapped(weight, i, j), Swapped(cost, i, j), Swapped(assign, i, j)))
         == multiset(Entries(coord, weight, cost, assign))
  {
    assert Entries(Swapped(coord, i, j), Swapped(weight, i, j), Swapped(cost, i, j), Swapped(assign, i, j))
        == Swapped(Entries(coord, weight, cost, assign), i, j);
  }

  /** The accumulated weight first exceeds w at point r, or nowhere and r is the last point. */
  ghost predicate PlaceOf(weight: seq<real>, w: real, r: nat) {
    && r < |weight|
    && (forall j :: 0 < j <= r ==> CostSum(weight, j) <= w)
    && (r == |weight| - 1 || CostSum(weight, r + 1) > w)
  }

  /** w is a draw up to the total weight, and r its place. */
  ghost predicate Drawn(weight: seq<real>, w: real, r: nat) {
    0.0 <= w <= CostSum(weight, |weight|) && PlaceOf(weight, w, r)
  }

  lemma ChanceIs(rng: Rand48, r: Draw, p: nat)
    requires r == rng.draws(p)
    ensures Fraction(r) == Chance(rng.draws, p) && 0.0 <= Fraction(r) <= 1.0
  {
  }

  lemma PlaceIs(rng: Rand48, r: Draw, p: nat, i: nat, n: nat)
    requires r == rng.draws(p) && i < n
    ensures Place(r, i, n) == From(rng.draws, p, i, n)
  {
  }

  lemma IsDrawn(rng: Rand48, weight: seq<real>, r: Draw, p: nat, total: real, f: nat)
    requires r == rng.draws(p) && total == CostSum(weight, |weight|) >= 0.0
    requires PlaceOf(weight, Fraction(r) * total, f)
    ensures DrawnBy(weight, rng.draws, p, f)
  {
    PartOfTotal(Fraction(r), total);
    ChanceIs(rng, r, p);
    hide Chance, Fraction, PlaceOf;
  }

  lemma PartOfTotal(f: real, total: real)
    requires 0.0 <= f <= 1.0 && total >= 0.0
    ensures 0.0 <= f * total <= total
  {
    ProductNotNegative(f, total);
    ProductNotNegative(1.0 - f, total);
    assert (1.0 - f) * total == total - f * total;
  }

  /** Draw p, as a part of the total weight, is in place r. */
  ghost predicate DrawnBy(weight: seq<real>, draws: nat -> Draw, p: nat, r: nat) {
    Drawn(weight, Chance(draws, p) * CostSum(weight, |weight|), r)
  }

  /** The candidates: all points if no more are wanted, otherwise as many as wanted, by the draws from p on. */
  ghost predicate Selected(weight: seq<real>, wanted: real, draws: nat -> Draw, p: nat, feasible: seq<nat>) {
    if |weight| as real <= wanted then feasible == seq(|weight|, i => i)
    else |feasible| == wanted.Floor && forall i :: 0 <= i < |feasible| ==> DrawnBy(weight, draws, p + i, feasible[i])
  }

  lemma IsSelected(weight: seq<real>, wanted: real, draws: nat -> Draw, p: nat, feasible: seq<nat>)
    requires |weight| as real > wanted && |feasible| == wanted.Floor
    requires forall i :: 0 <= i < |feasible| ==> DrawnBy(weight, draws, p + i, feasible[i])
    ensures Selected(weight, wanted, draws, p, feasible)
  {
    hide DrawnBy;
  }

  lemma SelectedFacts(weight: seq<real>, wanted: real, draws: nat -> Draw, p: nat, feasible: seq<nat>)
    requires Selected(weight, wanted, draws, p, feasible) && wanted >= 1.0 && weight != []
    ensures feasible != [] && forall f :: f in feasible ==> f < |weight|
  {
    hide Chance;
  }

  /** A draw has one place, and but for the last point none of weight 0 is ever drawn. */
  lemma DrawnOnce(weight: seq<real>, w: real, r: nat, r': nat)
    requires Drawn(weight, w, r) && Drawn(weight, w, r')
    ensures r == r' && (weight[r] > 0.0 || r == |weight| - 1)
  {
    assert r > 0 ==> CostSum(weight, r) <= w;
    assert CostSum(weight, 0) == 0.0;
  }

  lemma {:induction false} Accumulated(weight: seq<real>, m: nat, n: nat)
    requires m <= n <= |weight| && forall i :: 0 <= i < |weight| ==> weight[i] >= 0.0
    ensures CostSum(weight, m) <= CostSum(weight, n)
  {
    if m < n { Accumulated(weight, m, n - 1); }
  }

  /** Each point costs its weighted distance to the center it belongs to. */
  ghost predicate Priced(sp: Space, s: Solution)
    requires Fits(sp, s)
  {
    forall i :: 0 <= i < |sp.coord| ==> s.cost[i] == SqDist(sp.coord[i], sp.coord[s.assign[i]], sp.dim) * sp.weight[i]
  }

  /**
   * If the last round has given every candidate its turn and gained nothing, the solution is a local optimum: to
   * open a candidate and shut any of the centers lowers the total for none.
   */
  lemma LocalOptimum(sp: Space, s: Solution, z: real, cost: real, feasible: seq<nat>, iter: nat, e: real,
          s0: Solution, order: seq<nat>, x: nat, closed: set<nat>)
    requires SettledBy(sp, s, z, cost, feasible, iter, e, s0, order) && Gained(sp, s0, z, order, iter) == 0.0
    requires |order| <= iter && x in feasible && z >= 0.0
    requires Fits(sp, s) && Priced(sp, s) && closed <= CenterSet(s.isCenter)
    ensures s == s0 && x < |sp.coord|
    ensures Potential(ViewAt(sp, s, x), z, CenterSet(s.isCenter), closed, x)
         >= CostSum(s.cost, |s.cost|) + Fees(z, |CenterSet(s.isCenter)|)
  {
    assert x in multiset(feasible);
    assert x in order;
    hide Gained, AfterTurns, Potential, OpeningCost, Fees, CostSum, Best, SettledBy;
    SettledIs(sp, s, z, cost, feasible, iter, e, s0, order);
    NonePays(sp, s0, z, order, iter, x);
    SeenAt(sp, s, z, x);
    ActsIffSomeChoicePays(ViewAt(sp, s, x), z, CenterSet(s.isCenter), x);
  }

  lemma SettledIs(sp: Space, s: Solution, z: real, cost: real, feasible: seq<nat>, iter: nat, e: real,
          s0: Solution, order: seq<nat>)
    requires SettledBy(sp, s, z, cost, feasible, iter, e, s0, order)
    ensures Fits(sp, s0) && Candidates(sp, order) && s == AfterTurns(sp, s0, z, order, iter)
  {
    hide Fits, Candidates, Gained;
  }

  lemma PricedAt(sp: Space, s: Solution, i: nat)
    requires Fits(sp, s) && Priced(sp, s) && i < |sp.coord|
    ensures SpaceOk(sp) && s.assign[i] < |sp.coord| && s.cost[i] == CostAt(sp, i, s.assign[i])
  {
    hide SqDist;
  }

  lemma PriceListAt(sp: Space, s: Solution, x: nat, i: nat)
    requires Fits(sp, s) && x < |sp.coord| && i < |sp.coord|
    ensures SpaceOk(sp)
    ensures ViewAt(sp, s, x).cost == s.cost && ViewAt(sp, s, x).assign == s.assign
    ensures |ViewAt(sp, s, x).xCost| == |sp.coord| && ViewAt(sp, s, x).xCost[i] == CostAt(sp, i, x)
  {
    hide SqDist;
  }

  lemma SeenAt(sp: Space, s: Solution, z: real, x: nat)
    requires Fits(sp, s) && Priced(sp, s) && x < |sp.coord| && z >= 0.0
    ensures CandidateOk(ViewAt(sp, s, x), z, CenterSet(s.isCenter), x)
    ensures ViewAt(sp, s, x).cost == s.cost
  {
    var v := ViewAt(sp, s, x);
    PriceListAt(sp, s, x, x);
    hide CostAt, ViewAt, Priced, PriceList;
    forall i | 0 <= i < |v.cost| && v.assign[i] == x ensures v.xCost[i] == v.cost[i] {
      PriceListAt(sp, s, x, i);
      PricedAt(sp, s, i);
    }
  }

  /** The total for fee y, when it is `total` for fee z. */
  ghost function Recosted(total: real, z: real, y: real, k: nat): real {
    total - (z - y) * (k as real)
  }

  lemma RecostedIs(total: real, z: real, y: real, k: nat)
    ensures Recosted(total + (z - y) * (k as real), z, y, k) == total
  {
  }

  /** x halved r times. */
  function Halved(x: real, r: nat): real {
    if r == 0 then x else Halved(x, r - 1) / 2.0
  }

  lemma HalvedNone(x: real)
    ensures Halved(x, 0) == x
  {
  }

  lemma HalvedOnce(x: real, r: nat)
    ensures Halved(x, r + 1) == Halved(x, r) / 2.0
  {
  }

  lemma {:induction false} HalvedMore(x: real, y: real, r: nat)
    requires x <= y
    ensures Halved(x, r) <= Halved(y, r)
  {
    if r > 0 { HalvedMore(x, y, r - 1); }
  }

  lemma TriesAre1()
    ensures SP == 1
  {
  }

  lemma NothingReached(n: nat, nproc: nat, cost: seq<real>)
    ensures Reached(n, nproc, 0) == 0 && CostSum(cost, 0) == 0.0
  {
  }

  lemma PositiveIfChosen(random: real, cost: real, z: real)
    requires z > 0.0 && random >= 0.0
    ensures random < cost / z ==> cost > 0.0
  {
    if cost <= 0.0 { NotPositive(cost, z); }
  }

  lemma NotPositive(cost: real, z: real)
    requires z > 0.0 && cost <= 0.0
    ensures cost / z <= 0.0
  {
    var q := cost / z;
    assert q * z == cost;
    if q > 0.0 { PositiveProduct(q, z); }
  }

  lemma Distribute(z: real, z': real, r: real)
    ensures (z' - z) * r == z' * r - z * r
  {
  }

  /** A bound on the rounds still to come. */
  ghost function Steps(total: real, d: real): nat {
    if d > 0.0 && total >= 0.0 then StepsFloor(total, d) else 0
  }

  ghost function StepsFloor(total: real, d: real): nat
    requires d > 0.0 && total >= 0.0
  {
    QuotientNotNegative(total, d);
    (total / d).Floor
  }

  lemma QuotientNotNegative(total: real, d: real)
    requires d > 0.0 && total >= 0.0
    ensures total / d >= 0.0
  {
  }

  lemma PositiveProduct(a: real, b: real)
    requires a > 0.0 && b > 0.0
    ensures a * b > 0.0
  {
  }

  lemma PaysEnough(after: real, change: real, z: real, e: real)
    requires after >= z > 0.0 && e > 0.0 && change / after > e
    ensures change > e * z
  {
    QuotientAbove(change, after, e);
    Monotone(e, z, after);
  }

  /** A round after which the search goes on has gained more than e times the fee. */
  lemma RoundPays(before: real, after: real, change: real, z: real, e: real)
    requires after == before - change && after >= z > 0.0 && e > 0.0 && change / after > e
    ensures Steps(after, e * z) < Steps(before, e * z)
  {
    var d := e * z;
    PositiveProduct(e, z);
    PaysEnough(after, change, z, e);
    DropByOne(before, after, d);
  }

  lemma QuotientOfSame(a: real)
    requires a > 0.0
    ensures a / a == 1.0
  {
  }

  lemma QuotientIff(a: real, b: real, e: real)
    requires b > 0.0
    ensures a / b > e <==> a > e * b
  {
    var q := a / b;
    assert q * b == a;
    if q > e { Scale(q, e, b); }
    if q < e { Scale(e, q, b); }
  }

  lemma QuotientAbove(a: real, b: real, e: real)
    requires b > 0.0 && a / b > e
    ensures a > e * b
  {
    var q := a / b;
    assert q * b == a;
    Scale(q, e, b);
  }

  lemma Scale(q: real, e: real, b: real)
    requires q > e && b > 0.0
    ensures q * b > e * b
  {
    PositiveProduct(q - e, b);
    assert (q - e) * b == q * b - e * b;
  }

  lemma Monotone(e: real, a: real, b: real)
    requires e > 0.0 && a <= b
    ensures e * a <= e * b
  {
    if a < b {
      PositiveProduct(e, b - a);
      assert e * (b - a) == e * b - e * a;
    }
  }

  lemma QuotientDrop(p: real, q: real, d: real, a: real, b: real)
    requires d > 0.0 && p * d == a && q * d == b && a + d <= b
    ensures q >= p + 1.0
  {
    OneMore(p, d);
    if q < p + 1.0 { Scale(p + 1.0, q, d); }
  }

  lemma QuotientTimes(a: real, d: real) returns (q: real)
    requires d > 0.0
    ensures q == a / d && q * d == a
  {
    q := a / d;
  }

  lemma DropByOne(before: real, after: real, d: real)
    requires d > 0.0 && after >= 0.0 && before >= after + d
    ensures Steps(after, d) < Steps(before, d)
  {
    var p := QuotientTimes(after, d);
    var q := QuotientTimes(before, d);
    QuotientDrop(p, q, d, after, before);
    QuotientNotNegative(after, d);
    QuotientNotNegative(before, d);
    FloorDrop(p, q);
  }

  lemma FloorDrop(p: real, q: real)
    requires q >= p + 1.0
    ensures p.Floor < q.Floor
  {
  }

  lemma OneMore(p: real, d: real)
    ensures (p + 1.0) * d == p * d + d
  {
  }

  lemma ProductNotNegative(a: real, b: real)
    requires a >= 0.0 && b >= 0.0
    ensures a * b >= 0.0
  {
  }

  lemma {:induction false} CostSumNotNegative(cost: seq<real>, n: nat)
    requires n <= |cost| && forall i :: 0 <= i < n ==> cost[i] >= 0.0
    ensures CostSum(cost, n) >= 0.0
  {
    if n > 0 { CostSumNotNegative(cost, n - 1); }
  }

  lemma {:induction false} FeesAtLeastOne(z: real, k: nat)
    requires z >= 0.0
    ensures Fees(z, k) >= 0.0 && (k >= 1 ==> Fees(z, k) >= z)
  {
    if k > 0 { FeesAtLeastOne(z, k - 1); }
  }

  /** Every order the random swaps may give. */
  lemma Commute(a: real, b: real)
    ensures a * b == b * a
  {
  }

  lemma {:induction false} CostSumNew(v: View, closed: set<nat>, cost: seq<real>, n: nat)
    requires ViewOk(v) && n <= |cost| == |v.cost| && forall j :: 0 <= j < |cost| ==> cost[j] == NewCost(v, closed, j)
    ensures CostSum(cost, n) == NewSum(v, closed, n)
  {
    if n > 0 { CostSumNew(v, closed, cost, n - 1); }
  }

  lemma ClosesBest(v: View, z: real, isCenter: seq<bool>, table: seq<nat>, low: seq<real>)
    requires ViewOk(v) && |isCenter| == |v.cost| && TableOk(isCenter, table, |low|)
    requires LowersOk(v, z, isCenter, table, low, |v.cost|)
    ensures CloseOk(isCenter, table, low, Best(v, z, CenterSet(isCenter)))
  {
  }

  /** The number of centers afterwards, as the program counts it. */
  lemma ClosingCount(v: View, z: real, centers: set<nat>, x: nat, closing: nat)
    requires ViewOk(v) && CandidateOk(v, z, centers, x)
    requires closing == CountIn(Best(v, z, centers), |v.cost|)
    ensures closing <= |centers|
    ensures |centers| + 1 - closing
              == |After(centers, Best(v, z, centers), x)| + (if x in centers && z == 0.0 then 1 else 0)
    ensures Fees(z, |centers| + 1 - closing) == Fees(z, |After(centers, Best(v, z, centers), x)|)
  {
    var best := Best(v, z, centers);
    CountAll(best, |v.cost|);
    SubsetSize(best, centers);
    assert |centers - best| == |centers| - |best|;
    if x in centers {
      OwnMembersSaveNothing(v, x, |v.cost|);
      assert x in best <==> z > 0.0;
    }
    if x in centers && z == 0.0 {
      assert After(centers, best, x) == centers - best;
      FeesIs(0.0, |centers| + 1 - closing);
      FeesIs(0.0, |centers - best|);
    } else {
      assert x !in centers - best;
    }
  }

  /** Points at 0, 10 and 4 on a line, with centers at the first two, seen from the first. */
  function OnLine(): (v: View)
    ensures ViewOk(v)
  {
    View([0.0, 0.0, 36.0], [0, 1, 1], [0.0, 100.0, 16.0])
  }

  lemma SumsOnLine()
    ensures SaveSum(OnLine(), 0, 0, 3) == 0.0 && SaveSum(OnLine(), 1, 0, 3) == -100.0
    ensures SwitchSum(OnLine(), 0, 3) == -20.0
  {
    SumsBelow2();
    assert SwitchSum(OnLine(), 0, 3) == SwitchSum(OnLine(), 0, 2) - 20.0;
  }

  lemma SumsBelow2()
    ensures SaveSum(OnLine(), 0, 0, 2) == 0.0 && SaveSum(OnLine(), 1, 0, 2) == -100.0
    ensures SwitchSum(OnLine(), 0, 2) == 0.0
  {
    assert SaveSum(OnLine(), 0, 0, 1) == 0.0 && SaveSum(OnLine(), 1, 0, 1) == 0.0;
    assert SwitchSum(OnLine(), 0, 1) == 0.0;
  }

  lemma {:induction false} NothingClosed(v: View, z: real, m: nat)
    requires ViewOk(v)
    ensures LowerSum(v, z, {}, m) == 0.0 && CountIn({}, m) == 0
  {
    if m > 0 { NothingClosed(v, z, m - 1); }
  }

  /**
   * A solution for which that count is one too many: without a fee it pays to open the first center once more, for
   * the third point, and none is closed.
   */
  lemma CountTooHigh()
    ensures var v, centers := OnLine(), {0, 1};
            && |v.cost| == 3 && CandidateOk(v, 0.0, centers, 0) && OpeningCost(v, 0.0, centers) == -20.0
            && |centers| + 1 - CountIn(Best(v, 0.0, centers), 3) == |After(centers, Best(v, 0.0, centers), 0)| + 1
  {
    var v, centers := OnLine(), {0, 1};
    SumsOnLine();
    hide SaveSum, SwitchSum, LowerSum, CountIn;
    assert Best(v, 0.0, centers) == {};
    NothingClosed(v, 0.0, 3);
    assert After(centers, {}, 0) == centers;
  }

  lemma SubsetSize(a: set<nat>, b: set<nat>)
    requires a <= b
    ensures |a| <= |b|
  {
    assert b == a + (b - a);
    assert |b| == |a| + |b - a|;
  }

  /** pgain acts exactly when some way of opening x lowers the total. */
  lemma ActsIffSomeChoicePays(v: View, z: real, centers: set<nat>, x: nat)
    requires ViewOk(v) && CandidateOk(v, z, centers, x)
    ensures OpeningCost(v, z, centers) < 0.0
            <==> exists closed ::
              closed <= centers
              && Potential(v, z, centers, closed, x) < CostSum(v.cost, |v.cost|) + Fees(z, |centers|)
  {
    GainIsExact(v, z, centers, x);
    var best := Best(v, z, centers);
    assert best <= centers;
    forall closed | closed <= centers ensures Potential(v, z, centers, best, x) <= Potential(v, z, centers, closed, x) {
      BestIsOptimal(v, z, centers, x, closed);
    }
  }

  /** The slots of the centers below i hold lower fields, those of the others still the bare savings. */
  ghost predicate LowersOk(v: View, z: real, isCenter: seq<bool>, table: seq<nat>, low: seq<real>, i: nat)
    requires ViewOk(v) && |isCenter| == |v.cost| && TableOk(isCenter, table, |low|)
  {
    forall c :: 0 <= c < |isCenter| && isCenter[c] ==>
      low[table[c]] == if c < i then Lower(v, z, c) else SaveSum(v, c, 0, |v.cost|)
  }

  /** A center is closed exactly if its slot is positive. */
  ghost predicate CloseOk(isCenter: seq<bool>, table: seq<nat>, low: seq<real>, closed: set<nat>)
    requires TableOk(isCenter, table, |low|)
  {
    forall c :: 0 <= c < |isCenter| && isCenter[c] ==> (low[table[c]] > 0.0 <==> c in closed)
  }

  lemma NoMarks(v: View, marks: seq<bool>)
    requires ViewOk(v) && |marks| == |v.cost|
    ensures Marked(v, marks, marks, 0, 0)
  {
  }

  lemma AllMarked(v: View, marks: seq<bool>, before: seq<bool>)
    requires ViewOk(v) && Marked(v, marks, before, 0, |v.cost|)
    ensures |marks| == |v.cost| && forall i :: 0 <= i < |v.cost| ==> marks[i] == Switches(v, i)
  {
  }

  lemma MarkedMore(v: View, a: seq<bool>, b: seq<bool>, c: seq<bool>, k1: nat, k2: nat)
    requires ViewOk(v) && k1 <= k2 && Marked(v, b, a, 0, k1) && Marked(v, c, b, k1, k2)
    ensures Marked(v, c, a, 0, k2)
  {
  }

  /** How far the first p blocks reach. */
  function Reached(n: nat, nproc: nat, p: nat): nat
    requires p <= nproc
  {
    if p == 0 then 0 else BlockEnd(n, nproc, p - 1)
  }

  lemma ReachedIs(n: nat, nproc: nat, p: nat)
    requires p < nproc
    ensures Reached(n, nproc, p) == BlockStart(n, nproc, p) && Reached(n, nproc, p + 1) == BlockEnd(n, nproc, p)
  {
    if p > 0 { BlockBounds(n, nproc, p - 1); }
  }

  lemma ReachedAll(n: nat, nproc: nat)
    requires 0 < nproc
    ensures Reached(n, nproc, nproc) == n
  {
  }

  /** What one block job hands in. */
  ghost predicate RowOk(v: View, isCenter: seq<bool>, table: seq<nat>, row: seq<real>, count: nat, k1: nat, k2: nat)
    requires ViewOk(v) && |isCenter| == |v.cost| && TableOk(isCenter, table, count) && k2 <= |v.cost|
  {
    && |row| == count + 1 && row[count] == SwitchSum(v, k1, k2)
    && forall c :: 0 <= c < |isCenter| && isCenter[c] ==> row[table[c]] == SaveSum(v, c, k1, k2)
  }

  ghost predicate RowsOk(v: View, isCenter: seq<bool>, table: seq<nat>, rows: seq<seq<real>>, count: nat, nproc: nat)
    requires ViewOk(v) && |isCenter| == |v.cost| && TableOk(isCenter, table, count)
  {
    |rows| <= nproc && forall q :: 0 <= q < |rows| ==>
      BlockEnd(|v.cost|, nproc, q) <= |v.cost|
      && RowOk(v, isCenter, table, rows[q], count, BlockStart(|v.cost|, nproc, q), BlockEnd(|v.cost|, nproc, q))
  }

  lemma RowsMore(v: View, isCenter: seq<bool>, table: seq<nat>, rows: seq<seq<real>>, count: nat, nproc: nat,
          saves: seq<real>, opening: real)
    requires ViewOk(v) && |isCenter| == |v.cost| && TableOk(isCenter, table, count) && |saves| == count
    requires RowsOk(v, isCenter, table, rows, count, nproc) && |rows| < nproc
    requires BlockStart(|v.cost|, nproc, |rows|) <= BlockEnd(|v.cost|, nproc, |rows|) <= |v.cost|
    requires SavesOk(v, isCenter, table, saves, BlockStart(|v.cost|, nproc, |rows|), BlockEnd(|v.cost|, nproc, |rows|))
    requires opening == SwitchSum(v, BlockStart(|v.cost|, nproc, |rows|), BlockEnd(|v.cost|, nproc, |rows|))
    ensures RowsOk(v, isCenter, table, rows + [saves + [opening]], count, nproc)
  {
    hide SaveSum, SwitchSum, BlockStart, BlockEnd;
  }

  lemma RowsWidth(v: View, isCenter: seq<bool>, table: seq<nat>, rows: seq<seq<real>>, count: nat, nproc: nat)
    requires ViewOk(v) && |isCenter| == |v.cost| && TableOk(isCenter, table, count)
    requires RowsOk(v, isCenter, table, rows, count, nproc)
    ensures forall q :: 0 <= q < |rows| ==> |rows[q]| == count + 1
  {
  }

  /** Column by column the blocks' parts add up to the sums over all points, whatever the blocks. */
  lemma {:induction false} ColumnTotals(v: View, isCenter: seq<bool>, table: seq<nat>, rows: seq<seq<real>>,
          count: nat, nproc: nat, p: nat)
    requires ViewOk(v) && |isCenter| == |v.cost| && TableOk(isCenter, table, count)
    requires RowsOk(v, isCenter, table, rows, count, nproc)
    requires p <= |rows| && forall q :: 0 <= q < |rows| ==> |rows[q]| == count + 1
    ensures Reached(|v.cost|, nproc, p) <= |v.cost|
    ensures ColumnSum(rows, count, p) == SwitchSum(v, 0, Reached(|v.cost|, nproc, p))
    ensures forall c :: 0 <= c < |isCenter| && isCenter[c] ==>
              ColumnSum(rows, table[c], p) == SaveSum(v, c, 0, Reached(|v.cost|, nproc, p))
  {
    if p > 0 {
      var n := |v.cost|;
      ColumnTotals(v, isCenter, table, rows, count, nproc, p - 1);
      BlockBounds(n, nproc, p - 1);
      ReachedIs(n, nproc, p - 1);
      var k1, k2 := BlockStart(n, nproc, p - 1), BlockEnd(n, nproc, p - 1);
      assert RowOk(v, isCenter, table, rows[p - 1], count, k1, k2);
      SumsJoin(v, 0, 0, k1, k2);
      hide SaveSum, SwitchSum, BlockStart, BlockEnd, Reached;
      forall c | 0 <= c < |isCenter| && isCenter[c] ensures ColumnSum(rows, table[c], p) == SaveSum(v, c, 0, k2) {
        SumsJoin(v, c, 0, k1, k2);
      }
    }
  }

  lemma Columns(v: View, isCenter: seq<bool>, table: seq<nat>, rows: seq<seq<real>>, count: nat, nproc: nat,
          sums: seq<real>)
    requires ViewOk(v) && |isCenter| == |v.cost| && TableOk(isCenter, table, count)
    requires RowsOk(v, isCenter, table, rows, count, nproc)
    requires 0 < nproc == |rows| && |sums| == count + 1 && (forall q :: 0 <= q < |rows| ==> |rows[q]| == count + 1)
    requires forall j :: 0 <= j < count + 1 ==> sums[j] == ColumnSum(rows, j, |rows|)
    ensures sums[count] == SwitchSum(v, 0, |v.cost|) && SavesOk(v, isCenter, table, sums[..count], 0, |v.cost|)
  {
    ColumnTotals(v, isCenter, table, rows, count, nproc, nproc);
    ReachedAll(|v.cost|, nproc);
    hide SaveSum, SwitchSum, Reached, ColumnSum;
  }

  /** The switch flags of the points in [k1, i) are set as the view says, the others untouched. */
  ghost predicate Marked(v: View, marks: seq<bool>, before: seq<bool>, k1: nat, i: nat)
    requires ViewOk(v)
  {
    && |marks| == |before| == |v.cost|
    && forall j :: 0 <= j < |marks| ==> marks[j] == if k1 <= j < i then Switches(v, j) else before[j]
  }

  lemma MarkedNone(v: View, marks: seq<bool>, k1: nat)
    requires ViewOk(v) && |marks| == |v.cost|
    ensures Marked(v, marks, marks, k1, k1)
  {
  }

  lemma MarkedNext(v: View, marks: seq<bool>, before: seq<bool>, k1: nat, i: nat)
    requires ViewOk(v) && Marked(v, marks, before, k1, i) && k1 <= i < |v.cost|
    ensures i < |marks| && Marked(v, marks[i := Switches(v, i)], before, k1, i + 1)
  {
    hide Switches;
  }

  lemma NothingSaved(v: View, isCenter: seq<bool>, table: seq<nat>, saves: seq<real>, lo: nat)
    requires ViewOk(v) && lo <= |v.cost| && |isCenter| == |v.cost| && TableOk(isCenter, table, |saves|)
    requires forall j :: 0 <= j < |saves| ==> saves[j] == 0.0
    ensures SavesOk(v, isCenter, table, saves, lo, lo) && SwitchSum(v, lo, lo) == 0.0
  {
  }
}
