/** canneal's netlist: building fan-in and fan-out lists, routing cost, and the incremental cost of a swap. */
module Netlist {
  datatype Loc = Loc(x: int, y: int)

  /** A net leads from a driver to an element that has it as fan-in. */
  datatype Net = Net(driver: nat, sink: nat)

  function Abs(x: int): (r: nat) {
    if x < 0 then -x else x
  }

  /** Manhattan distance. */
  function Dist(a: Loc, b: Loc): nat {
    Abs(a.x - b.x) + Abs(a.y - b.y)
  }

  /** The way along both axes, no shorter by way of a third place. */
  lemma DistIs(a: Loc, b: Loc, via: Loc)
    ensures a.x <= b.x && a.y <= b.y ==> Dist(a, b) == (b.x - a.x) + (b.y - a.y)
    ensures a.x <= b.x && b.y <= a.y ==> Dist(a, b) == (b.x - a.x) + (a.y - b.y)
    ensures Dist(a, b) == Dist(b, a) <= Dist(a, via) + Dist(via, b)
  {
  }

  lemma DistSymmetric(a: Loc, b: Loc)
    ensures Dist(a, b) == Dist(b, a) && Dist(a, a) == 0 && (Dist(a, b) == 0 <==> a == b)
  {
  }

  // ---- Nets and the lists built from them --------------------------------------------------------

  ghost function FaninOf(nets: seq<Net>, e: nat): seq<nat> {
    if nets == [] then []
    else FaninOf(nets[..|nets| - 1], e) + (if nets[|nets| - 1].sink == e then [nets[|nets| - 1].driver] else [])
  }

  ghost function FanoutOf(nets: seq<Net>, e: nat): seq<nat> {
    if nets == [] then []
    else FanoutOf(nets[..|nets| - 1], e) + (if nets[|nets| - 1].driver == e then [nets[|nets| - 1].sink] else [])
  }

  ghost predicate NetsOk(nets: seq<Net>, n: nat) {
    forall k :: 0 <= k < |nets| ==> nets[k].driver < n && nets[k].sink < n
  }

  ghost predicate InRange(ids: seq<nat>, n: nat) {
    forall k :: 0 <= k < |ids| ==> ids[k] < n
  }

  lemma {:induction false} ListsInRange(nets: seq<Net>, e: nat, n: nat)
    requires NetsOk(nets, n)
    ensures InRange(FaninOf(nets, e), n) && InRange(FanoutOf(nets, e), n)
  {
    if nets != [] { ListsInRange(nets[..|nets| - 1], e, n); }
  }

  /** Sum of the distances from l to the elements listed. */
  ghost function SumDist(l: Loc, ids: seq<nat>, loc: seq<Loc>): nat
    requires InRange(ids, |loc|)
  {
    if ids == [] then 0 else SumDist(l, ids[..|ids| - 1], loc) + Dist(l, loc[ids[|ids| - 1]])
  }

  lemma SumDistAppend(l: Loc, ids: seq<nat>, id: nat, loc: seq<Loc>)
    requires InRange(ids, |loc|) && id < |loc|
    ensures InRange(ids + [id], |loc|) && SumDist(l, ids + [id], loc) == SumDist(l, ids, loc) + Dist(l, loc[id])
  {
    assert (ids + [id])[..|ids|] == ids;
  }

  ghost function CostAt(nets: seq<Net>, loc: seq<Loc>, e: nat, l: Loc): nat
    requires NetsOk(nets, |loc|)
  {
    ListsInRange(nets, e, |loc|);
    SumDist(l, FaninOf(nets, e), loc) + SumDist(l, FanoutOf(nets, e), loc)
  }

  /** The length of all nets: what total_routing_cost is meant to be. */
  ghost function WireLength(nets: seq<Net>, loc: seq<Loc>): nat
    requires NetsOk(nets, |loc|)
  {
    if nets == [] then 0
    else WireLength(nets[..|nets| - 1], loc) + Dist(loc[nets[|nets| - 1].driver], loc[nets[|nets| - 1].sink])
  }

  lemma CostAtAppend(nets: seq<Net>, net: Net, loc: seq<Loc>, e: nat, l: Loc)
    requires NetsOk(nets, |loc|) && net.driver < |loc| && net.sink < |loc|
    ensures NetsOk(nets + [net], |loc|)
    ensures CostAt(nets + [net], loc, e, l) == CostAt(nets, loc, e, l)
            + (if net.sink == e then Dist(l, loc[net.driver]) else 0)
                + (if net.driver == e then Dist(l, loc[net.sink]) else 0)
  {
    hide Dist;
    assert (nets + [net])[..|nets|] == nets;
    ListsInRange(nets, e, |loc|);
    ListsInRange(nets + [net], e, |loc|);
    assert FaninOf(nets + [net], e) == FaninOf(nets, e) + (if net.sink == e then [net.driver] else []);
    assert FanoutOf(nets + [net], e) == FanoutOf(nets, e) + (if net.driver == e then [net.sink] else []);
    assert FaninOf(nets, e) + [] == FaninOf(nets, e) && FanoutOf(nets, e) + [] == FanoutOf(nets, e);
    SumDistAppend(l, FaninOf(nets, e), net.driver, loc);
    SumDistAppend(l, FanoutOf(nets, e), net.sink, loc);
  }

  /** Sum of the costs of the elements below n, each at its own location. */
  ghost function ElementCosts(nets: seq<Net>, loc: seq<Loc>, n: nat): nat
    requires NetsOk(nets, |loc|) && n <= |loc|
  {
    if n == 0 then 0 else ElementCosts(nets, loc, n - 1) + CostAt(nets, loc, n - 1, loc[n - 1])
  }

  lemma {:induction false} NoNetsNoCost(loc: seq<Loc>, n: nat)
    requires n <= |loc|
    ensures ElementCosts([], loc, n) == 0
  {
    if n > 0 { NoNetsNoCost(loc, n - 1); }
  }

  lemma NetsAppend(nets: seq<Net>, net: Net, n: nat)
    requires NetsOk(nets, n) && net.driver < n && net.sink < n
    ensures NetsOk(nets + [net], n)
  {
  }

  lemma ElementCosts0(nets: seq<Net>, loc: seq<Loc>)
    requires NetsOk(nets, |loc|)
    ensures ElementCosts(nets, loc, 0) == 0
  {
  }

  lemma ElementCostsIs(nets: seq<Net>, loc: seq<Loc>, n: nat)
    requires NetsOk(nets, |loc|) && 0 < n <= |loc|
    ensures ElementCosts(nets, loc, n) == ElementCosts(nets, loc, n - 1) + CostAt(nets, loc, n - 1, loc[n - 1])
  {
  }

  lemma WireAppend(nets: seq<Net>, net: Net, loc: seq<Loc>)
    requires NetsOk(nets, |loc|) && net.driver < |loc| && net.sink < |loc|
    ensures NetsOk(nets + [net], |loc|)
    ensures WireLength(nets + [net], loc) == WireLength(nets, loc) + Dist(loc[net.driver], loc[net.sink])
  {
    assert (nets + [net])[..|nets|] == nets;
  }

  lemma {:induction false} ElementCostsAppend(nets: seq<Net>, net: Net, loc: seq<Loc>, n: nat)
    requires NetsOk(nets, |loc|) && n <= |loc| && net.driver < |loc| && net.sink < |loc|
    ensures NetsOk(nets + [net], |loc|)
    ensures ElementCosts(nets + [net], loc, n) == ElementCosts(nets, loc, n)
            + (if net.sink < n then Dist(loc[net.sink], loc[net.driver]) else 0)
            + (if net.driver < n then Dist(loc[net.driver], loc[net.sink]) else 0)
  {
    hide *;
    NetsAppend(nets, net, |loc|);
    if n == 0 {
      ElementCosts0(nets, loc);
      ElementCosts0(nets + [net], loc);
    } else {
      ElementCostsIs(nets, loc, n);
      ElementCostsIs(nets + [net], loc, n);
      ElementCostsAppend(nets, net, loc, n - 1);
      CostAtAppend(nets, net, loc, n - 1, loc[n - 1]);
    }
  }

  /** Summing fan-in and fan-out over all elements counts every net twice. */
  lemma {:induction false} DoubleCounted(nets: seq<Net>, loc: seq<Loc>)
    requires NetsOk(nets, |loc|)
    ensures ElementCosts(nets, loc, |loc|) == 2 * WireLength(nets, loc)
  {
    if nets == [] {
      NoNetsNoCost(loc, |loc|);
    } else {
      var front, net := nets[..|nets| - 1], nets[|nets| - 1];
      assert nets == front + [net];
      DoubleCounted(front, loc);
      hide *;
      ElementCostsAppend(front, net, loc, |loc|);
      WireAppend(front, net, loc);
      DistSymmetric(loc[net.driver], loc[net.sink]);
    }
  }

  // ---- The cost of a swap ------------------------------------------------------------------------

  /** What calculate_delta_routing_cost adds up. */
  ghost function Delta(nets: seq<Net>, loc: seq<Loc>, a: nat, b: nat): int
    requires NetsOk(nets, |loc|) && a < |loc| && b < |loc|
  {
    CostAt(nets, loc, a, loc[b]) - CostAt(nets, loc, a, loc[a])
        + (CostAt(nets, loc, b, loc[a]) - CostAt(nets, loc, b, loc[b]))
  }

  function Exchanged(loc: seq<Loc>, a: nat, b: nat): (s: seq<Loc>)
    requires a < |loc| && b < |loc|
    ensures |s| == |loc|
  {
    loc[a := loc[b]][b := loc[a]]
  }

  /** The number of nets that join a and b. */
  ghost function Joining(nets: seq<Net>, a: nat, b: nat): nat {
    if nets == [] then 0
    else
      var net := nets[|nets| - 1];
      Joining(nets[..|nets| - 1], a, b)
          + (if (net.driver == a && net.sink == b) || (net.driver == b && net.sink == a) then 1 else 0)
  }

  /** The number of nets from e to itself. */
  ghost function SelfNets(nets: seq<Net>, e: nat): nat {
    if nets == [] then 0
    else SelfNets(nets[..|nets| - 1], e) + (if nets[|nets| - 1] == Net(e, e) then 1 else 0)
  }

  ghost function Times(k: nat, d: nat): nat {
    if k == 0 then 0 else Times(k - 1, d) + d
  }

  lemma {:induction false} TimesIs(k: nat, d: nat)
    ensures Times(k, d) == k * d
  {
    if k > 0 { TimesIs(k - 1, d); }
  }

  /** One net's share of the error of the delta. */
  lemma NetShare(net: Net, loc: seq<Loc>, a: nat, b: nat)
    requires net.driver < |loc| && net.sink < |loc| && a < |loc| && b < |loc| && a != b
    ensures var l, d := Exchanged(loc, a, b), Dist(loc[a], loc[b]);
            var delta := (if net.sink == a then Dist(loc[b], loc[net.driver]) - Dist(loc[a], loc[net.driver]) else 0)
                       + (if net.driver == a then Dist(loc[b], loc[net.sink]) - Dist(loc[a], loc[net.sink]) else 0)
                       + (if net.sink == b then Dist(loc[a], loc[net.driver]) - Dist(loc[b], loc[net.driver]) else 0)
                       + (if net.driver == b then Dist(loc[a], loc[net.sink]) - Dist(loc[b], loc[net.sink]) else 0);
            delta == Dist(l[net.driver], l[net.sink]) - Dist(loc[net.driver], loc[net.sink])
                   - (if (net.driver == a && net.sink == b) || (net.driver == b && net.sink == a) then 2 * d else 0)
                   + (if net == Net(a, a) then 2 * d else 0) + (if net == Net(b, b) then 2 * d else 0)
  {
    DistSymmetric(loc[a], loc[b]);
    DistSymmetric(loc[net.driver], loc[net.sink]);
    DistSymmetric(loc[a], loc[net.sink]);
    DistSymmetric(loc[b], loc[net.sink]);
    DistSymmetric(loc[b], loc[a]);
    hide Dist;
  }

  lemma DeltaAppend(nets: seq<Net>, net: Net, loc: seq<Loc>, a: nat, b: nat)
    requires NetsOk(nets, |loc|) && net.driver < |loc| && net.sink < |loc| && a < |loc| && b < |loc|
    ensures NetsOk(nets + [net], |loc|)
    ensures Delta(nets + [net], loc, a, b) == Delta(nets, loc, a, b)
            + (if net.sink == a then Dist(loc[b], loc[net.driver]) - Dist(loc[a], loc[net.driver]) else 0)
            + (if net.driver == a then Dist(loc[b], loc[net.sink]) - Dist(loc[a], loc[net.sink]) else 0)
            + (if net.sink == b then Dist(loc[a], loc[net.driver]) - Dist(loc[b], loc[net.driver]) else 0)
            + (if net.driver == b then Dist(loc[a], loc[net.sink]) - Dist(loc[b], loc[net.sink]) else 0)
  {
    hide Dist, CostAt;
    CostAtAppend(nets, net, loc, a, loc[a]);
    CostAtAppend(nets, net, loc, a, loc[b]);
    CostAtAppend(nets, net, loc, b, loc[a]);
    CostAtAppend(nets, net, loc, b, loc[b]);
  }

  /** The computed delta is the change of the wire length, less twice their distance for every net between
      the two, plus twice the distance for every net from one of them to itself. */
  lemma DeltaError(nets: seq<Net>, loc: seq<Loc>, a: nat, b: nat)
    requires NetsOk(nets, |loc|) && a < |loc| && b < |loc| && a != b
    ensures var d := Dist(loc[a], loc[b]);
            Delta(nets, loc, a, b) == WireLength(nets, Exchanged(loc, a, b)) - WireLength(nets, loc)
              - 2 * Times(Joining(nets, a, b), d) + 2 * Times(SelfNets(nets, a) + SelfNets(nets, b), d)
    ensures ErrorIs(nets, loc, a, b)
  {
    ErrorHolds(nets, loc, a, b);
  }

  lemma {:induction false} ErrorHolds(nets: seq<Net>, loc: seq<Loc>, a: nat, b: nat)
    requires NetsOk(nets, |loc|) && a < |loc| && b < |loc| && a != b
    ensures ErrorIs(nets, loc, a, b)
  {
    hide *;
    if nets == [] {
      NoNetsNoError(loc, a, b);
    } else {
      var front, net := nets[..|nets| - 1], nets[|nets| - 1];
      assert nets == front + [net];
      NetsFront(nets, |loc|);
      ErrorHolds(front, loc, a, b);
      DeltaStep(front, net, loc, a, b);
    }
  }

  lemma NetsFront(nets: seq<Net>, n: nat)
    requires NetsOk(nets, n) && nets != []
    ensures NetsOk(nets[..|nets| - 1], n) && nets[|nets| - 1].driver < n && nets[|nets| - 1].sink < n
  {
  }

  lemma NoNetsNoError(loc: seq<Loc>, a: nat, b: nat)
    requires a < |loc| && b < |loc|
    ensures NetsOk([], |loc|) && ErrorIs([], loc, a, b)
  {
  }

  /** The error formula. */
  ghost predicate ErrorIs(nets: seq<Net>, loc: seq<Loc>, a: nat, b: nat)
    requires NetsOk(nets, |loc|) && a < |loc| && b < |loc|
  {
    var d := Dist(loc[a], loc[b]);
    Delta(nets, loc, a, b) == WireLength(nets, Exchanged(loc, a, b)) - WireLength(nets, loc)
      - 2 * Times(Joining(nets, a, b), d) + 2 * Times(SelfNets(nets, a) + SelfNets(nets, b), d)
  }

  lemma DeltaStep(front: seq<Net>, net: Net, loc: seq<Loc>, a: nat, b: nat)
    requires NetsOk(front, |loc|) && net.driver < |loc| && net.sink < |loc| && a < |loc| && b < |loc| && a != b
    requires ErrorIs(front, loc, a, b)
    ensures NetsOk(front + [net], |loc|) && ErrorIs(front + [net], loc, a, b)
  {
    hide Dist, CostAt, Exchanged, WireLength, Delta, Times, Joining, SelfNets;
    var d := Dist(loc[a], loc[b]);
    DeltaAppend(front, net, loc, a, b);
    WireAppend(front, net, loc);
    ExchangedNets(front, loc, a, b);
    WireAppend(front, net, Exchanged(loc, a, b));
    CountsAppend(front, net, a, b);
    TimesMore(Joining(front, a, b), d);
    TimesMore(SelfNets(front, a) + SelfNets(front, b), d);
    NetShare(net, loc, a, b);
  }

  lemma ExchangedNets(nets: seq<Net>, loc: seq<Loc>, a: nat, b: nat)
    requires NetsOk(nets, |loc|) && a < |loc| && b < |loc|
    ensures NetsOk(nets, |Exchanged(loc, a, b)|)
  {
  }

  lemma CountsAppend(nets: seq<Net>, net: Net, a: nat, b: nat)
    ensures Joining(nets + [net], a, b)
         == Joining(nets, a, b)
             + (if (net.driver == a && net.sink == b) || (net.driver == b && net.sink == a) then 1 else 0)
    ensures SelfNets(nets + [net], a) == SelfNets(nets, a) + (if net == Net(a, a) then 1 else 0)
    ensures SelfNets(nets + [net], b) == SelfNets(nets, b) + (if net == Net(b, b) then 1 else 0)
  {
    assert (nets + [net])[..|nets|] == nets;
  }

  lemma TimesMore(k: nat, d: nat)
    ensures Times(k + 1, d) == Times(k, d) + d
  {
  }

  /** The delta is exact precisely if the elements share a location or have as many nets between them as
      nets to themselves; for a netlist without self-nets, if they are unconnected. */
  lemma DeltaExactIff(nets: seq<Net>, loc: seq<Loc>, a: nat, b: nat)
    requires NetsOk(nets, |loc|) && a < |loc| && b < |loc| && a != b
    ensures Delta(nets, loc, a, b) == WireLength(nets, Exchanged(loc, a, b)) - WireLength(nets, loc)
            <==> loc[a] == loc[b] || Joining(nets, a, b) == SelfNets(nets, a) + SelfNets(nets, b)
  {
    hide *;
    var d, m, s := Dist(loc[a], loc[b]), Joining(nets, a, b), SelfNets(nets, a) + SelfNets(nets, b);
    DeltaError(nets, loc, a, b);
    DistSymmetric(loc[a], loc[b]);
    TimesIs(m, d);
    TimesIs(s, d);
    if d > 0 && m != s { TimesInjective(m, s, d); }
  }

  /** One net between two elements at different places: the delta is not the change of the wire length. */
  lemma DeltaWrong(loc: seq<Loc>)
    requires |loc| >= 2 && loc[0] != loc[1]
    ensures var nets := [Net(0, 1)];
            NetsOk(nets, |loc|)
                && Delta(nets, loc, 0, 1) != WireLength(nets, Exchanged(loc, 0, 1)) - WireLength(nets, loc)
  {
    var nets := [Net(0, 1)];
    assert nets[..0] == [];
    assert Joining(nets, 0, 1) == 1 && SelfNets(nets, 0) == 0 && SelfNets(nets, 1) == 0;
    hide Joining, SelfNets, Delta, WireLength;
    DeltaExactIff(nets, loc, 0, 1);
  }

  lemma TimesInjective(m: nat, s: nat, d: nat)
    requires d > 0 && m != s
    ensures m * d != s * d
  {
    if m < s { assert (s - m) * d > 0; } else { assert (m - s) * d > 0; }
  }

  // ---- The program -------------------------------------------------------------------------------

  /** One line of the input file: an element and the names of its fan-ins. */
  datatype Line = Line(name: string, fanin: seq<string>)

  /** A name has been looked up, and entered if it was new. */
  ghost predicate Named(names: map<string, nat>, names': map<string, nat>, name: string) {
    name in names' && names' == if name in names then names else names[name := names'[name]]
  }

  ghost predicate Extends(names: map<string, nat>, names': map<string, nat>) {
    forall name :: name in names ==> name in names' && names'[name] == names[name]
  }

  ghost predicate HasName(names: map<string, nat>, e: nat) {
    exists name :: name in names && names[name] == e
  }

  /** Names lead one to one to the elements below n. */
  ghost predicate NamesOk(names: map<string, nat>, n: nat) {
    && (forall name :: name in names ==> names[name] < n)
    && (forall e :: 0 <= e < n ==> HasName(names, e))
    && forall a, b :: a in names && b in names && names[a] == names[b] ==> a == b
  }

  lemma NamesMore(names: map<string, nat>, name: string, n: nat)
    requires NamesOk(names, n) && name !in names
    ensures NamesOk(names[name := n], n + 1)
  {
    var names' := names[name := n];
    forall e | 0 <= e < n + 1 ensures HasName(names', e) {
      if e < n {
        assert HasName(names, e);
        var a :| a in names && names[a] == e;
        assert a in names' && names'[a] == e;
      } else {
        assert name in names' && names'[name] == e;
      }
    }
  }

  /** The elements of the given names. */
  ghost function Elements(names: map<string, nat>, some: set<string>): set<nat> {
    set name | name in some && name in names :: names[name]
  }

  lemma ElementsAll(names: map<string, nat>, n: nat)
    requires NamesOk(names, n)
    ensures forall e: nat :: e in Elements(names, names.Keys) <==> e < n
  {
    forall e: nat ensures e in Elements(names, names.Keys) <==> e < n {
      if e < n {
        assert HasName(names, e);
        var a :| a in names && names[a] == e;
      }
    }
  }

  lemma NoElements(names: map<string, nat>)
    ensures Elements(names, {}) == {}
  {
  }

  lemma ElementsWithout(names: map<string, nat>, some: set<string>, name: string, n: nat)
    requires NamesOk(names, n) && name in some && some <= names.Keys
    ensures Elements(names, some - {name}) == Elements(names, some) - {names[name]}
    ensures names[name] in Elements(names, some)
  {
    forall e ensures e in Elements(names, some - {name}) <==> e in Elements(names, some) && e != names[name] {
      if e in Elements(names, some) && e != names[name] {
        var a :| a in some && a in names && names[a] == e;
        assert a in some - {name};
      }
    }
  }

  /** Sum of the costs of the elements of s below n. */
  ghost function CostOf(nets: seq<Net>, loc: seq<Loc>, s: set<nat>, n: nat): int
    requires NetsOk(nets, |loc|) && n <= |loc|
  {
    if n == 0 then 0 else CostOf(nets, loc, s, n - 1) + (if n - 1 in s then CostAt(nets, loc, n - 1, loc[n - 1]) else 0)
  }

  lemma {:induction false} CostOfAll(nets: seq<Net>, loc: seq<Loc>, s: set<nat>, n: nat)
    requires NetsOk(nets, |loc|) && n <= |loc| && forall e: nat :: e < n ==> e in s
    ensures CostOf(nets, loc, s, n) == ElementCosts(nets, loc, n)
  {
    hide CostAt;
    if n > 0 { CostOfAll(nets, loc, s, n - 1); }
  }

  lemma {:induction false} CostOfNone(nets: seq<Net>, loc: seq<Loc>, n: nat)
    requires NetsOk(nets, |loc|) && n <= |loc|
    ensures CostOf(nets, loc, {}, n) == 0
  {
    if n > 0 { CostOfNone(nets, loc, n - 1); }
  }

  lemma {:induction false} CostOfWithout(nets: seq<Net>, loc: seq<Loc>, s: set<nat>, e: nat, n: nat)
    requires NetsOk(nets, |loc|) && n <= |loc| && e in s && e < |loc|
    ensures CostOf(nets, loc, s - {e}, n)
              == CostOf(nets, loc, s, n) - (if e < n then CostAt(nets, loc, e, loc[e]) else 0)
  {
    hide CostAt;
    if n > 0 { CostOfWithout(nets, loc, s, e, n - 1); }
  }

  /** The first n fan-ins of the line have become the last n nets. */
  ghost predicate LineNets(before: seq<Net>, after: seq<Net>, line: Line, names: map<string, nat>, n: nat) {
    && n <= |line.fanin| && |after| == |before| + n && after[..|before|] == before && line.name in names
    && forall k :: 0 <= k < n ==>
        line.fanin[k] in names && after[|before| + k] == Net(names[line.fanin[k]], names[line.name])
  }

  lemma ExtendsRefl(names: map<string, nat>, names': map<string, nat>, name: string)
    requires Named(names, names', name)
    ensures Extends(names, names')
  {
  }

  lemma ExtendsMore(a: map<string, nat>, b: map<string, nat>, c: map<string, nat>, name: string)
    requires Extends(a, b) && Named(b, c, name)
    ensures Extends(a, c)
  {
  }

  lemma NoLineNets(nets: seq<Net>, line: Line, names: map<string, nat>)
    requires line.name in names
    ensures LineNets(nets, nets, line, names, 0)
  {
  }

  lemma LineNetsMore(nets0: seq<Net>, before: seq<Net>, after: seq<Net>, line: Line, names: map<string, nat>,
          names': map<string, nat>, i: nat)
    requires LineNets(nets0, before, line, names, i) && i < |line.fanin|
    requires Named(names, names', line.fanin[i])
    requires line.fanin[i] in names' && line.name in names'
    requires after == before + [Net(names'[line.fanin[i]], names'[line.name])]
    ensures LineNets(nets0, after, line, names', i + 1)
  {
    forall k | 0 <= k < i + 1
      ensures line.fanin[k] in names' && after[|nets0| + k] == Net(names'[line.fanin[k]], names'[line.name]) {
      if k < i { assert after[|nets0| + k] == before[|nets0| + k]; }
    }
  }

  class Circuit {
    const chipSize: nat
    var fanin: seq<seq<nat>>
    var fanout: seq<seq<nat>>
    var names: map<string, nat>
    var unused: nat
    var loc: seq<Loc>
    ghost var nets: seq<Net>

    /** The lists are those of the nets; names lead one to one to the used elements. */
    ghost predicate Valid()
      reads this
    {
      && |fanin| == |fanout| == |loc| == chipSize && unused <= chipSize && NetsOk(nets, unused)
      && (forall e :: 0 <= e < chipSize ==> fanin[e] == FaninOf(nets, e) && fanout[e] == FanoutOf(nets, e))
      && NamesOk(names, unused)
    }

    constructor (maxX: nat, maxY: nat, loc: seq<Loc>)
      requires |loc| == maxX * maxY
      ensures Valid() && nets == [] && this.loc == loc && unused == 0 && names == map[] && chipSize == |loc|
    {
      chipSize := |loc|;
      fanin, fanout := seq(|loc|, _ => []), seq(|loc|, _ => []);
      names, unused := map[], 0;
      this.loc, nets := loc, [];
    }

    /** create_elem_if_necessary: a known name keeps its element, a new one takes the next. */
    method ElementFor(name: string) returns (e: nat)
      requires Valid() && (name !in names ==> unused < chipSize)
      modifies this`names, this`unused
      ensures Valid() && e < unused && Named(old(names), names, name) && name in names && names[name] == e
      ensures unused == if name in old(names) then old(unused) else old(unused) + 1
      ensures name !in old(names) ==> e == old(unused)
    {
      if name in names {
        e := names[name];
      } else {
        e := unused;
        NamesMore(names, name, unused);
        names := names[name := e];
        unused := unused + 1;
      }
    }

    /** Make present the fan-out of from, and vice versa. */
    method Connect(present: nat, from: nat)
      requires Valid() && present < unused && from < unused
      modifies this`fanin, this`fanout, this`nets
      ensures Valid() && nets == old(nets) + [Net(from, present)]
    {
      hide NamesOk;
      fanin := fanin[present := fanin[present] + [from]];
      fanout := fanout[from := fanout[from] + [present]];
      ghost var grown := nets + [Net(from, present)];
      assert grown[..|nets|] == nets;
      nets := grown;
    }

    /** One line of the file becomes one net per fan-in; earlier names keep their elements. */
    method Read(line: Line)
      requires Valid() && unused + |line.fanin| + 1 <= chipSize
      modifies this`fanin, this`fanout, this`names, this`unused, this`nets
      ensures Valid() && line.name in names && Extends(old(names), names)
      ensures LineNets(old(nets), nets, line, names, |line.fanin|)
    {
      hide *;
      var present := ElementFor(line.name);
      ghost var nets0, names1 := nets, names;
      ExtendsRefl(old(names), names, line.name);
      NoLineNets(nets, line, names);
      var i := 0;
      while i < |line.fanin|
        invariant i <= |line.fanin| && Valid() && unused <= old(unused) + i + 1 && present < unused
        invariant line.name in names && names[line.name] == present && Extends(old(names), names)
        invariant LineNets(nets0, nets, line, names, i)
      {
        ghost var names', nets' := names, nets;
        var from := ElementFor(line.fanin[i]);
        ExtendsMore(old(names), names', names, line.fanin[i]);
        Connect(present, from);
        LineNetsMore(nets0, nets', nets, line, names', names, i);
        i := i + 1;
      }
    }

    lemma ValidNets()
      requires Valid()
      ensures NetsOk(nets, |loc|) && NetsOk(nets, unused) && unused <= |loc| == chipSize && NamesOk(names, unused)
    {
    }

    lemma ListsOk(e: nat)
      requires Valid() && e < chipSize
      ensures NetsOk(nets, |loc|) && InRange(fanin[e], |loc|) && InRange(fanout[e], |loc|)
      ensures fanin[e] == FaninOf(nets, e) && fanout[e] == FanoutOf(nets, e)
    {
      ListsInRange(nets, e, chipSize);
    }

    /** The cost of element e if it were at l. */
    method RoutingCost(e: nat, l: Loc) returns (total: nat)
      requires Valid() && e < chipSize
      ensures NetsOk(nets, |loc|) && total == CostAt(nets, loc, e, l)
    {
      ListsOk(e);
      var fromIn := SumOver(fanin[e], l);
      var fromOut := SumOver(fanout[e], l);
      total := fromIn + fromOut;
    }

    method SumOver(ids: seq<nat>, l: Loc) returns (cost: nat)
      requires InRange(ids, |loc|)
      ensures cost == SumDist(l, ids, loc)
    {
      cost := 0;
      var i := 0;
      while i < |ids|
        invariant i <= |ids| && InRange(ids[..i], |loc|) && cost == SumDist(l, ids[..i], loc)
      {
        var other := loc[ids[i]];
        SumDistAppend(l, ids[..i], ids[i], loc);
        assert ids[..i + 1] == ids[..i] + [ids[i]];
        cost := cost + Abs(l.x - other.x);
        cost := cost + Abs(l.y - other.y);
        i := i + 1;
      }
      assert ids[..i] == ids;
    }

    /** The loop over the name table, in whatever order the names come. */
    method SumOfCosts() returns (sum: nat)
      requires Valid()
      ensures NetsOk(nets, |loc|) && sum == ElementCosts(nets, loc, |loc|)
    {
      hide *;
      ValidNets();
      sum := 0;
      var pending := names.Keys;
      ElementsAll(names, unused);
      CostOfAll(nets, loc, Elements(names, pending), unused);
      while pending != {}
        invariant pending <= names.Keys
        invariant sum + CostOf(nets, loc, Elements(names, pending), unused) == ElementCosts(nets, loc, unused)
        decreases pending
      {
        var name :| name in pending;
        var e := names[name];
        NameUsed(name);
        ElementsWithout(names, pending, name, unused);
        CostOfWithout(nets, loc, Elements(names, pending), e, unused);
        var c := RoutingCost(e, loc[e]);
        sum := sum + c;
        pending := pending - {name};
      }
      NoElements(names);
      CostOfNone(nets, loc, unused);
      UnusedCostNothing(nets, loc, unused, |loc|);
    }

    lemma NameUsed(name: string)
      requires Valid() && name in names
      ensures names[name] < unused
    {
    }

    method TotalRoutingCost() returns (cost: nat)
      requires Valid()
      ensures NetsOk(nets, |loc|) && cost == WireLength(nets, loc)
    {
      hide *;
      var sum := SumOfCosts();
      DoubleCounted(nets, loc);
      cost := sum / 2;
    }

    /** The cost change of moving e from one location to another, everything else staying. */
    method SwapCost(e: nat, oldLoc: Loc, newLoc: Loc) returns (change: int)
      requires Valid() && e < chipSize
      ensures NetsOk(nets, |loc|) && change == CostAt(nets, loc, e, newLoc) - CostAt(nets, loc, e, oldLoc)
    {
      ListsOk(e);
      var noIn, yesIn := TwoSums(fanin[e], oldLoc, newLoc);
      var noOut, yesOut := TwoSums(fanout[e], oldLoc, newLoc);
      var yesSwap: int, noSwap: int := yesIn + yesOut, noIn + noOut;
      change := yesSwap - noSwap;
    }

    method TwoSums(ids: seq<nat>, oldLoc: Loc, newLoc: Loc) returns (noSwap: nat, yesSwap: nat)
      requires InRange(ids, |loc|)
      ensures noSwap == SumDist(oldLoc, ids, loc) && yesSwap == SumDist(newLoc, ids, loc)
    {
      noSwap, yesSwap := 0, 0;
      var i := 0;
      while i < |ids|
        invariant i <= |ids| && InRange(ids[..i], |loc|)
        invariant noSwap == SumDist(oldLoc, ids[..i], loc) && yesSwap == SumDist(newLoc, ids[..i], loc)
      {
        var other := loc[ids[i]];
        SumDistAppend(oldLoc, ids[..i], ids[i], loc);
        SumDistAppend(newLoc, ids[..i], ids[i], loc);
        assert ids[..i + 1] == ids[..i] + [ids[i]];
        noSwap := noSwap + Abs(oldLoc.x - other.x) + Abs(oldLoc.y - other.y);
        yesSwap := yesSwap + Abs(newLoc.x - other.x) + Abs(newLoc.y - other.y);
        i := i + 1;
      }
      assert ids[..i] == ids;
    }

    method DeltaRoutingCost(a: nat, b: nat) returns (delta: int)
      requires Valid() && a < chipSize && b < chipSize
      ensures NetsOk(nets, |loc|) && delta == Delta(nets, loc, a, b)
    {
      var aLoc, bLoc := loc[a], loc[b];
      delta := SwapCost(a, aLoc, bLoc);
      var more := SwapCost(b, bLoc, aLoc);
      delta := delta + more;
    }

    method SwapLocations(a: nat, b: nat)
      requires Valid() && a < chipSize && b < chipSize
      modifies this`loc
      ensures Valid() && loc == Exchanged(old(loc), a, b)
    {
      loc := loc[a := loc[b]][b := loc[a]];
    }
  }

  lemma {:induction false} UnusedCostNothing(nets: seq<Net>, loc: seq<Loc>, used: nat, n: nat)
    requires NetsOk(nets, used) && used <= n <= |loc|
    ensures NetsOk(nets, |loc|) && ElementCosts(nets, loc, n) == ElementCosts(nets, loc, used)
  {
    NetsWider(nets, used, |loc|);
    hide *;
    if n > used {
      UnusedCostNothing(nets, loc, used, n - 1);
      ElementCostsIs(nets, loc, n);
      UnusedCost(nets, loc, used, n - 1);
    }
  }

  lemma NetsWider(nets: seq<Net>, used: nat, n: nat)
    requires NetsOk(nets, used) && used <= n
    ensures NetsOk(nets, n)
  {
  }

  lemma UnusedCost(nets: seq<Net>, loc: seq<Loc>, used: nat, e: nat)
    requires NetsOk(nets, used) && NetsOk(nets, |loc|) && used <= e < |loc|
    ensures CostAt(nets, loc, e, loc[e]) == 0
  {
    UnusedHasNoNets(nets, used, e);
  }

  lemma {:induction false} UnusedHasNoNets(nets: seq<Net>, used: nat, e: nat)
    requires NetsOk(nets, used) && used <= e
    ensures FaninOf(nets, e) == [] && FanoutOf(nets, e) == []
  {
    if nets != [] { UnusedHasNoNets(nets[..|nets| - 1], used, e); }
  }
}
