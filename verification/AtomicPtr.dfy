/** canneal's lock-free pointer cells: any number of threads running Swap, TrySwap and Get as interleaved
    atomic loads, compare-and-swaps and stores. */
module AtomicPtr {
  type Ptr = nat

  /** A cell holds a pointer, or ATOMIC_NULL while the pointer is checked out. */
  datatype Cell = Out | In(ptr: Ptr)

  datatype Op = Swap(a: nat, b: nat) | TrySwap(a: nat, b: nat) | Get(c: nat)

  /** Where a thread stands: before the load or the compare-and-swap on its lower cell, the same for the
      upper cell with the lower pointer in hand, or about to check a pointer in. */
  datatype Pc =
    | Idle
    | LoadFirst(op: Op)
    | CasFirst(op: Op, val: Ptr)
    | LoadLast(op: Op, inHand: Ptr)
    | CasLast(op: Op, inHand: Ptr, val: Ptr)
    | Checkin(op: Op, inHand: Ptr, swapped: bool)
    | Loading(c: nat)

  /** asked lists the thread's calls, done says of each completed one whether it swapped; got is the result of
      its last Get. */
  datatype Thread = Thread(pc: Pc, asked: seq<Op>, done: seq<bool>, got: Ptr)

  datatype Event = Event(thread: nat, a: nat, b: nat)

  /** spec is what a memory with atomic swaps would hold, log the swaps it has made. */
  datatype State = State(cells: seq<Cell>, threads: seq<Thread>, spec: seq<Ptr>, log: seq<Event>)

  /** The cell with the lower address is taken first. */
  function First(op: Op): nat
    requires !op.Get?
  {
    if op.a < op.b then op.a else op.b
  }

  function Last(op: Op): nat
    requires !op.Get?
  {
    if op.a < op.b then op.b else op.a
  }

  predicate OpOk(op: Op, n: nat) {
    match op
    case Get(c) => c < n
    case _ => op.a < n && op.b < n && op.a != op.b
  }

  ghost function Exchanged(spec: seq<Ptr>, a: nat, b: nat): (s: seq<Ptr>)
    requires a < |spec| && b < |spec|
    ensures |s| == |spec|
  {
    spec[a := spec[b]][b := spec[a]]
  }

  ghost predicate PcOk(pc: Pc, n: nat) {
    match pc
    case Idle => true
    case Loading(c) => c < n
    case _ => !pc.op.Get? && OpOk(pc.op, n)
  }

  ghost predicate Shape(st: State) {
    |st.spec| == |st.cells| && forall t :: 0 <= t < |st.threads| ==> PcOk(st.threads[t].pc, |st.cells|)
  }

  ghost function WithPc(st: State, t: nat, pc: Pc): State
    requires t < |st.threads|
  {
    st.(threads := st.threads[t := st.threads[t].(pc := pc)])
  }

  /** A call begins. */
  ghost function Start(st: State, t: nat, op: Op): State
    requires t < |st.threads|
  {
    var th := st.threads[t];
    var pc := if op.Get? then Loading(op.c) else LoadFirst(op);
    st.(threads := st.threads[t := th.(pc := pc, asked := th.asked + [op])])
  }

  function Ended(th: Thread, swapped: bool): Thread {
    th.(pc := Idle, done := th.done + [swapped])
  }

  /** A failed step on the lower cell: Swap tries again, TrySwap gives up. */
  ghost function RetryFirst(st: State, t: nat, op: Op): State
    requires t < |st.threads|
  {
    if op.Swap? then WithPc(st, t, LoadFirst(op)) else st.(threads := st.threads[t := Ended(st.threads[t], false)])
  }

  /** A failed step on the upper cell: Swap tries again, TrySwap gives up, handing back what it holds. */
  ghost function RetryLast(st: State, t: nat, op: Op, inHand: Ptr): State
    requires t < |st.threads|
  {
    WithPc(st, t, if op.Swap? then LoadLast(op, inHand) else Checkin(op, inHand, false))
  }

  /** One atomic step of thread t. */
  ghost function Do(st: State, t: nat): State
    requires Shape(st) && t < |st.threads|
  {
    var pc := st.threads[t].pc;
    assert PcOk(pc, |st.cells|);
    match pc
    case Idle => st
    case Loading(c) =>
      if st.cells[c] == Out then st
      else st.(threads := st.threads[t := Ended(st.threads[t], false).(got := st.cells[c].ptr)])
    case LoadFirst(op) =>
      if st.cells[First(op)] == Out then RetryFirst(st, t, op)
      else WithPc(st, t, CasFirst(op, st.cells[First(op)].ptr))
    case CasFirst(op, val) =>
      if st.cells[First(op)] != In(val) then RetryFirst(st, t, op)
      else WithPc(st, t, LoadLast(op, val)).(cells := st.cells[First(op) := Out])
    case LoadLast(op, inHand) =>
      if st.cells[Last(op)] == Out then RetryLast(st, t, op, inHand)
      else WithPc(st, t, CasLast(op, inHand, st.cells[Last(op)].ptr))
    case CasLast(op, inHand, val) =>
      if st.cells[Last(op)] != In(val) then RetryLast(st, t, op, inHand)
      else
        WithPc(st, t, Checkin(op, val, true)).(
          cells := st.cells[Last(op) := In(inHand)],
          spec := Exchanged(st.spec, op.a, op.b),
          log := st.log + [Event(t, op.a, op.b)])
    case Checkin(op, inHand, swapped) =>
      st.(cells := st.cells[First(op) := In(inHand)], threads := st.threads[t := Ended(st.threads[t], swapped)])
  }

  ghost predicate Init(st: State) {
    && |st.spec| == |st.cells| && st.log == []
    && (forall c :: 0 <= c < |st.cells| ==> st.cells[c] == In(st.spec[c]))
    && forall t :: 0 <= t < |st.threads| ==>
          st.threads[t].pc == Idle && st.threads[t].asked == [] && st.threads[t].done == []
  }

  ghost predicate Next(st: State, st': State) {
    && Shape(st)
    && exists t :: 0 <= t < |st.threads| && NextBy(st, st', t)
  }

  ghost predicate NextBy(st: State, st': State, t: nat)
    requires Shape(st) && t < |st.threads|
  {
    st' == Do(st, t) || (st.threads[t].pc == Idle && exists op :: OpOk(op, |st.cells|) && st' == Start(st, t, op))
  }

  ghost predicate Run(run: seq<State>) {
    run != [] && Init(run[0]) && forall k :: 0 <= k < |run| - 1 ==> Next(run[k], run[k + 1])
  }

  // ---- Invariant ---------------------------------------------------------------------------------

  predicate Holding(pc: Pc) {
    pc.LoadLast? || pc.CasLast? || pc.Checkin?
  }

  /** The cell a thread has checked out. */
  function Held(pc: Pc): nat
    requires Holding(pc) && !pc.op.Get?
  {
    First(pc.op)
  }

  /** What a thread has in hand is what the atomic memory has in the checked-out cell. */
  ghost predicate HandOk(st: State, t: nat)
    requires Shape(st) && t < |st.threads|
  {
    var pc := st.threads[t].pc;
    assert PcOk(pc, |st.cells|);
    Holding(pc) ==> st.cells[Held(pc)] == Out && st.spec[Held(pc)] == pc.inHand
  }

  ghost predicate Exclusive(st: State, t: nat, u: nat)
    requires Shape(st) && t < |st.threads| && u < |st.threads|
  {
    var p, q := st.threads[t].pc, st.threads[u].pc;
    assert PcOk(p, |st.cells|) && PcOk(q, |st.cells|);
    t != u && Holding(p) && Holding(q) ==> Held(p) != Held(q)
  }

  ghost predicate HeldBy(st: State, c: nat, t: nat)
    requires Shape(st) && t < |st.threads|
  {
    var pc := st.threads[t].pc;
    assert PcOk(pc, |st.cells|);
    Holding(pc) && Held(pc) == c
  }

  /** A cell agrees with the atomic memory, or somebody has its pointer. */
  ghost predicate CellOk(st: State, c: nat)
    requires Shape(st) && c < |st.cells|
  {
    if st.cells[c].In? then st.cells[c].ptr == st.spec[c]
    else exists t :: 0 <= t < |st.threads| && HeldBy(st, c, t)
  }

  /** The pairs of cells that the thread's events name, in order. */
  ghost function PairsOf(log: seq<Event>, t: nat): seq<(nat, nat)> {
    if log == [] then []
    else
      var e := log[|log| - 1];
      PairsOf(log[..|log| - 1], t) + (if e.thread == t then [(e.a, e.b)] else [])
  }

  /** The pairs of cells whose swap was asked for and done, in order. */
  ghost function Swapped(asked: seq<Op>, done: seq<bool>): seq<(nat, nat)>
    requires |done| <= |asked|
  {
    if done == [] then []
    else
      var n := |done| - 1;
      Swapped(asked, done[..n]) + (if done[n] && !asked[n].Get? then [(asked[n].a, asked[n].b)] else [])
  }

  /** The call a thread is in. */
  function CallOf(pc: Pc): Op
    requires pc != Idle
  {
    if pc.Loading? then Get(pc.c) else pc.op
  }

  /** Completed calls and the current one are the calls asked for; a completed Swap has swapped. */
  ghost predicate CallsOk(th: Thread) {
    && |th.asked| == |th.done| + (if th.pc == Idle then 0 else 1)
    && (th.pc != Idle ==> th.asked[|th.done|] == CallOf(th.pc))
    && (th.pc.Checkin? && th.pc.op.Swap? ==> th.pc.swapped)
    && forall k :: 0 <= k < |th.done| ==> OutcomeOk(th.asked[k], th.done[k])
  }

  predicate OutcomeOk(op: Op, swapped: bool) {
    (op.Swap? ==> swapped) && (op.Get? ==> !swapped)
  }

  /** The thread's events are its completed swaps, and the one whose upper cell is done. */
  ghost predicate EventsOk(log: seq<Event>, th: Thread, t: nat) {
    && CallsOk(th)
    && PairsOf(log, t) == Swapped(th.asked, th.done)
                          + (if th.pc.Checkin? && th.pc.swapped && !th.pc.op.Get?
                             then [(th.pc.op.a, th.pc.op.b)] else [])
  }

  ghost predicate HistoryOk(st: State, t: nat)
    requires t < |st.threads|
  {
    EventsOk(st.log, st.threads[t], t)
  }

  ghost predicate Inv(st: State) {
    && Shape(st)
    && (forall t :: 0 <= t < |st.threads| ==> HandOk(st, t) && HistoryOk(st, t))
    && (forall t, u :: 0 <= t < |st.threads| && 0 <= u < |st.threads| ==> Exclusive(st, t, u))
    && forall c :: 0 <= c < |st.cells| ==> CellOk(st, c)
  }

  lemma FirstIsNotLast(op: Op, n: nat)
    requires OpOk(op, n) && !op.Get?
    ensures First(op) < Last(op) < n
  {
  }

  lemma StepShape(st: State, t: nat)
    requires Shape(st) && t < |st.threads|
    ensures var st' := Do(st, t);
            && |st'.cells| == |st.cells| && |st'.threads| == |st.threads| && |st'.spec| == |st.spec|
            && PcOk(st'.threads[t].pc, |st.cells|)
            && forall u :: 0 <= u < |st.threads| && u != t ==> st'.threads[u] == st.threads[u]
  {
    assert PcOk(st.threads[t].pc, |st.cells|);
  }

  lemma StepKeepsShape(st: State, t: nat)
    requires Shape(st) && t < |st.threads|
    ensures Shape(Do(st, t))
  {
    hide Do;
    StepShape(st, t);
    var st' := Do(st, t);
    forall u | 0 <= u < |st'.threads| ensures PcOk(st'.threads[u].pc, |st'.cells|) {
      assert PcOk(st.threads[u].pc, |st.cells|);
    }
  }

  /** A thread's checked-out cell is not the one another thread's step touches. */
  lemma StepHand(st: State, t: nat, u: nat)
    requires Inv(st) && t < |st.threads| && u < |st.threads|
    ensures Shape(Do(st, t)) && u < |Do(st, t).threads| && HandOk(Do(st, t), u)
  {
    hide HistoryOk;
    StepKeepsShape(st, t);
    StepShape(st, t);
    var pc := st.threads[t].pc;
    assert PcOk(pc, |st.cells|) && PcOk(st.threads[u].pc, |st.cells|);
    assert HandOk(st, t) && HandOk(st, u) && Exclusive(st, t, u);
    if pc.CasFirst? { assert CellOk(st, First(pc.op)); }
    if pc.CasLast? { assert CellOk(st, Last(pc.op)); FirstIsNotLast(pc.op, |st.cells|); }
  }

  lemma StepExclusive(st: State, t: nat, u: nat, v: nat)
    requires Inv(st) && t < |st.threads| && u < |st.threads| && v < |st.threads|
    ensures Shape(Do(st, t)) && u < |Do(st, t).threads| && v < |Do(st, t).threads| && Exclusive(Do(st, t), u, v)
  {
    hide HistoryOk;
    StepKeepsShape(st, t);
    StepShape(st, t);
    assert PcOk(st.threads[t].pc, |st.cells|) && PcOk(st.threads[u].pc, |st.cells|);
    assert PcOk(st.threads[v].pc, |st.cells|);
    assert HandOk(st, u) && HandOk(st, v) && Exclusive(st, u, v);
  }

  lemma StepCell(st: State, t: nat, c: nat)
    requires Inv(st) && t < |st.threads| && c < |st.cells|
    ensures Shape(Do(st, t)) && c < |Do(st, t).cells| && CellOk(Do(st, t), c)
  {
    StepKeepsShape(st, t);
    StepShape(st, t);
    var pc, st' := st.threads[t].pc, Do(st, t);
    assert PcOk(pc, |st.cells|) && HandOk(st, t) && CellOk(st, c);
    if pc.CasLast? { assert CellOk(st, Last(pc.op)); FirstIsNotLast(pc.op, |st.cells|); }
    if st'.cells[c] == Out {
      if st.cells[c] == Out {
        var u :| 0 <= u < |st.threads| && HeldBy(st, c, u);
        HolderStays(st, t, c, u);
      } else {
        assert HeldBy(st', c, t);
      }
    }
  }

  /** A cell that stays checked out keeps its holder. */
  lemma HolderStays(st: State, t: nat, c: nat, u: nat)
    requires Inv(st) && t < |st.threads| && u < |st.threads| && c < |st.cells| && HeldBy(st, c, u)
    requires |Do(st, t).cells| == |st.cells| && Do(st, t).cells[c] == Out
    ensures Shape(Do(st, t)) && u < |Do(st, t).threads| && HeldBy(Do(st, t), c, u)
  {
    StepKeepsShape(st, t);
    StepShape(st, t);
    assert PcOk(st.threads[t].pc, |st.cells|) && PcOk(st.threads[u].pc, |st.cells|);
    assert HandOk(st, t) && CellOk(st, c);
    if st.threads[t].pc.LoadLast? || st.threads[t].pc.CasLast? { FirstIsNotLast(st.threads[t].pc.op, |st.cells|); }
  }

  lemma PairsAppend(log: seq<Event>, e: Event, t: nat)
    ensures PairsOf(log + [e], t) == PairsOf(log, t) + (if e.thread == t then [(e.a, e.b)] else [])
  {
    assert (log + [e])[..|log|] == log;
  }

  lemma SwappedAppend(asked: seq<Op>, done: seq<bool>, swapped: bool)
    requires |done| < |asked|
    ensures Swapped(asked, done + [swapped])
         == Swapped(asked, done)
            + (if swapped && !asked[|done|].Get? then [(asked[|done|].a, asked[|done|].b)] else [])
  {
    assert (done + [swapped])[..|done|] == done;
  }

  lemma {:induction false} SwappedMore(asked: seq<Op>, op: Op, done: seq<bool>)
    requires |done| <= |asked|
    ensures Swapped(asked + [op], done) == Swapped(asked, done)
  {
    if done != [] { SwappedMore(asked, op, done[..|done| - 1]); }
  }

  lemma EndCalls(th: Thread, swapped: bool, got: Ptr)
    requires CallsOk(th) && th.pc != Idle && OutcomeOk(CallOf(th.pc), swapped)
    ensures CallsOk(Ended(th, swapped).(got := got)) && |th.done| < |th.asked|
    ensures th.asked[|th.done|] == CallOf(th.pc)
  {
  }

  /** A call ends. */
  lemma EndKeeps(log: seq<Event>, th: Thread, t: nat, swapped: bool, got: Ptr)
    requires EventsOk(log, th, t) && th.pc != Idle
    requires OutcomeOk(CallOf(th.pc), swapped) && (th.pc.Checkin? ==> th.pc.swapped == swapped)
    requires swapped ==> th.pc.Checkin?
    ensures EventsOk(log, Ended(th, swapped).(got := got), t)
  {
    EndCalls(th, swapped, got);
    SwappedAppend(th.asked, th.done, swapped);
    hide PairsOf, Swapped, CallsOk, OutcomeOk;
  }

  lemma StepHistory(st: State, t: nat, u: nat)
    requires Shape(st) && t < |st.threads| && u < |st.threads| && HistoryOk(st, u)
    ensures u < |Do(st, t).threads| && HistoryOk(Do(st, t), u)
  {
    hide PairsOf, Swapped;
    var pc, st', th := st.threads[t].pc, Do(st, t), st.threads[t];
    assert PcOk(pc, |st.cells|);
    if pc.CasLast? {
      PairsAppend(st.log, Event(t, pc.op.a, pc.op.b), u);
    } else {
      assert st'.log == st.log;
      if u == t && pc != Idle && st'.threads[t].pc == Idle {
        var ok := pc.Checkin? && pc.swapped;
        EndKeeps(st.log, th, t, ok, st'.threads[t].got);
        assert st'.threads[t] == Ended(th, ok).(got := st'.threads[t].got);
      }
    }
  }

  lemma InvStep(st: State, t: nat)
    requires Inv(st) && t < |st.threads|
    ensures Inv(Do(st, t))
  {
    StepKeepsShape(st, t);
    StepShape(st, t);
    var st' := Do(st, t);
    hide Do, HandOk, HistoryOk, Exclusive, CellOk, Shape;
    forall u | 0 <= u < |st'.threads| ensures HandOk(st', u) && HistoryOk(st', u) {
      StepHand(st, t, u);
      assert HistoryOk(st, u);
      StepHistory(st, t, u);
    }
    forall u, v | 0 <= u < |st'.threads| && 0 <= v < |st'.threads| ensures Exclusive(st', u, v) {
      StepExclusive(st, t, u, v);
    }
    forall c | 0 <= c < |st'.cells| ensures CellOk(st', c) { StepCell(st, t, c); }
  }

  lemma InvStart(st: State, t: nat, op: Op)
    requires Inv(st) && t < |st.threads| && st.threads[t].pc == Idle && OpOk(op, |st.cells|)
    ensures Inv(Start(st, t, op))
  {
    var st' := Start(st, t, op);
    forall u | 0 <= u < |st'.threads| ensures PcOk(st'.threads[u].pc, |st'.cells|) {
      assert PcOk(st.threads[u].pc, |st.cells|);
    }
    forall u | 0 <= u < |st'.threads| ensures HandOk(st', u) && HistoryOk(st', u) {
      assert HandOk(st, u) && HistoryOk(st, u);
      SwappedMore(st.threads[u].asked, op, st.threads[u].done);
    }
    forall u, v | 0 <= u < |st'.threads| && 0 <= v < |st'.threads| ensures Exclusive(st', u, v) {
      assert Exclusive(st, u, v);
    }
    forall c | 0 <= c < |st'.cells| ensures CellOk(st', c) {
      assert CellOk(st, c);
      if st.cells[c] == Out {
        var u :| 0 <= u < |st.threads| && HeldBy(st, c, u);
        assert HeldBy(st', c, u);
      }
    }
  }

  lemma InvInit(st: State)
    requires Init(st)
    ensures Inv(st)
  {
    forall t | 0 <= t < |st.threads| ensures PcOk(st.threads[t].pc, |st.cells|) {}
    forall t | 0 <= t < |st.threads| ensures HandOk(st, t) && HistoryOk(st, t) {}
  }

  lemma InvNext(st: State, st': State)
    requires Inv(st) && Next(st, st')
    ensures Inv(st')
  {
    var t :| 0 <= t < |st.threads| && NextBy(st, st', t);
    if st' == Do(st, t) {
      InvStep(st, t);
    } else {
      var op :| OpOk(op, |st.cells|) && st' == Start(st, t, op);
      InvStart(st, t, op);
    }
  }

  lemma {:induction false} InvAlongRun(run: seq<State>, k: nat)
    requires Run(run) && k < |run|
    ensures Inv(run[k])
  {
    if k == 0 {
      InvInit(run[0]);
    } else {
      InvAlongRun(run, k - 1);
      InvNext(run[k - 1], run[k]);
    }
  }

  // ---- Refinement of atomic swaps ----------------------------------------------------------------

  /** A memory whose swaps are single steps, run over a log. */
  ghost function Replay(spec: seq<Ptr>, log: seq<Event>): (s: seq<Ptr>)
    requires forall k :: 0 <= k < |log| ==> log[k].a < |spec| && log[k].b < |spec|
    ensures |s| == |spec|
  {
    if log == [] then spec
    else var e := log[|log| - 1]; Exchanged(Replay(spec, log[..|log| - 1]), e.a, e.b)
  }

  ghost predicate LogOk(log: seq<Event>, n: nat) {
    forall k :: 0 <= k < |log| ==> log[k].a < n && log[k].b < n && log[k].a != log[k].b
  }

  /** A step leaves the atomic memory alone, or is the compare-and-swap on an upper cell and swaps both
      cells of that operation. */
  lemma StepRefines(st: State, t: nat)
    requires Inv(st) && t < |st.threads|
    ensures var st', pc := Do(st, t), st.threads[t].pc;
            (st'.spec == st.spec && st'.log == st.log)
            || (pc.CasLast? && PcOk(pc, |st.cells|) && st'.spec == Exchanged(st.spec, pc.op.a, pc.op.b)
                && st'.log == st.log + [Event(t, pc.op.a, pc.op.b)])
  {
    assert PcOk(st.threads[t].pc, |st.cells|);
  }

  /** A Get returns what the atomic memory holds at the moment of its last load. */
  lemma GetIsAtomic(st: State, t: nat)
    requires Inv(st) && t < |st.threads| && st.threads[t].pc.Loading? && Do(st, t).threads[t].pc == Idle
    ensures st.threads[t].pc.c < |st.spec| && Do(st, t).threads[t].got == st.spec[st.threads[t].pc.c]
  {
    assert PcOk(st.threads[t].pc, |st.cells|);
    assert CellOk(st, st.threads[t].pc.c);
  }

  /** The log replayed on the initial pointers gives the atomic memory. */
  ghost predicate Refines(st: State, spec: seq<Ptr>) {
    && |st.spec| == |st.cells| == |spec| && LogOk(st.log, |spec|)
    && st.spec == Replay(spec, st.log)
  }

  lemma RefinesSwap(st: State, st': State, spec: seq<Ptr>, e: Event)
    requires Refines(st, spec) && e.a < |spec| && e.b < |spec| && e.a != e.b && |st'.cells| == |spec|
    requires st'.spec == Exchanged(st.spec, e.a, e.b) && st'.log == st.log + [e]
    ensures Refines(st', spec)
  {
    assert st'.log[..|st.log|] == st.log;
  }

  lemma StepKeepsRefines(st: State, t: nat, spec: seq<Ptr>)
    requires Inv(st) && t < |st.threads| && Refines(st, spec)
    ensures Refines(Do(st, t), spec)
  {
    StepShape(st, t);
    StepRefines(st, t);
    hide Do, Inv, Shape;
    var st', pc := Do(st, t), st.threads[t].pc;
    if st'.log != st.log {
      RefinesSwap(st, st', spec, Event(t, pc.op.a, pc.op.b));
    }
  }

  lemma NextRefines(st: State, st': State, spec: seq<Ptr>)
    requires Inv(st) && Next(st, st') && Refines(st, spec)
    ensures Refines(st', spec)
  {
    hide Inv, Do;
    var t :| 0 <= t < |st.threads| && NextBy(st, st', t);
    if st' == Do(st, t) { StepKeepsRefines(st, t, spec); }
  }

  lemma {:induction false} RunRefines(run: seq<State>, k: nat)
    requires Run(run) && k < |run|
    ensures Refines(run[k], run[0].spec)
  {
    hide Inv, Next;
    if k > 0 {
      RunRefines(run, k - 1);
      InvAlongRun(run, k - 1);
      NextRefines(run[k - 1], run[k], run[0].spec);
    }
  }

  lemma ExchangeKeeps(spec: seq<Ptr>, a: nat, b: nat)
    requires a < |spec| && b < |spec|
    ensures multiset(Exchanged(spec, a, b)) == multiset(spec)
  {
  }

  lemma {:induction false} ReplayKeeps(spec: seq<Ptr>, log: seq<Event>)
    requires LogOk(log, |spec|)
    ensures multiset(Replay(spec, log)) == multiset(spec)
  {
    if log != [] {
      ReplayKeeps(spec, log[..|log| - 1]);
      var e := log[|log| - 1];
      ExchangeKeeps(Replay(spec, log[..|log| - 1]), e.a, e.b);
    }
  }

  ghost predicate Quiet(st: State) {
    forall t :: 0 <= t < |st.threads| ==> !Holding(st.threads[t].pc)
  }

  /** In every reachable state where nobody holds a pointer the cells hold a permutation of the initial
      pointers: the one that results from the completed swaps, one after the other. */
  lemma QuietIsPermutation(run: seq<State>, k: nat)
    requires Run(run) && k < |run| && Quiet(run[k])
    ensures LogOk(run[k].log, |run[0].spec|) && |run[k].cells| == |run[0].spec|
    ensures forall c :: 0 <= c < |run[k].cells| ==> run[k].cells[c] == In(Replay(run[0].spec, run[k].log)[c])
    ensures multiset(Replay(run[0].spec, run[k].log)) == multiset(run[0].spec)
    ensures forall t :: 0 <= t < |run[k].threads| ==>
              var th := run[k].threads[t];
              CallsOk(th) && PairsOf(run[k].log, t) == Swapped(th.asked, th.done)
  {
    InvAlongRun(run, k);
    RunRefines(run, k);
    ReplayKeeps(run[0].spec, run[k].log);
    var st := run[k];
    forall c | 0 <= c < |st.cells| ensures st.cells[c] == In(st.spec[c]) {
      assert CellOk(st, c);
    }
    forall t | 0 <= t < |st.threads|
      ensures CallsOk(st.threads[t]) && PairsOf(st.log, t) == Swapped(st.threads[t].asked, st.threads[t].done)
    {
      assert HistoryOk(st, t);
      assert !Holding(st.threads[t].pc);
    }
  }

  /** While pointers are checked out, each is in the hand of exactly one thread and nowhere else missing. */
  lemma NothingLost(run: seq<State>, k: nat, c: nat)
    requires Run(run) && k < |run| && c < |run[k].cells|
    ensures c < |run[k].spec|
    ensures run[k].cells[c].In? ==> run[k].cells[c].ptr == run[k].spec[c]
    ensures Shape(run[k])
    ensures run[k].cells[c] == Out ==>
              exists t :: 0 <= t < |run[k].threads| && HeldBy(run[k], c, t)
                          && run[k].threads[t].pc.inHand == run[k].spec[c]
    ensures forall t, u ::
              0 <= t < |run[k].threads| && 0 <= u < |run[k].threads| && HeldBy(run[k], c, t) && HeldBy(run[k], c, u) ==>
                t == u
  {
    InvAlongRun(run, k);
    var st := run[k];
    assert CellOk(st, c);
    if st.cells[c] == Out {
      var t :| 0 <= t < |st.threads| && HeldBy(st, c, t);
      assert HandOk(st, t);
    }
    forall t, u | 0 <= t < |st.threads| && 0 <= u < |st.threads| && HeldBy(st, c, t) && HeldBy(st, c, u)
      ensures t == u
    {
      assert Exclusive(st, t, u);
    }
  }

  // ---- Progress ----------------------------------------------------------------------------------

  /** The highest cell below n that is checked out, or -1. */
  ghost function Highest(cells: seq<Cell>, n: nat): (h: int)
    requires n <= |cells|
    ensures -1 <= h < n && (h >= 0 ==> cells[h] == Out) && forall c :: h < c < n ==> cells[c] != Out
  {
    if n == 0 then -1 else if cells[n - 1] == Out then n - 1 else Highest(cells, n - 1)
  }

  /** n steps of thread t alone. */
  ghost function Alone(st: State, t: nat, n: nat): (st': State)
    requires Shape(st) && t < |st.threads|
    ensures Shape(st') && |st'.threads| == |st.threads|
  {
    if n == 0 then st
    else
      StepKeepsShape(Alone(st, t, n - 1), t);
      StepShape(Alone(st, t, n - 1), t);
      Do(Alone(st, t, n - 1), t)
  }

  /** Thread t, running alone, ends its operation after m steps. */
  ghost predicate EndsAfter(st: State, t: nat, m: nat)
    requires Shape(st) && t < |st.threads|
  {
    Alone(st, t, m).threads[t].pc == Idle
  }

  lemma {:induction false} AloneLater(st: State, t: nat, m: nat)
    requires Shape(st) && t < |st.threads|
    ensures Shape(Do(st, t)) && |Do(st, t).threads| == |st.threads| && Alone(st, t, m + 1) == Alone(Do(st, t), t, m)
  {
    StepKeepsShape(st, t);
    StepShape(st, t);
    hide Do;
    if m > 0 { AloneLater(st, t, m - 1); }
  }

  lemma EndsLater(st: State, t: nat, m: nat)
    requires Shape(st) && t < |st.threads| && Shape(Do(st, t)) && |Do(st, t).threads| == |st.threads|
    requires EndsAfter(Do(st, t), t, m)
    ensures EndsAfter(st, t, m + 1)
  {
    AloneLater(st, t, m);
  }

  lemma CheckinEnds(st: State, t: nat)
    requires Shape(st) && t < |st.threads| && st.threads[t].pc.Checkin?
    ensures EndsAfter(st, t, 1)
  {
    assert PcOk(st.threads[t].pc, |st.cells|);
    assert Alone(st, t, 0) == st;
  }

  lemma CasLastEnds(st: State, t: nat)
    requires Shape(st) && t < |st.threads| && st.threads[t].pc.CasLast? && PcOk(st.threads[t].pc, |st.cells|)
    requires st.cells[Last(st.threads[t].pc.op)] == In(st.threads[t].pc.val)
    ensures EndsAfter(st, t, 2)
  {
    StepKeepsShape(st, t);
    CheckinEnds(Do(st, t), t);
    EndsLater(st, t, 1);
  }

  lemma LoadLastEnds(st: State, t: nat)
    requires Shape(st) && t < |st.threads| && st.threads[t].pc.LoadLast? && PcOk(st.threads[t].pc, |st.cells|)
    requires st.cells[Last(st.threads[t].pc.op)] != Out
    ensures EndsAfter(st, t, 3)
  {
    StepKeepsShape(st, t);
    CasLastEnds(Do(st, t), t);
    EndsLater(st, t, 2);
  }

  /** The holder of the highest checked-out cell never waits: its upper cell is in. */
  lemma TopHolderEnds(st: State, t: nat)
    requires Inv(st) && t < |st.threads| && PcOk(st.threads[t].pc, |st.cells|) && Holding(st.threads[t].pc)
    requires st.cells[Last(st.threads[t].pc.op)] != Out
    ensures exists m :: 1 <= m <= 4 && EndsAfter(st, t, m)
  {
    var pc := st.threads[t].pc;
    StepKeepsShape(st, t);
    if pc.Checkin? {
      CheckinEnds(st, t);
    } else if pc.LoadLast? {
      LoadLastEnds(st, t);
    } else if st.cells[Last(pc.op)] == In(pc.val) {
      CasLastEnds(st, t);
    } else {
      var st' := Do(st, t);
      if pc.op.Swap? {
        LoadLastEnds(st', t);
        EndsLater(st, t, 3);
      } else {
        CheckinEnds(st', t);
        EndsLater(st, t, 1);
      }
    }
  }

  lemma CasFirstEnds(st: State, t: nat)
    requires Shape(st) && t < |st.threads| && st.threads[t].pc.CasFirst? && PcOk(st.threads[t].pc, |st.cells|)
    requires st.cells[First(st.threads[t].pc.op)] == In(st.threads[t].pc.val)
    requires st.cells[Last(st.threads[t].pc.op)] != Out
    ensures EndsAfter(st, t, 4)
  {
    FirstIsNotLast(st.threads[t].pc.op, |st.cells|);
    StepKeepsShape(st, t);
    LoadLastEnds(Do(st, t), t);
    EndsLater(st, t, 3);
  }

  lemma LoadFirstEnds(st: State, t: nat)
    requires Shape(st) && t < |st.threads| && st.threads[t].pc.LoadFirst? && PcOk(st.threads[t].pc, |st.cells|)
    requires st.cells[First(st.threads[t].pc.op)] != Out && st.cells[Last(st.threads[t].pc.op)] != Out
    ensures EndsAfter(st, t, 5)
  {
    StepKeepsShape(st, t);
    CasFirstEnds(Do(st, t), t);
    EndsLater(st, t, 4);
  }

  /** With no pointer checked out, every busy thread can end its operation alone. */
  lemma FreeEnds(st: State, t: nat)
    requires Inv(st) && t < |st.threads| && st.threads[t].pc != Idle
    requires forall c :: 0 <= c < |st.cells| ==> st.cells[c] != Out
    ensures exists m :: 1 <= m <= 6 && EndsAfter(st, t, m)
  {
    var pc := st.threads[t].pc;
    assert PcOk(pc, |st.cells|) && HandOk(st, t);
    StepKeepsShape(st, t);
    assert Alone(st, t, 0) == st;
    if pc.Loading? {
      assert EndsAfter(st, t, 1);
    } else if pc.LoadFirst? {
      LoadFirstEnds(st, t);
    } else if pc.CasFirst? {
      if st.cells[First(pc.op)] == In(pc.val) {
        CasFirstEnds(st, t);
      } else if pc.op.Swap? {
        LoadFirstEnds(Do(st, t), t);
        EndsLater(st, t, 5);
      } else {
        assert EndsAfter(st, t, 1);
      }
    }
  }

  /** No reachable state with an unfinished operation is stuck: some busy thread, left alone, ends its
      operation within six steps. */
  lemma NeverStuck(run: seq<State>, k: nat, busy: nat)
    requires Run(run) && k < |run| && busy < |run[k].threads| && run[k].threads[busy].pc != Idle
    ensures Shape(run[k])
    ensures exists t, m :: 0 <= t < |run[k].threads| && run[k].threads[t].pc != Idle
                            && 1 <= m <= 6 && EndsAfter(run[k], t, m)
  {
    InvAlongRun(run, k);
    var st := run[k];
    var h := Highest(st.cells, |st.cells|);
    if h < 0 {
      FreeEnds(st, busy);
    } else {
      assert CellOk(st, h);
      var t :| 0 <= t < |st.threads| && HeldBy(st, h, t);
      assert PcOk(st.threads[t].pc, |st.cells|);
      FirstIsNotLast(st.threads[t].pc.op, |st.cells|);
      TopHolderEnds(st, t);
    }
  }

  // ---- A call without rivals ---------------------------------------------------------------------

  /** The state of thread t and of the cells. */
  ghost predicate Stands(st: State, t: nat, cells: seq<Cell>, pc: Pc, done: seq<bool>) {
    && Shape(st) && t < |st.threads| && st.cells == cells
    && st.threads[t].pc == pc && st.threads[t].done == done
  }

  lemma TakesFirst(st: State, t: nat, op: Op, done: seq<bool>, n: nat)
    requires PcOk(LoadFirst(op), |st.cells|) && Shape(st) && t < |st.threads| && st.cells[First(op)].In?
    requires Stands(Alone(st, t, n), t, st.cells, LoadFirst(op), done)
    ensures Stands(Alone(st, t, n + 2), t, st.cells[First(op) := Out], LoadLast(op, st.cells[First(op)].ptr), done)
  {
    var s0, s1 := Alone(st, t, n), Alone(st, t, n + 1);
    assert s1 == Do(s0, t);
    assert Stands(s1, t, st.cells, CasFirst(op, st.cells[First(op)].ptr), done);
    assert Alone(st, t, n + 2) == Do(s1, t);
  }

  lemma TakesLast(st: State, t: nat, op: Op, mine: Ptr, done: seq<bool>, n: nat, cells: seq<Cell>)
    requires |cells| == |st.cells| && PcOk(LoadLast(op, mine), |st.cells|) && cells[Last(op)].In?
    requires Shape(st) && t < |st.threads| && Stands(Alone(st, t, n), t, cells, LoadLast(op, mine), done)
    ensures Stands(Alone(st, t, n + 2), t, cells[Last(op) := In(mine)], Checkin(op, cells[Last(op)].ptr, true), done)
  {
    var s0, s1 := Alone(st, t, n), Alone(st, t, n + 1);
    assert s1 == Do(s0, t);
    assert Stands(s1, t, cells, CasLast(op, mine, cells[Last(op)].ptr), done);
    assert Alone(st, t, n + 2) == Do(s1, t);
  }

  lemma ChecksIn(st: State, t: nat, op: Op, other: Ptr, done: seq<bool>, n: nat, cells: seq<Cell>)
    requires |cells| == |st.cells| && PcOk(Checkin(op, other, true), |st.cells|)
    requires Shape(st) && t < |st.threads| && Stands(Alone(st, t, n), t, cells, Checkin(op, other, true), done)
    ensures Stands(Alone(st, t, n + 1), t, cells[First(op) := In(other)], Idle, done + [true])
  {
    assert Alone(st, t, n + 1) == Do(Alone(st, t, n), t);
  }

  lemma Exchange(cells: seq<Cell>, op: Op, mine: Ptr, other: Ptr)
    requires !op.Get? && OpOk(op, |cells|) && cells[First(op)] == In(mine) && cells[Last(op)] == In(other)
    ensures cells[First(op) := Out][Last(op) := In(mine)][First(op) := In(other)]
         == cells[op.a := cells[op.b]][op.b := cells[op.a]]
  {
  }

  lemma InHand(cells: seq<Cell>, op: Op)
    requires !op.Get? && OpOk(op, |cells|) && cells[op.a].In? && cells[op.b].In?
    ensures First(op) < |cells| && Last(op) < |cells| && cells[First(op)].In? && cells[Last(op)].In?
    ensures cells[First(op) := Out][Last(op)] == cells[Last(op)]
  {
  }

  lemma SwapReady(st: State, t: nat)
    requires Shape(st) && t < |st.threads| && st.threads[t].pc.LoadFirst?
    requires var op := st.threads[t].pc.op;
             && PcOk(st.threads[t].pc, |st.cells|) && st.cells[op.a].In? && st.cells[op.b].In?
    ensures var op, cells := st.threads[t].pc.op, st.cells;
            && OpOk(op, |cells|) && !op.Get? && First(op) < |cells| && Last(op) < |cells|
            && cells[First(op)].In? && cells[Last(op)].In? && cells[First(op) := Out][Last(op)] == cells[Last(op)]
            && Alone(st, t, 0) == st && Stands(st, t, cells, LoadFirst(op), st.threads[t].done)
            && PcOk(LoadFirst(op), |cells|) && PcOk(LoadLast(op, cells[First(op)].ptr), |cells|)
            && PcOk(Checkin(op, cells[Last(op)].ptr, true), |cells|)
  {
    InHand(st.cells, st.threads[t].pc.op);
  }

  /** A Swap or TrySwap that finds both pointers in, and no rival, exchanges them in five steps and says so. */
  lemma AloneSwaps(st: State, t: nat)
    requires Shape(st) && t < |st.threads| && st.threads[t].pc.LoadFirst?
    requires var op := st.threads[t].pc.op;
             && PcOk(st.threads[t].pc, |st.cells|) && st.cells[op.a].In? && st.cells[op.b].In?
    ensures var st', op := Alone(st, t, 5), st.threads[t].pc.op;
            && st'.cells == st.cells[op.a := st.cells[op.b]][op.b := st.cells[op.a]]
            && st'.threads[t].pc == Idle && st'.threads[t].done == st.threads[t].done + [true]
  {
    var op, done, cells := st.threads[t].pc.op, st.threads[t].done, st.cells;
    SwapReady(st, t);
    var mine, other := cells[First(op)].ptr, cells[Last(op)].ptr;
    var c1 := cells[First(op) := Out];
    var c2 := c1[Last(op) := In(mine)];
    var c3 := c2[First(op) := In(other)];
    hide *;
    Exchange(cells, op, mine, other);
    FiveSteps(st, t, op, done, mine, other, c1, c2, c3);
    StandsIs(Alone(st, t, 5), t, c3, Idle, done + [true]);
  }

  lemma FiveSteps(st: State, t: nat, op: Op, done: seq<bool>, mine: Ptr, other: Ptr,
                  c1: seq<Cell>, c2: seq<Cell>, c3: seq<Cell>)
    requires Shape(st) && t < |st.threads| && PcOk(LoadFirst(op), |st.cells|) && !op.Get?
    requires First(op) < |st.cells| && Last(op) < |st.cells| && st.cells[First(op)] == In(mine)
    requires |c1| == |c2| == |st.cells| && c1 == st.cells[First(op) := Out] && c1[Last(op)] == In(other)
    requires c2 == c1[Last(op) := In(mine)] && c3 == c2[First(op) := In(other)]
    requires PcOk(LoadLast(op, mine), |st.cells|) && PcOk(Checkin(op, other, true), |st.cells|)
    requires Alone(st, t, 0) == st && Stands(st, t, st.cells, LoadFirst(op), done)
    ensures Stands(Alone(st, t, 5), t, c3, Idle, done + [true])
  {
    hide *;
    TakesFirst(st, t, op, done, 0);
    TakesLast(st, t, op, mine, done, 2, c1);
    ChecksIn(st, t, op, other, done, 4, c2);
  }

  lemma StandsIs(st: State, t: nat, cells: seq<Cell>, pc: Pc, done: seq<bool>)
    requires Stands(st, t, cells, pc, done)
    ensures t < |st.threads| && st.cells == cells && st.threads[t].pc == pc && st.threads[t].done == done
  {
  }

  /** A Get that finds the pointer in has it after one step, and the cells are as they were. */
  lemma AloneGets(st: State, t: nat)
    requires Shape(st) && t < |st.threads| && st.threads[t].pc.Loading?
    requires st.threads[t].pc.c < |st.cells| && st.cells[st.threads[t].pc.c].In?
    ensures var st', c := Alone(st, t, 1), st.threads[t].pc.c;
            && st'.cells == st.cells && st'.threads[t].pc == Idle && In(st'.threads[t].got) == st.cells[c]
  {
    assert Alone(st, t, 0) == st;
  }
}
