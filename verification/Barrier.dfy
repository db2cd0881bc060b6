/** The reusable barrier that stands in for pthread_barrier_wait, with its unsynchronised spinning and its
    fall-back to a condition variable.  Any number of threads, any number of uses. */
module Barrier {
  /** How many threads make an episode, how long to spin, and whether to spin at all. */
  datatype Config = Config(max: nat, spinMax: nat, spin: bool)

  /** Where a thread stands.  Top: waiting for the previous episode to end; In: arrived, waiting for the rest. */
  datatype Pc =
    | Away
    | Enter
    | SpinTop(i: nat) | LockTop | SleepTop | WokenTop
    | SpinIn(master: bool, i: nat) | LockIn(master: bool) | SleepIn(master: bool) | WokenIn(master: bool)

  datatype Return = Return(thread: nat, episode: nat, serial: bool)

  /** n and arrival are the barrier's fields; episode, arrived, left and log record the history. */
  datatype State = State(pcs: seq<Pc>, n: nat, arrival: bool, episode: nat, arrived: nat, left: nat, log: seq<Return>)

  datatype Step = Call(t: nat) | Go(t: nat) | Spurious(t: nat)

  function Woken(pc: Pc): Pc {
    match pc
    case SleepTop => WokenTop
    case SleepIn(master) => WokenIn(master)
    case _ => pc
  }

  /** pthread_cond_broadcast. */
  function WakeAll(pcs: seq<Pc>): (r: seq<Pc>)
    ensures |r| == |pcs| && forall t :: 0 <= t < |pcs| ==> r[t] == Woken(pcs[t])
  {
    seq(|pcs|, t requires 0 <= t < |pcs| => Woken(pcs[t]))
  }

  /** Leave the barrier; the last one to leave starts a new arrival phase. */
  function Depart(st: State, t: nat, master: bool): State
    requires t < |st.pcs| && st.n > 0
  {
    var st1 := st.(n := st.n - 1, left := st.left + 1, pcs := st.pcs[t := Away],
                   log := st.log + [Return(t, st.episode, master)]);
    if st1.n == 0 then
      st1.(arrival := true, pcs := WakeAll(st1.pcs), episode := st.episode + 1, arrived := 0, left := 0)
    else st1
  }

  /** Arrive; the first one is the master, the last one starts the departure phase and leaves. */
  function Arrive(c: Config, st: State, t: nat): State
    requires t < |st.pcs|
  {
    var master := st.n == 0;
    var st1 := st.(n := st.n + 1, arrived := st.arrived + 1);
    if st1.n >= c.max then Depart(st1.(arrival := false, pcs := WakeAll(st1.pcs)), t, master)
    else st1.(pcs := st1.pcs[t := if c.spin then SpinIn(master, 0) else SleepIn(master)])
  }

  function Moved(st: State, t: nat, pc: Pc): State
    requires t < |st.pcs|
  {
    st.(pcs := st.pcs[t := pc])
  }

  predicate Enabled(st: State, step: Step) {
    step.t < |st.pcs| &&
    var pc := st.pcs[step.t];
    match step
    case Call(_) => pc == Away
    case Go(_) => !pc.Away? && !pc.SleepTop? && !pc.SleepIn? && (Inside(pc) ==> st.n > 0)
    case Spurious(_) => pc.SleepTop? || pc.SleepIn?
  }

  /** One atomic section: what a thread does while it holds the mutex, or one unlocked read of the flag. */
  function Do(c: Config, st: State, step: Step): State
    requires Enabled(st, step)
  {
    var t, pc := step.t, st.pcs[step.t];
    match step
    case Call(_) => Moved(st, t, Enter)
    case Spurious(_) => Moved(st, t, Woken(pc))
    case Go(_) =>
      match pc
      case Enter =>
        if st.arrival then Arrive(c, st, t) else Moved(st, t, if c.spin then SpinTop(0) else SleepTop)
      case SpinTop(i) => Moved(st, t, if !st.arrival && i < c.spinMax then SpinTop(i + 1) else LockTop)
      case LockTop => if st.arrival then Arrive(c, st, t) else Moved(st, t, SleepTop)
      case WokenTop => if st.arrival then Arrive(c, st, t) else Moved(st, t, SleepTop)
      case SpinIn(master, i) =>
        Moved(st, t, if st.arrival && i < c.spinMax then SpinIn(master, i + 1) else LockIn(master))
      case LockIn(master) => if st.arrival then Moved(st, t, SleepIn(master)) else Depart(st, t, master)
      case WokenIn(master) => if st.arrival then Moved(st, t, SleepIn(master)) else Depart(st, t, master)
      case _ => st
  }

  predicate Inside(pc: Pc) {
    pc.SpinIn? || pc.LockIn? || pc.SleepIn? || pc.WokenIn?
  }

  predicate Master(pc: Pc) {
    Inside(pc) && pc.master
  }

  ghost predicate Init(c: Config, st: State) {
    && 0 < c.max && st.n == 0 && st.arrival && st.episode == 0 && st.arrived == 0 && st.left == 0 && st.log == []
    && forall t :: 0 <= t < |st.pcs| ==> st.pcs[t] == Away
  }

  ghost predicate Next(c: Config, st: State, st': State) {
    exists step :: Enabled(st, step) && st' == Do(c, st, step)
  }

  ghost predicate Run(c: Config, run: seq<State>) {
    && run != [] && Init(c, run[0])
    && forall k :: 0 <= k < |run| - 1 ==> Next(c, run[k], run[k + 1])
  }

  // ---- Counting ----------------------------------------------------------------------------------

  function InsideCount(pcs: seq<Pc>): nat {
    if pcs == [] then 0 else InsideCount(pcs[..|pcs| - 1]) + (if Inside(pcs[|pcs| - 1]) then 1 else 0)
  }

  function MasterCount(pcs: seq<Pc>): nat {
    if pcs == [] then 0 else MasterCount(pcs[..|pcs| - 1]) + (if Master(pcs[|pcs| - 1]) then 1 else 0)
  }

  function BusyCount(pcs: seq<Pc>): nat {
    if pcs == [] then 0 else BusyCount(pcs[..|pcs| - 1]) + (if pcs[|pcs| - 1] != Away then 1 else 0)
  }

  /** Returns of an episode, and those with the serial-thread value. */
  ghost function Returns(log: seq<Return>, e: nat): nat {
    if log == [] then 0 else Returns(log[..|log| - 1], e) + (if log[|log| - 1].episode == e then 1 else 0)
  }

  ghost function Serials(log: seq<Return>, e: nat): nat {
    if log == [] then 0
    else Serials(log[..|log| - 1], e) + (if log[|log| - 1].episode == e && log[|log| - 1].serial then 1 else 0)
  }

  lemma {:induction false} CountsUpdate(pcs: seq<Pc>, t: nat, pc: Pc)
    requires t < |pcs|
    ensures InsideCount(pcs[t := pc])
              == InsideCount(pcs) - (if Inside(pcs[t]) then 1 else 0) + (if Inside(pc) then 1 else 0)
    ensures MasterCount(pcs[t := pc])
              == MasterCount(pcs) - (if Master(pcs[t]) then 1 else 0) + (if Master(pc) then 1 else 0)
  {
    var qs := pcs[t := pc];
    if t < |pcs| - 1 {
      assert qs[..|qs| - 1] == pcs[..|pcs| - 1][t := pc];
      CountsUpdate(pcs[..|pcs| - 1], t, pc);
    } else {
      assert qs[..|qs| - 1] == pcs[..|pcs| - 1];
    }
  }

  lemma {:induction false} CountsWoken(pcs: seq<Pc>)
    ensures InsideCount(WakeAll(pcs)) == InsideCount(pcs) && MasterCount(WakeAll(pcs)) == MasterCount(pcs)
  {
    if pcs != [] {
      CountsWoken(pcs[..|pcs| - 1]);
      assert WakeAll(pcs)[..|pcs| - 1] == WakeAll(pcs[..|pcs| - 1]);
    }
  }

  lemma LogAppend(log: seq<Return>, r: Return, e: nat)
    ensures Returns(log + [r], e) == Returns(log, e) + (if r.episode == e then 1 else 0)
    ensures Serials(log + [r], e) == Serials(log, e) + (if r.episode == e && r.serial then 1 else 0)
  {
    assert (log + [r])[..|log|] == log;
  }

  // ---- Invariant ---------------------------------------------------------------------------------

  /** n counts the threads inside; the phases say how far the episode is. */
  ghost predicate CountsOk(c: Config, st: State) {
    && 0 < c.max
    && st.n == InsideCount(st.pcs) && st.n == st.arrived - st.left
    && (st.arrival ==> st.n < c.max && st.left == 0)
    && (!st.arrival ==> 0 < st.n && st.arrived == c.max)
  }

  /** The current episode has its one master inside or already returned. */
  ghost predicate SerialOk(st: State) {
    && Serials(st.log, st.episode) + MasterCount(st.pcs) == (if st.arrived > 0 then 1 else 0)
    && Returns(st.log, st.episode) == st.left
  }

  /** Completed episodes had max returns, one of them serial; future ones none. */
  ghost predicate PastOk(c: Config, st: State, e: nat) {
    && (e < st.episode ==> Returns(st.log, e) == c.max && Serials(st.log, e) == 1)
    && (e > st.episode ==> Returns(st.log, e) == 0 && Serials(st.log, e) == 0)
  }

  /** No wake-up is lost: nobody sleeps for a phase that is there. */
  ghost predicate AwakeOk(st: State, t: nat)
    requires t < |st.pcs|
  {
    (st.arrival ==> !st.pcs[t].SleepTop?) && (!st.arrival ==> !st.pcs[t].SleepIn?)
  }

  ghost predicate Inv(c: Config, st: State) {
    && CountsOk(c, st) && SerialOk(st)
    && (forall e :: PastOk(c, st, e))
    && forall t :: 0 <= t < |st.pcs| ==> AwakeOk(st, t)
  }

  lemma {:induction false} NobodyInside(pcs: seq<Pc>)
    requires forall t :: 0 <= t < |pcs| ==> pcs[t] == Away
    ensures InsideCount(pcs) == 0 && MasterCount(pcs) == 0
  {
    if pcs != [] { NobodyInside(pcs[..|pcs| - 1]); }
  }

  lemma InvInit(c: Config, st: State)
    requires Init(c, st)
    ensures Inv(c, st)
  {
    NobodyInside(st.pcs);
  }

  lemma {:induction false} InsideBound(pcs: seq<Pc>, t: nat)
    requires t < |pcs|
    ensures Inside(pcs[t]) ==> InsideCount(pcs) > 0
    ensures Master(pcs[t]) ==> MasterCount(pcs) > 0
    ensures MasterCount(pcs) <= InsideCount(pcs)
  {
    if t < |pcs| - 1 { InsideBound(pcs[..|pcs| - 1], t); }
    MastersAreInside(pcs);
  }

  lemma {:induction false} MastersAreInside(pcs: seq<Pc>)
    ensures MasterCount(pcs) <= InsideCount(pcs)
  {
    if pcs != [] { MastersAreInside(pcs[..|pcs| - 1]); }
  }

  /** A move that does not change who is inside. */
  lemma InvMoved(c: Config, st: State, t: nat, pc: Pc)
    requires Inv(c, st) && t < |st.pcs| && Inside(pc) == Inside(st.pcs[t]) && Master(pc) == Master(st.pcs[t])
    requires (st.arrival ==> !pc.SleepTop?) && (!st.arrival ==> !pc.SleepIn?)
    ensures Inv(c, Moved(st, t, pc))
  {
    CountsUpdate(st.pcs, t, pc);
    var st' := Moved(st, t, pc);
    hide InsideCount, MasterCount, Serials, Returns;
    forall e ensures PastOk(c, st', e) { assert PastOk(c, st, e); }
    forall u | 0 <= u < |st'.pcs| ensures AwakeOk(st', u) { assert AwakeOk(st, u); }
  }

  /** Just before a thread leaves: it is counted, whether it waited inside or is the last to arrive. */
  ghost predicate Leaving(c: Config, st: State, t: nat, master: bool, extra: nat)
    requires t < |st.pcs|
  {
    && 0 < c.max && !st.arrival && 0 < st.n && st.arrived == c.max && st.n == st.arrived - st.left
    && extra == (if Inside(st.pcs[t]) then 0 else 1)
    && (if Inside(st.pcs[t]) then master == Master(st.pcs[t]) else true)
    && st.n == InsideCount(st.pcs) + extra
    && Serials(st.log, st.episode) + MasterCount(st.pcs) + (if extra == 1 && master then 1 else 0) == 1
    && Returns(st.log, st.episode) == st.left
    && (forall e :: PastOk(c, st, e))
    && forall u :: 0 <= u < |st.pcs| ==> !st.pcs[u].SleepIn?
  }

  lemma DepartCounts(c: Config, st: State, t: nat, master: bool, extra: nat)
    requires t < |st.pcs| && Leaving(c, st, t, master, extra)
    ensures CountsOk(c, Depart(st, t, master))
    ensures MasterCount(Depart(st, t, master).pcs) == MasterCount(st.pcs) - (if Master(st.pcs[t]) then 1 else 0)
    ensures st.n == 1 ==> MasterCount(Depart(st, t, master).pcs) == 0
  {
    CountsUpdate(st.pcs, t, Away);
    CountsWoken(st.pcs[t := Away]);
    MastersAreInside(st.pcs[t := Away]);
    hide InsideCount, MasterCount, Serials, Returns, PastOk;
  }

  lemma DepartSerial(c: Config, st: State, t: nat, master: bool, extra: nat)
    requires t < |st.pcs| && Leaving(c, st, t, master, extra)
    ensures SerialOk(Depart(st, t, master))
  {
    DepartCounts(c, st, t, master, extra);
    LogAppend(st.log, Return(t, st.episode, master), st.episode);
    LogAppend(st.log, Return(t, st.episode, master), st.episode + 1);
    assert PastOk(c, st, st.episode + 1);
    hide InsideCount, MasterCount, Serials, Returns, CountsOk, PastOk, WakeAll;
    assert Leaving(c, st, t, master, extra);
  }

  lemma DepartLog(st: State, t: nat, master: bool)
    requires t < |st.pcs| && st.n > 0
    ensures Depart(st, t, master).log == st.log + [Return(t, st.episode, master)]
    ensures Depart(st, t, master).episode == if st.n == 1 then st.episode + 1 else st.episode
    ensures st.n == 1 ==> Depart(st, t, master).left == 0
    ensures st.n > 1 ==> Depart(st, t, master).left == st.left + 1
  {
    hide WakeAll;
  }

  /** With the last departure the episode has its max returns, one of them the master's. */
  lemma DepartEnds(c: Config, st: State, t: nat, master: bool, extra: nat)
    requires t < |st.pcs| && Leaving(c, st, t, master, extra) && st.n == 1
    ensures Returns(st.log, st.episode) + 1 == c.max
    ensures Serials(st.log, st.episode) + (if master then 1 else 0) == 1
  {
    DepartCounts(c, st, t, master, extra);
    InsideBound(st.pcs, t);
    hide InsideCount, MasterCount, Serials, Returns, PastOk, WakeAll, Depart;
  }

  lemma DepartPast(c: Config, st: State, t: nat, master: bool, extra: nat, e: nat)
    requires t < |st.pcs| && Leaving(c, st, t, master, extra)
    ensures PastOk(c, Depart(st, t, master), e)
  {
    assert PastOk(c, st, e) && st.n > 0;
    DepartLog(st, t, master);
    if st.n == 1 { DepartEnds(c, st, t, master, extra); }
    LogAppend(st.log, Return(t, st.episode, master), e);
    hide *;
    PastFrom(c, st, Depart(st, t, master), Return(t, st.episode, master), e);
  }

  lemma PastFrom(c: Config, st: State, st': State, r: Return, e: nat)
    requires PastOk(c, st, e) && r.episode == st.episode && (st'.episode == st.episode || st'.episode == st.episode + 1)
    requires st'.log == st.log + [r]
    requires Returns(st'.log, e) == Returns(st.log, e) + (if r.episode == e then 1 else 0)
    requires Serials(st'.log, e) == Serials(st.log, e) + (if r.episode == e && r.serial then 1 else 0)
    requires st'.episode > st.episode ==>
               && Returns(st.log, st.episode) + 1 == c.max
               && Serials(st.log, st.episode) + (if r.serial then 1 else 0) == 1
    ensures PastOk(c, st', e)
  {
    hide Returns, Serials;
  }

  lemma InvDepart(c: Config, st: State, t: nat, master: bool, extra: nat)
    requires t < |st.pcs| && Leaving(c, st, t, master, extra)
    ensures Inv(c, Depart(st, t, master))
  {
    var st' := Depart(st, t, master);
    DepartCounts(c, st, t, master, extra);
    DepartSerial(c, st, t, master, extra);
    hide InsideCount, MasterCount, Serials, Returns, CountsOk, SerialOk, PastOk;
    forall e ensures PastOk(c, st', e) { DepartPast(c, st, t, master, extra, e); }
    forall u | 0 <= u < |st'.pcs| ensures AwakeOk(st', u) {}
  }

  /** Not the last to arrive: the thread waits inside. */
  lemma InvWait(c: Config, st: State, t: nat)
    requires Inv(c, st) && t < |st.pcs| && st.arrival && !Inside(st.pcs[t]) && st.n + 1 < c.max
    ensures Inv(c, Arrive(c, st, t))
  {
    var master := st.n == 0;
    MastersAreInside(st.pcs);
    CountsUpdate(st.pcs, t, if c.spin then SpinIn(master, 0) else SleepIn(master));
    var st' := Arrive(c, st, t);
    hide InsideCount, MasterCount, Serials, Returns;
    forall e ensures PastOk(c, st', e) { assert PastOk(c, st, e); }
    forall u | 0 <= u < |st'.pcs| ensures AwakeOk(st', u) { assert AwakeOk(st, u); }
  }

  lemma InvArrive(c: Config, st: State, t: nat)
    requires Inv(c, st) && t < |st.pcs| && st.arrival && !Inside(st.pcs[t])
    ensures Inv(c, Arrive(c, st, t))
  {
    if st.n + 1 >= c.max {
      var master := st.n == 0;
      var st1 := st.(n := st.n + 1, arrived := st.arrived + 1);
      var st2 := st1.(arrival := false, pcs := WakeAll(st1.pcs));
      MastersAreInside(st.pcs);
      CountsWoken(st.pcs);
      hide InsideCount, MasterCount, Serials, Returns;
      forall e ensures PastOk(c, st2, e) { assert PastOk(c, st, e); }
      assert Leaving(c, st2, t, master, 1);
      InvDepart(c, st2, t, master, 1);
    } else {
      InvWait(c, st, t);
    }
  }

  lemma InvLeave(c: Config, st: State, t: nat)
    requires Inv(c, st) && t < |st.pcs| && !st.arrival && Inside(st.pcs[t]) && st.n > 0
    ensures Inv(c, Depart(st, t, st.pcs[t].master))
  {
    hide InsideCount, MasterCount, Serials, Returns;
    forall u | 0 <= u < |st.pcs| ensures !st.pcs[u].SleepIn? { assert AwakeOk(st, u); }
    assert Leaving(c, st, t, st.pcs[t].master, 0);
    InvDepart(c, st, t, st.pcs[t].master, 0);
  }

  lemma InvNext(c: Config, st: State, st': State)
    requires Inv(c, st) && Next(c, st, st')
    ensures Inv(c, st')
  {
    var step :| Enabled(st, step) && st' == Do(c, st, step);
    var t, pc := step.t, st.pcs[step.t];
    hide Inv, Arrive, Depart, Moved;
    match step
    case Call(_) => InvMoved(c, st, t, Enter);
    case Spurious(_) => InvMoved(c, st, t, Woken(pc));
    case Go(_) =>
      match pc
      case Enter =>
        if st.arrival { InvArrive(c, st, t); } else { InvMoved(c, st, t, if c.spin then SpinTop(0) else SleepTop); }
      case SpinTop(i) => InvMoved(c, st, t, if !st.arrival && i < c.spinMax then SpinTop(i + 1) else LockTop);
      case LockTop => if st.arrival { InvArrive(c, st, t); } else { InvMoved(c, st, t, SleepTop); }
      case WokenTop => if st.arrival { InvArrive(c, st, t); } else { InvMoved(c, st, t, SleepTop); }
      case SpinIn(master, i) =>
        InvMoved(c, st, t, if st.arrival && i < c.spinMax then SpinIn(master, i + 1) else LockIn(master));
      case LockIn(master) => if st.arrival { InvMoved(c, st, t, SleepIn(master)); } else { InvLeave(c, st, t); }
      case WokenIn(master) => if st.arrival { InvMoved(c, st, t, SleepIn(master)); } else { InvLeave(c, st, t); }
      case _ =>
  }

  lemma {:induction false} InvAlongRun(c: Config, run: seq<State>, k: nat)
    requires Run(c, run) && k < |run|
    ensures Inv(c, run[k])
  {
    if k == 0 {
      InvInit(c, run[0]);
    } else {
      InvAlongRun(c, run, k - 1);
      InvNext(c, run[k - 1], run[k]);
    }
  }

  // ---- Safety ------------------------------------------------------------------------------------

  /** The step returns from the barrier. */
  predicate Returning(c: Config, st: State, step: Step)
    requires Enabled(st, step)
  {
    |Do(c, st, step).log| > |st.log|
  }

  /** The step joins an episode. */
  predicate Joining(c: Config, st: State, step: Step)
    requires Enabled(st, step)
  {
    st.arrival && step.Go? && (st.pcs[step.t].Enter? || st.pcs[step.t].LockTop? || st.pcs[step.t].WokenTop?)
  }

  /** Nobody leaves an episode before max threads have arrived in it. */
  lemma NoEarlyLeave(c: Config, run: seq<State>, k: nat, step: Step)
    requires Run(c, run) && k < |run| && Enabled(run[k], step) && Returning(c, run[k], step)
    ensures run[k].arrived + (if Joining(c, run[k], step) then 1 else 0) == c.max
  {
    InvAlongRun(c, run, k);
  }

  /** Nobody joins an episode before all have left the one before: max returns are on record for it. */
  lemma NoEarlyJoin(c: Config, run: seq<State>, k: nat, step: Step)
    requires Run(c, run) && k < |run| && Enabled(run[k], step) && Joining(c, run[k], step)
    ensures run[k].left == 0 && run[k].arrived < c.max
    ensures run[k].episode > 0 ==> Returns(run[k].log, run[k].episode - 1) == c.max
  {
    InvAlongRun(c, run, k);
    if run[k].episode > 0 { assert PastOk(c, run[k], run[k].episode - 1); }
  }

  /** Every completed episode has max returns and exactly one of them is the serial thread's. */
  lemma OneSerialThread(c: Config, run: seq<State>, k: nat, e: nat)
    requires Run(c, run) && k < |run| && e < run[k].episode
    ensures Returns(run[k].log, e) == c.max && Serials(run[k].log, e) == 1
  {
    InvAlongRun(c, run, k);
    assert PastOk(c, run[k], e);
  }

  lemma {:induction false} SerialsAreReturns(log: seq<Return>, e: nat)
    ensures Serials(log, e) <= Returns(log, e)
  {
    if log != [] { SerialsAreReturns(log[..|log| - 1], e); }
  }

  lemma {:induction false} FindMaster(pcs: seq<Pc>) returns (t: nat)
    requires MasterCount(pcs) > 0
    ensures t < |pcs| && Master(pcs[t])
  {
    var n := |pcs| - 1;
    if Master(pcs[n]) { t := n; } else { t := FindMaster(pcs[..n]); }
  }

  /** The serial thread is there from the first arrival on: as long as others may join, it is inside, and alone is. */
  lemma SerialIsFirst(c: Config, run: seq<State>, k: nat)
    requires Run(c, run) && k < |run| && run[k].arrival && run[k].arrived > 0
    ensures MasterCount(run[k].pcs) == 1
    ensures exists t :: 0 <= t < |run[k].pcs| && Master(run[k].pcs[t])
  {
    InvAlongRun(c, run, k);
    var st := run[k];
    SerialsAreReturns(st.log, st.episode);
    var t := FindMaster(st.pcs);
  }

  /** n is the number of threads that have arrived and not departed. */
  lemma CountIsArrivedMinusLeft(c: Config, run: seq<State>, k: nat)
    requires Run(c, run) && k < |run|
    ensures run[k].n == run[k].arrived - run[k].left == InsideCount(run[k].pcs) <= c.max
  {
    InvAlongRun(c, run, k);
  }

  // ---- Progress ----------------------------------------------------------------------------------

  predicate Asleep(pc: Pc) {
    pc.SleepTop? || pc.SleepIn?
  }

  lemma {:induction false} AllInside(pcs: seq<Pc>)
    requires forall t :: 0 <= t < |pcs| ==> pcs[t] == Away || pcs[t].SleepIn?
    ensures InsideCount(pcs) == BusyCount(pcs)
  {
    if pcs != [] { AllInside(pcs[..|pcs| - 1]); }
  }

  lemma {:induction false} NoneInside(pcs: seq<Pc>)
    requires forall t :: 0 <= t < |pcs| ==> !Inside(pcs[t])
    ensures InsideCount(pcs) == 0
  {
    if pcs != [] { NoneInside(pcs[..|pcs| - 1]); }
  }

  /** With at least max threads in the barrier, some thread is awake and can take a step. */
  lemma NeverAllAsleep(c: Config, run: seq<State>, k: nat)
    requires Run(c, run) && k < |run| && BusyCount(run[k].pcs) >= c.max
    ensures exists t :: 0 <= t < |run[k].pcs| && run[k].pcs[t] != Away
                         && !Asleep(run[k].pcs[t]) && Enabled(run[k], Go(t))
  {
    InvAlongRun(c, run, k);
    var st := run[k];
    if forall t :: 0 <= t < |st.pcs| ==> st.pcs[t] == Away || Asleep(st.pcs[t]) {
      SomeoneAwake(c, st);
    }
    var t :| 0 <= t < |st.pcs| && st.pcs[t] != Away && !Asleep(st.pcs[t]);
    InsideBound(st.pcs, t);
  }

  /** A thread that is awake is never held up: the guard of its next section always holds. */
  lemma AwakeCanGo(c: Config, run: seq<State>, k: nat, t: nat)
    requires Run(c, run) && k < |run| && t < |run[k].pcs| && run[k].pcs[t] != Away && !Asleep(run[k].pcs[t])
    ensures Enabled(run[k], Go(t))
  {
    InvAlongRun(c, run, k);
    InsideBound(run[k].pcs, t);
  }

  lemma SomeoneAwake(c: Config, st: State)
    requires Inv(c, st) && BusyCount(st.pcs) >= c.max
    ensures exists t :: 0 <= t < |st.pcs| && st.pcs[t] != Away && !Asleep(st.pcs[t])
  {
    if forall t :: 0 <= t < |st.pcs| ==> st.pcs[t] == Away || Asleep(st.pcs[t]) {
      forall t | 0 <= t < |st.pcs|
        ensures if st.arrival then st.pcs[t] == Away || st.pcs[t].SleepIn? else !Inside(st.pcs[t])
      {
        assert AwakeOk(st, t);
      }
      if st.arrival { AllInside(st.pcs); } else { NoneInside(st.pcs); }
    }
  }

  // ---- How long it takes -------------------------------------------------------------------------

  function SpinsLeft(c: Config, i: nat): nat {
    if i <= c.spinMax then c.spinMax - i else 0
  }

  /** How many steps a thread may take before it sleeps or leaves. */
  function Rank(c: Config, pc: Pc): nat {
    match pc
    case Away => 0
    case SleepIn(_) => 0
    case WokenIn(_) => 1
    case LockIn(_) => 1
    case SpinIn(_, i) => SpinsLeft(c, i) + 2
    case SleepTop => c.spinMax + 3
    case WokenTop => c.spinMax + 4
    case LockTop => c.spinMax + 4
    case SpinTop(i) => SpinsLeft(c, i) + c.spinMax + 5
    case Enter => 2 * c.spinMax + 6
  }

  /** Whoever is in the barrier may wake up all others once, when it leaves. */
  function Weight(c: Config, size: nat, pc: Pc): nat {
    Rank(c, pc) + (if pc == Away then 0 else size + 1)
  }

  ghost function Load(c: Config, size: nat, pcs: seq<Pc>): nat {
    if pcs == [] then 0 else Load(c, size, pcs[..|pcs| - 1]) + Weight(c, size, pcs[|pcs| - 1])
  }

  /** A bound on the steps still to come if no thread calls and none wakes up by itself. */
  ghost function Left(c: Config, st: State): nat {
    Load(c, |st.pcs|, st.pcs)
  }

  lemma {:induction false} LoadUpdate(c: Config, size: nat, pcs: seq<Pc>, t: nat, pc: Pc)
    requires t < |pcs|
    ensures Load(c, size, pcs[t := pc]) == Load(c, size, pcs) - Weight(c, size, pcs[t]) + Weight(c, size, pc)
  {
    hide Weight;
    var n, qs := |pcs| - 1, pcs[t := pc];
    if t < n {
      assert qs[..n] == pcs[..n][t := pc];
      LoadUpdate(c, size, pcs[..n], t, pc);
    } else {
      assert qs[..n] == pcs[..n];
    }
  }

  lemma {:induction false} LoadRaised(c: Config, size: nat, before: seq<Pc>, after: seq<Pc>)
    requires |before| == |after|
    requires forall u :: 0 <= u < |before| ==> after[u] == before[u] || after[u] == Woken(before[u])
    ensures Load(c, size, after) <= Load(c, size, before) + |before|
  {
    if before != [] {
      var n := |before| - 1;
      LoadRaised(c, size, before[..n], after[..n]);
      hide Weight, Woken;
      assert after[n] == before[n] || after[n] == Woken(before[n]);
    }
  }

  /** t has left, and some of the others have been woken up. */
  ghost predicate Gone(before: seq<Pc>, after: seq<Pc>, t: nat) {
    && |before| == |after| && t < |before| && before[t] != Away && after[t] == Away
    && forall u :: 0 <= u < |before| && u != t ==> after[u] == before[u] || after[u] == Woken(before[u])
  }

  lemma GoneNearer(c: Config, before: seq<Pc>, after: seq<Pc>, t: nat)
    requires Gone(before, after, t)
    ensures Load(c, |after|, after) < Load(c, |before|, before)
  {
    var back := after[t := before[t]];
    hide Woken, Rank;
    LoadRaised(c, |before|, before, back);
    LoadUpdate(c, |before|, after, t, before[t]);
  }

  lemma DepartGone(before: seq<Pc>, st: State, t: nat, master: bool)
    requires t < |before| == |st.pcs| && (st.pcs == before || st.pcs == WakeAll(before))
    requires st.n > 0 && before[t] != Away
    ensures Gone(before, Depart(st, t, master).pcs, t)
  {
    var after := Depart(st, t, master).pcs;
    forall u | 0 <= u < |before| && u != t ensures after[u] == before[u] || after[u] == Woken(before[u]) {
      hide WakeAll;
      assert Woken(Woken(before[u])) == Woken(before[u]);
    }
  }

  lemma MovedNearer(c: Config, st: State, t: nat, pc: Pc)
    requires t < |st.pcs| && st.pcs[t] != Away && pc != Away && Rank(c, pc) < Rank(c, st.pcs[t])
    ensures Left(c, Moved(st, t, pc)) < Left(c, st)
  {
    hide Rank;
    LoadUpdate(c, |st.pcs|, st.pcs, t, pc);
  }

  lemma ArriveNearer(c: Config, st: State, t: nat)
    requires t < |st.pcs| && st.pcs[t] != Away && Rank(c, st.pcs[t]) > c.spinMax + 2
    ensures Left(c, Arrive(c, st, t)) < Left(c, st)
  {
    var master := st.n == 0;
    if st.n + 1 >= c.max {
      var st2 := st.(n := st.n + 1, arrived := st.arrived + 1, arrival := false, pcs := WakeAll(st.pcs));
      DepartGone(st.pcs, st2, t, master);
      GoneNearer(c, st.pcs, Depart(st2, t, master).pcs, t);
      hide Depart, Load, Rank, WakeAll;
    } else {
      MovedNearer(c, st, t, if c.spin then SpinIn(master, 0) else SleepIn(master));
    }
  }

  lemma LeaveNearer(c: Config, st: State, t: nat)
    requires t < |st.pcs| && Inside(st.pcs[t]) && st.n > 0
    ensures Left(c, Depart(st, t, st.pcs[t].master)) < Left(c, st)
  {
    DepartGone(st.pcs, st, t, st.pcs[t].master);
    GoneNearer(c, st.pcs, Depart(st, t, st.pcs[t].master).pcs, t);
  }

  /** Every step of a thread in the barrier brings the end nearer, whatever the others do. */
  lemma GoNearer(c: Config, st: State, t: nat)
    requires Enabled(st, Go(t))
    ensures Left(c, Do(c, st, Go(t))) < Left(c, st)
  {
    hide Left, Arrive, Depart, Moved;
    match st.pcs[t]
    case Enter =>
      if st.arrival { ArriveNearer(c, st, t); } else { MovedNearer(c, st, t, if c.spin then SpinTop(0) else SleepTop); }
    case SpinTop(i) => MovedNearer(c, st, t, if !st.arrival && i < c.spinMax then SpinTop(i + 1) else LockTop);
    case LockTop => if st.arrival { ArriveNearer(c, st, t); } else { MovedNearer(c, st, t, SleepTop); }
    case WokenTop => if st.arrival { ArriveNearer(c, st, t); } else { MovedNearer(c, st, t, SleepTop); }
    case SpinIn(master, i) =>
      MovedNearer(c, st, t, if st.arrival && i < c.spinMax then SpinIn(master, i + 1) else LockIn(master));
    case LockIn(master) =>
      if st.arrival { MovedNearer(c, st, t, SleepIn(master)); } else { LeaveNearer(c, st, t); }
    case WokenIn(master) =>
      if st.arrival { MovedNearer(c, st, t, SleepIn(master)); } else { LeaveNearer(c, st, t); }
    case _ =>
  }

  lemma {:induction false} LoadBound(c: Config, size: nat, pcs: seq<Pc>)
    ensures Load(c, size, pcs) <= |pcs| * (2 * c.spinMax + size + 7)
  {
    var each := 2 * c.spinMax + size + 7;
    if pcs != [] {
      LoadBound(c, size, pcs[..|pcs| - 1]);
      assert Weight(c, size, pcs[|pcs| - 1]) <= each;
      assert |pcs| * each == (|pcs| - 1) * each + each;
    }
  }

  /** Threads in the barrier go on by themselves, in any order: nobody calls and nobody wakes up unasked. */
  ghost predicate GoRun(c: Config, run: seq<State>) {
    && run != []
    && forall k :: 0 <= k < |run| - 1 ==> exists t :: Enabled(run[k], Go(t)) && run[k + 1] == Do(c, run[k], Go(t))
  }

  /** Nobody in the barrier can take a step. */
  ghost predicate Quiet(st: State) {
    forall t :: !Enabled(st, Go(t))
  }

  lemma {:induction false} LeftAlongRun(c: Config, run: seq<State>, k: nat)
    requires GoRun(c, run) && k < |run|
    ensures Left(c, run[k]) + k <= Left(c, run[0]) && |run[k].pcs| == |run[0].pcs|
  {
    hide Left, Do;
    if k > 0 {
      LeftAlongRun(c, run, k - 1);
      var t :| Enabled(run[k - 1], Go(t)) && run[k] == Do(c, run[k - 1], Go(t));
      GoNearer(c, run[k - 1], t);
      SameThreads(c, run[k - 1], Go(t));
    }
  }

  lemma SameThreads(c: Config, st: State, step: Step)
    requires Enabled(st, step)
    ensures |Do(c, st, step).pcs| == |st.pcs|
  {
  }

  /** Left to themselves the threads come to rest, in a number of steps that their number bounds. */
  lemma ComeToRest(c: Config, run: seq<State>)
    requires GoRun(c, run)
    ensures |run| <= 1 + |run[0].pcs| * (2 * c.spinMax + |run[0].pcs| + 7)
  {
    LeftAlongRun(c, run, |run| - 1);
    LoadBound(c, |run[0].pcs|, run[0].pcs);
  }

  // ---- Who comes back ----------------------------------------------------------------------------

  /** How often the barrier was called: those that returned and those still in it. */
  function Calls(st: State): nat {
    |st.log| + BusyCount(st.pcs)
  }

  ghost predicate LogOk(c: Config, st: State) {
    |st.log| == st.episode * c.max + st.left
  }

  lemma {:induction false} BusyUpdate(pcs: seq<Pc>, t: nat, pc: Pc)
    requires t < |pcs|
    ensures BusyCount(pcs[t := pc])
              == BusyCount(pcs) - (if pcs[t] != Away then 1 else 0) + (if pc != Away then 1 else 0)
  {
    var qs := pcs[t := pc];
    if t < |pcs| - 1 {
      assert qs[..|qs| - 1] == pcs[..|pcs| - 1][t := pc];
      BusyUpdate(pcs[..|pcs| - 1], t, pc);
    } else {
      assert qs[..|qs| - 1] == pcs[..|pcs| - 1];
    }
  }

  lemma {:induction false} BusyWoken(pcs: seq<Pc>)
    ensures BusyCount(WakeAll(pcs)) == BusyCount(pcs)
  {
    if pcs != [] {
      BusyWoken(pcs[..|pcs| - 1]);
      assert WakeAll(pcs)[..|pcs| - 1] == WakeAll(pcs[..|pcs| - 1]);
    }
  }

  lemma CallsDepart(c: Config, st: State, t: nat, master: bool)
    requires t < |st.pcs| && st.n > 0 && st.pcs[t] != Away
    ensures Calls(Depart(st, t, master)) == Calls(st)
  {
    hide BusyCount;
    BusyUpdate(st.pcs, t, Away);
    BusyWoken(st.pcs[t := Away]);
  }

  lemma CallsArrive(c: Config, st: State, t: nat)
    requires t < |st.pcs| && st.pcs[t] != Away
    ensures Calls(Arrive(c, st, t)) == Calls(st)
  {
    hide BusyCount, Depart;
    if st.n + 1 >= c.max {
      var st2 := st.(n := st.n + 1, arrived := st.arrived + 1, arrival := false, pcs := WakeAll(st.pcs));
      BusyWoken(st.pcs);
      CallsDepart(c, st2, t, st.n == 0);
    } else {
      BusyUpdate(st.pcs, t, if c.spin then SpinIn(st.n == 0, 0) else SleepIn(st.n == 0));
    }
  }

  lemma CallsMoved(st: State, t: nat, pc: Pc)
    requires t < |st.pcs| && pc != Away
    ensures Calls(Moved(st, t, pc)) == Calls(st) + (if st.pcs[t] == Away then 1 else 0)
  {
    hide BusyCount;
    BusyUpdate(st.pcs, t, pc);
  }

  /** A call is one more call; nothing else is. */
  lemma CallsDo(c: Config, st: State, step: Step)
    requires Enabled(st, step)
    ensures Calls(Do(c, st, step)) == Calls(st) + (if step.Call? then 1 else 0)
  {
    var t, pc := step.t, st.pcs[step.t];
    hide Calls, Arrive, Depart, Moved;
    match step
    case Call(_) => CallsMoved(st, t, Enter);
    case Spurious(_) => CallsMoved(st, t, Woken(pc));
    case Go(_) =>
      match pc
      case Enter =>
        if st.arrival { CallsArrive(c, st, t); } else { CallsMoved(st, t, if c.spin then SpinTop(0) else SleepTop); }
      case SpinTop(i) => CallsMoved(st, t, if !st.arrival && i < c.spinMax then SpinTop(i + 1) else LockTop);
      case LockTop => if st.arrival { CallsArrive(c, st, t); } else { CallsMoved(st, t, SleepTop); }
      case WokenTop => if st.arrival { CallsArrive(c, st, t); } else { CallsMoved(st, t, SleepTop); }
      case SpinIn(master, i) =>
        CallsMoved(st, t, if st.arrival && i < c.spinMax then SpinIn(master, i + 1) else LockIn(master));
      case LockIn(master) =>
        if st.arrival { CallsMoved(st, t, SleepIn(master)); } else { CallsDepart(c, st, t, master); }
      case WokenIn(master) =>
        if st.arrival { CallsMoved(st, t, SleepIn(master)); } else { CallsDepart(c, st, t, master); }
      case _ =>
  }

  lemma LogDepart(c: Config, st: State, t: nat, master: bool)
    requires t < |st.pcs| && st.n > 0 && st.n == st.arrived - st.left && st.arrived == c.max && LogOk(c, st)
    ensures LogOk(c, Depart(st, t, master))
  {
    hide WakeAll;
    assert (st.episode + 1) * c.max == st.episode * c.max + c.max;
  }

  lemma LogDo(c: Config, st: State, step: Step)
    requires Inv(c, st) && LogOk(c, st) && Enabled(st, step)
    ensures LogOk(c, Do(c, st, step))
  {
    assert CountsOk(c, st);
    hide Inv, InsideCount, MasterCount, WakeAll, Depart, LogOk;
    var t := step.t;
    if Joining(c, st, step) {
      if st.n + 1 >= c.max {
        var st2 := st.(n := st.n + 1, arrived := st.arrived + 1, arrival := false, pcs := WakeAll(st.pcs));
        assert LogOk(c, st2) by { LogSame(c, st, st2); }
        LogDepart(c, st2, t, st.n == 0);
      } else {
        LogSame(c, st, Arrive(c, st, t));
      }
    } else if step.Go? && !st.arrival && (st.pcs[t].LockIn? || st.pcs[t].WokenIn?) {
      LogDepart(c, st, t, st.pcs[t].master);
    } else {
      LogSame(c, st, Do(c, st, step));
    }
  }

  lemma LogSame(c: Config, st: State, st': State)
    requires LogOk(c, st) && st'.log == st.log && st'.episode == st.episode && st'.left == st.left
    ensures LogOk(c, st')
  {
  }

  lemma {:induction false} LogAlongRun(c: Config, run: seq<State>, k: nat)
    requires Run(c, run) && k < |run|
    ensures LogOk(c, run[k])
  {
    if k > 0 {
      LogAlongRun(c, run, k - 1);
      InvAlongRun(c, run, k - 1);
      hide Inv, Do, LogOk;
      assert Next(c, run[k - 1], run[k]);
      var step :| Enabled(run[k - 1], step) && run[k] == Do(c, run[k - 1], step);
      LogDo(c, run[k - 1], step);
    }
  }

  /** Nobody can go on: all that are in the barrier have arrived and sleep, and they are too few. */
  lemma QuietIsWaiting(c: Config, st: State)
    requires Inv(c, st) && Quiet(st)
    ensures st.arrival && st.left == 0 && BusyCount(st.pcs) == st.n < c.max
    ensures forall t :: 0 <= t < |st.pcs| ==> st.pcs[t] == Away || st.pcs[t].SleepIn?
  {
    forall t | 0 <= t < |st.pcs|
      ensures if st.arrival then st.pcs[t] == Away || st.pcs[t].SleepIn? else !Inside(st.pcs[t])
    {
      assert AwakeOk(st, t) && !Enabled(st, Go(t));
      InsideBound(st.pcs, t);
    }
    if st.arrival { AllInside(st.pcs); } else { NoneInside(st.pcs); }
  }

  lemma AtLeastOnce(d: nat, max: nat)
    ensures d > 0 ==> d * max >= max
  {
    if d > 0 {
      var e: nat := d - 1;
      assert d * max == e * max + max;
    }
  }

  lemma WholeGroups(calls: nat, groups: nat, max: nat, rest: nat)
    requires 0 < max && calls == groups * max + rest && rest < max
    ensures calls / max == groups && calls % max == rest
  {
    var q, r := calls / max, calls % max;
    assert calls == q * max + r;
    var more: nat, fewer: nat := if q > groups then q - groups else 0, if q > groups then 0 else groups - q;
    assert (more - fewer) * max == more * max - fewer * max == rest - r;
    AtLeastOnce(more, max);
    AtLeastOnce(fewer, max);
  }

  /** At rest exactly the whole groups of max callers have returned, and the others sleep inside. */
  lemma WholeGroupsReturn(c: Config, run: seq<State>, k: nat)
    requires Run(c, run) && k < |run| && Quiet(run[k])
    ensures 0 < c.max
    ensures |run[k].log| == Calls(run[k]) / c.max * c.max
    ensures run[k].episode == Calls(run[k]) / c.max
    ensures BusyCount(run[k].pcs) == Calls(run[k]) % c.max
    ensures forall t :: 0 <= t < |run[k].pcs| ==> run[k].pcs[t] == Away || run[k].pcs[t].SleepIn?
  {
    var st := run[k];
    InvAlongRun(c, run, k);
    LogAlongRun(c, run, k);
    QuietIsWaiting(c, st);
    assert 0 < c.max by { assert CountsOk(c, st); }
    WholeGroups(Calls(st), st.episode, c.max, st.n);
  }
}
