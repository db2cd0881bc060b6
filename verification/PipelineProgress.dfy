/**
 * That the pipeline gets anywhere.  Every run is finite, whatever the schedule.  A run that cannot go on is
 * either through or stuck in one way only: the writer waits at a lane that is empty all the way up, and the
 * reader at another lane whose first queue is full.
 */
module PipelineProgress {
  import opened PipelineProtocol

  // ---- Sums of tables ----------------------------------------------------------------------------

  ghost function RowSum(row: seq<nat>): nat {
    if row == [] then 0 else RowSum(row[..|row| - 1]) + row[|row| - 1]
  }

  function With(row: seq<nat>, i: nat, v: nat): (r: seq<nat>)
    requires i < |row|
    ensures |r| == |row|
  {
    row[i := v]
  }

  ghost function TableSum(table: seq<seq<nat>>): nat {
    if table == [] then 0 else TableSum(table[..|table| - 1]) + RowSum(table[|table| - 1])
  }

  lemma {:induction false} RowUpdate(row: seq<nat>, i: nat, v: nat)
    requires i < |row|
    ensures RowSum(With(row, i, v)) == RowSum(row) - row[i] + v
  {
    var n, changed := |row| - 1, With(row, i, v);
    if i < n {
      assert changed[..n] == With(row[..n], i, v);
      RowUpdate(row[..n], i, v);
    } else {
      assert changed[..n] == row[..n];
    }
  }

  lemma {:induction false} TableUpdate(table: seq<seq<nat>>, s: nat, i: nat, v: nat)
    requires s < |table| && i < |table[s]|
    ensures TableSum(table[s := With(table[s], i, v)]) == TableSum(table) - table[s][i] + v
  {
    hide RowSum;
    var n, changed := |table| - 1, table[s := With(table[s], i, v)];
    if s < n {
      assert changed[..n] == table[..n][s := With(table[s], i, v)];
      TableUpdate(table[..n], s, i, v);
    } else {
      assert changed[..n] == table[..n];
      RowUpdate(table[s], i, v);
    }
  }

  // ---- How far an item still has to go -----------------------------------------------------------

  /** The writer may have to go round all lanes once more for what it fetches. */
  function Round(c: Config): nat {
    c.lanes + 1
  }

  function WorkRank(c: Config, s: nat): nat {
    if s < STAGES then 4 * (STAGES - 1 - s) + 1 + (if s < STAGES - 1 then Round(c) else 0) else 0
  }

  function SendRank(c: Config, s: nat): nat {
    if s < STAGES then 4 * (STAGES - 1 - s) + Round(c) else 0
  }

  function QueueRank(c: Config, k: nat): nat {
    if k < STAGES - 1 then 4 * (STAGES - 1 - k) - 1 + Round(c) else 0
  }

  /** The ranks of the items; a coarse one counts for its parts too. */
  ghost function Load(c: Config, coarse: bool, rank: nat, items: seq<Item>): nat {
    if items == [] then 0
    else
      Load(c, coarse, rank, items[..|items| - 1]) + rank
      + (if coarse then Times(|c.expand(items[|items| - 1])|, WorkRank(c, REFINE)) else 0)
  }

  /** n * r, as a sum. */
  ghost function Times(n: nat, r: nat): nat {
    if n == 0 then 0 else Times(n - 1, r) + r
  }

  function StatusRank(t: Status): nat {
    match t case Running => 2 case Draining => 1 case Done => 0
  }

  ghost function ThreadLoad(c: Config, s: nat, t: Thread): nat {
    Load(c, s <= REFINE, WorkRank(c, s) + 1, t.recv) + Load(c, s < REFINE, WorkRank(c, s), t.work)
    + Load(c, s < REFINE, SendRank(c, s), t.send) + Load(c, s < REFINE, SendRank(c, s), t.side)
    + StatusRank(t.status) + (if t.turn <= c.lanes then c.lanes - t.turn else 0)
  }

  ghost function QueueLoad(c: Config, k: nat, q: Queue): nat {
    Load(c, k == 0, QueueRank(c, k), q.items)
  }

  ghost function StageLoads(c: Config, s: nat, ts: seq<Thread>): (row: seq<nat>)
    ensures |row| == |ts| && forall i :: 0 <= i < |ts| ==> row[i] == ThreadLoad(c, s, ts[i])
  {
    seq(|ts|, i requires 0 <= i < |ts| => ThreadLoad(c, s, ts[i]))
  }

  ghost function ThreadLoads(c: Config, threads: seq<seq<Thread>>): (table: seq<seq<nat>>)
    ensures |table| == |threads| && forall s :: 0 <= s < |threads| ==> table[s] == StageLoads(c, s, threads[s])
  {
    seq(|threads|, s requires 0 <= s < |threads| => StageLoads(c, s, threads[s]))
  }

  ghost function LaneLoads(c: Config, k: nat, qs: seq<Queue>): (row: seq<nat>)
    ensures |row| == |qs| && forall l :: 0 <= l < |qs| ==> row[l] == QueueLoad(c, k, qs[l])
  {
    seq(|qs|, l requires 0 <= l < |qs| => QueueLoad(c, k, qs[l]))
  }

  ghost function QueueLoads(c: Config, queues: seq<seq<Queue>>): (table: seq<seq<nat>>)
    ensures |table| == |queues| && forall k :: 0 <= k < |queues| ==> table[k] == LaneLoads(c, k, queues[k])
  {
    seq(|queues|, k requires 0 <= k < |queues| => LaneLoads(c, k, queues[k]))
  }

  /** A bound on the steps still to come. */
  ghost function Left(c: Config, st: State): nat {
    TableSum(ThreadLoads(c, st.threads)) + TableSum(QueueLoads(c, st.queues))
  }

  lemma {:induction false} LoadConcat(c: Config, coarse: bool, rank: nat, a: seq<Item>, b: seq<Item>)
    ensures Load(c, coarse, rank, a + b) == Load(c, coarse, rank, a) + Load(c, coarse, rank, b)
  {
    hide Times, WorkRank;
    if b == [] {
      assert a + b == a;
    } else {
      LoadConcat(c, coarse, rank, a, b[..|b| - 1]);
      assert (a + b)[..|a + b| - 1] == a + b[..|b| - 1];
    }
  }

  lemma LoadSplit(c: Config, coarse: bool, rank: nat, a: seq<Item>, n: nat)
    requires n <= |a|
    ensures Load(c, coarse, rank, a) == Load(c, coarse, rank, a[..n]) + Load(c, coarse, rank, a[n..])
  {
    LoadConcat(c, coarse, rank, a[..n], a[n..]);
    assert a == a[..n] + a[n..];
  }

  /** Items that move on to a place of lower rank are n steps nearer, at least. */
  lemma {:induction false} LoadLess(c: Config, coarse: bool, high: nat, low: nat, a: seq<Item>)
    requires low <= high
    ensures Load(c, coarse, high, a) == Load(c, coarse, low, a) + Times(|a|, high - low)
  {
    hide WorkRank;
    if a != [] { LoadLess(c, coarse, high, low, a[..|a| - 1]); }
  }

  lemma {:induction false} TimesAtLeast(n: nat, r: nat)
    requires n > 0
    ensures Times(n, r) >= r
  {
    if n > 1 { TimesAtLeast(n - 1, r); }
  }

  lemma {:induction false} LoadFine(c: Config, rank: nat, a: seq<Item>)
    ensures Load(c, false, rank, a) == Times(|a|, rank)
  {
    if a != [] { LoadFine(c, rank, a[..|a| - 1]); }
  }

  lemma LoadOne(c: Config, coarse: bool, rank: nat, x: Item)
    ensures Load(c, coarse, rank, [x])
         == rank + if coarse then Times(|c.expand(x)|, WorkRank(c, REFINE)) else 0
    ensures Load(c, coarse, rank, []) == 0
  {
    hide Times, WorkRank;
    assert [x][..0] == [];
  }

  // ---- Every step brings the end nearer ----------------------------------------------------------

  ghost function QueueLoadBefore(c: Config, st: State, step: Step): nat
    requires Enabled(c, st, step)
  {
    var k := ChangedQueue(step);
    if k < 0 then 0 else QueueLoad(c, k, st.queues[k][ChangedLane(c, st, step)])
  }

  ghost function QueueLoadAfter(c: Config, st: State, step: Step): nat
    requires Enabled(c, st, step)
  {
    var k := ChangedQueue(step);
    if k < 0 then 0 else QueueLoad(c, k, ChangedTo(c, st, step))
  }

  /** The stepping thread and the queue it changes hold less. */
  ghost predicate Nearer(c: Config, st: State, step: Step)
    requires Enabled(c, st, step)
  {
    ThreadLoad(c, step.s, Stepped(c, st, step)) + QueueLoadAfter(c, st, step)
    < ThreadLoad(c, step.s, st.threads[step.s][step.i]) + QueueLoadBefore(c, st, step)
  }

  lemma ThreadChanged(c: Config, threads: seq<seq<Thread>>, s: nat, i: nat, t: Thread)
    requires s < |threads| && i < |threads[s]|
    ensures TableSum(ThreadLoads(c, threads[s := threads[s][i := t]]))
         == TableSum(ThreadLoads(c, threads)) - ThreadLoad(c, s, threads[s][i]) + ThreadLoad(c, s, t)
  {
    hide ThreadLoad, TableSum;
    var table, row := ThreadLoads(c, threads), StageLoads(c, s, threads[s]);
    assert StageLoads(c, s, threads[s][i := t]) == With(row, i, ThreadLoad(c, s, t));
    assert ThreadLoads(c, threads[s := threads[s][i := t]]) == table[s := With(row, i, ThreadLoad(c, s, t))];
    TableUpdate(table, s, i, ThreadLoad(c, s, t));
  }

  lemma QueueChanged(c: Config, queues: seq<seq<Queue>>, k: nat, l: nat, q: Queue)
    requires k < |queues| && l < |queues[k]|
    ensures TableSum(QueueLoads(c, queues[k := queues[k][l := q]]))
         == TableSum(QueueLoads(c, queues)) - QueueLoad(c, k, queues[k][l]) + QueueLoad(c, k, q)
  {
    hide QueueLoad, TableSum;
    var table, row := QueueLoads(c, queues), LaneLoads(c, k, queues[k]);
    assert LaneLoads(c, k, queues[k][l := q]) == With(row, l, QueueLoad(c, k, q));
    assert QueueLoads(c, queues[k := queues[k][l := q]]) == table[k := With(row, l, QueueLoad(c, k, q))];
    TableUpdate(table, k, l, QueueLoad(c, k, q));
  }

  lemma StepAt(c: Config, st: State, step: Step)
    requires Enabled(c, st, step)
    ensures Shape(c, st) && step.s < |st.threads| == STAGES && step.i < |st.threads[step.s]|
  {
    hide LaneAt, AtEnd;
  }

  lemma LeftStep(c: Config, st: State, step: Step)
    requires Enabled(c, st, step) && Nearer(c, st, step)
    ensures Left(c, Do(c, st, step)) < Left(c, st)
  {
    Elsewhere(c, st, step);
    StepAt(c, st, step);
    hide *;
    NearerIs(c, st, step);
    LeftIs(c, st);
    LeftIs(c, Do(c, st, step));
    ThreadChanged(c, st.threads, step.s, step.i, Stepped(c, st, step));
    if ChangedQueue(step) >= 0 {
      QueueChanged(c, st.queues, ChangedQueue(step), ChangedLane(c, st, step), ChangedTo(c, st, step));
    }
  }

  lemma LeftIs(c: Config, st: State)
    ensures Left(c, st) == TableSum(ThreadLoads(c, st.threads)) + TableSum(QueueLoads(c, st.queues))
  {
  }

  lemma NearerIs(c: Config, st: State, step: Step)
    requires Enabled(c, st, step) && Nearer(c, st, step)
    ensures step.s < |st.threads| && step.i < |st.threads[step.s]|
    ensures var before, after := ThreadLoad(c, step.s, st.threads[step.s][step.i]),
                                 ThreadLoad(c, step.s, Stepped(c, st, step));
            var k, l := ChangedQueue(step), ChangedLane(c, st, step);
            if k < 0 then after < before
            else QueueAt(st, k, l) && after + QueueLoad(c, k, ChangedTo(c, st, step))
                                      < before + QueueLoad(c, k, st.queues[k][l])
  {
    StepAt(c, st, step);
    Elsewhere(c, st, step);
    hide Enabled, Stepped, ThreadLoad, QueueLoad, ChangedTo, ChangedLane, ChangedQueue;
  }

  /** On its way an item comes to places of lower and lower rank. */
  lemma RanksFall(c: Config, s: nat)
    requires s < STAGES
    ensures 0 < WorkRank(c, s) && (s < STAGES - 1 ==> QueueRank(c, s) < SendRank(c, s) < WorkRank(c, s))
    ensures s > 0 ==> WorkRank(c, s) + 1 < QueueRank(c, s - 1)
    ensures s == STAGES - 1 ==> WorkRank(c, s) + 1 + c.lanes < QueueRank(c, s - 1)
    ensures s + 1 < STAGES - 1 ==> QueueRank(c, s + 1) < SendRank(c, s)
  {
  }

  lemma FetchLoads(c: Config, s: nat, items: seq<Item>, n: nat)
    requires 0 < s < STAGES && 0 < n <= |items|
    ensures Load(c, s == 1, WorkRank(c, s) + 1, items[..n]) + (if s == STAGES - 1 then c.lanes else 0)
            + Load(c, s == 1, QueueRank(c, s - 1), items[n..]) < Load(c, s == 1, QueueRank(c, s - 1), items)
  {
    var high, low := QueueRank(c, s - 1), WorkRank(c, s) + 1;
    RanksFall(c, s);
    hide Load, WorkRank, QueueRank, Times;
    LoadSplit(c, s == 1, high, items, n);
    LoadLess(c, s == 1, high, low, items[..n]);
    TimesAtLeast(n, high - low);
  }

  lemma FetchNearer(c: Config, st: State, step: Step)
    requires Enabled(c, st, step) && step.Fetch?
    ensures Nearer(c, st, step)
  {
    var s := step.s;
    FetchLoads(c, s, st.queues[s - 1][LaneAt(c, st, s, step.i)].items, step.n);
    LoadOne(c, s == 1, WorkRank(c, s) + 1, Piece(0));
    hide Load, AtEnd, Products, WorkRank, SendRank, QueueRank, Times, NextLane;
  }

  lemma BeginLoads(c: Config, s: nat, recv: seq<Item>)
    requires s < STAGES && recv != []
    ensures Load(c, s <= REFINE, WorkRank(c, s) + 1, recv[1..])
            + Load(c, s < REFINE, WorkRank(c, s), Products(c, s, recv[0]))
         == Load(c, s <= REFINE, WorkRank(c, s) + 1, recv) - (if s == REFINE then WorkRank(c, s) + 1 else 1)
  {
    var x := recv[0];
    LoadSplit(c, s <= REFINE, WorkRank(c, s) + 1, recv, 1);
    assert recv[..1] == [x];
    LoadOne(c, s <= REFINE, WorkRank(c, s) + 1, x);
    LoadOne(c, s < REFINE, WorkRank(c, s), x);
    LoadFine(c, WorkRank(c, s), c.expand(x));
    hide Load, WorkRank, Times;
  }

  lemma BeginNearer(c: Config, st: State, step: Step)
    requires Enabled(c, st, step) && step.Begin?
    ensures Nearer(c, st, step)
  {
    var s, t := step.s, st.threads[step.s][step.i];
    BeginLoads(c, s, t.recv);
    LoadOne(c, s < REFINE, WorkRank(c, s), Piece(0));
    hide Load, AtEnd, WorkRank, SendRank, QueueRank, Times, Products;
  }

  lemma EmitLoads(c: Config, coarse: bool, high: nat, low: nat, items: seq<Item>, to: seq<Item>)
    requires items != [] && low < high
    ensures Load(c, coarse, high, items[1..]) + Load(c, coarse, low, to + [items[0]])
         < Load(c, coarse, high, items) + Load(c, coarse, low, to)
  {
    LoadSplit(c, coarse, high, items, 1);
    assert items[..1] == [items[0]];
    LoadConcat(c, coarse, low, to, [items[0]]);
    LoadOne(c, coarse, high, items[0]);
    LoadOne(c, coarse, low, items[0]);
  }

  lemma EmitNearer(c: Config, st: State, step: Step)
    requires Enabled(c, st, step) && step.Emit?
    ensures Nearer(c, st, step)
  {
    var s, t := step.s, st.threads[step.s][step.i];
    RanksFall(c, s);
    hide Load, AtEnd, Products, WorkRank, SendRank, QueueRank, Times;
    if s == STAGES - 1 {
      EmitLoads(c, false, WorkRank(c, s), 0, t.work, []);
    } else if step.side {
      EmitLoads(c, s < REFINE, WorkRank(c, s), SendRank(c, s), t.work, t.side);
    } else {
      EmitLoads(c, s < REFINE, WorkRank(c, s), SendRank(c, s), t.work, t.send);
    }
  }

  lemma EnqueueLoads(c: Config, s: nat, k: nat, from: seq<Item>, items: seq<Item>, n: nat)
    requires s < STAGES - 1 && (k == s || (s == DEDUPLICATE && k == s + 1)) && 0 < n <= |from|
    ensures Load(c, k == 0, QueueRank(c, k), items + from[..n]) + Load(c, s < REFINE, SendRank(c, s), from[n..])
         < Load(c, k == 0, QueueRank(c, k), items) + Load(c, s < REFINE, SendRank(c, s), from)
  {
    var high, low := SendRank(c, s), QueueRank(c, k);
    RanksFall(c, s);
    hide Load, SendRank, QueueRank, Times;
    LoadSplit(c, s < REFINE, high, from, n);
    LoadLess(c, s < REFINE, high, low, from[..n]);
    TimesAtLeast(n, high - low);
    LoadConcat(c, k == 0, low, items, from[..n]);
  }

  lemma EnqueueNearer(c: Config, st: State, step: Step)
    requires Enabled(c, st, step) && step.Enqueue?
    ensures Nearer(c, st, step)
  {
    var s, t, k := step.s, st.threads[step.s][step.i], Target(step.s, step.side);
    var items := st.queues[k][LaneAt(c, st, s, step.i)].items;
    EnqueueLoads(c, s, k, if step.side then t.side else t.send, items, step.n);
    hide Load, AtEnd, Products, WorkRank, SendRank, QueueRank, Times, NextLane;
  }

  lemma StepNearer(c: Config, st: State, step: Step)
    requires Inv(c, st) && Enabled(c, st, step)
    ensures Nearer(c, st, step)
  {
    match step
    case Fetch(_, _, _) => FetchNearer(c, st, step);
    case Begin(_, _) => BeginNearer(c, st, step);
    case Emit(_, _, _) => EmitNearer(c, st, step);
    case Enqueue(_, _, _, _) => EnqueueNearer(c, st, step);
    case SeeEnd(s, i) =>
      assert ThreadOk(c, st, s, i);
      hide Load, AtEnd;
    case Finish(s, i) =>
      assert ThreadOk(c, st, s, i);
      hide Load, AtEnd;
  }

  lemma LeftNext(c: Config, st: State, st': State)
    requires Inv(c, st) && Next(c, st, st')
    ensures Left(c, st') < Left(c, st)
  {
    var step :| Enabled(c, st, step) && st' == Do(c, st, step);
    hide *;
    StepNearer(c, st, step);
    LeftStep(c, st, step);
  }

  lemma {:induction false} LeftAlongRun(c: Config, input: seq<Item>, run: seq<State>, k: nat)
    requires Run(c, input, run) && k < |run|
    ensures Left(c, run[k]) + k <= Left(c, run[0])
  {
    hide *;
    RunParts(c, input, run);
    if k > 0 {
      LeftAlongRun(c, input, run, k - 1);
      InvAlongRun(c, input, run, k - 1);
      assert Next(c, run[k - 1], run[k - 1 + 1]);
      LeftNext(c, run[k - 1], run[k]);
    }
  }

  /** The one state a run can start from. */
  ghost function Start(c: Config, input: seq<Item>): State
    requires ConfigOk(c)
  {
    State(seq(STAGES, s requires 0 <= s =>
                seq(Threads(c, s), i => Thread(Running, if s == 0 then input else [], [], [], [], Nowhere, 0, 0))),
          seq(STAGES - 1, _ => seq(c.lanes, _ => Queue([], 0))), [])
  }

  lemma StartIs(c: Config, input: seq<Item>, st: State)
    requires ConfigOk(c)
    ensures Init(c, input, st) <==> st == Start(c, input)
  {
    var st0 := Start(c, input);
    if Init(c, input, st) {
      forall s | 0 <= s < STAGES ensures st.threads[s] == st0.threads[s] {
        forall i | 0 <= i < |st.threads[s]| ensures st.threads[s][i] == st0.threads[s][i] {
          assert Fresh(st.threads[s][i], if s == 0 then input else []);
        }
      }
      forall k | 0 <= k < STAGES - 1 ensures st.queues[k] == st0.queues[k] {
        assert forall l :: 0 <= l < c.lanes ==> st.queues[k][l] == Queue([], 0);
      }
    }
  }

  /** No run is longer than what the input makes the threads do. */
  lemma RunsAreFinite(c: Config, input: seq<Item>, run: seq<State>)
    requires Run(c, input, run)
    ensures ConfigOk(c) && |run| <= Left(c, Start(c, input)) + 1
  {
    RunStart(c, input, run);
    hide *;
    StartIs(c, input, run[0]);
    LeftAlongRun(c, input, run, |run| - 1);
  }

  lemma RunStart(c: Config, input: seq<Item>, run: seq<State>)
    requires Run(c, input, run)
    ensures run != [] && ConfigOk(c) && Init(c, input, run[0])
  {
  }

  // ---- Where a run can get stuck -----------------------------------------------------------------

  /** A flush is only ever due for a buffer that holds something. */
  ghost predicate FlushDue(t: Thread) {
    (t.flush == Main ==> t.send != []) && (t.flush == Side ==> t.side != [])
  }

  /** What of the input is before stage 1 of lane l. */
  ghost function Ahead(st: State, l: nat): nat
    requires ThreadAt(st, 0, 0) && QueueAt(st, 0, l)
  {
    var t := st.threads[0][0];
    |t.recv| + |t.work| + |t.send| + |st.queues[0][l].items|
  }

  ghost predicate InvMore(c: Config, n: nat, st: State) {
    && Inv(c, st)
    && (forall s, i :: 0 <= s < STAGES && 0 <= i < |st.threads[s]| ==> FlushDue(st.threads[s][i]))
    && forall l :: 0 <= l < c.lanes ==> Ahead(st, l) <= n
  }

  lemma MoreInit(c: Config, input: seq<Item>, st: State)
    requires Init(c, input, st)
    ensures InvMore(c, |input|, st)
  {
    InvInit(c, input, st);
    hide Inv;
    assert Fresh(st.threads[0][0], input);
    forall s, i | 0 <= s < STAGES && 0 <= i < |st.threads[s]| ensures FlushDue(st.threads[s][i]) {
      assert Fresh(st.threads[s][i], if s == 0 then input else []);
    }
  }

  lemma FlushStays(c: Config, st: State, step: Step)
    requires Enabled(c, st, step) && FlushDue(st.threads[step.s][step.i])
    ensures FlushDue(Stepped(c, st, step))
  {
    hide AtEnd, Products;
  }

  lemma AheadStays(c: Config, st: State, step: Step, l: nat)
    requires Enabled(c, st, step) && l < c.lanes
    ensures ThreadAt(st, 0, 0) && QueueAt(st, 0, l)
    ensures var st' := Do(c, st, step); ThreadAt(st', 0, 0) && QueueAt(st', 0, l) && Ahead(st', l) <= Ahead(st, l)
  {
    Elsewhere(c, st, step);
    hide Do, AtEnd;
  }

  lemma FlushNext(c: Config, n: nat, st: State, step: Step, s: nat, i: nat)
    requires InvMore(c, n, st) && Enabled(c, st, step) && s < STAGES && i < |st.threads[s]|
    ensures ThreadAt(Do(c, st, step), s, i) && FlushDue(Do(c, st, step).threads[s][i])
  {
    MoreShape(c, n, st);
    StepAt(c, st, step);
    Elsewhere(c, st, step);
    MoreAt(c, n, st, s, i);
    MoreAt(c, n, st, step.s, step.i);
    FlushStays(c, st, step);
    hide *;
  }

  lemma MoreAt(c: Config, n: nat, st: State, s: nat, i: nat)
    requires InvMore(c, n, st) && s < STAGES && ThreadAt(st, s, i)
    ensures FlushDue(st.threads[s][i])
  {
  }

  lemma MoreNext(c: Config, n: nat, st: State, st': State)
    requires InvMore(c, n, st) && Next(c, st, st')
    ensures InvMore(c, n, st')
  {
    var step :| Enabled(c, st, step) && st' == Do(c, st, step);
    MoreShape(c, n, st);
    InvNext(c, st, st');
    InvShape(c, st');
    Elsewhere(c, st, step);
    hide Do, Enabled, Inv, FlushDue, Ahead, Stepped, ChangedTo, ChangedLane, ChangedQueue, InvMore, Next;
    forall s, i | 0 <= s < STAGES && 0 <= i < |st'.threads[s]| ensures FlushDue(st'.threads[s][i]) {
      FlushNext(c, n, st, step, s, i);
    }
    forall l | 0 <= l < c.lanes ensures Ahead(st', l) <= n {
      AheadStays(c, st, step, l);
    }
  }

  lemma InvShape(c: Config, st: State)
    requires Inv(c, st)
    ensures Shape(c, st)
  {
  }

  lemma {:induction false} MoreAlongRun(c: Config, input: seq<Item>, run: seq<State>, k: nat)
    requires Run(c, input, run) && k < |run|
    ensures InvMore(c, |input|, run[k])
  {
    hide *;
    RunParts(c, input, run);
    if k == 0 {
      MoreInit(c, input, run[0]);
    } else {
      MoreAlongRun(c, input, run, k - 1);
      assert Next(c, run[k - 1], run[k - 1 + 1]);
      MoreNext(c, |input|, run[k - 1], run[k]);
    }
  }

  /** Nobody can take a step. */
  ghost predicate Stuck(c: Config, st: State) {
    forall st' :: !Next(c, st, st')
  }

  lemma CanStep(c: Config, st: State, step: Step)
    requires Enabled(c, st, step)
    ensures !Stuck(c, st)
  {
    hide Enabled, Do;
    assert Next(c, st, Do(c, st, step));
  }

  lemma NoStep(c: Config, st: State, step: Step)
    requires Stuck(c, st)
    ensures !Enabled(c, st, step)
  {
    hide *;
    if Enabled(c, st, step) { CanStep(c, st, step); }
  }

  /** Queue k of lane l is empty, but not declared finished. */
  ghost predicate Awaited(c: Config, st: State, k: nat, l: nat)
    requires QueueAt(st, k, l)
  {
    st.queues[k][l].items == [] && !Terminated(c, st, k, l)
  }

  /** With an empty queue before it, a thread that cannot take a step has nothing in hand. */
  lemma OnlyWaits(c: Config, n: nat, st: State, s: nat, i: nat)
    requires InvMore(c, n, st) && Stuck(c, st) && 0 < s < STAGES && i < |st.threads[s]|
    requires st.threads[s][i].status != Done
    requires s < STAGES - 1 ==> st.queues[s][LaneAt(c, st, s, i)].items == []
    requires s == DEDUPLICATE ==> st.queues[s + 1][LaneAt(c, st, s, i)].items == []
    ensures var t := st.threads[s][i]; t.status == Running && t.flush == Nowhere && t.recv == [] && t.work == []
  {
    hide Stuck;
    assert ThreadOk(c, st, s, i) && FlushDue(st.threads[s][i]);
    NoStep(c, st, Finish(s, i));
    if s < STAGES - 1 { NoStep(c, st, Enqueue(s, i, false, 1)); }
    if s == DEDUPLICATE { NoStep(c, st, Enqueue(s, i, true, 1)); }
    NoStep(c, st, Emit(s, i, false));
    NoStep(c, st, Begin(s, i));
  }

  lemma WaitsForMore(c: Config, n: nat, st: State, s: nat, i: nat)
    requires InvMore(c, n, st) && Stuck(c, st) && 0 < s < STAGES && i < |st.threads[s]|
    requires st.threads[s][i].status != Done
    requires s < STAGES - 1 ==> st.queues[s][LaneAt(c, st, s, i)].items == []
    requires s == DEDUPLICATE ==> st.queues[s + 1][LaneAt(c, st, s, i)].items == []
    ensures Awaited(c, st, s - 1, LaneAt(c, st, s, i))
  {
    OnlyWaits(c, n, st, s, i);
    hide Inv, Stuck;
    NoStep(c, st, Fetch(s, i, 1));
    NoStep(c, st, SeeEnd(s, i));
  }

  lemma {:induction false} SomeNotDone(ts: seq<Thread>, laneOf: seq<nat>, l: nat) returns (i: nat)
    requires |ts| == |laneOf| && DoneIn(ts, laneOf, l) < LaneSize(laneOf, l)
    ensures i < |ts| && laneOf[i] == l && ts[i].status != Done
  {
    var n := |ts| - 1;
    if laneOf[n] == l && ts[n].status != Done { return n; }
    i := SomeNotDone(ts[..n], laneOf[..n], l);
  }

  /** The writer's lane is empty all the way up, and every stage waits there for the one before. */
  lemma {:induction false} LaneAwaited(c: Config, n: nat, st: State, k: nat, l: nat)
    requires InvMore(c, n, st) && Stuck(c, st) && st.threads[STAGES - 1][0].status != Done
    requires l == st.threads[STAGES - 1][0].lane && k < STAGES - 1
    ensures Awaited(c, st, k, l)
    decreases STAGES - k
  {
    hide Inv, Stuck, Terminated, Enabled;
    MoreShape(c, n, st);
    if k == STAGES - 2 {
      WaitsForMore(c, n, st, STAGES - 1, 0);
    } else {
      var s := k + 1;
      LaneAwaited(c, n, st, s, l);
      if s == DEDUPLICATE { LaneAwaited(c, n, st, s + 1, l); }
      var i := OpenLane(c, n, st, s, l);
      WaitsForMore(c, n, st, s, i);
    }
  }

  lemma MoreShape(c: Config, n: nat, st: State)
    requires InvMore(c, n, st)
    ensures Inv(c, st) && Shape(c, st)
  {
  }

  /** A lane that is not declared finished has a thread that is not done. */
  lemma OpenLane(c: Config, n: nat, st: State, s: nat, l: nat) returns (i: nat)
    requires InvMore(c, n, st) && Middle(s) && l < c.lanes && !Terminated(c, st, s, l)
    ensures i < |st.threads[s]| == |c.laneOf| && st.threads[s][i].status != Done && c.laneOf[i] == l
  {
    assert Counted(c, st, s, l);
    i := SomeNotDone(st.threads[s], c.laneOf, l);
  }

  /** The reader cannot take a step either: it has something to send, and the queue it has come to is full. */
  lemma ReaderBlocked(c: Config, n: nat, st: State, l: nat)
    requires InvMore(c, n, st) && Stuck(c, st) && l < c.lanes && Awaited(c, st, 0, l)
    ensures var t := st.threads[0][0]; t.send != [] && |st.queues[0][t.lane].items| >= c.queueSize
  {
    hide Stuck;
    assert Counted(c, st, 0, l);
    assert ThreadOk(c, st, 0, 0) && FlushDue(st.threads[0][0]);
    NoStep(c, st, Finish(0, 0));
    NoStep(c, st, Enqueue(0, 0, false, 1));
    NoStep(c, st, Emit(0, 0, false));
    NoStep(c, st, Begin(0, 0));
    NoStep(c, st, SeeEnd(0, 0));
  }

  /** Is everybody through? */
  ghost predicate AllDone(st: State) {
    forall s :: 0 <= s < |st.threads| ==> StageDone(st, s)
  }

  /** The writer waits at an empty lane, the reader at another one whose first queue is full. */
  ghost predicate Deadlocked(c: Config, st: State)
    requires Shape(c, st)
  {
    var reader, writer := st.threads[0][0], st.threads[STAGES - 1][0];
    && reader.lane != writer.lane && reader.send != []
    && |st.queues[0][reader.lane].items| >= c.queueSize
    && forall k :: 0 <= k < STAGES - 1 ==> Awaited(c, st, k, writer.lane)
  }

  /** A run that cannot go on is through, or deadlocked in this way. */
  lemma StuckIsDoneOrDeadlocked(c: Config, input: seq<Item>, run: seq<State>)
    requires Run(c, input, run) && Stuck(c, run[|run| - 1])
    ensures Shape(c, run[|run| - 1])
    ensures AllDone(run[|run| - 1]) || Deadlocked(c, run[|run| - 1])
  {
    var st, n := run[|run| - 1], |input|;
    hide *;
    RunParts(c, input, run);
    MoreAlongRun(c, input, run, |run| - 1);
    MoreShape(c, n, st);
    StuckState(c, n, st);
  }

  lemma StuckState(c: Config, n: nat, st: State)
    requires InvMore(c, n, st) && Stuck(c, st)
    ensures AllDone(st) || Deadlocked(c, st)
  {
    hide Inv, Stuck, Terminated, Enabled, StageDone;
    MoreShape(c, n, st);
    var l := st.threads[STAGES - 1][0].lane;
    if st.threads[STAGES - 1][0].status == Done {
      WriterAlone(c, st);
      forall s | 0 <= s < |st.threads| ensures StageDone(st, s) {
        AllThrough(c, st, s);
      }
    } else {
      forall k | 0 <= k < STAGES - 1 ensures Awaited(c, st, k, l) {
        LaneAwaited(c, n, st, k, l);
      }
      ReaderBlocked(c, n, st, l);
      assert st.queues[0][l].items == [];
    }
  }

  /** With one lane, as up to four threads a stage have, or queues as long as the input, that cannot happen. */
  ghost predicate Roomy(c: Config, input: seq<Item>) {
    c.lanes == 1 || |input| <= c.queueSize
  }

  /** Then a run that cannot go on is through. */
  lemma StuckIsDone(c: Config, input: seq<Item>, run: seq<State>)
    requires Run(c, input, run) && Stuck(c, run[|run| - 1]) && Roomy(c, input)
    ensures AllDone(run[|run| - 1])
  {
    var st := run[|run| - 1];
    hide Run, Stuck, Inv, Terminated, AllDone;
    StuckIsDoneOrDeadlocked(c, input, run);
    MoreAlongRun(c, input, run, |run| - 1);
    if Deadlocked(c, st) { NoDeadlock(c, input, st); }
  }

  lemma NoDeadlock(c: Config, input: seq<Item>, st: State)
    requires InvMore(c, |input|, st) && Roomy(c, input)
    ensures Shape(c, st) && !Deadlocked(c, st)
  {
    hide Terminated;
    var t := st.threads[0][0];
    assert Ahead(st, t.lane) <= |input|;
  }

  lemma Extended(c: Config, input: seq<Item>, run: seq<State>, st: State)
    requires Run(c, input, run) && Next(c, run[|run| - 1], st)
    ensures Run(c, input, run + [st])
  {
    hide Next, Init;
    var longer := run + [st];
    forall k | 0 <= k < |longer| - 1 ensures Next(c, longer[k], longer[k + 1]) {
      if k < |run| - 1 { assert Next(c, run[k], run[k + 1]); }
    }
  }

  /** From wherever a run has got to, it comes to a state from which it cannot go on. */
  lemma {:induction false} ComesToRest(c: Config, input: seq<Item>, run: seq<State>) returns (longer: seq<State>)
    requires Run(c, input, run)
    ensures Run(c, input, longer) && run <= longer && Stuck(c, longer[|longer| - 1])
    decreases var n: int := if ConfigOk(c) then Left(c, Start(c, input)) else 0; n + 1 - |run|
  {
    hide *;
    RunParts(c, input, run);
    if Stuck(c, run[|run| - 1]) {
      return run;
    }
    var st := SomeNext(c, run[|run| - 1]);
    Extended(c, input, run, st);
    RunsAreFinite(c, input, run + [st]);
    longer := ComesToRest(c, input, run + [st]);
    RunParts(c, input, longer);
  }

  /** If it has room, that is its end. */
  lemma CanFinish(c: Config, input: seq<Item>, run: seq<State>) returns (longer: seq<State>)
    requires Run(c, input, run) && Roomy(c, input)
    ensures Run(c, input, longer) && run <= longer && AllDone(longer[|longer| - 1])
  {
    hide *;
    longer := ComesToRest(c, input, run);
    RunParts(c, input, longer);
    StuckIsDone(c, input, longer);
  }

  lemma SomeNext(c: Config, st: State) returns (st': State)
    requires !Stuck(c, st)
    ensures Next(c, st, st')
  {
    hide Next;
    st' :| Next(c, st, st');
  }

  lemma StartRuns(c: Config, input: seq<Item>)
    requires ConfigOk(c)
    ensures Run(c, input, [Start(c, input)])
  {
    StartIs(c, input, Start(c, input));
    hide Start, Init;
  }

  /** Some run of every such configuration goes through, for every input. */
  lemma RunsThrough(c: Config, input: seq<Item>) returns (run: seq<State>)
    requires ConfigOk(c) && Roomy(c, input)
    ensures Run(c, input, run) && AllDone(run[|run| - 1])
  {
    StartRuns(c, input);
    hide Start;
    run := CanFinish(c, input, [Start(c, input)]);
  }
}
