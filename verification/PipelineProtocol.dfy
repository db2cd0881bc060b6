/**
 * The threads and queues of the pipeline as a state machine: when a queue may be declared finished, and
 * that nothing is lost on the way.
 *
 * Stage 0 reads coarse pieces, stage 1 refines them, stage 2 deduplicates, stage 3 compresses, stage 4
 * writes.  Between two stages there is one queue per lane, and each thread of a middle stage works on one
 * lane.  Queue k of a lane leads from stage k to stage k + 1; its counted producers are the lane's threads
 * of stage k.  Stage 0 is alone: it fills the lanes in turn and is the one producer of each.  Stage 2 also
 * feeds queue 3 of its lane without being counted there.  Stage 4 is alone too: it looks at the lanes in
 * turn and stops once all of them, one after the other, turn out to be finished.
 */
module PipelineProtocol {
  /** A coarse piece, or a chunk of one. */
  datatype Item = Piece(l1: nat) | Part(l1: nat, l2: nat)

  /** Which send buffer a thread has to empty before it goes on. */
  datatype Flush = Nowhere | Main | Side

  datatype Status = Running | Draining | Done

  /**
   * A thread: items fetched, items being produced from the current one, its send buffers.  The first and
   * the last stage keep a cursor, the lane they turn to next, and a count: of the lanes the reader has
   * declared finished, of the lanes in a row that the writer has found finished.
   */
  datatype Thread = Thread(status: Status, recv: seq<Item>, work: seq<Item>, send: seq<Item>, side: seq<Item>,
                           flush: Flush, lane: nat, turn: nat)

  datatype Queue = Queue(items: seq<Item>, terminated: nat)

  datatype State = State(threads: seq<seq<Thread>>, queues: seq<seq<Queue>>, written: seq<Item>)

  const STAGES := 5
  const REFINE := 1
  const DEDUPLICATE := 2
  const MAX_THREADS_PER_QUEUE := 4

  /**
   * The number of lanes, the lane of each thread of a middle stage, send buffer size per stage, queue
   * size, and how a coarse piece is refined.
   */
  datatype Config = Config(lanes: nat, laneOf: seq<nat>, buffer: seq<nat>, queueSize: nat, expand: Item -> seq<Item>)

  ghost predicate ConfigOk(c: Config) {
    && 0 < c.lanes && (forall i :: 0 <= i < |c.laneOf| ==> c.laneOf[i] < c.lanes)
    && (forall l :: 0 <= l < c.lanes ==> l in c.laneOf)
    && 0 < c.queueSize && |c.buffer| == STAGES && forall s :: 0 <= s < STAGES ==> 0 < c.buffer[s]
  }

  predicate Middle(s: nat) { 0 < s < STAGES - 1 }

  function Threads(c: Config, s: nat): nat {
    if Middle(s) then |c.laneOf| else 1
  }

  /** How many threads work on lane l. */
  function LaneSize(laneOf: seq<nat>, l: nat): (n: nat)
    ensures n <= |laneOf|
  {
    if laneOf == [] then 0
    else LaneSize(laneOf[..|laneOf| - 1], l) + (if laneOf[|laneOf| - 1] == l then 1 else 0)
  }

  // ---- The lanes that are allocated --------------------------------------------------------------

  function AllocatedLanes(nthreads: nat): nat {
    nthreads / MAX_THREADS_PER_QUEUE + (if nthreads % MAX_THREADS_PER_QUEUE != 0 then 1 else 0)
  }

  function AllocatedLaneOf(nthreads: nat): (laneOf: seq<nat>)
    ensures |laneOf| == nthreads && forall i :: 0 <= i < nthreads ==> laneOf[i] == i / 4
  {
    seq(nthreads, i requires 0 <= i < nthreads => i / MAX_THREADS_PER_QUEUE)
  }

  function AllocatedProducers(nthreads: nat, l: nat): nat {
    if l + 1 < AllocatedLanes(nthreads) || nthreads % MAX_THREADS_PER_QUEUE == 0 then MAX_THREADS_PER_QUEUE
    else nthreads % MAX_THREADS_PER_QUEUE
  }

  lemma {:induction false} LaneSizeOfFirst(nthreads: nat, l: nat)
    ensures LaneSize(AllocatedLaneOf(nthreads), l)
         == if nthreads <= 4 * l then 0 else if nthreads <= 4 * l + 4 then nthreads - 4 * l else 4
  {
    if nthreads > 0 {
      LaneSizeOfFirst(nthreads - 1, l);
      assert AllocatedLaneOf(nthreads)[..nthreads - 1] == AllocatedLaneOf(nthreads - 1);
    }
  }

  /** Thread numbers divided by four fill every queue's count of producers, and no lane is without threads. */
  lemma AllocationFits(c: Config, nthreads: nat)
    requires 0 < nthreads && c.lanes == AllocatedLanes(nthreads) && c.laneOf == AllocatedLaneOf(nthreads)
    requires 0 < c.queueSize && |c.buffer| == STAGES && forall s :: 0 <= s < STAGES ==> 0 < c.buffer[s]
    ensures ConfigOk(c)
    ensures forall l :: 0 <= l < c.lanes ==> LaneSize(c.laneOf, l) == AllocatedProducers(nthreads, l)
  {
    forall l | 0 <= l < c.lanes ensures l in c.laneOf {
      assert c.laneOf[4 * l] == l;
    }
    forall l | 0 <= l < c.lanes ensures LaneSize(c.laneOf, l) == AllocatedProducers(nthreads, l) {
      LaneSizeOfFirst(nthreads, l);
    }
  }

  // ---- Steps -------------------------------------------------------------------------------------

  datatype Step =
    | Fetch(s: nat, i: nat, n: nat)
    | SeeEnd(s: nat, i: nat)
    | Begin(s: nat, i: nat)
    | Emit(s: nat, i: nat, side: bool)
    | Enqueue(s: nat, i: nat, side: bool, n: nat)
    | Finish(s: nat, i: nat)

  /** The queue a send buffer goes to. */
  function Target(s: nat, side: bool): nat {
    if side then s + 1 else s
  }

  predicate ThreadAt(st: State, s: nat, i: nat) {
    s < |st.threads| && i < |st.threads[s]|
  }

  predicate QueueAt(st: State, k: nat, l: nat) {
    k < |st.queues| && l < |st.queues[k]|
  }

  ghost predicate Shape(c: Config, st: State) {
    && ConfigOk(c) && |st.threads| == STAGES && |st.queues| == STAGES - 1
    && (forall s :: 0 <= s < STAGES ==> |st.threads[s]| == Threads(c, s))
    && (forall k :: 0 <= k < STAGES - 1 ==> |st.queues[k]| == c.lanes)
    && st.threads[0][0].lane < c.lanes && st.threads[STAGES - 1][0].lane < c.lanes
  }

  function WithThread(st: State, s: nat, i: nat, t: Thread): State
    requires ThreadAt(st, s, i)
  {
    st.(threads := st.threads[s := st.threads[s][i := t]])
  }

  function WithQueue(st: State, k: nat, l: nat, q: Queue): State
    requires QueueAt(st, k, l)
  {
    st.(queues := st.queues[k := st.queues[k][l := q]])
  }

  /** What stage s makes of one item: refining yields several, everything else one. */
  function Products(c: Config, s: nat, x: Item): seq<Item> {
    if s == REFINE then c.expand(x) else [x]
  }

  /** The lane a thread takes from and sends to. */
  ghost function LaneAt(c: Config, st: State, s: nat, i: nat): (l: nat)
    requires Shape(c, st) && s < STAGES && i < |st.threads[s]|
    ensures l < c.lanes
  {
    if Middle(s) then c.laneOf[i] else st.threads[s][i].lane
  }

  function NextLane(c: Config, l: nat): nat {
    if l + 1 < c.lanes then l + 1 else 0
  }

  /** How many threads have to declare the queue finished. */
  function Producers(c: Config, k: nat, l: nat): nat {
    if k == 0 then 1 else LaneSize(c.laneOf, l)
  }

  /** Has the queue been declared finished? */
  predicate Terminated(c: Config, st: State, k: nat, l: nat)
    requires QueueAt(st, k, l)
  {
    st.queues[k][l].terminated == Producers(c, k, l)
  }

  predicate AtEnd(c: Config, st: State, k: nat, l: nat)
    requires QueueAt(st, k, l)
  {
    Terminated(c, st, k, l) && st.queues[k][l].items == []
  }

  ghost predicate Enabled(c: Config, st: State, step: Step) {
    Shape(c, st) && ThreadAt(st, step.s, step.i) &&
    var s, t, l := step.s, st.threads[step.s][step.i], LaneAt(c, st, step.s, step.i);
    match step
    case Fetch(_, _, n) =>
      s > 0 && t.status == Running && t.flush == Nowhere && t.recv == [] && t.work == []
      && 0 < n <= |st.queues[s - 1][l].items|
    case SeeEnd(_, _) =>
      t.status == Running && t.recv == [] && t.work == []
      && (s > 0 ==> t.flush == Nowhere && AtEnd(c, st, s - 1, l))
    case Begin(_, _) => t.status == Running && t.flush == Nowhere && t.work == [] && t.recv != []
    case Emit(_, _, side) => t.status == Running && t.flush == Nowhere && t.work != [] && (side ==> s == DEDUPLICATE)
    case Enqueue(_, _, side, n) =>
      && s < STAGES - 1 && (side ==> s == DEDUPLICATE)
      && (t.status == Draining || (t.status == Running && t.flush == (if side then Side else Main)))
      && 0 < n <= (if side then |t.side| else |t.send|)
      && |st.queues[Target(s, side)][l].items| + n <= c.queueSize
    case Finish(_, _) => t.status == Draining && t.send == [] && t.side == [] && (s == 0 ==> t.turn < c.lanes)
  }

  /** The state of the stepping thread afterwards. */
  ghost function Stepped(c: Config, st: State, step: Step): Thread
    requires Enabled(c, st, step)
  {
    var s, t, l := step.s, st.threads[step.s][step.i], LaneAt(c, st, step.s, step.i);
    match step
    case Fetch(_, _, n) =>
      var t' := t.(recv := st.queues[s - 1][l].items[..n]);
      if s == STAGES - 1 then t'.(lane := NextLane(c, l), turn := 0) else t'
    case SeeEnd(_, _) =>
      if s < STAGES - 1 then t.(status := Draining)
      else t.(lane := NextLane(c, l), turn := t.turn + 1, status := if t.turn + 1 == c.lanes then Draining else Running)
    case Begin(_, _) => t.(work := Products(c, s, t.recv[0]), recv := t.recv[1..])
    case Emit(_, _, side) =>
      var x, t' := t.work[0], t.(work := t.work[1..]);
      if s == STAGES - 1 then t'
      else if side then t'.(side := t.side + [x], flush := if |t.side| + 1 == c.buffer[s] then Side else Nowhere)
      else t'.(send := t.send + [x], flush := if |t.send| + 1 == c.buffer[s] then Main else Nowhere)
    case Enqueue(_, _, side, n) =>
      var t' := t.(flush := Nowhere, lane := if s == 0 then NextLane(c, l) else t.lane);
      if side then t'.(side := t.side[n..]) else t'.(send := t.send[n..])
    case Finish(_, _) =>
      if s == 0 && t.turn + 1 < c.lanes then t.(turn := t.turn + 1)
      else if s == 0 then t.(turn := t.turn + 1, status := Done)
      else t.(status := Done)
  }

  /** The queue a step changes, or -1. */
  function ChangedQueue(step: Step): int {
    match step
    case Fetch(s, _, _) => s - 1
    case Enqueue(s, _, side, _) => Target(s, side)
    case Finish(s, _) => if s == STAGES - 1 then -1 else s
    case _ => -1
  }

  /** In which lane: the thread's own, except that the reader declares the lanes finished one by one. */
  ghost function ChangedLane(c: Config, st: State, step: Step): nat
    requires Enabled(c, st, step)
  {
    if step.Finish? && step.s == 0 then st.threads[0][step.i].turn else LaneAt(c, st, step.s, step.i)
  }

  ghost function ChangedTo(c: Config, st: State, step: Step): Queue
    requires Enabled(c, st, step) && ChangedQueue(step) >= 0
  {
    var t, q := st.threads[step.s][step.i], st.queues[ChangedQueue(step)][ChangedLane(c, st, step)];
    if step.Fetch? then q.(items := q.items[step.n..])
    else if step.Enqueue? then q.(items := q.items + (if step.side then t.side else t.send)[..step.n])
    else q.(terminated := q.terminated + 1)
  }

  ghost function Do(c: Config, st: State, step: Step): State
    requires Enabled(c, st, step)
  {
    var st1 := WithThread(st, step.s, step.i, Stepped(c, st, step));
    if step.Emit? && step.s == STAGES - 1 then
      st1.(written := st.written + [st.threads[step.s][step.i].work[0]])
    else if ChangedQueue(step) >= 0 then
      WithQueue(st1, ChangedQueue(step), ChangedLane(c, st, step), ChangedTo(c, st, step))
    else st1
  }

  // ---- Runs --------------------------------------------------------------------------------------

  ghost predicate Fresh(t: Thread, recv: seq<Item>) {
    t == Thread(Running, recv, [], [], [], Nowhere, 0, 0)
  }

  /** At the start the first stage has the whole input before it. */
  ghost predicate Init(c: Config, input: seq<Item>, st: State) {
    && Shape(c, st) && st.written == []
    && (forall s, i :: 0 <= s < STAGES && 0 <= i < |st.threads[s]| ==>
        Fresh(st.threads[s][i], if s == 0 then input else []))
    && forall k, l :: 0 <= k < STAGES - 1 && 0 <= l < c.lanes ==> st.queues[k][l] == Queue([], 0)
  }

  ghost predicate Next(c: Config, st: State, st': State) {
    exists step :: Enabled(c, st, step) && st' == Do(c, st, step)
  }

  ghost predicate Run(c: Config, input: seq<Item>, run: seq<State>) {
    && run != [] && Init(c, input, run[0])
    && forall k :: 0 <= k < |run| - 1 ==> Next(c, run[k], run[k + 1])
  }

  // ---- Invariant ---------------------------------------------------------------------------------

  /** How many of the threads of lane l are done. */
  function DoneIn(ts: seq<Thread>, laneOf: seq<nat>, l: nat): (n: nat)
    requires |ts| == |laneOf|
    ensures n <= LaneSize(laneOf, l)
  {
    if ts == [] then 0
    else
      var n := |ts| - 1;
      DoneIn(ts[..n], laneOf[..n], l) + (if laneOf[n] == l && ts[n].status == Done then 1 else 0)
  }

  /**
   * One thread's own state: buffers are full only while a flush is due; a thread past its input has nothing
   * left but its send buffers, a finished one nothing at all.  The reader declares lanes finished when its
   * buffer is empty, and is done after all of them; the writer stops after as many finds as there are lanes.
   */
  ghost predicate Local(c: Config, s: nat, t: Thread)
    requires |c.buffer| == STAGES && s < STAGES
  {
    && |t.send| <= c.buffer[s] && |t.side| <= c.buffer[s]
    && (t.flush != Main && t.status == Running ==> |t.send| < c.buffer[s])
    && (t.flush != Side && t.status == Running ==> |t.side| < c.buffer[s])
    && (t.status != Running ==> t.recv == [] && t.work == [])
    && (t.status == Done ==> t.send == [] && t.side == [])
    && (s != DEDUPLICATE ==> t.side == [])
    && (s == 0 ==> t.turn <= c.lanes && (t.status == Done <==> t.turn == c.lanes)
                   && (t.turn > 0 ==> t.status != Running && t.send == []))
    && (s == STAGES - 1 ==> t.send == [] && t.turn <= c.lanes && (t.status == Running <==> t.turn < c.lanes))
  }

  /** How long ago the cursor was at lane l, if it goes round and round. */
  function Behind(c: Config, cursor: nat, l: nat): int {
    if l < cursor then cursor - l else cursor + c.lanes - l
  }

  lemma CursorMoves(c: Config, cursor: nat, l: nat)
    requires cursor < c.lanes && l < c.lanes
    ensures Behind(c, NextLane(c, cursor), l) == if l == cursor then 1 else Behind(c, cursor, l) + 1
    ensures 1 <= Behind(c, cursor, l) <= c.lanes
  {
  }

  /** Has the thread found lane l finished? */
  ghost predicate Sees(c: Config, s: nat, i: nat, t: Thread, l: nat)
    requires Middle(s) ==> i < |c.laneOf|
  {
    if Middle(s) then t.status != Running && l == c.laneOf[i]
    else s == STAGES - 1 && Behind(c, t.lane, l) <= t.turn
  }

  /** What a thread has found finished still is. */
  ghost predicate Ended(c: Config, st: State, s: nat, i: nat)
    requires Shape(c, st) && s < STAGES && i < |st.threads[s]|
  {
    forall l :: 0 <= l < c.lanes && Sees(c, s, i, st.threads[s][i], l) ==> s > 0 && AtEnd(c, st, s - 1, l)
  }

  ghost predicate ThreadOk(c: Config, st: State, s: nat, i: nat)
    requires Shape(c, st) && s < STAGES && i < |st.threads[s]|
  {
    Local(c, s, st.threads[s][i]) && Ended(c, st, s, i)
  }

  /** A queue counts the producers that are done. */
  ghost predicate Counted(c: Config, st: State, k: nat, l: nat)
    requires Shape(c, st) && k < STAGES - 1 && l < c.lanes
  {
    st.queues[k][l].terminated ==
      if k == 0 then if l < st.threads[0][0].turn then 1 else 0 else DoneIn(st.threads[k], c.laneOf, l)
  }

  ghost predicate Inv(c: Config, st: State) {
    && Shape(c, st)
    && (forall k, l :: 0 <= k < STAGES - 1 && 0 <= l < c.lanes ==> Counted(c, st, k, l))
    && forall s, i :: 0 <= s < STAGES && 0 <= i < |st.threads[s]| ==> ThreadOk(c, st, s, i)
  }

  lemma {:induction false} NotAllDone(ts: seq<Thread>, laneOf: seq<nat>, i: nat)
    requires |ts| == |laneOf| && i < |ts| && ts[i].status != Done
    ensures DoneIn(ts, laneOf, laneOf[i]) < LaneSize(laneOf, laneOf[i])
  {
    if i < |ts| - 1 { NotAllDone(ts[..|ts| - 1], laneOf[..|ts| - 1], i); }
  }

  lemma {:induction false} DoneUpdate(ts: seq<Thread>, laneOf: seq<nat>, l: nat, i: nat, t: Thread)
    requires |ts| == |laneOf| && i < |ts|
    ensures DoneIn(ts[i := t], laneOf, l)
         == DoneIn(ts, laneOf, l)
            + (if laneOf[i] != l then 0
               else (if t.status == Done then 1 else 0) - (if ts[i].status == Done then 1 else 0))
  {
    var us, n := ts[i := t], |ts| - 1;
    if i < n {
      assert us[..n] == ts[..n][i := t];
      DoneUpdate(ts[..n], laneOf[..n], l, i, t);
    } else {
      assert us[..n] == ts[..n];
    }
  }

  /**
   * No thread that has something to send meets a finished queue; the uncounted stage does not either,
   * because the counted producers of its side queue end only after the lane's threads of that stage.
   */
  lemma NeverOnTerminated(c: Config, st: State, s: nat, i: nat, side: bool)
    requires Inv(c, st) && s < STAGES - 1 && i < |st.threads[s]|
    requires (if side then st.threads[s][i].side else st.threads[s][i].send) != []
    ensures Target(s, side) < STAGES - 1 && !Terminated(c, st, Target(s, side), LaneAt(c, st, s, i))
  {
    assert ThreadOk(c, st, s, i);
    var l := LaneAt(c, st, s, i);
    assert Counted(c, st, s, l);
    if s > 0 { StillOpen(c, st, s, i); }
    if side {
      assert ThreadOk(c, st, s + 1, i);
      assert !Sees(c, s + 1, i, st.threads[s + 1][i], l);
      StillOpen(c, st, s + 1, i);
    }
  }

  /** A lane with a thread that is not done has not been declared finished behind it. */
  lemma StillOpen(c: Config, st: State, s: nat, i: nat)
    requires Inv(c, st) && Middle(s) && i < |c.laneOf| == |st.threads[s]| && st.threads[s][i].status != Done
    ensures !Terminated(c, st, s, c.laneOf[i])
  {
    assert Counted(c, st, s, c.laneOf[i]);
    NotAllDone(st.threads[s], c.laneOf, i);
  }

  /** A send buffer always has room for the item being inserted. */
  lemma RoomToInsert(c: Config, st: State, s: nat, i: nat, side: bool)
    requires Inv(c, st) && Enabled(c, st, Emit(s, i, side))
    ensures s < STAGES - 1 ==>
              (if side then |st.threads[s][i].side| else |st.threads[s][i].send|) < c.buffer[s]
  {
    assert ThreadOk(c, st, s, i);
  }

  lemma InvInit(c: Config, input: seq<Item>, st: State)
    requires Init(c, input, st)
    ensures Inv(c, st)
  {
    assert Fresh(st.threads[0][0], input);
    forall k, l | 0 <= k < STAGES - 1 && 0 <= l < c.lanes ensures Counted(c, st, k, l) {
      if k > 0 {
        assert forall i :: 0 <= i < |st.threads[k]| ==> Fresh(st.threads[k][i], []);
        NoneDone(st.threads[k], c.laneOf, l);
      }
    }
    forall s, i | 0 <= s < STAGES && 0 <= i < |st.threads[s]| ensures ThreadOk(c, st, s, i) {
      assert Fresh(st.threads[s][i], if s == 0 then input else []);
    }
  }

  lemma {:induction false} NoneDone(ts: seq<Thread>, laneOf: seq<nat>, l: nat)
    requires |ts| == |laneOf| && forall i :: 0 <= i < |ts| ==> ts[i].status == Running
    ensures DoneIn(ts, laneOf, l) == 0
  {
    if ts != [] { NoneDone(ts[..|ts| - 1], laneOf[..|ts| - 1], l); }
  }

  // ---- Every step keeps the invariant ------------------------------------------------------------

  /** What a step leaves alone. */
  lemma Elsewhere(c: Config, st: State, step: Step)
    requires Enabled(c, st, step)
    ensures var st' := Do(c, st, step);
            && Shape(c, st')
            && st'.threads == st.threads[step.s := st.threads[step.s][step.i := Stepped(c, st, step)]]
            && (ChangedQueue(step) < 0 ==> st'.queues == st.queues)
            && (ChangedQueue(step) >= 0 ==>
                  var k, l := ChangedQueue(step), ChangedLane(c, st, step);
                  && QueueAt(st, k, l)
                  && st'.queues == st.queues[k := st.queues[k][l := ChangedTo(c, st, step)]])
  {
    hide Terminated, Products;
    CursorStays(c, st, step);
  }

  lemma CursorStays(c: Config, st: State, step: Step)
    requires Enabled(c, st, step)
    ensures !Middle(step.s) ==> Stepped(c, st, step).lane < c.lanes
  {
    hide Products;
  }

  /** A queue that a step changes was not at its end. */
  lemma ChangedIsOpen(c: Config, st: State, step: Step)
    requires Inv(c, st) && Enabled(c, st, step) && ChangedQueue(step) >= 0
    ensures var k, l := ChangedQueue(step), ChangedLane(c, st, step); QueueAt(st, k, l) && !AtEnd(c, st, k, l)
  {
    var s, i := step.s, step.i;
    assert ThreadOk(c, st, s, i);
    match step
    case Fetch(_, _, _) =>
    case Enqueue(_, _, side, _) => NeverOnTerminated(c, st, s, i, side);
    case Finish(_, _) =>
      if s == 0 {
        assert Counted(c, st, 0, st.threads[0][0].turn);
      } else {
        StillOpen(c, st, s, i);
      }
    case _ =>
  }

  lemma EndStays(c: Config, st: State, step: Step, k: nat, l: nat)
    requires Inv(c, st) && Enabled(c, st, step) && QueueAt(st, k, l) && AtEnd(c, st, k, l)
    ensures QueueAt(Do(c, st, step), k, l) && AtEnd(c, Do(c, st, step), k, l)
  {
    hide Inv, Enabled, Do, Stepped, ChangedTo, Shape;
    Elsewhere(c, st, step);
    if ChangedQueue(step) >= 0 { ChangedIsOpen(c, st, step); }
  }

  lemma EndedKept(c: Config, st: State, step: Step, s: nat, i: nat)
    requires Inv(c, st) && Enabled(c, st, step) && s < STAGES && i < |st.threads[s]|
    requires Shape(c, Do(c, st, step)) && i < |Do(c, st, step).threads[s]|
    requires forall l :: 0 <= l < c.lanes && Sees(c, s, i, Do(c, st, step).threads[s][i], l) ==>
                           s > 0 && AtEnd(c, st, s - 1, l)
    ensures Ended(c, Do(c, st, step), s, i)
  {
    var st' := Do(c, st, step);
    hide Inv, Enabled, Do, AtEnd;
    forall l | 0 <= l < c.lanes && Sees(c, s, i, st'.threads[s][i], l) ensures s > 0 && AtEnd(c, st', s - 1, l) {
      EndStays(c, st, step, s - 1, l);
    }
  }

  lemma OtherThread(c: Config, st: State, step: Step, s: nat, i: nat)
    requires Inv(c, st) && Enabled(c, st, step) && s < STAGES && i < |st.threads[s]| && (s, i) != (step.s, step.i)
    ensures var st' := Do(c, st, step); Shape(c, st') && i < |st'.threads[s]| && ThreadOk(c, st', s, i)
  {
    hide Do, Enabled, AtEnd, Sees;
    assert ThreadOk(c, st, s, i);
    Elsewhere(c, st, step);
    assert Do(c, st, step).threads[s][i] == st.threads[s][i];
    EndedKept(c, st, step, s, i);
  }

  /** What the stepping thread has found finished was finished before the step. */
  lemma SeesOnlyEnds(c: Config, st: State, step: Step, l: nat)
    requires Inv(c, st) && Enabled(c, st, step) && l < c.lanes
    requires Sees(c, step.s, step.i, Stepped(c, st, step), l)
    ensures step.s > 0 && AtEnd(c, st, step.s - 1, l)
  {
    hide Terminated, Products, AtEnd;
    var s, i := step.s, step.i;
    var t := st.threads[s][i];
    assert ThreadOk(c, st, s, i);
    if Middle(s) {
      if t.status != Running { assert Sees(c, s, i, t, l); }
    } else {
      CursorMoves(c, t.lane, l);
      if Sees(c, s, i, t, l) { assert AtEnd(c, st, s - 1, l); }
    }
  }

  lemma OwnThread(c: Config, st: State, step: Step)
    requires Inv(c, st) && Enabled(c, st, step)
    ensures var st' := Do(c, st, step);
            Shape(c, st') && ThreadAt(st', step.s, step.i) && ThreadOk(c, st', step.s, step.i)
  {
    hide Do, AtEnd, Sees;
    var s, i := step.s, step.i;
    assert ThreadOk(c, st, s, i);
    Elsewhere(c, st, step);
    assert Do(c, st, step).threads[s][i] == Stepped(c, st, step);
    OwnLocal(c, st, step);
    forall l | 0 <= l < c.lanes && Sees(c, s, i, Stepped(c, st, step), l) ensures s > 0 && AtEnd(c, st, s - 1, l) {
      SeesOnlyEnds(c, st, step, l);
    }
    EndedKept(c, st, step, s, i);
  }

  lemma OwnLocal(c: Config, st: State, step: Step)
    requires Enabled(c, st, step) && Local(c, step.s, st.threads[step.s][step.i])
    ensures Local(c, step.s, Stepped(c, st, step))
  {
    hide Products, AtEnd;
  }

  lemma CountedKept(c: Config, st: State, step: Step, k: nat, l: nat)
    requires Inv(c, st) && Enabled(c, st, step) && k < STAGES - 1 && l < c.lanes
    ensures var st' := Do(c, st, step); Shape(c, st') && Counted(c, st', k, l)
  {
    hide Do, AtEnd, Terminated;
    assert Counted(c, st, k, l);
    assert ThreadOk(c, st, step.s, step.i);
    Elsewhere(c, st, step);
    if k == step.s && k > 0 {
      DoneUpdate(st.threads[k], c.laneOf, l, step.i, Stepped(c, st, step));
    }
  }

  lemma InvNext(c: Config, st: State, st': State)
    requires Inv(c, st) && Next(c, st, st')
    ensures Inv(c, st')
  {
    var step :| Enabled(c, st, step) && st' == Do(c, st, step);
    hide Do, Enabled, ThreadOk, Counted;
    Elsewhere(c, st, step);
    forall k, l | 0 <= k < STAGES - 1 && 0 <= l < c.lanes ensures Counted(c, st', k, l) {
      CountedKept(c, st, step, k, l);
    }
    forall s, i | 0 <= s < STAGES && 0 <= i < |st'.threads[s]| ensures ThreadOk(c, st', s, i) {
      if (s, i) == (step.s, step.i) { OwnThread(c, st, step); } else { OtherThread(c, st, step, s, i); }
    }
  }

  lemma {:induction false} InvAlongRun(c: Config, input: seq<Item>, run: seq<State>, k: nat)
    requires Run(c, input, run) && k < |run|
    ensures Inv(c, run[k])
  {
    hide *;
    RunParts(c, input, run);
    if k == 0 {
      InvInit(c, input, run[0]);
    } else {
      InvAlongRun(c, input, run, k - 1);
      assert Next(c, run[k - 1], run[k - 1 + 1]);
      InvNext(c, run[k - 1], run[k]);
    }
  }

  lemma RunParts(c: Config, input: seq<Item>, run: seq<State>)
    requires Run(c, input, run)
    ensures run != [] && Init(c, input, run[0])
    ensures forall k :: 0 <= k < |run| - 1 ==> Next(c, run[k], run[k + 1])
  {
  }

  /**
   * In every state of every run: no enqueue is possible into a queue that has been declared finished, and
   * no insertion finds its buffer full.
   */
  lemma EnqueueSafe(c: Config, input: seq<Item>, run: seq<State>, k: nat, step: Step)
    requires Run(c, input, run) && k < |run| && Enabled(c, run[k], step)
    ensures step.Enqueue? ==>
              && QueueAt(run[k], Target(step.s, step.side), LaneAt(c, run[k], step.s, step.i))
              && !Terminated(c, run[k], Target(step.s, step.side), LaneAt(c, run[k], step.s, step.i))
    ensures step.Emit? && step.s < STAGES - 1 ==>
              var t := run[k].threads[step.s][step.i]; (if step.side then |t.side| else |t.send|) < c.buffer[step.s]
  {
    hide Run, Inv;
    InvAlongRun(c, input, run, k);
    if step.Enqueue? { NeverOnTerminated(c, run[k], step.s, step.i, step.side); }
    if step.Emit? { RoomToInsert(c, run[k], step.s, step.i, step.side); }
  }

  /**
   * A consumer that has seen the end of a lane's queue has seen everything: the queue is empty and no step
   * can put anything in.  A thread of a middle stage stops after its one lane, the writer after all lanes.
   */
  lemma EndIsFinal(c: Config, input: seq<Item>, run: seq<State>, k: nat, s: nat, i: nat, l: nat, step: Step)
    requires Run(c, input, run) && k < |run| && Enabled(c, run[k], step)
    requires ThreadAt(run[k], s, i) && s < STAGES && l < c.lanes && Sees(c, s, i, run[k].threads[s][i], l)
    ensures s > 0 && QueueAt(run[k], s - 1, l) && run[k].queues[s - 1][l].items == []
    ensures step.Enqueue? ==> (Target(step.s, step.side), LaneAt(c, run[k], step.s, step.i)) != (s - 1, l)
    ensures AtEnd(c, run[k], s - 1, l)
  {
    hide Run, Inv, Sees;
    InvAlongRun(c, input, run, k);
    ThreadIs(c, run[k], s, i);
    EnqueueSafe(c, input, run, k, step);
  }

  lemma ThreadIs(c: Config, st: State, s: nat, i: nat)
    requires Inv(c, st) && ThreadAt(st, s, i)
    ensures Shape(c, st) && s < STAGES && ThreadOk(c, st, s, i)
  {
  }

  /** Every lane's queue k is finished and empty. */
  ghost predicate QueuesEnded(c: Config, st: State, k: nat)
    requires Shape(c, st) && k < STAGES - 1
  {
    forall l :: 0 <= l < c.lanes ==> AtEnd(c, st, k, l)
  }

  /** Has the writer found every lane finished since it last got something? */
  ghost predicate FoundAll(c: Config, t: Thread) {
    forall l :: 0 <= l < c.lanes ==> Behind(c, t.lane, l) <= t.turn
  }

  /** The writer leaves its loop exactly when it has found every lane finished, and then every lane is. */
  lemma WriterStops(c: Config, input: seq<Item>, run: seq<State>, k: nat)
    requires Run(c, input, run) && k < |run|
    ensures Shape(c, run[k])
    ensures var t := run[k].threads[STAGES - 1][0];
            && (t.status != Running <==> FoundAll(c, t))
            && (t.status != Running ==> QueuesEnded(c, run[k], STAGES - 2))
  {
    hide Run, AtEnd;
    InvAlongRun(c, input, run, k);
    ThreadIs(c, run[k], STAGES - 1, 0);
    var t := run[k].threads[STAGES - 1][0];
    assert Behind(c, t.lane, t.lane) == c.lanes;
    forall l | 0 <= l < c.lanes ensures 1 <= Behind(c, t.lane, l) <= c.lanes { CursorMoves(c, t.lane, l); }
    if t.status != Running {
      var last := STAGES - 2;
      forall l | 0 <= l < c.lanes ensures AtEnd(c, run[k], last, l) {
        assert Sees(c, STAGES - 1, 0, t, l);
      }
    }
  }

  // ---- Conservation ------------------------------------------------------------------------------

  /** How often y is among the items, counting a coarse item as what it is refined to. */
  ghost function Count(c: Config, coarse: bool, items: seq<Item>, y: Item): nat {
    if items == [] then 0
    else
      var x := items[|items| - 1];
      Count(c, coarse, items[..|items| - 1], y) + (if coarse then multiset(c.expand(x))[y] else if x == y then 1 else 0)
  }

  ghost function ThreadCount(c: Config, s: nat, t: Thread, y: Item): nat {
    Count(c, s <= REFINE, t.recv, y) + Count(c, s < REFINE, t.work, y)
    + Count(c, s < REFINE, t.send, y) + Count(c, s < REFINE, t.side, y)
  }

  ghost function StageCount(c: Config, s: nat, ts: seq<Thread>, y: Item): nat {
    if ts == [] then 0 else StageCount(c, s, ts[..|ts| - 1], y) + ThreadCount(c, s, ts[|ts| - 1], y)
  }

  ghost function LaneCount(c: Config, k: nat, qs: seq<Queue>, y: Item): nat {
    if qs == [] then 0 else LaneCount(c, k, qs[..|qs| - 1], y) + Count(c, k == 0, qs[|qs| - 1].items, y)
  }

  ghost function AllStages(c: Config, threads: seq<seq<Thread>>, y: Item): nat {
    if threads == [] then 0
    else
      var s := |threads| - 1;
      AllStages(c, threads[..s], y) + StageCount(c, s, threads[s], y)
  }

  ghost function AllQueues(c: Config, queues: seq<seq<Queue>>, y: Item): nat {
    if queues == [] then 0
    else
      var k := |queues| - 1;
      AllQueues(c, queues[..k], y) + LaneCount(c, k, queues[k], y)
  }

  /** All copies of y, wherever they are. */
  ghost function Total(c: Config, st: State, y: Item): nat {
    AllStages(c, st.threads, y) + AllQueues(c, st.queues, y) + Count(c, false, st.written, y)
  }

  lemma {:induction false} CountConcat(c: Config, coarse: bool, a: seq<Item>, b: seq<Item>, y: Item)
    ensures Count(c, coarse, a + b, y) == Count(c, coarse, a, y) + Count(c, coarse, b, y)
  {
    if b == [] {
      assert a + b == a;
    } else {
      CountConcat(c, coarse, a, b[..|b| - 1], y);
      assert (a + b)[..|a + b| - 1] == a + b[..|b| - 1];
    }
  }

  lemma CountSplit(c: Config, coarse: bool, a: seq<Item>, n: nat, y: Item)
    requires n <= |a|
    ensures Count(c, coarse, a, y) == Count(c, coarse, a[..n], y) + Count(c, coarse, a[n..], y)
  {
    CountConcat(c, coarse, a[..n], a[n..], y);
    assert a == a[..n] + a[n..];
  }

  lemma CountOne(c: Config, coarse: bool, x: Item, y: Item)
    ensures Count(c, coarse, [x], y) == if coarse then multiset(c.expand(x))[y] else if x == y then 1 else 0
    ensures Count(c, coarse, [], y) == 0
  {
    assert [x][..0] == [];
  }

  lemma {:induction false} CountIsMultiset(c: Config, items: seq<Item>, y: Item)
    ensures Count(c, false, items, y) == multiset(items)[y]
  {
    if items != [] {
      CountIsMultiset(c, items[..|items| - 1], y);
      assert items == items[..|items| - 1] + [items[|items| - 1]];
    }
  }

  lemma {:induction false} StageUpdate(c: Config, s: nat, ts: seq<Thread>, i: nat, t: Thread, y: Item)
    requires i < |ts|
    ensures StageCount(c, s, ts[i := t], y)
         == StageCount(c, s, ts, y) - ThreadCount(c, s, ts[i], y) + ThreadCount(c, s, t, y)
  {
    hide ThreadCount;
    var us := ts[i := t];
    if i < |ts| - 1 {
      assert us[..|us| - 1] == ts[..|ts| - 1][i := t];
      StageUpdate(c, s, ts[..|ts| - 1], i, t, y);
    } else {
      assert us[..|us| - 1] == ts[..|ts| - 1];
    }
  }

  lemma {:induction false} LaneUpdate(c: Config, k: nat, qs: seq<Queue>, l: nat, q: Queue, y: Item)
    requires l < |qs|
    ensures LaneCount(c, k, qs[l := q], y)
         == LaneCount(c, k, qs, y) - Count(c, k == 0, qs[l].items, y) + Count(c, k == 0, q.items, y)
  {
    hide Count;
    var us := qs[l := q];
    if l < |qs| - 1 {
      assert us[..|us| - 1] == qs[..|qs| - 1][l := q];
      LaneUpdate(c, k, qs[..|qs| - 1], l, q, y);
    } else {
      assert us[..|us| - 1] == qs[..|qs| - 1];
    }
  }

  lemma {:induction false} StagesUpdate(c: Config, threads: seq<seq<Thread>>, s: nat, ts: seq<Thread>, y: Item)
    requires s < |threads|
    ensures AllStages(c, threads[s := ts], y)
         == AllStages(c, threads, y) - StageCount(c, s, threads[s], y) + StageCount(c, s, ts, y)
  {
    hide StageCount;
    var us, n := threads[s := ts], |threads| - 1;
    if s < n {
      assert us[..n] == threads[..n][s := ts];
      StagesUpdate(c, threads[..n], s, ts, y);
    } else {
      assert us[..n] == threads[..n];
    }
  }

  lemma {:induction false} QueuesUpdate(c: Config, queues: seq<seq<Queue>>, k: nat, qs: seq<Queue>, y: Item)
    requires k < |queues|
    ensures AllQueues(c, queues[k := qs], y)
         == AllQueues(c, queues, y) - LaneCount(c, k, queues[k], y) + LaneCount(c, k, qs, y)
  {
    hide LaneCount;
    var us, n := queues[k := qs], |queues| - 1;
    if k < n {
      assert us[..n] == queues[..n][k := qs];
      QueuesUpdate(c, queues[..n], k, qs, y);
    } else {
      assert us[..n] == queues[..n];
    }
  }

  // ---- A step moves items ------------------------------------------------------------------------

  /** What the changed queue holds of y, or 0 if no queue changes. */
  ghost function QueueBefore(c: Config, st: State, step: Step, y: Item): nat
    requires Enabled(c, st, step)
  {
    var k := ChangedQueue(step);
    if k < 0 then 0 else Count(c, k == 0, st.queues[k][ChangedLane(c, st, step)].items, y)
  }

  ghost function QueueAfter(c: Config, st: State, step: Step, y: Item): nat
    requires Enabled(c, st, step)
  {
    var k := ChangedQueue(step);
    if k < 0 then 0 else Count(c, k == 0, ChangedTo(c, st, step).items, y)
  }

  /** The change of one thread, one queue and the output. */
  ghost predicate Balanced(c: Config, st: State, step: Step, y: Item)
    requires Enabled(c, st, step)
  {
    ThreadCount(c, step.s, Stepped(c, st, step), y) + QueueAfter(c, st, step, y)
    + Count(c, false, Do(c, st, step).written, y)
    == ThreadCount(c, step.s, st.threads[step.s][step.i], y) + QueueBefore(c, st, step, y)
       + Count(c, false, st.written, y)
  }

  lemma StagesKept(c: Config, st: State, step: Step, y: Item)
    requires Enabled(c, st, step)
    ensures AllStages(c, Do(c, st, step).threads, y)
         == AllStages(c, st.threads, y) - ThreadCount(c, step.s, st.threads[step.s][step.i], y)
            + ThreadCount(c, step.s, Stepped(c, st, step), y)
  {
    Elsewhere(c, st, step);
    hide Do, Stepped, ThreadCount, StageCount, AllStages, Enabled;
    var s, i, t := step.s, step.i, Stepped(c, st, step);
    StagesUpdate(c, st.threads, s, st.threads[s][i := t], y);
    StageUpdate(c, s, st.threads[s], i, t, y);
  }

  lemma QueuesKept(c: Config, st: State, step: Step, y: Item)
    requires Enabled(c, st, step)
    ensures AllQueues(c, Do(c, st, step).queues, y)
         == AllQueues(c, st.queues, y) - QueueBefore(c, st, step, y) + QueueAfter(c, st, step, y)
  {
    Elsewhere(c, st, step);
    hide Do, ChangedTo, Count, LaneCount, AllQueues;
    var k := ChangedQueue(step);
    if k >= 0 {
      var l, q := ChangedLane(c, st, step), ChangedTo(c, st, step);
      QueuesUpdate(c, st.queues, k, st.queues[k][l := q], y);
      LaneUpdate(c, k, st.queues[k], l, q, y);
    }
  }

  lemma TotalKept(c: Config, st: State, step: Step, y: Item)
    requires Enabled(c, st, step) && Balanced(c, st, step, y)
    ensures Total(c, Do(c, st, step), y) == Total(c, st, y)
  {
    hide Do, Enabled, Stepped, ThreadCount, AllStages, AllQueues, QueueBefore, QueueAfter, Count;
    StagesKept(c, st, step, y);
    QueuesKept(c, st, step, y);
  }

  lemma FetchBalanced(c: Config, st: State, step: Step, y: Item)
    requires Enabled(c, st, step) && step.Fetch?
    ensures Balanced(c, st, step, y)
  {
    var s := step.s;
    CountSplit(c, s == 1, st.queues[s - 1][LaneAt(c, st, s, step.i)].items, step.n, y);
    CountOne(c, s == 1, Piece(0), y);
    hide Count, AtEnd, Products;
  }

  lemma BeginBalanced(c: Config, st: State, step: Step, y: Item)
    requires Enabled(c, st, step) && step.Begin?
    ensures Balanced(c, st, step, y)
  {
    var s, t := step.s, st.threads[step.s][step.i];
    CountSplit(c, s <= REFINE, t.recv, 1, y);
    assert t.recv[..1] == [t.recv[0]];
    CountOne(c, s <= REFINE, t.recv[0], y);
    CountOne(c, s < REFINE, t.recv[0], y);
    CountIsMultiset(c, Products(c, s, t.recv[0]), y);
    hide Count, AtEnd;
  }

  lemma EmitCounts(c: Config, coarse: bool, items: seq<Item>, to: seq<Item>, y: Item)
    requires items != []
    ensures Count(c, coarse, items[1..], y) + Count(c, coarse, to + [items[0]], y)
         == Count(c, coarse, items, y) + Count(c, coarse, to, y)
  {
    CountSplit(c, coarse, items, 1, y);
    assert items[..1] == [items[0]];
    CountConcat(c, coarse, to, [items[0]], y);
  }

  lemma EmitBalanced(c: Config, st: State, step: Step, y: Item)
    requires Enabled(c, st, step) && step.Emit?
    ensures Balanced(c, st, step, y)
  {
    var s, t := step.s, st.threads[step.s][step.i];
    hide Count, AtEnd, Products;
    if s == STAGES - 1 {
      EmitCounts(c, false, t.work, st.written, y);
    } else if step.side {
      EmitCounts(c, s < REFINE, t.work, t.side, y);
    } else {
      EmitCounts(c, s < REFINE, t.work, t.send, y);
    }
  }

  lemma EnqueueBalanced(c: Config, st: State, step: Step, y: Item)
    requires Enabled(c, st, step) && step.Enqueue?
    ensures Balanced(c, st, step, y)
  {
    var s, t, k := step.s, st.threads[step.s][step.i], Target(step.s, step.side);
    var from := if step.side then t.side else t.send;
    CountSplit(c, s < REFINE, from, step.n, y);
    CountConcat(c, k == 0, st.queues[k][LaneAt(c, st, s, step.i)].items, from[..step.n], y);
    hide Count, AtEnd, Products;
  }

  lemma StepBalanced(c: Config, st: State, step: Step, y: Item)
    requires Enabled(c, st, step)
    ensures Balanced(c, st, step, y)
  {
    match step
    case Fetch(_, _, _) => FetchBalanced(c, st, step, y);
    case Begin(_, _) => BeginBalanced(c, st, step, y);
    case Emit(_, _, _) => EmitBalanced(c, st, step, y);
    case Enqueue(_, _, _, _) => EnqueueBalanced(c, st, step, y);
    case _ =>
  }

  /** A thread with nothing in hand. */
  ghost predicate Empty(t: Thread) {
    t.recv == [] && t.work == [] && t.send == [] && t.side == []
  }

  lemma {:induction false} EmptyStage(c: Config, s: nat, ts: seq<Thread>, y: Item)
    requires forall i :: 0 <= i < |ts| ==> Empty(ts[i])
    ensures StageCount(c, s, ts, y) == 0
  {
    if ts != [] { EmptyStage(c, s, ts[..|ts| - 1], y); }
  }

  lemma {:induction false} EmptyLanes(c: Config, k: nat, qs: seq<Queue>, y: Item)
    requires forall l :: 0 <= l < |qs| ==> qs[l].items == []
    ensures LaneCount(c, k, qs, y) == 0
  {
    if qs != [] { EmptyLanes(c, k, qs[..|qs| - 1], y); }
  }

  lemma {:induction false} EmptyStages(c: Config, threads: seq<seq<Thread>>, lo: nat, y: Item)
    requires lo <= |threads|
    requires forall s, i :: lo <= s < |threads| && 0 <= i < |threads[s]| ==> Empty(threads[s][i])
    ensures AllStages(c, threads, y) == AllStages(c, threads[..lo], y)
  {
    hide StageCount, Empty;
    var n := |threads| - 1;
    if lo <= n {
      EmptyStage(c, n, threads[n], y);
      EmptyStages(c, threads[..n], lo, y);
      assert threads[..n][..lo] == threads[..lo];
    } else {
      assert threads[..lo] == threads;
    }
  }

  lemma {:induction false} EmptyQueues(c: Config, queues: seq<seq<Queue>>, y: Item)
    requires forall k, l :: 0 <= k < |queues| && 0 <= l < |queues[k]| ==> queues[k][l].items == []
    ensures AllQueues(c, queues, y) == 0
  {
    hide LaneCount;
    var n := |queues| - 1;
    if n >= 0 {
      EmptyLanes(c, n, queues[n], y);
      EmptyQueues(c, queues[..n], y);
    }
  }

  lemma InitTotal(c: Config, input: seq<Item>, st: State, y: Item)
    requires Init(c, input, st)
    ensures Total(c, st, y) == Count(c, true, input, y)
  {
    assert Fresh(st.threads[0][0], input);
    forall s, i | 1 <= s < STAGES && 0 <= i < |st.threads[s]| ensures Empty(st.threads[s][i]) {
      assert Fresh(st.threads[s][i], []);
    }
    EmptyStages(c, st.threads, 1, y);
    EmptyQueues(c, st.queues, y);
    FirstStage(c, st.threads[..1], input, y);
    CountOne(c, false, Piece(0), y);
  }

  lemma FirstStage(c: Config, threads: seq<seq<Thread>>, input: seq<Item>, y: Item)
    requires |threads| == 1 && |threads[0]| == 1 && Fresh(threads[0][0], input)
    ensures AllStages(c, threads, y) == Count(c, true, input, y)
  {
    CountOne(c, true, Piece(0), y);
    CountOne(c, false, Piece(0), y);
    assert threads[..0] == [] && threads[0][..0] == [];
    assert StageCount(c, 0, threads[0], y) == ThreadCount(c, 0, threads[0][0], y);
  }

  /** Nothing is lost or duplicated in any run. */
  lemma {:induction false} Conserved(c: Config, input: seq<Item>, run: seq<State>, k: nat, y: Item)
    requires Run(c, input, run) && k < |run|
    ensures Total(c, run[k], y) == Count(c, true, input, y)
  {
    hide *;
    RunParts(c, input, run);
    if k == 0 {
      InitTotal(c, input, run[0], y);
    } else {
      Conserved(c, input, run, k - 1, y);
      assert Next(c, run[k - 1], run[k - 1 + 1]);
      TotalNext(c, run[k - 1], run[k], y);
    }
  }

  lemma TotalNext(c: Config, st: State, st': State, y: Item)
    requires Next(c, st, st')
    ensures Total(c, st', y) == Total(c, st, y)
  {
    var step :| Enabled(c, st, step) && st' == Do(c, st, step);
    hide *;
    StepBalanced(c, st, step, y);
    TotalKept(c, st, step, y);
  }

  // ---- The queues along a run --------------------------------------------------------------------

  /** The steps of a run. */
  ghost predicate Scheduled(c: Config, input: seq<Item>, run: seq<State>, steps: seq<Step>) {
    && run != [] && Init(c, input, run[0]) && |steps| == |run| - 1
    && forall j :: 0 <= j < |steps| ==> Enabled(c, run[j], steps[j]) && run[j + 1] == Do(c, run[j], steps[j])
  }

  /** What a step takes out of queue k of lane l, as its thread receives it. */
  ghost function Taken(c: Config, st: State, step: Step, k: nat, l: nat): seq<Item>
    requires Enabled(c, st, step)
  {
    if step.Fetch? && (k, l) == (ChangedQueue(step), ChangedLane(c, st, step)) then Stepped(c, st, step).recv
    else []
  }

  /** What a step puts into queue k of lane l. */
  ghost function Put(c: Config, st: State, step: Step, k: nat, l: nat): seq<Item>
    requires Enabled(c, st, step)
  {
    if step.Enqueue? && (k, l) == (ChangedQueue(step), ChangedLane(c, st, step)) then
      var t := st.threads[step.s][step.i]; (if step.side then t.side else t.send)[..step.n]
    else []
  }

  /** All that the first j steps took out. */
  ghost function Out(c: Config, run: seq<State>, steps: seq<Step>, j: nat, k: nat, l: nat): seq<Item>
    requires j <= |steps| <= |run| && forall i :: 0 <= i < |steps| ==> Enabled(c, run[i], steps[i])
  {
    if j == 0 then [] else Out(c, run, steps, j - 1, k, l) + Taken(c, run[j - 1], steps[j - 1], k, l)
  }

  /** All that the first j steps put in. */
  ghost function In(c: Config, run: seq<State>, steps: seq<Step>, j: nat, k: nat, l: nat): seq<Item>
    requires j <= |steps| <= |run| && forall i :: 0 <= i < |steps| ==> Enabled(c, run[i], steps[i])
  {
    if j == 0 then [] else In(c, run, steps, j - 1, k, l) + Put(c, run[j - 1], steps[j - 1], k, l)
  }

  /** What is put in has been at the front of the send buffer, and the rest of the buffer stays. */
  lemma PutIsFront(c: Config, st: State, step: Step)
    requires Enabled(c, st, step) && step.Enqueue?
    ensures var t, t' := st.threads[step.s][step.i], Stepped(c, st, step);
            var put := Put(c, st, step, ChangedQueue(step), ChangedLane(c, st, step));
            && 0 < |put| == step.n && (if step.side then put + t'.side == t.side && t'.send == t.send
                                       else put + t'.send == t.send && t'.side == t.side)
  {
    hide Terminated, Products;
  }

  /** A step that changes a queue takes from its front or puts in at its back, and no more than fits. */
  lemma ChangedMoves(c: Config, st: State, step: Step)
    requires Enabled(c, st, step) && ChangedQueue(step) >= 0
    ensures var k, l := ChangedQueue(step), ChangedLane(c, st, step);
            && QueueAt(st, k, l)
            && Taken(c, st, step, k, l) + ChangedTo(c, st, step).items
               == st.queues[k][l].items + Put(c, st, step, k, l)
            && (|st.queues[k][l].items| <= c.queueSize ==> |ChangedTo(c, st, step).items| <= c.queueSize)
  {
    hide Terminated, Products;
  }

  lemma QueueMoves(c: Config, st: State, step: Step, k: nat, l: nat)
    requires Enabled(c, st, step) && QueueAt(st, k, l)
    ensures var st' := Do(c, st, step);
            && QueueAt(st', k, l)
            && Taken(c, st, step, k, l) + st'.queues[k][l].items == st.queues[k][l].items + Put(c, st, step, k, l)
            && (|st.queues[k][l].items| <= c.queueSize ==> |st'.queues[k][l].items| <= c.queueSize)
  {
    hide Do, Enabled, ChangedTo, Stepped;
    Elsewhere(c, st, step);
    if ChangedQueue(step) >= 0 { ChangedMoves(c, st, step); }
  }

  lemma Regroup(before: seq<Item>, taken: seq<Item>, now: seq<Item>, was: seq<Item>, put: seq<Item>)
    requires taken + now == was + put
    ensures (before + taken) + now == (before + was) + put
  {
    assert (before + taken) + now == before + (taken + now);
  }

  /** A queue gives out in the order in which it was filled: what came out and what is in it is what went in. */
  lemma {:induction false} FirstInFirstOut(c: Config, input: seq<Item>, run: seq<State>, steps: seq<Step>,
          j: nat, k: nat, l: nat)
    requires Scheduled(c, input, run, steps) && j <= |steps| && k < STAGES - 1 && l < c.lanes
    ensures QueueAt(run[j], k, l) && |run[j].queues[k][l].items| <= c.queueSize
    ensures Out(c, run, steps, j, k, l) + run[j].queues[k][l].items == In(c, run, steps, j, k, l)
  {
    hide Do, Enabled, Taken, Put;
    if j > 0 {
      FirstInFirstOut(c, input, run, steps, j - 1, k, l);
      assert Enabled(c, run[j - 1], steps[j - 1]) && run[j - 1 + 1] == Do(c, run[j - 1], steps[j - 1]);
      QueueMoves(c, run[j - 1], steps[j - 1], k, l);
      Regroup(Out(c, run, steps, j - 1, k, l), Taken(c, run[j - 1], steps[j - 1], k, l), run[j].queues[k][l].items,
              run[j - 1].queues[k][l].items, Put(c, run[j - 1], steps[j - 1], k, l));
    }
  }

  lemma OneMoreStep(c: Config, input: seq<Item>, run: seq<State>, steps: seq<Step>, step: Step, st: State)
    requires Scheduled(c, input, run, steps) && Enabled(c, run[|run| - 1], step)
    requires st == Do(c, run[|run| - 1], step)
    ensures Scheduled(c, input, run + [st], steps + [step])
  {
    hide Do, Enabled, Init;
  }

  /** Every run has its steps. */
  lemma {:induction false} RunIsScheduled(c: Config, input: seq<Item>, run: seq<State>)
    requires Run(c, input, run)
    ensures exists steps :: Scheduled(c, input, run, steps)
  {
    hide Do, Enabled, Init;
    var last := |run| - 1;
    if last == 0 {
      assert Scheduled(c, input, run, []);
    } else {
      RunIsScheduled(c, input, run[..last]);
      var steps :| Scheduled(c, input, run[..last], steps);
      assert Next(c, run[last - 1], run[last - 1 + 1]);
      var step :| Enabled(c, run[last - 1], step) && run[last] == Do(c, run[last - 1], step);
      OneMoreStep(c, input, run[..last], steps, step, run[last]);
      assert run == run[..last] + [run[last]];
    }
  }

  // ---- When the writer is through ----------------------------------------------------------------

  lemma {:induction false} AllDone(ts: seq<Thread>, laneOf: seq<nat>, i: nat)
    requires |ts| == |laneOf| && i < |ts| && DoneIn(ts, laneOf, laneOf[i]) == LaneSize(laneOf, laneOf[i])
    ensures ts[i].status == Done
  {
    if ts[i].status != Done { NotAllDone(ts, laneOf, i); }
  }

  ghost predicate StageDone(st: State, s: nat)
    requires s < |st.threads|
  {
    forall i :: 0 <= i < |st.threads[s]| ==> st.threads[s][i].status == Done
  }

  /** Once the threads of a stage are done, the queues before it are finished and empty. */
  lemma QueuesThrough(c: Config, st: State, s: nat)
    requires Inv(c, st) && 0 < s < STAGES && StageDone(st, s)
    ensures QueuesEnded(c, st, s - 1)
  {
    hide AtEnd;
    var k := s - 1;
    forall l | 0 <= l < c.lanes ensures AtEnd(c, st, k, l) {
      if Middle(s) {
        assert l in c.laneOf;
        var i :| 0 <= i < |c.laneOf| && c.laneOf[i] == l;
        assert ThreadOk(c, st, s, i);
        assert Sees(c, s, i, st.threads[s][i], l);
      } else {
        var t := st.threads[s][0];
        assert ThreadOk(c, st, s, 0);
        CursorMoves(c, t.lane, l);
        assert Sees(c, s, 0, t, l);
      }
    }
  }

  /** Once the queues of a stage are finished, all its threads are done. */
  lemma StageThrough(c: Config, st: State, s: nat)
    requires Inv(c, st) && s < STAGES - 1 && QueuesEnded(c, st, s)
    ensures StageDone(st, s)
  {
    forall i | 0 <= i < |st.threads[s]| ensures st.threads[s][i].status == Done {
      assert ThreadOk(c, st, s, i);
      if s == 0 {
        assert Counted(c, st, 0, c.lanes - 1) && AtEnd(c, st, 0, c.lanes - 1);
      } else {
        assert Counted(c, st, s, c.laneOf[i]) && AtEnd(c, st, s, c.laneOf[i]);
        AllDone(st.threads[s], c.laneOf, i);
      }
    }
  }

  lemma {:induction false} AllThrough(c: Config, st: State, s: nat)
    requires Inv(c, st) && s < STAGES && StageDone(st, STAGES - 1)
    ensures StageDone(st, s) && (s < STAGES - 1 ==> QueuesEnded(c, st, s))
    decreases STAGES - s
  {
    if s < STAGES - 1 {
      AllThrough(c, st, s + 1);
      QueuesThrough(c, st, s + 1);
      StageThrough(c, st, s);
    }
  }

  /** Nothing is anywhere but in the output. */
  lemma AllWritten(c: Config, st: State, y: Item)
    requires Inv(c, st) && StageDone(st, STAGES - 1)
    ensures Total(c, st, y) == Count(c, false, st.written, y)
  {
    hide Local, Count, LaneCount, StageCount;
    forall s, i | 0 <= s < STAGES && 0 <= i < |st.threads[s]| ensures Empty(st.threads[s][i]) {
      AllThrough(c, st, s);
      assert ThreadOk(c, st, s, i);
      DoneIsEmpty(c, s, st.threads[s][i]);
    }
    forall k, l | 0 <= k < STAGES - 1 && 0 <= l < c.lanes ensures st.queues[k][l].items == [] {
      AllThrough(c, st, k);
      assert AtEnd(c, st, k, l);
    }
    EmptyStages(c, st.threads, 0, y);
    EmptyQueues(c, st.queues, y);
  }

  lemma DoneIsEmpty(c: Config, s: nat, t: Thread)
    requires |c.buffer| == STAGES && s < STAGES && Local(c, s, t) && t.status == Done
    ensures Empty(t)
  {
  }

  /** When the writer is through, it has written every chunk exactly as often as the input refines to it. */
  lemma WriterGetsAll(c: Config, input: seq<Item>, run: seq<State>, y: Item)
    requires Run(c, input, run)
    requires var st := run[|run| - 1]; ThreadAt(st, STAGES - 1, 0) && st.threads[STAGES - 1][0].status == Done
    ensures multiset(run[|run| - 1].written)[y] == Count(c, true, input, y)
  {
    var st := run[|run| - 1];
    hide *;
    RunParts(c, input, run);
    Conserved(c, input, run, |run| - 1, y);
    InvAlongRun(c, input, run, |run| - 1);
    WriterAlone(c, st);
    AllWritten(c, st, y);
    CountIsMultiset(c, st.written, y);
  }

  lemma WriterAlone(c: Config, st: State)
    requires Inv(c, st) && ThreadAt(st, STAGES - 1, 0) && st.threads[STAGES - 1][0].status == Done
    ensures |st.threads| == STAGES && StageDone(st, STAGES - 1) && STAGES - 1 < STAGES
  {
  }
}
