/**
 * That bounded queues are not enough: with two lanes, whatever the size of the queues, there is an input with
 * which no run of the pipeline gets through.  Every second piece goes to the second lane, and the first piece
 * there is refined into more parts than the lane can hold while the writer, taking turns, waits for the other.
 */
module PipelineDeadlock {
  import opened PipelineProtocol
  import opened PipelineProgress

  // ---- The input ---------------------------------------------------------------------------------

  /** Two lanes with one thread each in every stage; the reader sends its pieces one by one. */
  ghost predicate TwoLanes(c: Config) {
    ConfigOk(c) && c.lanes == 2 && c.laneOf == [0, 1] && c.buffer[0] == 1
  }

  /** How many pieces each lane gets. */
  function Each(q: nat): nat {
    2 * q + 2
  }

  /** How many parts can be on their way from the work of stage 1 of a lane to the writer. */
  function Room(buffer: seq<nat>, q: nat): nat
    requires |buffer| == STAGES
  {
    buffer[1] + 2 * buffer[2] + buffer[3] + 5 * q + 2
  }

  /** More parts than that, and than the writer takes between its turns to the other lane. */
  function Many(buffer: seq<nat>, q: nat): nat
    requires |buffer| == STAGES
  {
    Room(buffer, q) + q * Each(q) + 1
  }

  function ManyParts(n: nat): (parts: seq<Item>)
    ensures |parts| == n && forall j :: 0 <= j < n ==> parts[j] == Part(1, j)
  {
    seq(n, j requires 0 <= j < n => Part(1, j))
  }

  /** Piece 1 has n parts, every other piece has one. */
  function Refined(n: nat, x: Item): (parts: seq<Item>)
    ensures forall j :: 0 <= j < |parts| ==> parts[j].Part? && parts[j].l1 == x.l1
  {
    if x == Piece(1) then ManyParts(n) else [Part(x.l1, 0)]
  }

  ghost predicate Uneven(c: Config) {
    TwoLanes(c) && forall x :: c.expand(x) == Refined(Many(c.buffer, c.queueSize), x)
  }

  function Pieces(a: nat, b: nat): (pieces: seq<Item>)
    requires a <= b
    ensures |pieces| == b - a && forall i :: 0 <= i < b - a ==> pieces[i] == Piece(a + i)
  {
    seq(b - a, i requires 0 <= i < b - a => Piece(a + i))
  }

  ghost function Total2(c: Config): nat {
    2 * Each(c.queueSize)
  }

  // ---- The reader --------------------------------------------------------------------------------

  /** What the reader still has to send. */
  ghost function ToCome(st: State): seq<Item>
    requires ThreadAt(st, 0, 0)
  {
    var t := st.threads[0][0]; t.send + t.work + t.recv
  }

  ghost function SentBy(c: Config, st: State): int
    requires ThreadAt(st, 0, 0)
  {
    Total2(c) - |ToCome(st)|
  }

  /** The pieces go out in order, alternately to the two lanes. */
  ghost predicate ReaderOk(c: Config, st: State) {
    && ThreadAt(st, 0, 0) && 0 <= SentBy(c, st) && ToCome(st) == Pieces(SentBy(c, st), Total2(c))
    && st.threads[0][0].lane == SentBy(c, st) % 2
  }

  lemma ReaderSteps(c: Config, st: State, step: Step)
    requires Enabled(c, st, step) && step.s == 0 && c.buffer[0] == 1 && Local(c, 0, st.threads[0][0])
    ensures var t, t' := st.threads[0][0], Stepped(c, st, step);
            var before, after := t.send + t.work + t.recv, t'.send + t'.work + t'.recv;
            if step.Enqueue? then step.n == 1 && before != [] && t.send[..1] == [before[0]] && after == before[1..]
                                  && t'.lane == NextLane(c, t.lane) && !step.side
            else after == before && t'.lane == t.lane
  {
    hide AtEnd;
  }

  lemma PiecesTail(a: nat, b: nat)
    requires a < b
    ensures Pieces(a, b)[1..] == Pieces(a + 1, b) && Pieces(a, b)[0] == Piece(a)
  {
  }

  /** The reader after a step. */
  lemma ReaderAfter(c: Config, st: State, step: Step)
    requires Enabled(c, st, step)
    ensures ThreadAt(st, 0, 0) && ThreadAt(Do(c, st, step), 0, 0)
    ensures Do(c, st, step).threads[0][0] == if step.s == 0 then Stepped(c, st, step) else st.threads[0][0]
    ensures TwoLanes(c) ==> st.threads[0][0].lane < 2
  {
    Elsewhere(c, st, step);
    StepAt(c, st, step);
    hide Do, AtEnd, Stepped, Enabled;
  }

  lemma SameReader(c: Config, st: State, st': State)
    requires ReaderOk(c, st) && ThreadAt(st', 0, 0) && ToCome(st') == ToCome(st)
    requires st'.threads[0][0].lane == st.threads[0][0].lane
    ensures ReaderOk(c, st') && SentBy(c, st') == SentBy(c, st)
  {
    hide ToCome, Pieces;
  }

  lemma NextReader(c: Config, st: State, st': State)
    requires TwoLanes(c) && ReaderOk(c, st) && ThreadAt(st', 0, 0)
    requires ToCome(st) != [] && ToCome(st') == ToCome(st)[1..]
    requires st'.threads[0][0].lane == NextLane(c, st.threads[0][0].lane)
    ensures ReaderOk(c, st') && SentBy(c, st') == SentBy(c, st) + 1
  {
    PiecesTail(SentBy(c, st), Total2(c));
    hide ToCome, Pieces;
  }

  lemma ReaderStays(c: Config, st: State, step: Step)
    requires Inv(c, st) && TwoLanes(c) && ReaderOk(c, st) && Enabled(c, st, step)
    ensures ReaderOk(c, Do(c, st, step))
    ensures SentBy(c, Do(c, st, step))
         == SentBy(c, st) + if step.s == 0 && step.Enqueue? then 1 else 0
  {
    ReaderAfter(c, st, step);
    assert ThreadOk(c, st, 0, 0);
    if step.s == 0 { ReaderSteps(c, st, step); }
    hide Do, Inv, Stepped, Enabled, ReaderOk, TwoLanes, Local, AtEnd, NextLane;
    if step.s == 0 && step.Enqueue? {
      NextReader(c, st, Do(c, st, step));
    } else {
      SameReader(c, st, Do(c, st, step));
    }
  }

  // ---- The lanes ---------------------------------------------------------------------------------

  /** The items belong to lane l. */
  ghost predicate Belong(items: seq<Item>, l: int) {
    forall k :: 0 <= k < |items| ==> items[k].l1 % 2 == l
  }

  ghost predicate ThreadFits(c: Config, s: nat, i: nat, t: Thread) {
    && Belong(t.recv, i) && Belong(t.work, i) && Belong(t.send, i) && Belong(t.side, i)
    && |t.recv| <= c.queueSize && (s > REFINE ==> |t.work| <= 1)
  }

  ghost predicate QueueFits(c: Config, l: nat, q: Queue) {
    Belong(q.items, l) && |q.items| <= c.queueSize
  }

  /** Every lane holds its own items only, and no more than fit. */
  ghost predicate LanesOk(c: Config, st: State) {
    && Shape(c, st)
    && (forall s: nat, i: nat :: Middle(s) && i < |st.threads[s]| ==> ThreadFits(c, s, i, st.threads[s][i]))
    && forall k, l :: 0 <= k < STAGES - 1 && 0 <= l < c.lanes ==> QueueFits(c, l, st.queues[k][l])
  }

  lemma BelongSplit(items: seq<Item>, n: nat, l: int)
    requires n <= |items| && Belong(items, l)
    ensures Belong(items[..n], l) && Belong(items[n..], l)
  {
  }

  lemma BelongConcat(a: seq<Item>, b: seq<Item>, l: int)
    requires Belong(a, l) && Belong(b, l)
    ensures Belong(a + b, l)
  {
  }

  lemma ThreadStays(c: Config, st: State, step: Step)
    requires Uneven(c) && LanesOk(c, st) && Enabled(c, st, step) && Middle(step.s)
    ensures ThreadFits(c, step.s, step.i, Stepped(c, st, step))
  {
    var s, i, t := step.s, step.i, st.threads[step.s][step.i];
    assert ThreadFits(c, s, i, t);
    hide Refined, Terminated, NextLane;
    match step
    case Fetch(_, _, n) =>
      var items := st.queues[s - 1][LaneAt(c, st, s, i)].items;
      assert QueueFits(c, LaneAt(c, st, s, i), st.queues[s - 1][LaneAt(c, st, s, i)]);
      BelongSplit(items, n, i);
    case Begin(_, _) =>
      BelongSplit(t.recv, 1, i);
      RefinedStays(c, t.recv[0], i);
    case Emit(_, _, side) =>
      BelongSplit(t.work, 1, i);
      BelongConcat(if side then t.side else t.send, [t.work[0]], i);
    case Enqueue(_, _, side, n) => BelongSplit(if side then t.side else t.send, n, i);
    case _ =>
  }

  lemma RefinedStays(c: Config, x: Item, l: int)
    requires Uneven(c) && x.l1 % 2 == l
    ensures Belong(c.expand(x), l) && Belong([x], l)
  {
    var parts := Refined(Many(c.buffer, c.queueSize), x);
    assert c.expand(x) == parts;
    forall j | 0 <= j < |parts| ensures parts[j].l1 % 2 == l { assert parts[j].l1 == x.l1; }
  }

  lemma QueueStays(c: Config, st: State, step: Step)
    requires Inv(c, st) && TwoLanes(c) && LanesOk(c, st) && ReaderOk(c, st) && Enabled(c, st, step)
    requires ChangedQueue(step) >= 0
    ensures QueueAt(st, ChangedQueue(step), ChangedLane(c, st, step))
    ensures QueueFits(c, ChangedLane(c, st, step), ChangedTo(c, st, step))
  {
    Elsewhere(c, st, step);
    var s, i, k, l := step.s, step.i, ChangedQueue(step), ChangedLane(c, st, step);
    var t, q := st.threads[s][i], st.queues[k][l];
    assert QueueFits(c, l, q);
    hide Do, Terminated, Pieces;
    match step
    case Fetch(_, _, n) => BelongSplit(q.items, n, l);
    case Enqueue(_, _, side, n) =>
      if s == 0 {
        assert ThreadOk(c, st, 0, 0);
        hide Stepped;
        ReaderSteps(c, st, step);
        PiecesTail(SentBy(c, st), Total2(c));
        BelongConcat(q.items, t.send[..1], l);
      } else {
        assert ThreadFits(c, s, i, t);
        BelongSplit(if side then t.side else t.send, n, l);
        BelongConcat(q.items, (if side then t.side else t.send)[..n], l);
      }
    case _ =>
  }

  lemma LanesStay(c: Config, st: State, step: Step)
    requires Inv(c, st) && Uneven(c) && LanesOk(c, st) && ReaderOk(c, st) && Enabled(c, st, step)
    ensures LanesOk(c, Do(c, st, step))
  {
    Elsewhere(c, st, step);
    if Middle(step.s) { ThreadStays(c, st, step); }
    if ChangedQueue(step) >= 0 { QueueStays(c, st, step); }
    hide Do, Enabled, Inv, ThreadFits, QueueFits, Stepped, ChangedTo, ChangedLane, ReaderOk, Uneven;
    var st' := Do(c, st, step);
    forall s: nat, i: nat | Middle(s) && i < |st'.threads[s]| ensures ThreadFits(c, s, i, st'.threads[s][i]) {
      if (s, i) != (step.s, step.i) { assert ThreadFits(c, s, i, st.threads[s][i]); }
    }
    forall k, l | 0 <= k < STAGES - 1 && 0 <= l < c.lanes ensures QueueFits(c, l, st'.queues[k][l]) {
      assert QueueFits(c, l, st.queues[k][l]);
    }
  }

  // ---- The second lane up to stage 1 -------------------------------------------------------------

  /** How many pieces have been sent to lane 1. */
  ghost function SentOdd(c: Config, st: State): int
    requires ThreadAt(st, 0, 0)
  {
    SentBy(c, st) / 2
  }

  function OddPieces(a: nat, b: nat): (pieces: seq<Item>)
    requires a <= b
    ensures |pieces| == b - a && forall i :: 0 <= i < b - a ==> pieces[i] == Piece(2 * (a + i) + 1)
  {
    seq(b - a, i requires 0 <= i < b - a => Piece(2 * (a + i) + 1))
  }

  predicate NoOnes(items: seq<Item>) {
    forall k :: 0 <= k < |items| ==> items[k].l1 != 1
  }

  /** How many of them stage 1 has begun to refine. */
  function Begun(sent: int, recv: seq<Item>, items: seq<Item>): int {
    sent - |recv| - |items|
  }

  /** The pieces come in order; the parts of the first are out of hand once the second has been begun. */
  predicate InOrder(sent: int, recv: seq<Item>, items: seq<Item>, work: seq<Item>) {
    var begun := Begun(sent, recv, items);
    && 0 <= begun <= sent && recv + items == OddPieces(begun, sent)
    && (begun >= 2 ==> NoOnes(work))
  }

  ghost predicate SecondOk(c: Config, st: State) {
    && ThreadAt(st, 0, 0) && ThreadAt(st, REFINE, 1) && QueueAt(st, 0, 1)
    && InOrder(SentOdd(c, st), st.threads[REFINE][1].recv, st.queues[0][1].items, st.threads[REFINE][1].work)
  }

  lemma OddHead(a: nat, b: nat)
    requires a < b
    ensures OddPieces(a, b)[0] == Piece(2 * a + 1) && OddPieces(a, b)[1..] == OddPieces(a + 1, b)
  {
  }

  lemma OddMore(a: nat, b: nat)
    requires a <= b
    ensures OddPieces(a, b) + [Piece(2 * b + 1)] == OddPieces(a, b + 1)
  {
  }

  lemma AnotherSent(sent: nat, recv: seq<Item>, items: seq<Item>, work: seq<Item>)
    requires InOrder(sent, recv, items, work)
    ensures InOrder(sent + 1, recv, items + [Piece(2 * sent + 1)], work)
  {
    var begun, more := Begun(sent, recv, items), items + [Piece(2 * sent + 1)];
    OddMore(begun, sent);
    assert recv + more == (recv + items) + [Piece(2 * sent + 1)];
  }

  lemma SomeFetched(sent: nat, items: seq<Item>, work: seq<Item>, n: nat)
    requires n <= |items| && InOrder(sent, [], items, work)
    ensures InOrder(sent, items[..n], items[n..], work)
  {
    assert items[..n] + items[n..] == [] + items;
  }

  lemma OneEmitted(sent: nat, recv: seq<Item>, items: seq<Item>, work: seq<Item>)
    requires work != [] && InOrder(sent, recv, items, work)
    ensures InOrder(sent, recv, items, work[1..])
  {
    hide OddPieces;
  }

  lemma OneBegun(c: Config, sent: nat, recv: seq<Item>, items: seq<Item>)
    requires Uneven(c) && recv != [] && InOrder(sent, recv, items, [])
    ensures InOrder(sent, recv[1..], items, c.expand(recv[0]))
  {
    var begun := Begun(sent, recv, items);
    OddHead(begun, sent);
    assert (recv + items)[0] == recv[0] && (recv + items)[1..] == recv[1..] + items;
    if begun >= 1 { OnePart(c, recv[0]); }
    hide OddPieces, Uneven;
  }

  /** What a step of the reader does to the second lane. */
  lemma SecondSees(c: Config, st: State, step: Step)
    requires Inv(c, st) && TwoLanes(c) && Enabled(c, st, step) && step.s == 0
    ensures ThreadAt(st, 0, 0) && ThreadAt(st, REFINE, 1) && QueueAt(st, 0, 1)
    ensures var st', t := Do(c, st, step), st.threads[0][0];
            && ThreadAt(st', REFINE, 1) && QueueAt(st', 0, 1) && st'.threads[REFINE][1] == st.threads[REFINE][1]
            && (step.Enqueue? ==> ToCome(st) != [])
            && st'.queues[0][1].items
               == st.queues[0][1].items + if step.Enqueue? && t.lane == 1 then [ToCome(st)[0]] else []
  {
    assert ThreadOk(c, st, 0, 0);
    Elsewhere(c, st, step);
    ReaderSteps(c, st, step);
    hide Do, Stepped, AtEnd, Inv;
  }

  /** The reader sends a piece. */
  lemma SecondAfterReader(c: Config, st: State, step: Step)
    requires Inv(c, st) && TwoLanes(c) && ReaderOk(c, st) && SecondOk(c, st) && Enabled(c, st, step) && step.s == 0
    ensures SecondOk(c, Do(c, st, step))
  {
    SecondSees(c, st, step);
    ReaderStays(c, st, step);
    ReaderAfter(c, st, step);
    var t := st.threads[REFINE][1];
    hide Do, InOrder, ReaderOk, Enabled, Inv;
    if step.Enqueue? {
      ReaderSends(c, st);
      if st.threads[0][0].lane == 1 { AnotherSent(SentOdd(c, st), t.recv, st.queues[0][1].items, t.work); }
    }
  }

  lemma ReaderSends(c: Config, st: State)
    requires ReaderOk(c, st) && ToCome(st) != []
    ensures ToCome(st)[0] == Piece(SentBy(c, st)) && st.threads[0][0].lane == SentBy(c, st) % 2
  {
    PiecesTail(SentBy(c, st), Total2(c));
  }

  /** Stage 1 of the lane takes pieces over, begins one, or hands a part on. */
  lemma SecondAfterOwn(c: Config, st: State, step: Step)
    requires Inv(c, st) && Uneven(c) && SecondOk(c, st) && Enabled(c, st, step) && step.s == REFINE && step.i == 1
    ensures SecondOk(c, Do(c, st, step))
  {
    var t, items, sent := st.threads[REFINE][1], st.queues[0][1].items, SentOdd(c, st);
    Elsewhere(c, st, step);
    OwnSteps(c, st, step);
    match step
    case Fetch(_, _, n) => SomeFetched(sent, items, t.work, n);
    case Begin(_, _) => OneBegun(c, sent, t.recv, items);
    case Emit(_, _, _) => OneEmitted(sent, t.recv, items, t.work);
    case _ =>
    hide Inv, Do, InOrder, Uneven, Enabled, Stepped;
  }

  lemma OwnSteps(c: Config, st: State, step: Step)
    requires TwoLanes(c) && Enabled(c, st, step) && step.s == REFINE && step.i == 1
    ensures var t, t', items := st.threads[REFINE][1], Stepped(c, st, step), st.queues[0][1].items;
            match step
            case Fetch(_, _, n) =>
              && n <= |items| && t.recv == [] && t'.recv == items[..n] && t'.work == t.work
              && ChangedTo(c, st, step).items == items[n..]
            case Begin(_, _) => t.recv != [] && t.work == [] && t'.recv == t.recv[1..] && t'.work == c.expand(t.recv[0])
            case Emit(_, _, _) => t.work != [] && t'.recv == t.recv && t'.work == t.work[1..]
            case _ => t'.recv == t.recv && t'.work == t.work
  {
    hide AtEnd;
  }

  lemma OnePart(c: Config, x: Item)
    requires Uneven(c) && x.l1 != 1
    ensures NoOnes(c.expand(x))
  {
  }

  lemma SecondStays(c: Config, st: State, step: Step)
    requires Inv(c, st) && Uneven(c) && ReaderOk(c, st) && SecondOk(c, st) && Enabled(c, st, step)
    ensures SecondOk(c, Do(c, st, step))
  {
    if step.s == 0 {
      SecondAfterReader(c, st, step);
    } else if step.s == REFINE && step.i == 1 {
      SecondAfterOwn(c, st, step);
    } else {
      Elsewhere(c, st, step);
      hide Inv, Do, InOrder, ReaderOk, Stepped, ChangedTo;
    }
  }

  // ---- The writer --------------------------------------------------------------------------------

  /** How many of the items are of lane l. */
  ghost function Of(items: seq<Item>, l: int): nat {
    if items == [] then 0 else Of(items[..|items| - 1], l) + (if items[|items| - 1].l1 % 2 == l then 1 else 0)
  }

  lemma {:induction false} OfConcat(a: seq<Item>, b: seq<Item>, l: int)
    ensures Of(a + b, l) == Of(a, l) + Of(b, l)
  {
    if b == [] {
      assert a + b == a;
    } else {
      OfConcat(a, b[..|b| - 1], l);
      assert (a + b)[..|a + b| - 1] == a + b[..|b| - 1];
    }
  }

  lemma {:induction false} OfBelonging(items: seq<Item>, l: int, m: int)
    requires Belong(items, l)
    ensures Of(items, m) == if m == l then |items| else 0
  {
    if items != [] { OfBelonging(items[..|items| - 1], l, m); }
  }

  /** All that has come to the writer. */
  ghost function Arrived(st: State): seq<Item>
    requires ThreadAt(st, STAGES - 1, 0)
  {
    var t := st.threads[STAGES - 1][0]; st.written + t.work + t.recv
  }

  ghost function Product(a: nat, b: nat): nat {
    if b == 0 then 0 else Product(a, b - 1) + a
  }

  lemma {:induction false} ProductGrows(a: nat, b: nat, d: nat)
    ensures Product(a, b + d) >= Product(a, b) && (d > 0 ==> Product(a, b + d) >= Product(a, b) + a)
  {
    if d > 0 { ProductGrows(a, b, d - 1); }
  }

  /** Lane 1 is never more than a queue's content ahead per turn to lane 0. */
  ghost predicate WriterOk(c: Config, st: State) {
    && ThreadAt(st, STAGES - 1, 0)
    && Of(Arrived(st), 1) + (if st.threads[STAGES - 1][0].lane == 1 then c.queueSize else 0)
       <= Product(c.queueSize, Of(Arrived(st), 0))
  }

  /** As long as the reader has something to send, no queue is declared finished. */
  lemma {:induction false} NoneFinished(c: Config, st: State, k: nat, l: nat)
    requires Inv(c, st) && TwoLanes(c) && ToCome(st) != [] && k < STAGES - 1 && l < 2
    ensures !Terminated(c, st, k, l)
  {
    hide LaneSize, DoneIn;
    assert Counted(c, st, k, l) && ThreadOk(c, st, 0, 0);
    if k > 0 {
      NoneFinished(c, st, k - 1, l);
      assert ThreadOk(c, st, k, l);
      assert !Sees(c, k, l, st.threads[k][l], l);
      StillOpen(c, st, k, l);
    }
  }

  lemma WriterSteps(c: Config, st: State, step: Step)
    requires Inv(c, st) && Enabled(c, st, step) && step.s == STAGES - 1 && !step.SeeEnd?
    ensures var t, t', written' := st.threads[STAGES - 1][0], Stepped(c, st, step), Do(c, st, step).written;
            if step.Fetch? then
              && t.recv == [] && t.work == [] && t'.work == [] && written' == st.written
              && t'.recv == st.queues[STAGES - 2][t.lane].items[..step.n] && t'.lane == NextLane(c, t.lane)
            else written' + t'.work + t'.recv == st.written + t.work + t.recv && t'.lane == t.lane
  {
    hide AtEnd;
  }

  lemma WriterStays(c: Config, st: State, step: Step)
    requires Inv(c, st) && TwoLanes(c) && LanesOk(c, st) && WriterOk(c, st) && Enabled(c, st, step)
    requires ToCome(st) != []
    ensures WriterOk(c, Do(c, st, step))
  {
    Elsewhere(c, st, step);
    StepAt(c, st, step);
    var t := st.threads[STAGES - 1][0];
    if step.s == STAGES - 1 {
      WriterSeesNoEnd(c, st, step);
      WriterSteps(c, st, step);
      if step.Fetch? {
        WriterFetches(c, st, step);
        assert st.written + [] + [] == st.written && st.written + [] == st.written;
      }
    } else {
      WrittenStays(c, st, step);
    }
    hide Do, Inv, Stepped, Enabled, Of, Product, LanesOk;
  }

  lemma WriterSeesNoEnd(c: Config, st: State, step: Step)
    requires Inv(c, st) && TwoLanes(c) && Enabled(c, st, step) && step.s == STAGES - 1 && ToCome(st) != []
    ensures !step.SeeEnd?
  {
    NoneFinished(c, st, STAGES - 2, st.threads[STAGES - 1][0].lane);
  }

  lemma WrittenStays(c: Config, st: State, step: Step)
    requires Enabled(c, st, step) && step.s != STAGES - 1
    ensures Do(c, st, step).written == st.written
  {
    hide AtEnd, Stepped, ChangedTo;
  }

  lemma WriterFetches(c: Config, st: State, step: Step)
    requires LanesOk(c, st) && TwoLanes(c) && Enabled(c, st, step) && step.s == STAGES - 1 && step.Fetch?
    requires WriterOk(c, st)
    ensures var t := st.threads[STAGES - 1][0];
            var all := Arrived(st) + st.queues[STAGES - 2][t.lane].items[..step.n];
            Of(all, 1) + (if NextLane(c, t.lane) == 1 then c.queueSize else 0) <= Product(c.queueSize, Of(all, 0))
  {
    var t := st.threads[STAGES - 1][0];
    var q := st.queues[STAGES - 2][t.lane];
    var items := q.items[..step.n];
    assert QueueFits(c, t.lane, q);
    BelongSplit(q.items, step.n, t.lane);
    OfConcat(Arrived(st), items, 0);
    OfConcat(Arrived(st), items, 1);
    OfBelonging(items, t.lane, 0);
    OfBelonging(items, t.lane, 1);
    ProductGrows(c.queueSize, Of(Arrived(st), 0), Of(items, 0));
    hide Of, Product, AtEnd;
  }

  // ---- How many parts there are room for ---------------------------------------------------------

  /** What the second lane holds behind the work of stage 1. */
  ghost function Between(c: Config, st: State): seq<Item>
    requires TwoLanes(c) && Shape(c, st)
  {
    var one, two, three := st.threads[1][1], st.threads[2][1], st.threads[3][1];
    one.send + st.queues[1][1].items + (two.recv + two.work + two.send + two.side) + st.queues[2][1].items
    + st.queues[3][1].items + (three.recv + three.work + three.send)
  }

  lemma BetweenFits(c: Config, st: State)
    requires TwoLanes(c) && Inv(c, st) && LanesOk(c, st)
    ensures |Between(c, st)| <= Room(c.buffer, c.queueSize)
  {
    forall s | 1 <= s <= 3 ensures ThreadFits(c, s, 1, st.threads[s][1]) && Local(c, s, st.threads[s][1]) {
      assert ThreadOk(c, st, s, 1);
    }
    forall k | 1 <= k <= 3 ensures QueueFits(c, 1, st.queues[k][1]) {}
    hide Belong;
  }

  /** Items of other pieces are not refined to y. */
  lemma {:induction false} CountOthers(c: Config, coarse: bool, items: seq<Item>, y: Item)
    requires Uneven(c) && forall k :: 0 <= k < |items| ==> items[k].l1 != y.l1
    ensures Count(c, coarse, items, y) == 0
  {
    if items != [] {
      var x := items[|items| - 1];
      CountOthers(c, coarse, items[..|items| - 1], y);
      var parts := Refined(Many(c.buffer, c.queueSize), x);
      assert c.expand(x) == parts;
      assert forall j :: 0 <= j < |parts| ==> parts[j].l1 == x.l1;
      hide Refined;
    }
  }

  lemma CountAbsent(c: Config, items: seq<Item>, y: Item)
    requires y !in items
    ensures Count(c, false, items, y) == 0
  {
    CountIsMultiset(c, items, y);
  }

  lemma {:induction false} NoneInStage(c: Config, s: nat, ts: seq<Thread>, y: Item)
    requires forall i :: 0 <= i < |ts| ==> ThreadCount(c, s, ts[i], y) == 0
    ensures StageCount(c, s, ts, y) == 0
  {
    hide ThreadCount;
    if ts != [] { NoneInStage(c, s, ts[..|ts| - 1], y); }
  }

  lemma {:induction false} NoneInStages(c: Config, threads: seq<seq<Thread>>, y: Item)
    requires forall s, i :: 0 <= s < |threads| && 0 <= i < |threads[s]| ==> ThreadCount(c, s, threads[s][i], y) == 0
    ensures AllStages(c, threads, y) == 0
  {
    hide ThreadCount;
    if threads != [] {
      var s := |threads| - 1;
      NoneInStage(c, s, threads[s], y);
      NoneInStages(c, threads[..s], y);
    }
  }

  lemma {:induction false} NoneInLane(c: Config, k: nat, qs: seq<Queue>, y: Item)
    requires forall l :: 0 <= l < |qs| ==> Count(c, k == 0, qs[l].items, y) == 0
    ensures LaneCount(c, k, qs, y) == 0
  {
    hide Count;
    if qs != [] { NoneInLane(c, k, qs[..|qs| - 1], y); }
  }

  lemma {:induction false} NoneInQueues(c: Config, queues: seq<seq<Queue>>, y: Item)
    requires forall k, l :: 0 <= k < |queues| && 0 <= l < |queues[k]| ==> Count(c, k == 0, queues[k][l].items, y) == 0
    ensures AllQueues(c, queues, y) == 0
  {
    hide Count;
    if queues != [] {
      var k := |queues| - 1;
      NoneInLane(c, k, queues[k], y);
      NoneInQueues(c, queues[..k], y);
    }
  }

  /** The reader has sent everything, and stage 1 of the second lane has handed on all parts of the first piece. */
  ghost predicate AllOut(c: Config, st: State) {
    && Uneven(c) && Inv(c, st) && LanesOk(c, st) && ReaderOk(c, st) && SecondOk(c, st)
    && ToCome(st) == []
  }

  lemma AtLeastTwoBegun(c: Config, st: State)
    requires AllOut(c, st)
    ensures NoOnes(st.threads[REFINE][1].recv) && NoOnes(st.threads[REFINE][1].work) && NoOnes(st.queues[0][1].items)
  {
    assert ThreadFits(c, REFINE, 1, st.threads[REFINE][1]) && QueueFits(c, 1, st.queues[0][1]);
    var t, items := st.threads[REFINE][1], st.queues[0][1].items;
    assert InOrder(SentOdd(c, st), t.recv, items, t.work) && SentOdd(c, st) == Each(c.queueSize);
    TwoBegun(Each(c.queueSize), t.recv, items, t.work);
  }

  lemma TwoBegun(sent: nat, recv: seq<Item>, items: seq<Item>, work: seq<Item>)
    requires InOrder(sent, recv, items, work) && |recv| + |items| + 2 <= sent
    ensures NoOnes(recv) && NoOnes(items) && NoOnes(work)
  {
    var odd := OddPieces(Begun(sent, recv, items), sent);
    forall k | 0 <= k < |recv| ensures recv[k].l1 != 1 { assert recv[k] == odd[k]; }
    forall k | 0 <= k < |items| ensures items[k].l1 != 1 { assert items[k] == odd[|recv| + k]; }
  }

  lemma NotInThread(c: Config, st: State, s: nat, i: nat, y: Item)
    requires AllOut(c, st) && y.l1 == 1 && y !in Between(c, st) && y !in Arrived(st)
    requires s < STAGES && i < |st.threads[s]|
    ensures ThreadCount(c, s, st.threads[s][i], y) == 0
  {
    var t := st.threads[s][i];
    assert ThreadOk(c, st, s, i);
    AtLeastTwoBegun(c, st);
    hide Inv, SecondOk, Uneven, Count;
    if s == 0 {
      CountAbsent(c, [], y);
      CountOthers(c, true, [], y);
    } else if s == STAGES - 1 {
      CountAbsent(c, t.recv, y);
      CountAbsent(c, t.work, y);
      CountAbsent(c, [], y);
    } else if i == 0 {
      assert ThreadFits(c, s, 0, t);
      CountOthers(c, s <= REFINE, t.recv, y);
      CountOthers(c, s < REFINE, t.work, y);
      CountOthers(c, s < REFINE, t.send, y);
      CountOthers(c, s < REFINE, t.side, y);
    } else if s == REFINE {
      CountOthers(c, true, t.recv, y);
      CountOthers(c, false, t.work, y);
      CountAbsent(c, t.send, y);
      CountAbsent(c, [], y);
    } else {
      CountAbsent(c, t.recv, y);
      CountAbsent(c, t.work, y);
      CountAbsent(c, t.send, y);
      CountAbsent(c, t.side, y);
    }
  }

  lemma NotInQueue(c: Config, st: State, k: nat, l: nat, y: Item)
    requires AllOut(c, st) && y.l1 == 1 && y !in Between(c, st) && QueueAt(st, k, l)
    ensures Count(c, k == 0, st.queues[k][l].items, y) == 0
  {
    var items := st.queues[k][l].items;
    AtLeastTwoBegun(c, st);
    assert QueueFits(c, l, st.queues[k][l]);
    hide Inv, SecondOk, Count;
    if l == 0 || k == 0 { CountOthers(c, k == 0, items, y); } else { CountAbsent(c, items, y); }
  }

  lemma PartsAreThere(c: Config, st: State, y: Item)
    requires AllOut(c, st) && y.l1 == 1 && Total(c, st, y) > 0
    ensures y in Between(c, st) || y in Arrived(st)
  {
    hide AllOut, ThreadCount, Count, Between;
    OutShape(c, st);
    if y !in Between(c, st) && y !in Arrived(st) {
      forall s, i | 0 <= s < |st.threads| && 0 <= i < |st.threads[s]|
        ensures ThreadCount(c, s, st.threads[s][i], y) == 0
      {
        NotInThread(c, st, s, i, y);
      }
      forall k, l | 0 <= k < |st.queues| && 0 <= l < |st.queues[k]|
        ensures Count(c, k == 0, st.queues[k][l].items, y) == 0
      {
        NotInQueue(c, st, k, l, y);
      }
      NoneInStages(c, st.threads, y);
      NoneInQueues(c, st.queues, y);
      CountAbsent(c, st.written, y);
    }
  }

  lemma OutShape(c: Config, st: State)
    requires AllOut(c, st)
    ensures TwoLanes(c) && Shape(c, st)
  {
  }

  /** n different parts of one piece are n odd items. */
  lemma {:induction false} Pigeons(a: seq<Item>, b: seq<Item>, n: nat)
    requires forall j :: 0 <= j < n ==> Part(1, j) in a || Part(1, j) in b
    ensures n <= |a| + Of(b, 1)
  {
    if n > 0 {
      var y := Part(1, n - 1);
      if y in a {
        var k :| 0 <= k < |a| && a[k] == y;
        var a' := a[..k] + a[k + 1..];
        forall j | 0 <= j < n - 1 ensures Part(1, j) in a' || Part(1, j) in b {
          if Part(1, j) in a { StillIn(a, k, Part(1, j)); }
        }
        Pigeons(a', b, n - 1);
      } else {
        var k :| 0 <= k < |b| && b[k] == y;
        var b' := b[..k] + b[k + 1..];
        forall j | 0 <= j < n - 1 ensures Part(1, j) in a || Part(1, j) in b' {
          if Part(1, j) in b { StillIn(b, k, Part(1, j)); }
        }
        Pigeons(a, b', n - 1);
        OneLess(b, k, 1);
      }
    }
  }

  lemma StillIn(a: seq<Item>, k: nat, x: Item)
    requires k < |a| && x in a && x != a[k]
    ensures x in a[..k] + a[k + 1..]
  {
    var m :| 0 <= m < |a| && a[m] == x;
    assert (a[..k] + a[k + 1..])[if m < k then m else m - 1] == x;
  }

  lemma OneLess(b: seq<Item>, k: nat, l: int)
    requires k < |b|
    ensures Of(b, l) == Of(b[..k] + b[k + 1..], l) + (if b[k].l1 % 2 == l then 1 else 0)
  {
    assert b == b[..k] + [b[k]] + b[k + 1..];
    OfConcat(b[..k] + [b[k]], b[k + 1..], l);
    OfConcat(b[..k], [b[k]], l);
    OfConcat(b[..k], b[k + 1..], l);
    assert [b[k]][..0] == [];
  }

  /** How often an item of an even number below 2 * e can come to the writer. */
  function Once(e: nat, x: Item): nat {
    if x.Part? && x.l2 == 0 && x.l1 < 2 * e then 1 else 0
  }

  ghost predicate Sparse(b: seq<Item>, e: nat) {
    forall x: Item :: x.l1 % 2 == 0 ==> multiset(b)[x] <= Once(e, x)
  }

  lemma {:induction false} Holes(b: seq<Item>, e: nat)
    requires Sparse(b, e)
    ensures Of(b, 0) <= e
  {
    if e == 0 {
      NoEven(b);
    } else {
      var y := Part(2 * (e - 1), 0);
      hide Sparse, Of, Once;
      if y in b {
        var k :| 0 <= k < |b| && b[k] == y;
        FewerHoles(b, k, e);
        Holes(b[..k] + b[k + 1..], e - 1);
        OneLess(b, k, 0);
      } else {
        SameHoles(b, e);
        Holes(b, e - 1);
      }
    }
  }

  lemma SameHoles(b: seq<Item>, e: nat)
    requires e > 0 && Part(2 * (e - 1), 0) !in b && Sparse(b, e)
    ensures Sparse(b, e - 1)
  {
    forall x: Item | x.l1 % 2 == 0 ensures multiset(b)[x] <= Once(e - 1, x) {
      assert multiset(b)[x] <= Once(e, x);
    }
  }

  lemma FewerHoles(b: seq<Item>, k: nat, e: nat)
    requires e > 0 && k < |b| && b[k] == Part(2 * (e - 1), 0) && Sparse(b, e)
    ensures Sparse(b[..k] + b[k + 1..], e - 1)
  {
    var b' := b[..k] + b[k + 1..];
    assert b == b[..k] + [b[k]] + b[k + 1..];
    assert multiset(b) == multiset(b') + multiset{b[k]};
    forall x: Item | x.l1 % 2 == 0 ensures multiset(b')[x] <= Once(e - 1, x) {
      assert multiset(b)[x] <= Once(e, x);
    }
  }

  lemma {:induction false} NoEven(b: seq<Item>)
    requires forall x: Item :: x.l1 % 2 == 0 ==> multiset(b)[x] == 0
    ensures Of(b, 0) == 0
  {
    if b != [] {
      var n := |b| - 1;
      assert b == b[..n] + [b[n]];
      assert multiset(b)[b[n]] > 0;
      forall x: Item | x.l1 % 2 == 0 ensures multiset(b[..n])[x] == 0 { assert multiset(b)[x] == 0; }
      NoEven(b[..n]);
    }
  }

  // ---- What the input is refined to --------------------------------------------------------------

  lemma CountLast(c: Config, n: nat, y: Item)
    requires n > 0
    ensures Count(c, true, Pieces(0, n), y)
         == Count(c, true, Pieces(0, n - 1), y) + multiset(c.expand(Piece(n - 1)))[y]
    ensures Count(c, true, Pieces(0, 0), y) == 0
  {
    assert Pieces(0, n)[..n - 1] == Pieces(0, n - 1);
  }

  lemma {:induction false} EvenOnce(c: Config, e: nat, n: nat, y: Item)
    requires Uneven(c) && n <= 2 * e && y.l1 % 2 == 0
    ensures Count(c, true, Pieces(0, n), y) <= Once(e, y) && (y.l1 >= n ==> Count(c, true, Pieces(0, n), y) == 0)
  {
    hide Uneven, Count, Pieces;
    if n > 0 {
      CountLast(c, n, y);
      EvenOnce(c, e, n - 1, y);
      RefinedCount(c, Piece(n - 1), y);
    } else {
      CountLast(c, 1, y);
    }
  }

  lemma RefinedCount(c: Config, x: Item, y: Item)
    requires Uneven(c)
    ensures x.l1 != y.l1 ==> multiset(c.expand(x))[y] == 0
    ensures x.l1 == y.l1 != 1 ==> multiset(c.expand(x))[y] == if y == Part(x.l1, 0) then 1 else 0
    ensures x == Piece(1) && y.Part? && y.l1 == 1 && y.l2 < Many(c.buffer, c.queueSize) ==>
              multiset(c.expand(x))[y] > 0
  {
    var parts := Refined(Many(c.buffer, c.queueSize), x);
    assert c.expand(x) == parts;
    assert forall j :: 0 <= j < |parts| ==> parts[j].l1 == x.l1;
    if x == Piece(1) && y.Part? && y.l1 == 1 && y.l2 < |parts| { assert parts[y.l2] == y; }
  }

  lemma {:induction false} PartsComeFrom(c: Config, n: nat, j: nat)
    requires Uneven(c) && n >= 2 && j < Many(c.buffer, c.queueSize)
    ensures Count(c, true, Pieces(0, n), Part(1, j)) > 0
  {
    hide Count, Pieces;
    CountLast(c, n, Part(1, j));
    if n == 2 { RefinedCount(c, Piece(1), Part(1, j)); } else { PartsComeFrom(c, n - 1, j); }
  }

  // ---- Nobody gets through -----------------------------------------------------------------------

  /** Nothing is lost on the way from the input. */
  ghost predicate Kept(c: Config, st: State) {
    forall y: Item :: Total(c, st, y) == Count(c, true, Pieces(0, Total2(c)), y)
  }

  lemma EvenArrived(c: Config, st: State, y: Item)
    requires Uneven(c) && Inv(c, st) && Kept(c, st) && y.l1 % 2 == 0
    ensures multiset(Arrived(st))[y] <= Once(Each(c.queueSize), y)
  {
    EvenOnce(c, Each(c.queueSize), Total2(c), y);
    ArrivedIsPart(c, st, y);
  }

  lemma ArrivedIsPart(c: Config, st: State, y: Item)
    requires Shape(c, st)
    ensures multiset(Arrived(st))[y] <= Total(c, st, y)
  {
    var t, last := st.threads[STAGES - 1][0], STAGES - 1;
    CountIsMultiset(c, t.recv, y);
    CountIsMultiset(c, t.work, y);
    CountIsMultiset(c, st.written, y);
    hide Count, AllQueues, AtEnd;
    assert StageCount(c, last, st.threads[last], y) >= ThreadCount(c, last, t, y);
    assert AllStages(c, st.threads, y) >= StageCount(c, last, st.threads[last], y);
  }

  lemma {:induction false} ProductIs(a: nat, b: nat)
    ensures Product(a, b) == a * b
  {
    if b > 0 { ProductIs(a, b - 1); }
  }

  /** If it did, there would be more parts than room. */
  lemma TooMany(c: Config, st: State)
    requires AllOut(c, st) && Kept(c, st)
    ensures Of(Arrived(st), 1) > c.queueSize * Each(c.queueSize)
  {
    var many := Many(c.buffer, c.queueSize);
    OutShape(c, st);
    BetweenFits(c, st);
    hide AllOut, Between, Total, Count, Of, Total2, Kept, LanesOk, Inv;
    forall j | 0 <= j < many ensures Part(1, j) in Between(c, st) || Part(1, j) in Arrived(st) {
      KeptIs(c, st, j);
      PartsAreThere(c, st, Part(1, j));
    }
    Pigeons(Between(c, st), Arrived(st), many);
  }

  lemma KeptIs(c: Config, st: State, j: nat)
    requires Uneven(c) && Kept(c, st) && j < Many(c.buffer, c.queueSize)
    ensures Total(c, st, Part(1, j)) > 0
  {
    PartsComeFrom(c, Total2(c), j);
    hide Total, Count;
  }

  lemma FewArrived(c: Config, st: State)
    requires Uneven(c) && Inv(c, st) && Kept(c, st) && WriterOk(c, st)
    ensures Of(Arrived(st), 1) <= c.queueSize * Each(c.queueSize)
  {
    var e := Each(c.queueSize);
    hide Uneven, Inv, Kept, Of, Product;
    forall x: Item | x.l1 % 2 == 0 ensures multiset(Arrived(st))[x] <= Once(e, x) { EvenArrived(c, st, x); }
    Holes(Arrived(st), e);
    ProductGrows(c.queueSize, Of(Arrived(st), 0), e - Of(Arrived(st), 0));
    ProductIs(c.queueSize, e);
  }

  /** The reader never gets to the end of its input. */
  lemma NeverAllOut(c: Config, st: State)
    requires Uneven(c) && Inv(c, st) && LanesOk(c, st) && ReaderOk(c, st) && SecondOk(c, st) && WriterOk(c, st)
    requires Kept(c, st)
    ensures ToCome(st) != []
  {
    FewArrived(c, st);
    hide Uneven, Inv, LanesOk, ReaderOk, SecondOk, WriterOk, Kept, Of, Each, Room;
    if ToCome(st) == [] { TooMany(c, st); }
  }

  /** What holds in every state: the reader has something left to send. */
  ghost predicate Held(c: Config, st: State) {
    && Inv(c, st) && LanesOk(c, st) && ReaderOk(c, st) && SecondOk(c, st) && WriterOk(c, st)
    && ToCome(st) != []
  }

  lemma HeldInit(c: Config, st: State)
    requires Uneven(c) && Init(c, Pieces(0, Total2(c)), st)
    ensures Held(c, st)
  {
    InvInit(c, Pieces(0, Total2(c)), st);
    assert Fresh(st.threads[0][0], Pieces(0, Total2(c)));
    assert Fresh(st.threads[1][1], []) && Fresh(st.threads[4][0], []);
    hide Inv;
    forall s: nat, i: nat | Middle(s) && i < |st.threads[s]| ensures ThreadFits(c, s, i, st.threads[s][i]) {
      assert Fresh(st.threads[s][i], []);
    }
    forall k, l | 0 <= k < STAGES - 1 && 0 <= l < c.lanes ensures QueueFits(c, l, st.queues[k][l]) {
      assert st.queues[k][l] == Queue([], 0);
    }
  }

  lemma HeldNext(c: Config, st: State, st': State)
    requires Uneven(c) && Held(c, st) && Next(c, st, st') && Kept(c, st')
    ensures Held(c, st')
  {
    InvNext(c, st, st');
    var step :| Enabled(c, st, step) && st' == Do(c, st, step);
    hide Inv, LanesOk, ReaderOk, SecondOk, WriterOk, Kept, Do, Enabled, Uneven, TwoLanes;
    ReaderStays(c, st, step);
    LanesStay(c, st, step);
    SecondStays(c, st, step);
    WriterStays(c, st, step);
    NeverAllOut(c, st');
  }

  lemma {:induction false} HeldAlongRun(c: Config, run: seq<State>, k: nat)
    requires Uneven(c) && Run(c, Pieces(0, Total2(c)), run) && k < |run|
    ensures Held(c, run[k])
  {
    hide *;
    RunParts(c, Pieces(0, Total2(c)), run);
    if k == 0 {
      HeldInit(c, run[0]);
    } else {
      HeldAlongRun(c, run, k - 1);
      assert Next(c, run[k - 1], run[k - 1 + 1]);
      KeptAlongRun(c, run, k);
      HeldNext(c, run[k - 1], run[k]);
    }
  }

  lemma KeptAlongRun(c: Config, run: seq<State>, k: nat)
    requires Run(c, Pieces(0, Total2(c)), run) && k < |run|
    ensures Kept(c, run[k])
  {
    hide Run, Total, Count;
    forall y: Item ensures Total(c, run[k], y) == Count(c, true, Pieces(0, Total2(c)), y) {
      Conserved(c, Pieces(0, Total2(c)), run, k, y);
    }
  }

  /** However the threads are scheduled, the pipeline does not get through. */
  lemma NeverThrough(c: Config, run: seq<State>)
    requires Uneven(c) && Run(c, Pieces(0, Total2(c)), run)
    ensures !PipelineProgress.AllDone(run[|run| - 1])
  {
    RunParts(c, Pieces(0, Total2(c)), run);
    hide Run, Uneven, SecondOk, WriterOk, LanesOk;
    HeldAlongRun(c, run, |run| - 1);
    ReaderNotDone(c, run[|run| - 1]);
  }

  lemma ReaderNotDone(c: Config, st: State)
    requires Inv(c, st) && ToCome(st) != []
    ensures !PipelineProgress.AllDone(st)
  {
    assert ThreadOk(c, st, 0, 0) && st.threads[0][0].status != Done;
    assert !StageDone(st, 0);
  }

  /**
   * With two lanes of one thread each and a reader that sends pieces one by one, for every size of the queues and
   * of the other send buffers: an input and a way to refine it with which every run that cannot go on is
   * deadlocked, as some run is, and none gets through.
   */
  lemma QueuesDeadlock(buffer: seq<nat>, q: nat) returns (c: Config, input: seq<Item>, run: seq<State>)
    requires 0 < q && |buffer| == STAGES && buffer[0] == 1 && forall s :: 0 <= s < STAGES ==> 0 < buffer[s]
    ensures ConfigOk(c) && c.lanes == 2 && c.laneOf == [0, 1] && c.buffer == buffer && c.queueSize == q
    ensures input == Pieces(0, |input|)
    ensures Run(c, input, run) && Shape(c, run[|run| - 1]) && Deadlocked(c, run[|run| - 1])
    ensures forall other :: Run(c, input, other) ==> !PipelineProgress.AllDone(other[|other| - 1])
  {
    var n := Many(buffer, q);
    c := Config(2, [0, 1], buffer, q, x => Refined(n, x));
    input := Pieces(0, Total2(c));
    assert Uneven(c) && input == Pieces(0, |input|);
    StartRuns(c, input);
    hide *;
    run := ComesToRest(c, input, [Start(c, input)]);
    StuckIsDoneOrDeadlocked(c, input, run);
    forall other | Run(c, input, other) ensures other != [] && !PipelineProgress.AllDone(other[|other| - 1]) {
      RunParts(c, input, other);
      NeverThrough(c, other);
    }
  }
}
