/** The stages put together: from a file through the racing pipeline to an archive and back. */
module DedupEndToEnd {
  import opened Rabin
  import opened RabinSeg
  import opened DedupFormat
  import opened DedupChunking
  import opened DedupFragment
  import opened DedupRace
  import P = PipelineProtocol
  import Q = PipelineProgress
  import R = Reorder

  /** The chunks of the two chunking stages in label order. */
  ghost function Stream(t: Tables, jump: nat, data: Bytes): seq<Bytes>
    requires Sized(t)
  {
    Flatten(Fine(t, Greedy(t, jump, data)))
  }

  /** The order in which the reorder stage writes is the order of the stream. */
  lemma ReorderedIsStream(t: Tables, jump: nat, data: Bytes)
    requires Sized(t)
    ensures var groups := Fine(t, Greedy(t, jump, data));
            R.NoneEmpty(groups) && R.DataOf(R.Front(groups, |groups|)) == Stream(t, jump, data)
  {
    var groups := Fine(t, Greedy(t, jump, data));
    StagesKeepData(t, jump, data);
    R.FrontData(groups, |groups|);
    assert groups[..|groups|] == groups;
  }

  /** Whatever the schedule of the deduplicating and compressing threads, the finished archive decodes to
      the file exactly if the chunk sizes suit the decoder. */
  lemma PipelineRoundTrip(c: Codec, t: Tables, jump: nat, data: Bytes, run: seq<State>)
    requires GoodCodec(c) && Sized(t)
    requires NoCollision(c, Stream(t, jump, data)) && LengthsFit(RecordsOf(c, Stream(t, jump, data)))
    requires Run(c, Stream(t, jump, data), run) && run[|run| - 1].next == |Stream(t, jump, data)|
    ensures DecodedFile(c, run[|run| - 1].out) == Ok(data) <==> AllStorable(c, Stream(t, jump, data), 0)
  {
    hide *;
    var chunks := Stream(t, jump, data);
    RaceIsSerial(c, chunks, run);
    IsWritable(RecordsOf(c, chunks));
    DecodeInverts(c, chunks);
    StreamData(t, jump, data);
  }

  lemma IsWritable(rs: seq<Record>)
    ensures Writable(rs) <==> LengthsFit(rs) && AllSent(rs)
  {
  }

  lemma StreamData(t: Tables, jump: nat, data: Bytes)
    requires Sized(t)
    ensures Concat(Stream(t, jump, data)) == data
  {
    StagesKeepData(t, jump, data);
  }

  lemma {:induction false} FlattenMembers(groups: seq<seq<Bytes>>, k: nat)
    requires k < |Flatten(groups)|
    ensures exists i, j :: 0 <= i < |groups| && 0 <= j < |groups[i]| && groups[i][j] == Flatten(groups)[k]
  {
    if k >= |groups[0]| {
      FlattenMembers(groups[1..], k - |groups[0]|);
      var i, j :| 0 <= i < |groups[1..]| && 0 <= j < |groups[1..][i]|
                  && groups[1..][i][j] == Flatten(groups[1..])[k - |groups[0]|];
      assert groups[i + 1][j] == Flatten(groups)[k];
    } else {
      assert groups[0][k] == Flatten(groups)[k];
    }
  }

  lemma {:induction false} PieceSize(t: Tables, jump: nat, data: Bytes, k: nat)
    requires Sized(t) && k < |Greedy(t, jump, data)|
    ensures 0 < |Greedy(t, jump, data)[k]| <= |data|
    decreases k
  {
    var r := CutLen(t, jump, data);
    if k > 0 { PieceSize(t, jump, data[r..], k - 1); }
  }

  /** Without compression every chunk can be written and read, as long as coarse pieces can be measured by a C int. */
  lemma UncompressedFits(c: Codec, t: Tables, jump: nat, data: Bytes, maxBuf: nat)
    requires GoodCodec(c) && c.kind == COMPRESS_NONE && Sized(t) && FitsInt(Greedy(t, jump, data), maxBuf)
    ensures AllStorable(c, Stream(t, jump, data), 0) && Writable(RecordsOf(c, Stream(t, jump, data)))
  {
    var chunks, coarse := Stream(t, jump, data), Greedy(t, jump, data);
    EightBytes();
    forall k | 0 <= k < |chunks| ensures SmallAt(c, chunks, k) {
      FlattenMembers(Fine(t, coarse), k);
      var i, j :| 0 <= i < |Fine(t, coarse)| && 0 <= j < |Fine(t, coarse)[i]| && Fine(t, coarse)[i][j] == chunks[k];
      PieceSize(t, 0, coarse[i], j);
      assert |coarse[i]| + maxBuf < INT_LIMIT;
      SmallPlain(c, chunks, k);
    }
    hide *;
    SmallAll(c, chunks);
  }

  /** Without compression the round trip needs no further condition, and whatever has been done it can be completed. */
  lemma UncompressedRoundTrip(c: Codec, t: Tables, jump: nat, data: Bytes, maxBuf: nat, run: seq<State>)
    returns (longer: seq<State>)
    requires GoodCodec(c) && c.kind == COMPRESS_NONE && Sized(t) && FitsInt(Greedy(t, jump, data), maxBuf)
    requires NoCollision(c, Stream(t, jump, data)) && Run(c, Stream(t, jump, data), run)
    ensures run[|run| - 1].next == |Stream(t, jump, data)| ==> DecodedFile(c, run[|run| - 1].out) == Ok(data)
    ensures Finished(c, Stream(t, jump, data), longer) && run <= longer
    ensures DecodedFile(c, longer[|longer| - 1].out) == Ok(data)
  {
    hide *;
    var chunks := Stream(t, jump, data);
    UncompressedFits(c, t, jump, data, maxBuf);
    IsWritable(RecordsOf(c, chunks));
    RunParts(c, chunks, run);
    longer := CanFinish(c, chunks, run);
    FinishedIs(c, chunks, longer);
    PipelineRoundTrip(c, t, jump, data, longer);
    if run[|run| - 1].next == |chunks| { PipelineRoundTrip(c, t, jump, data, run); }
  }

  // ---- From the queues to the file ---------------------------------------------------------------

  /** The coarse pieces as the pipeline passes them on. */
  ghost function Pieces(m: nat): (input: seq<P.Item>)
    ensures |input| == m && forall i :: 0 <= i < m ==> input[i] == P.Piece(i)
  {
    seq(m, i requires 0 <= i < m => P.Piece(i))
  }

  /** What refining makes of a piece. */
  ghost function Parts(groups: seq<seq<Bytes>>, x: P.Item): (parts: seq<P.Item>)
    ensures |parts| == if x.Piece? && x.l1 < |groups| then |groups[x.l1]| else 0
    ensures forall j :: 0 <= j < |parts| ==> parts[j] == P.Part(x.l1, j)
  {
    seq(if x.Piece? && x.l1 < |groups| then |groups[x.l1]| else 0, j requires 0 <= j => P.Part(x.l1, j))
  }

  ghost predicate Refines(c: P.Config, groups: seq<seq<Bytes>>) {
    forall x :: c.expand(x) == Parts(groups, x)
  }

  ghost predicate IsPart(groups: seq<seq<Bytes>>, x: P.Item) {
    x.Part? && x.l1 < |groups| && x.l2 < |groups[x.l1]|
  }

  /** The chunk that an item of the last queue stands for. */
  ghost function Delivered(groups: seq<seq<Bytes>>, x: P.Item): Chunk
    requires IsPart(groups, x)
  {
    Labelled(x.l1, groups[x.l1])[x.l2]
  }

  ghost predicate AllParts(groups: seq<seq<Bytes>>, items: seq<P.Item>) {
    forall k :: 0 <= k < |items| ==> IsPart(groups, items[k])
  }

  ghost function Arrivals(groups: seq<seq<Bytes>>, items: seq<P.Item>): (arrivals: seq<Chunk>)
    requires AllParts(groups, items)
    ensures |arrivals| == |items| && forall k :: 0 <= k < |items| ==> arrivals[k] == Delivered(groups, items[k])
  {
    seq(|items|, k requires 0 <= k < |items| => Delivered(groups, items[k]))
  }

  lemma {:induction false} NoDuplicates<T>(s: seq<T>, x: T)
    requires forall i, j :: 0 <= i < j < |s| ==> s[i] != s[j]
    ensures multiset(s)[x] == if x in s then 1 else 0
  {
    if s != [] {
      var n := |s| - 1;
      assert s == s[..n] + [s[n]];
      NoDuplicates(s[..n], x);
    }
  }

  lemma {:induction false} Repeated<T>(s: seq<T>, i: nat, j: nat)
    requires i < j < |s| && s[i] == s[j]
    ensures multiset(s)[s[i]] >= 2
  {
    var n := |s| - 1;
    assert s == s[..n] + [s[n]];
    if j < n {
      Repeated(s[..n], i, j);
    } else {
      assert s[..n][i] in multiset(s[..n]);
    }
  }

  /** How often the input refines to an item: once if it is one of the first m pieces' chunks. */
  lemma {:induction false} InputCount(c: P.Config, groups: seq<seq<Bytes>>, m: nat, y: P.Item)
    requires Refines(c, groups) && m <= |groups|
    ensures P.Count(c, true, Pieces(m), y) == if IsPart(groups, y) && y.l1 < m then 1 else 0
  {
    if m > 0 {
      var front := Pieces(m - 1);
      assert Pieces(m)[..m - 1] == front;
      InputCount(c, groups, m - 1, y);
      var parts := Parts(groups, P.Piece(m - 1));
      assert c.expand(P.Piece(m - 1)) == parts;
      NoDuplicates(parts, y);
      if IsPart(groups, y) && y.l1 == m - 1 { assert parts[y.l2] == y; }
    }
  }

  /** Has the pipeline run on the coarse pieces until its writer was through? */
  ghost predicate Through(pc: P.Config, groups: seq<seq<Bytes>>, run: seq<P.State>) {
    && P.Run(pc, Pieces(|groups|), run) && Refines(pc, groups)
    && var st := run[|run| - 1];
       P.ThreadAt(st, P.STAGES - 1, 0) && st.threads[P.STAGES - 1][0].status == P.Done
  }

  lemma WrittenOnce(pc: P.Config, groups: seq<seq<Bytes>>, run: seq<P.State>, y: P.Item)
    requires Through(pc, groups, run)
    ensures run != [] && multiset(run[|run| - 1].written)[y] == if IsPart(groups, y) then 1 else 0
  {
    hide P.Run, P.Count, Refines, P.ThreadAt;
    P.RunParts(pc, Pieces(|groups|), run);
    P.WriterGetsAll(pc, Pieces(|groups|), run, y);
    InputCount(pc, groups, |groups|, y);
  }

  /**
   * Whatever the schedule of the pipeline, what reaches the writer is every chunk of the two chunking
   * stages once: the reorder stage is never handed anything else.
   */
  lemma PipelineDelivers(pc: P.Config, groups: seq<seq<Bytes>>, run: seq<P.State>)
    requires Through(pc, groups, run)
    ensures run != [] && AllParts(groups, run[|run| - 1].written)
    ensures var arrivals := Arrivals(groups, run[|run| - 1].written);
            R.Once(arrivals) && forall x :: x in arrivals <==> R.IsChunk(groups, x)
  {
    hide Through, R.IsChunk, R.Once;
    WrittenOnce(pc, groups, run, P.Piece(0));
    var items := run[|run| - 1].written;
    forall k | 0 <= k < |items| ensures IsPart(groups, items[k]) {
      WrittenOnce(pc, groups, run, items[k]);
      assert items[k] in multiset(items);
    }
    forall y ensures multiset(items)[y] == if IsPart(groups, y) then 1 else 0 {
      WrittenOnce(pc, groups, run, y);
    }
    DeliveredOnce(groups, items);
    forall x ensures x in Arrivals(groups, items) <==> R.IsChunk(groups, x) {
      DeliveredIff(groups, items, x);
    }
  }

  lemma DeliveredOnce(groups: seq<seq<Bytes>>, items: seq<P.Item>)
    requires AllParts(groups, items)
    requires forall y :: multiset(items)[y] == if IsPart(groups, y) then 1 else 0
    ensures R.Once(Arrivals(groups, items))
  {
    var arrivals := Arrivals(groups, items);
    forall i, j | 0 <= i < j < |arrivals| ensures arrivals[i] != arrivals[j] {
      if items[i] == items[j] { Repeated(items, i, j); }
    }
  }

  lemma DeliveredIff(groups: seq<seq<Bytes>>, items: seq<P.Item>, x: Chunk)
    requires AllParts(groups, items)
    requires forall y :: multiset(items)[y] == if IsPart(groups, y) then 1 else 0
    ensures x in Arrivals(groups, items) <==> R.IsChunk(groups, x)
  {
    var arrivals, y := Arrivals(groups, items), P.Part(x.l1, x.l2);
    if x in arrivals {
      var k :| 0 <= k < |arrivals| && arrivals[k] == x;
      assert IsPart(groups, items[k]);
    }
    if R.IsChunk(groups, x) {
      assert y in multiset(items);
      var k :| 0 <= k < |items| && items[k] == y;
      assert arrivals[k] == x;
    }
  }

  /** How many items a queue of the program holds. */
  const QUEUE_SIZE: nat := 1024 * 1024

  /** A run of the pipeline that cannot go on has delivered everything, if its queues suffice. */
  lemma EndedIsThrough(pc: P.Config, groups: seq<seq<Bytes>>, run: seq<P.State>)
    requires P.Run(pc, Pieces(|groups|), run) && Refines(pc, groups) && Q.Roomy(pc, Pieces(|groups|))
    requires Q.Stuck(pc, run[|run| - 1])
    ensures Through(pc, groups, run)
  {
    hide Q.Stuck, P.Inv, P.Terminated, P.Run;
    P.RunParts(pc, Pieces(|groups|), run);
    P.InvAlongRun(pc, Pieces(|groups|), run, |run| - 1);
    Q.InvShape(pc, run[|run| - 1]);
    Q.StuckIsDone(pc, Pieces(|groups|), run);
    WriterDone(pc, run[|run| - 1]);
  }

  lemma WriterDone(pc: P.Config, st: P.State)
    requires P.Shape(pc, st) && Q.AllDone(st)
    ensures P.ThreadAt(st, P.STAGES - 1, 0) && st.threads[P.STAGES - 1][0].status == P.Done
  {
    assert P.StageDone(st, P.STAGES - 1);
  }

  /** From wherever it has got to, the pipeline delivers everything in the end. */
  lemma WillBeThrough(pc: P.Config, groups: seq<seq<Bytes>>, run: seq<P.State>) returns (longer: seq<P.State>)
    requires P.Run(pc, Pieces(|groups|), run) && Refines(pc, groups) && Q.Roomy(pc, Pieces(|groups|))
    ensures run <= longer && Through(pc, groups, longer)
  {
    hide P.Inv, P.Run;
    longer := Q.CanFinish(pc, Pieces(|groups|), run);
    P.RunParts(pc, Pieces(|groups|), longer);
    P.InvAlongRun(pc, Pieces(|groups|), longer, |longer| - 1);
    Q.InvShape(pc, longer[|longer| - 1]);
    WriterDone(pc, longer[|longer| - 1]);
  }

  /** Coarse pieces are no shorter than the jump, but for the last one. */
  lemma {:induction false} FewPieces(t: Tables, jump: nat, data: Bytes)
    requires Sized(t) && data != []
    ensures (|Greedy(t, jump, data)| - 1) * jump < |data|
    decreases |data|
  {
    var r := CutLen(t, jump, data);
    if r < |data| {
      FewPieces(t, jump, data[r..]);
      OneMore(|Greedy(t, jump, data[r..])|, jump);
    }
  }

  lemma OneMore(n: nat, jump: nat)
    requires n > 0
    ensures n * jump == (n - 1) * jump + jump
  {
  }

  /** The queues of the program suffice for every file of at most 2^20 jumps. */
  lemma QueuesSuffice(pc: P.Config, t: Tables, jump: nat, data: Bytes)
    requires Sized(t) && 0 < jump && pc.queueSize == QUEUE_SIZE && |data| <= QUEUE_SIZE * jump
    ensures Q.Roomy(pc, Pieces(|Greedy(t, jump, data)|))
  {
    var n := |Greedy(t, jump, data)|;
    if data != [] {
      FewPieces(t, jump, data);
      if n > QUEUE_SIZE { MorePieces(n - 1, QUEUE_SIZE, jump); }
    }
  }

  lemma MorePieces(m: nat, n: nat, jump: nat)
    requires m >= n
    ensures m * jump >= n * jump
  {
  }

  /**
   * The three machines together.  Any run of the pipeline hands the writer its chunks in some order; the
   * reorder stage, given them in that order, writes the stream of the chunking stages; and any run of the
   * racing threads over the chunks in the order in which the reorder stage writes them ends with an archive
   * that decodes to the file, exactly if the chunk sizes suit the decoder.
   */
  method EncodeFile(c: Codec, ghost t: Tables, ghost jump: nat, ghost data: Bytes,
                    ghost pc: P.Config, ghost delivery: seq<P.State>, arrivals: seq<Chunk>)
    returns (stage: R.Stage)
    requires Sized(t) && GoodCodec(c)
    requires Through(pc, Fine(t, Greedy(t, jump, data)), delivery)
    requires var groups, items := Fine(t, Greedy(t, jump, data)), delivery[|delivery| - 1].written;
             AllParts(groups, items) && arrivals == Arrivals(groups, items)
    requires NoCollision(c, Stream(t, jump, data)) && LengthsFit(RecordsOf(c, Stream(t, jump, data)))
    ensures R.DataOf(stage.written) == Stream(t, jump, data) && stage.tree == null
    ensures forall race: seq<State> :: Finished(c, R.DataOf(stage.written), race) ==>
              (DecodedFile(c, race[|race| - 1].out) == Ok(data) <==> AllStorable(c, Stream(t, jump, data), 0))
    ensures (exists race: seq<State> :: Finished(c, R.DataOf(stage.written), race))
            <==> AllSent(RecordsOf(c, Stream(t, jump, data)))
  {
    hide *;
    ghost var groups := Fine(t, Greedy(t, jump, data));
    PipelineDelivers(pc, groups, delivery);
    ReorderedIsStream(t, jump, data);
    stage := R.ReorderAll(arrivals, groups);
    ghost var chunks := R.DataOf(stage.written);
    forall race: seq<State> | Finished(c, chunks, race)
      ensures race != [] &&
              (DecodedFile(c, race[|race| - 1].out) == Ok(data) <==> AllStorable(c, Stream(t, jump, data), 0))
    {
      FinishedIs(c, chunks, race);
      PipelineRoundTrip(c, t, jump, data, race);
    }
    FinishesIff(c, chunks);
  }

  lemma FinishedIs(c: Codec, chunks: seq<Bytes>, race: seq<State>)
    requires Finished(c, chunks, race)
    ensures race != [] && Run(c, chunks, race) && race[|race| - 1].next == |chunks|
  {
  }

  // ---- A file that cannot be decoded -------------------------------------------------------------

  lemma OnePiece(t: Tables, jump: nat, data: Bytes)
    requires Sized(t) && Greedy(t, jump, data) == [data] && Greedy(t, 0, data) == [data]
    ensures Stream(t, jump, data) == [data]
  {
    assert [data][1..] == [];
    assert Fine(t, [data]) == [Greedy(t, 0, data)];
    assert [[data]][1..] == [];
    assert Flatten([[data]]) == [data] + [];
  }

  /**
   * For any tables there is a file of 10000001 bytes that both chunking stages leave in one piece.  If the library
   * codec makes less than 2^31 bytes of it, every run over it finishes with an archive that does not decode.
   */
  lemma BigFileLost(c: Codec, t: Tables, jump: nat, maxBuf: nat) returns (data: Bytes)
    requires GoodCodec(c) && c.kind != 2 && Sized(t) && maxBuf <= 128 * 1024 * 1024
    requires forall x :: |x| == 10_000_001 ==> |c.compress(x)| < 0x8000_0000
    ensures |data| == 10_000_001 && FitsInt(Greedy(t, jump, data), maxBuf)
    ensures Greedy(t, 0, data) == Greedy(t, jump, data) == Stream(t, jump, data) == [data]
    ensures Writable(RecordsOf(c, [data])) && DecodedFile(c, Archive(c, [data])).Err?
    ensures forall race: seq<State> :: Finished(c, Stream(t, jump, data), race) ==>
              race != [] && DecodedFile(c, race[|race| - 1].out).Err?
    ensures exists race: seq<State> :: Finished(c, Stream(t, jump, data), race)
  {
    data := UncutData(t.tab, t.win, jump, 10_000_001);
    assert data[0..] == data;
    UncutPiece(t, jump, data);
    UncutPiece(t, 0, data);
    OnePiece(t, jump, data);
    BigChunkLost(c, data);
    hide *;
    forall race: seq<State> | Finished(c, [data], race)
      ensures race != [] && DecodedFile(c, race[|race| - 1].out).Err?
    {
      FinishedIs(c, [data], race);
      RaceIsSerial(c, [data], race);
      assert |[data]| == 1;
    }
    IsWritable(RecordsOf(c, [data]));
    FinishesIff(c, [data]);
  }
}
