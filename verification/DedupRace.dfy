/** Deduplicating and compressing threads racing with the writer.  Whichever of two equal chunks reaches the
    cache first becomes the original; the writer goes through the chunks in stream order. */
module DedupRace {
  import opened Rabin
  import opened DedupFormat

  datatype ChunkState = Uncompressed | Compressed | Flushed

  /** A chunk is pending, the original of its data, or a duplicate that refers to the original. */
  datatype Status = Pending | Original(state: ChunkState) | Duplicate(ref: nat)

  /** next counts the chunks the writer has dealt with; out is the output file. */
  datatype State = State(status: seq<Status>, cache: map<Bytes, nat>, next: nat, out: Bytes)

  /** The atomic sections: cache lookup under the bucket lock, compression and writing under the chunk lock. */
  datatype Step = Deduplicate(i: nat) | Compress(i: nat) | Write

  ghost predicate Init(c: Codec, chunks: seq<Bytes>, s: State) {
    && |s.status| == |chunks|
    && (forall i :: 0 <= i < |chunks| ==> s.status[i] == Pending)
    && s.cache == map[] && s.next == 0 && s.out == Header(c.kind)
  }

  /** The chunk whose data the writer needs for chunk i. */
  function Source(s: State, i: nat): nat
    requires i < |s.status|
  {
    if s.status[i].Duplicate? then s.status[i].ref else i
  }

  /** The writer's next chunk has been looked up, and its source is compressed. */
  predicate SourceReady(s: State) {
    && s.next < |s.status| && !s.status[s.next].Pending?
    && Source(s, s.next) < |s.status|
    && s.status[Source(s, s.next)].Original? && s.status[Source(s, s.next)].state != Uncompressed
  }

  /** What the writer writes for its next chunk, once the source o is compressed. */
  function RecordFor(c: Codec, chunks: seq<Bytes>, s: State, o: nat): Record
    requires o < |chunks| && o < |s.status| && s.status[o].Original?
  {
    if s.status[o].state == Compressed then Data(c.compress(chunks[o])) else Fingerprint(c.sha1(chunks[o]))
  }

  /**
   * May the step be taken?  The writer waits for the source to be compressed; a record that write_file takes for
   * an error ends the program, so nothing comes after it.
   */
  predicate Enabled(c: Codec, chunks: seq<Bytes>, s: State, step: Step) {
    match step
    case Deduplicate(i) => i < |s.status| && s.status[i].Pending?
    case Compress(i) => i < |s.status| && s.status[i] == Original(Uncompressed)
    case Write =>
      && SourceReady(s)
      && Source(s, s.next) < |chunks| && Sent(RecordFor(c, chunks, s, Source(s, s.next)))
  }

  function Do(c: Codec, chunks: seq<Bytes>, s: State, step: Step): State
    requires |s.status| == |chunks| && Enabled(c, chunks, s, step)
  {
    match step
    case Deduplicate(i) =>
      var h := c.sha1(chunks[i]);
      if h in s.cache then s.(status := s.status[i := Duplicate(s.cache[h])])
      else s.(status := s.status[i := Original(Uncompressed)], cache := s.cache[h := i])
    case Compress(i) => s.(status := s.status[i := Original(Compressed)])
    case Write =>
      var o := Source(s, s.next);
      s.(status := s.status[o := Original(Flushed)], next := s.next + 1,
         out := s.out + RecordBytes(RecordFor(c, chunks, s, o)))
  }

  ghost predicate Next(c: Codec, chunks: seq<Bytes>, s: State, s': State) {
    |s.status| == |chunks| && exists step :: Enabled(c, chunks, s, step) && s' == Do(c, chunks, s, step)
  }

  /** A run from an initial state, one step at a time. */
  ghost predicate Run(c: Codec, chunks: seq<Bytes>, run: seq<State>) {
    && run != [] && Init(c, chunks, run[0])
    && forall k :: 0 <= k < |run| - 1 ==> Next(c, chunks, run[k], run[k + 1])
  }

  // ---- What every step keeps ---------------------------------------------------------------------

  /** The cache holds exactly the originals, each under its own hash. */
  ghost predicate CacheOk(c: Codec, chunks: seq<Bytes>, s: State) {
    && |s.status| == |chunks|
    && (forall h :: h in s.cache ==>
          s.cache[h] < |chunks| && s.status[s.cache[h]].Original? && c.sha1(chunks[s.cache[h]]) == h)
    && forall i :: 0 <= i < |chunks| && s.status[i].Original? ==>
          c.sha1(chunks[i]) in s.cache && s.cache[c.sha1(chunks[i])] == i
  }

  /** A duplicate refers to an original with the same hash. */
  ghost predicate RefOk(c: Codec, chunks: seq<Bytes>, s: State, i: nat)
    requires |s.status| == |chunks| && i < |chunks|
  {
    s.status[i].Duplicate? ==>
      s.status[i].ref < |chunks| && s.status[s.status[i].ref].Original?
      && c.sha1(chunks[s.status[i].ref]) == c.sha1(chunks[i])
  }

  ghost predicate WrittenBefore(c: Codec, chunks: seq<Bytes>, n: nat, h: Bytes) {
    exists j :: 0 <= j < n && j < |chunks| && c.sha1(chunks[j]) == h
  }

  /** An original is flushed exactly when a chunk with its hash has been written; and what has been written
      is past its cache lookup. */
  ghost predicate FlushOk(c: Codec, chunks: seq<Bytes>, s: State, i: nat)
    requires |s.status| == |chunks| && i < |chunks|
  {
    && (s.status[i].Original? ==>
        (s.status[i].state == Flushed <==> WrittenBefore(c, chunks, s.next, c.sha1(chunks[i]))))
    && (i < s.next ==> !s.status[i].Pending?)
  }

  ghost predicate Inv(c: Codec, chunks: seq<Bytes>, s: State) {
    && CacheOk(c, chunks, s)
    && (forall i :: 0 <= i < |chunks| ==> RefOk(c, chunks, s, i))
    && (forall i :: 0 <= i < |chunks| ==> FlushOk(c, chunks, s, i))
    && s.next <= |chunks|
    && s.out == Archive(c, chunks[..s.next]) && AllSent(RecordsOf(c, chunks[..s.next]))
  }

  lemma InvInit(c: Codec, chunks: seq<Bytes>, s: State)
    requires Init(c, chunks, s)
    ensures Inv(c, chunks, s)
  {
    assert RecordsOf(c, chunks[..0]) == [];
    assert Header(c.kind) + [] == Header(c.kind);
  }

  lemma DeduplicateCache(c: Codec, chunks: seq<Bytes>, s: State, i: nat)
    requires CacheOk(c, chunks, s) && Enabled(c, chunks, s, Deduplicate(i))
    ensures |s.status| == |chunks| && CacheOk(c, chunks, Do(c, chunks, s, Deduplicate(i)))
  {
  }

  lemma DeduplicateChunk(c: Codec, chunks: seq<Bytes>, s: State, i: nat, k: nat)
    requires CacheOk(c, chunks, s) && Enabled(c, chunks, s, Deduplicate(i)) && k < |chunks|
    requires RefOk(c, chunks, s, k) && FlushOk(c, chunks, s, k) && FlushOk(c, chunks, s, i)
    requires c.sha1(chunks[i]) !in s.cache ==> !WrittenBefore(c, chunks, s.next, c.sha1(chunks[i]))
    ensures RefOk(c, chunks, Do(c, chunks, s, Deduplicate(i)), k)
    ensures FlushOk(c, chunks, Do(c, chunks, s, Deduplicate(i)), k)
  {
    hide WrittenBefore;
  }

  lemma InvDeduplicate(c: Codec, chunks: seq<Bytes>, s: State, i: nat)
    requires Inv(c, chunks, s) && Enabled(c, chunks, s, Deduplicate(i))
    ensures Inv(c, chunks, Do(c, chunks, s, Deduplicate(i)))
  {
    var s' := Do(c, chunks, s, Deduplicate(i));
    hide RefOk, FlushOk, CacheOk, Archive;
    DeduplicateCache(c, chunks, s, i);
    if c.sha1(chunks[i]) !in s.cache { NotYetWritten(c, chunks, s, i); }
    forall k | 0 <= k < |chunks| ensures RefOk(c, chunks, s', k) && FlushOk(c, chunks, s', k) {
      DeduplicateChunk(c, chunks, s, i, k);
    }
  }

  /** A hash that is not in the cache has not been written. */
  lemma NotYetWritten(c: Codec, chunks: seq<Bytes>, s: State, i: nat)
    requires Inv(c, chunks, s) && i < |chunks| && c.sha1(chunks[i]) !in s.cache
    ensures !WrittenBefore(c, chunks, s.next, c.sha1(chunks[i]))
  {
    forall j | 0 <= j < s.next && j < |chunks| ensures c.sha1(chunks[j]) != c.sha1(chunks[i]) {
      assert FlushOk(c, chunks, s, j) && RefOk(c, chunks, s, j);
    }
  }

  lemma InvCompress(c: Codec, chunks: seq<Bytes>, s: State, i: nat)
    requires Inv(c, chunks, s) && Enabled(c, chunks, s, Compress(i))
    ensures Inv(c, chunks, Do(c, chunks, s, Compress(i)))
  {
    var s' := Do(c, chunks, s, Compress(i));
    forall k | 0 <= k < |chunks| ensures RefOk(c, chunks, s', k) && FlushOk(c, chunks, s', k) {
      assert RefOk(c, chunks, s, k) && FlushOk(c, chunks, s, k);
    }
  }

  lemma SeenIsWritten(c: Codec, chunks: seq<Bytes>, n: nat)
    requires n < |chunks|
    ensures SeenBefore(c, chunks[..n + 1], n) <==> WrittenBefore(c, chunks, n, c.sha1(chunks[n]))
  {
    var front := chunks[..n + 1];
    if SeenBefore(c, front, n) {
      var j :| 0 <= j < n && c.sha1(front[j]) == c.sha1(front[n]);
      assert c.sha1(chunks[j]) == c.sha1(chunks[n]);
    }
    if WrittenBefore(c, chunks, n, c.sha1(chunks[n])) {
      var j :| 0 <= j < n && j < |chunks| && c.sha1(chunks[j]) == c.sha1(chunks[n]);
      assert c.sha1(front[j]) == c.sha1(front[n]);
    }
  }

  /** The source's record is the record the serial rule asks for. */
  lemma SourceRecord(c: Codec, chunks: seq<Bytes>, s: State)
    requires Inv(c, chunks, s) && SourceReady(s) && NoCollision(c, chunks)
    ensures s.next < |chunks| && Source(s, s.next) < |chunks|
    ensures var o := Source(s, s.next);
            && c.sha1(chunks[o]) == c.sha1(chunks[s.next])
            && RecordAt(c, chunks[..s.next + 1], s.next) == RecordFor(c, chunks, s, o)
  {
    var n, o := s.next, Source(s, s.next);
    assert RefOk(c, chunks, s, n);
    assert FlushOk(c, chunks, s, o);
    SeenIsWritten(c, chunks, n);
    assert chunks[o] == chunks[n];
  }

  lemma ArchiveAppend(c: Codec, chunks: seq<Bytes>, n: nat)
    requires n < |chunks|
    ensures Archive(c, chunks[..n + 1]) == Archive(c, chunks[..n]) + RecordBytes(RecordAt(c, chunks[..n + 1], n))
  {
    var front := chunks[..n];
    assert chunks[..n + 1] == front + [chunks[n]];
    RecordsAppend(c, front, chunks[n]);
    AllBytesAppend(RecordsOf(c, front), RecordAt(c, chunks[..n + 1], n));
    Assoc(Header(c.kind), AllBytes(RecordsOf(c, front)), RecordBytes(RecordAt(c, chunks[..n + 1], n)));
  }

  lemma WrittenNext(c: Codec, chunks: seq<Bytes>, n: nat, h: Bytes)
    requires n < |chunks|
    ensures WrittenBefore(c, chunks, n + 1, h) <==> WrittenBefore(c, chunks, n, h) || c.sha1(chunks[n]) == h
  {
    if WrittenBefore(c, chunks, n, h) {
      var j :| 0 <= j < n && j < |chunks| && c.sha1(chunks[j]) == h;
      assert j < n + 1;
    }
  }

  lemma WriteCache(c: Codec, chunks: seq<Bytes>, s: State)
    requires CacheOk(c, chunks, s) && Enabled(c, chunks, s, Write)
    ensures CacheOk(c, chunks, Do(c, chunks, s, Write))
  {
  }

  lemma WriteChunk(c: Codec, chunks: seq<Bytes>, s: State, k: nat)
    requires CacheOk(c, chunks, s) && Enabled(c, chunks, s, Write) && k < |chunks| && s.next < |chunks|
    requires RefOk(c, chunks, s, k) && FlushOk(c, chunks, s, k)
    requires FlushOk(c, chunks, s, Source(s, s.next)) && c.sha1(chunks[Source(s, s.next)]) == c.sha1(chunks[s.next])
    ensures RefOk(c, chunks, Do(c, chunks, s, Write), k) && FlushOk(c, chunks, Do(c, chunks, s, Write), k)
  {
    WrittenNext(c, chunks, s.next, c.sha1(chunks[k]));
    hide WrittenBefore;
  }

  lemma InvSize(c: Codec, chunks: seq<Bytes>, s: State)
    requires Inv(c, chunks, s)
    ensures |s.status| == |chunks|
  {
  }

  lemma WriteOut(c: Codec, chunks: seq<Bytes>, s: State)
    requires Inv(c, chunks, s) && Enabled(c, chunks, s, Write) && NoCollision(c, chunks)
    ensures var s' := Do(c, chunks, s, Write);
            && s.next < |chunks| && s'.next == s.next + 1 && |s'.status| == |chunks|
            && s'.out == Archive(c, chunks[..s'.next]) && AllSent(RecordsOf(c, chunks[..s'.next]))
  {
    hide RefOk, FlushOk, Archive, RecordAt, RecordBytes, AllSent, RecordsOf, RecordFor, Sent;
    SourceRecord(c, chunks, s);
    ArchiveAppend(c, chunks, s.next);
    SentNext(c, chunks[..s.next], chunks[s.next]);
    assert chunks[..s.next + 1] == chunks[..s.next] + [chunks[s.next]];
  }

  lemma InvWrite(c: Codec, chunks: seq<Bytes>, s: State)
    requires Inv(c, chunks, s) && Enabled(c, chunks, s, Write) && NoCollision(c, chunks)
    ensures Inv(c, chunks, Do(c, chunks, s, Write))
  {
    hide RefOk, FlushOk, CacheOk, Archive, RecordAt, RecordBytes, Do, NoCollision;
    SourceRecord(c, chunks, s);
    InvSize(c, chunks, s);
    var s' := Do(c, chunks, s, Write);
    WriteOut(c, chunks, s);
    WriteCache(c, chunks, s);
    forall k | 0 <= k < |chunks| ensures RefOk(c, chunks, s', k) && FlushOk(c, chunks, s', k) {
      WriteChunk(c, chunks, s, k);
    }
  }

  lemma InvNext(c: Codec, chunks: seq<Bytes>, s: State, s': State)
    requires Inv(c, chunks, s) && Next(c, chunks, s, s') && NoCollision(c, chunks)
    ensures Inv(c, chunks, s')
  {
    var step :| Enabled(c, chunks, s, step) && s' == Do(c, chunks, s, step);
    match step
    case Deduplicate(i) => InvDeduplicate(c, chunks, s, i);
    case Compress(i) => InvCompress(c, chunks, s, i);
    case Write => InvWrite(c, chunks, s);
  }

  lemma RunParts(c: Codec, chunks: seq<Bytes>, run: seq<State>)
    requires Run(c, chunks, run)
    ensures run != [] && Init(c, chunks, run[0])
    ensures forall k :: 0 <= k < |run| - 1 ==> Next(c, chunks, run[k], run[k + 1])
  {
  }

  lemma {:induction false} InvAlongRun(c: Codec, chunks: seq<Bytes>, run: seq<State>, k: nat)
    requires Run(c, chunks, run) && k < |run| && NoCollision(c, chunks)
    ensures Inv(c, chunks, run[k])
  {
    hide *;
    RunParts(c, chunks, run);
    if k == 0 {
      InvInit(c, chunks, run[0]);
    } else {
      InvAlongRun(c, chunks, run, k - 1);
      assert Next(c, chunks, run[k - 1], run[k - 1 + 1]);
      InvNext(c, chunks, run[k - 1], run[k]);
    }
  }

  /** Every interleaving writes the file the serial encoder writes for the same chunks: at each point a
      prefix of it, record by record, and all of it once the last chunk is written. */
  lemma RaceIsSerial(c: Codec, chunks: seq<Bytes>, run: seq<State>)
    requires Run(c, chunks, run) && NoCollision(c, chunks)
    ensures var s := run[|run| - 1];
            s.next <= |chunks| && s.out == Archive(c, chunks[..s.next])
            && (s.next == |chunks| ==> s.out == Archive(c, chunks) && AllSent(RecordsOf(c, chunks)))
  {
    InvAlongRun(c, chunks, run, |run| - 1);
    assert chunks[..|chunks|] == chunks;
  }

  // ---- Every run comes to its end ----------------------------------------------------------------

  /** The steps that the threads before the writer still owe for a chunk. */
  function Owed(t: Status): nat {
    match t
    case Pending => 2
    case Original(Uncompressed) => 1
    case _ => 0
  }

  ghost function AllOwed(status: seq<Status>): nat {
    if status == [] then 0 else AllOwed(status[..|status| - 1]) + Owed(status[|status| - 1])
  }

  /** A bound on the steps still to come. */
  ghost function Left(s: State): int {
    AllOwed(s.status) + |s.status| - s.next
  }

  lemma {:induction false} OwedUpdate(status: seq<Status>, i: nat, t: Status)
    requires i < |status|
    ensures AllOwed(status[i := t]) == AllOwed(status) - Owed(status[i]) + Owed(t)
  {
    var n, changed := |status| - 1, status[i := t];
    if i < n {
      assert changed[..n] == status[..n][i := t];
      OwedUpdate(status[..n], i, t);
    } else {
      assert changed[..n] == status[..n];
    }
  }

  /** Every step brings the end nearer. */
  lemma LeftNext(c: Codec, chunks: seq<Bytes>, s: State, s': State)
    requires Next(c, chunks, s, s')
    ensures |s'.status| == |chunks| && Left(s') < Left(s)
  {
    var step :| Enabled(c, chunks, s, step) && s' == Do(c, chunks, s, step);
    hide AllOwed, RecordFor, RecordBytes, Sent;
    match step
    case Deduplicate(i) => OwedUpdate(s.status, i, s'.status[i]);
    case Compress(i) => OwedUpdate(s.status, i, Original(Compressed));
    case Write => OwedUpdate(s.status, Source(s, s.next), Original(Flushed));
  }

  lemma {:induction false} AllPending(status: seq<Status>)
    requires forall i :: 0 <= i < |status| ==> status[i] == Pending
    ensures AllOwed(status) == 2 * |status|
  {
    if status != [] { AllPending(status[..|status| - 1]); }
  }

  lemma {:induction false} LeftAlongRun(c: Codec, chunks: seq<Bytes>, run: seq<State>, k: nat)
    requires Run(c, chunks, run) && k < |run|
    ensures Left(run[k]) + k <= 3 * |chunks|
  {
    hide Next, AllOwed, Header;
    if k == 0 {
      AllPending(run[0].status);
    } else {
      LeftAlongRun(c, chunks, run, k - 1);
      assert Next(c, chunks, run[k - 1], run[k - 1 + 1]);
      LeftNext(c, chunks, run[k - 1], run[k]);
    }
  }

  /** A run takes at most three steps a chunk. */
  lemma RunsAreShort(c: Codec, chunks: seq<Bytes>, run: seq<State>)
    requires Run(c, chunks, run) && NoCollision(c, chunks)
    ensures |run| <= 3 * |chunks| + 1
  {
    hide *;
    RunParts(c, chunks, run);
    LeftAlongRun(c, chunks, run, |run| - 1);
    InvAlongRun(c, chunks, run, |run| - 1);
    LeftNotNegative(c, chunks, run[|run| - 1]);
  }

  lemma LeftNotNegative(c: Codec, chunks: seq<Bytes>, s: State)
    requires Inv(c, chunks, s)
    ensures Left(s) >= 0
  {
  }

  /** Nobody can take a step. */
  ghost predicate Stuck(c: Codec, chunks: seq<Bytes>, s: State) {
    forall s' :: !Next(c, chunks, s, s')
  }

  /** The record that the writer would write next, were its source compressed. */
  lemma NextRecordSent(c: Codec, chunks: seq<Bytes>, n: nat)
    requires n < |chunks| && AllSent(RecordsOf(c, chunks))
    ensures Sent(RecordAt(c, chunks[..n + 1], n))
  {
    hide RecordAt, Sent;
    assert chunks == chunks[..n + 1] + chunks[n + 1..];
    SentPrefix(c, chunks[..n + 1], chunks[n + 1..]);
    assert chunks[..n + 1] == chunks[..n] + [chunks[n]];
    SentNext(c, chunks[..n], chunks[n]);
  }

  /** As long as chunks are left some thread can go on: a lookup, a compression, or the writer itself. */
  lemma NotStuck(c: Codec, chunks: seq<Bytes>, s: State) returns (step: Step)
    requires Inv(c, chunks, s) && NoCollision(c, chunks) && AllSent(RecordsOf(c, chunks)) && s.next < |chunks|
    ensures Enabled(c, chunks, s, step) && |s.status| == |chunks|
  {
    var n := s.next;
    if s.status[n].Pending? { return Deduplicate(n); }
    var o := Source(s, n);
    assert RefOk(c, chunks, s, n);
    if s.status[o] == Original(Uncompressed) { return Compress(o); }
    NextRecordSent(c, chunks, n);
    SourceRecord(c, chunks, s);
    return Write;
  }

  lemma TakeStep(c: Codec, chunks: seq<Bytes>, s: State, step: Step)
    requires |s.status| == |chunks| && Enabled(c, chunks, s, step)
    ensures Next(c, chunks, s, Do(c, chunks, s, step)) && !Stuck(c, chunks, s)
  {
    hide Enabled, Do;
    assert Next(c, chunks, s, Do(c, chunks, s, step));
  }

  /** A run that cannot go on has written every chunk. */
  lemma StuckIsFinished(c: Codec, chunks: seq<Bytes>, run: seq<State>)
    requires Run(c, chunks, run) && NoCollision(c, chunks) && AllSent(RecordsOf(c, chunks))
    requires Stuck(c, chunks, run[|run| - 1])
    ensures run[|run| - 1].next == |chunks|
  {
    hide *;
    RunParts(c, chunks, run);
    var s := run[|run| - 1];
    InvAlongRun(c, chunks, run, |run| - 1);
    NextInRange(c, chunks, s);
    if s.next < |chunks| {
      var step := NotStuck(c, chunks, s);
      TakeStep(c, chunks, s, step);
    }
  }

  lemma NextInRange(c: Codec, chunks: seq<Bytes>, s: State)
    requires Inv(c, chunks, s)
    ensures s.next <= |chunks|
  {
  }

  lemma Extended(c: Codec, chunks: seq<Bytes>, run: seq<State>, s: State)
    requires Run(c, chunks, run) && Next(c, chunks, run[|run| - 1], s)
    ensures Run(c, chunks, run + [s])
  {
    hide Next, Init;
    var longer := run + [s];
    forall k | 0 <= k < |longer| - 1 ensures Next(c, chunks, longer[k], longer[k + 1]) {
      if k < |run| - 1 { assert Next(c, chunks, run[k], run[k + 1]); }
    }
  }

  /** A run of the racing threads, with the writer taking the chunks in the order given, until all are written. */
  ghost predicate Finished(c: Codec, chunks: seq<Bytes>, run: seq<State>) {
    Run(c, chunks, run) && run[|run| - 1].next == |chunks|
  }

  lemma FinishedFrom(c: Codec, chunks: seq<Bytes>, run: seq<State>)
    requires Run(c, chunks, run) && run != [] && run[|run| - 1].next == |chunks|
    ensures Finished(c, chunks, run)
  {
  }

  /** From wherever a run has got to, it can be finished. */
  lemma {:induction false} CanFinish(c: Codec, chunks: seq<Bytes>, run: seq<State>) returns (longer: seq<State>)
    requires Run(c, chunks, run) && NoCollision(c, chunks) && AllSent(RecordsOf(c, chunks))
    ensures Finished(c, chunks, longer) && run <= longer
    decreases 3 * |chunks| + 1 - |run|
  {
    hide *;
    RunParts(c, chunks, run);
    var s := run[|run| - 1];
    InvAlongRun(c, chunks, run, |run| - 1);
    NextInRange(c, chunks, s);
    if s.next == |chunks| {
      FinishedFrom(c, chunks, run);
      return run;
    }
    var step := NotStuck(c, chunks, s);
    TakeStep(c, chunks, s, step);
    var s' := Do(c, chunks, s, step);
    Extended(c, chunks, run, s');
    RunsAreShort(c, chunks, run + [s']);
    longer := CanFinish(c, chunks, run + [s']);
  }

  ghost function Start(c: Codec, chunks: seq<Bytes>): State {
    State(seq(|chunks|, _ => Pending), map[], 0, Header(c.kind))
  }

  /** A finished run exists exactly if every record can be sent. */
  lemma FinishesIff(c: Codec, chunks: seq<Bytes>)
    requires NoCollision(c, chunks)
    ensures (exists run: seq<State> :: Finished(c, chunks, run)) <==> AllSent(RecordsOf(c, chunks))
  {
    if run: seq<State> :| Finished(c, chunks, run) {
      RaceIsSerial(c, chunks, run);
    }
    if AllSent(RecordsOf(c, chunks)) {
      assert Run(c, chunks, [Start(c, chunks)]);
      var run := CanFinish(c, chunks, [Start(c, chunks)]);
    }
  }

  /** Two runs over the same chunks cannot write different files. */
  lemma ScheduleIndependent(c: Codec, chunks: seq<Bytes>, run: seq<State>, run': seq<State>)
    requires Run(c, chunks, run) && Run(c, chunks, run') && NoCollision(c, chunks)
    requires run[|run| - 1].next == run'[|run'| - 1].next
    ensures run[|run| - 1].out == run'[|run'| - 1].out
  {
    RaceIsSerial(c, chunks, run);
    RaceIsSerial(c, chunks, run');
  }
}
