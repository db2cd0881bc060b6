/** Content-defined chunking of a stream: the chunks do not depend on how the input is divided into reads. */
module DedupChunking {
  import opened Rabin
  import opened RabinSeg
  import opened DedupFormat

  const INT_LIMIT := 0x8000_0000

  datatype Tables = Tables(tab: seq<bv32>, win: seq<bv32>)

  ghost predicate Sized(t: Tables) {
    |t.tab| == 256 == |t.win|
  }

  // ---- Greedy segmentation of the whole input ----------------------------------------------------

  /** The first piece, when the hash starts only after jump bytes. */
  ghost function CutLen(t: Tables, jump: nat, b: Bytes): (r: nat)
    requires Sized(t)
    ensures r <= |b| && (b != [] ==> 0 < r)
  {
    if |b| <= jump then |b| else jump + SegLen(t.tab, t.win, b[jump..])
  }

  ghost function Greedy(t: Tables, jump: nat, b: Bytes): seq<Bytes>
    requires Sized(t)
    decreases |b|
  {
    if b == [] then []
    else var r := CutLen(t, jump, b); [b[..r]] + Greedy(t, jump, b[r..])
  }

  lemma {:induction false} GreedyConcat(t: Tables, jump: nat, b: Bytes)
    requires Sized(t)
    ensures Concat(Greedy(t, jump, b)) == b
    decreases |b|
  {
    if b != [] {
      var r := CutLen(t, jump, b);
      GreedyConcat(t, jump, b[r..]);
      assert Greedy(t, jump, b)[1..] == Greedy(t, jump, b[r..]);
      assert b == b[..r] + b[r..];
    }
  }

  /** A cut before the end of the buffer stays where it is when more data comes. */
  lemma CutStable(t: Tables, jump: nat, b: Bytes, more: Bytes)
    requires Sized(t) && CutLen(t, jump, b) < |b|
    ensures CutLen(t, jump, b + more) == CutLen(t, jump, b)
  {
    SegmentStable(t.tab, t.win, b[jump..], more);
    assert (b + more)[jump..] == b[jump..] + more;
  }

  /** A buffer without a cut is a beginning of the next piece. */
  lemma NoCutLonger(t: Tables, jump: nat, b: Bytes, more: Bytes)
    requires Sized(t) && CutLen(t, jump, b) == |b|
    ensures CutLen(t, jump, b + more) >= |b|
  {
    var all := b + more;
    if |b| > jump {
      var r, q := SegLen(t.tab, t.win, all[jump..]), b[jump..];
      assert all[jump..] == q + more;
      if r < |q| {
        assert q[..r] == all[jump..][..r];
        RollingPrefix(t.tab, t.win, q, all[jump..], r);
        assert IsCut(t.tab, t.win, q, r);
      }
    }
  }

  lemma GreedyCut(t: Tables, jump: nat, b: Bytes, more: Bytes)
    requires Sized(t) && CutLen(t, jump, b) < |b|
    ensures var r := CutLen(t, jump, b); Greedy(t, jump, b + more) == [b[..r]] + Greedy(t, jump, b[r..] + more)
  {
    var r := CutLen(t, jump, b);
    CutStable(t, jump, b, more);
    assert (b + more)[..r] == b[..r] && (b + more)[r..] == b[r..] + more;
  }

  lemma GreedyLast(t: Tables, jump: nat, b: Bytes)
    requires Sized(t) && b != [] && CutLen(t, jump, b) == |b|
    ensures Greedy(t, jump, b + []) == [b]
  {
    assert b + [] == b;
    assert b[..|b|] == b && b[|b|..] == [];
  }

  /** Every piece, with one more read on top, can be measured by a C int. */
  ghost predicate FitsInt(pieces: seq<Bytes>, maxBuf: nat) {
    forall k :: 0 <= k < |pieces| ==> |pieces[k]| + maxBuf < INT_LIMIT
  }

  lemma BufferFits(t: Tables, jump: nat, left: Bytes, block: Bytes, rest: Bytes, maxBuf: nat)
    requires Sized(t) && CutLen(t, jump, left) == |left| && |block| <= maxBuf && left + block != []
    requires FitsInt(Greedy(t, jump, left + (block + rest)), maxBuf)
    ensures |left + block| < INT_LIMIT
  {
    NoCutLonger(t, jump, left, block + rest);
    assert |Greedy(t, jump, left + (block + rest))[0]| == CutLen(t, jump, left + (block + rest));
  }

  lemma FitsTail(done: seq<Bytes>, tail: seq<Bytes>, maxBuf: nat)
    requires FitsInt(done + tail, maxBuf)
    ensures FitsInt(tail, maxBuf)
  {
    forall k | 0 <= k < |tail| ensures |tail[k]| + maxBuf < INT_LIMIT {
      assert (done + tail)[|done| + k] == tail[k];
    }
  }

  // ---- Reading -----------------------------------------------------------------------------------

  /** A file descriptor: a read returns at least one byte unless the file is at its end. */
  class Input {
    const data: Bytes
    var pos: nat

    constructor (data: Bytes)
      ensures this.data == data && pos == 0
    {
      this.data, pos := data, 0;
    }

    method Read(max: nat) returns (block: Bytes)
      requires pos <= |data| && 0 < max
      modifies this
      ensures old(pos) <= pos <= |data| && block == data[old(pos)..pos] && |block| <= max
      ensures block == [] <==> old(pos) == |data|
    {
      if pos == |data| { return []; }
      var n :| 1 <= n <= max && pos + n <= |data|;
      block := data[pos..pos + n];
      pos := pos + n;
    }

    /** Read until the buffer is full or the file ends. */
    method Fill(maxBuf: nat) returns (block: Bytes)
      requires pos <= |data| && 0 < maxBuf
      modifies this
      ensures old(pos) <= pos <= |data| && block == data[old(pos)..pos] && |block| <= maxBuf
      ensures block == [] <==> old(pos) == |data|
    {
      block := [];
      while |block| < maxBuf
        invariant old(pos) <= pos <= |data| && block == data[old(pos)..pos] && |block| <= maxBuf
        decreases maxBuf - |block|
      {
        var r := Read(maxBuf - |block|);
        if r == [] { break; }
        block := block + r;
      }
    }
  }

  lemma DataSplit(data: Bytes, a: nat, b: nat)
    requires a <= b <= |data|
    ensures data[a..] == data[a..b] + data[b..]
  {
  }

  // ---- The serial encoder ------------------------------------------------------------------------

  /** Chunk cache and output file. */
  class Encoder {
    const codec: Codec
    const out: Output
    var cache: map<Bytes, Bytes>
    ghost var chunks: seq<Bytes>

    constructor (codec: Codec)
      ensures Valid() && chunks == [] && this.codec == codec && fresh(out)
    {
      this.codec := codec;
      out := new Output(codec.kind);
      cache, chunks := map[], [];
      new;
      assert out.bytes + [] == out.bytes;
    }

    ghost predicate Valid()
      reads this, out
    {
      && out.bytes == Archive(codec, chunks)
      && forall h :: h in cache <==> exists j :: 0 <= j < |chunks| && codec.sha1(chunks[j]) == h
    }

    /** sub_Deduplicate: has a chunk with this hash been seen? */
    method Deduplicate(x: Bytes) returns (isDuplicate: bool)
      requires Valid()
      modifies this`cache
      ensures isDuplicate <==> exists j :: 0 <= j < |chunks| && codec.sha1(chunks[j]) == codec.sha1(x)
      ensures cache == if isDuplicate then old(cache) else old(cache)[codec.sha1(x) := x]
    {
      var h := codec.sha1(x);
      isDuplicate := h in cache;
      if !isDuplicate { cache := cache[h := x]; }
    }

    /** Deduplicate, compress and write one chunk; the program ends if it is not ok. */
    method Process(x: Bytes) returns (ok: bool)
      requires Valid()
      modifies this, out
      ensures Valid() && chunks == old(chunks) + [x]
      ensures ok == Sent(RecordAt(codec, chunks, |old(chunks)|))
    {
      ghost var n := |chunks|;
      var isDuplicate := Deduplicate(x);
      ghost var all := chunks + [x];
      assert SeenBefore(codec, all, n) <==> isDuplicate by {
        if isDuplicate {
          var j :| 0 <= j < |chunks| && codec.sha1(chunks[j]) == codec.sha1(x);
          assert all[j] == chunks[j];
        }
        if SeenBefore(codec, all, n) {
          var j :| 0 <= j < n && codec.sha1(all[j]) == codec.sha1(all[n]);
          assert all[j] == chunks[j];
        }
      }
      ghost var before := out.bytes;
      if !isDuplicate {
        var compressed := codec.compress(x);
        ok := out.Write(Data(compressed));
      } else {
        ok := out.Write(Fingerprint(codec.sha1(x)));
      }
      RecordsAppend(codec, chunks, x);
      AllBytesAppend(RecordsOf(codec, chunks), RecordAt(codec, all, n));
      Assoc(Header(codec.kind), AllBytes(RecordsOf(codec, chunks)), RecordBytes(RecordAt(codec, all, n)));
      CacheKeys(codec, old(cache), cache, chunks, x);
      chunks := all;
    }
  }

  lemma CacheKeys(codec: Codec, cache: map<Bytes, Bytes>, cache': map<Bytes, Bytes>, chunks: seq<Bytes>, x: Bytes)
    requires forall h :: h in cache <==> exists j :: 0 <= j < |chunks| && codec.sha1(chunks[j]) == h
    requires cache' == if codec.sha1(x) in cache then cache else cache[codec.sha1(x) := x]
    ensures forall h :: h in cache' <==> exists j :: 0 <= j < |chunks + [x]| && codec.sha1((chunks + [x])[j]) == h
  {
    var all := chunks + [x];
    forall h ensures h in cache' <==> exists j :: 0 <= j < |all| && codec.sha1(all[j]) == h {
      if h in cache' {
        if h in cache {
          var j :| 0 <= j < |chunks| && codec.sha1(chunks[j]) == h;
          assert codec.sha1(all[j]) == h;
        } else {
          assert codec.sha1(all[|chunks|]) == h;
        }
      }
      if exists j :: 0 <= j < |all| && codec.sha1(all[j]) == h {
        var j :| 0 <= j < |all| && codec.sha1(all[j]) == h;
        if j < |chunks| { assert codec.sha1(chunks[j]) == h; }
      }
    }
  }

  lemma LimitIs()
    ensures INT_LIMIT == 0x8000_0000
  {
  }

  lemma TablesSized(t: Tables)
    requires |t.tab| == 256 == |t.win|
    ensures Sized(t)
  {
  }

  lemma OffsetIsCut(t: Tables, chunk: Bytes, offset: nat)
    requires |t.tab| == 256 == |t.win| && chunk != [] && IsSegment(t.tab, t.win, chunk, offset)
    ensures Sized(t) && CutLen(t, 0, chunk) == offset && 0 < offset <= |chunk|
  {
    assert chunk[0..] == chunk;
    SegmentUnique(t.tab, t.win, chunk, offset, SegLen(t.tab, t.win, chunk));
  }

  lemma Regroup<T>(a: seq<T>, x: T, b: seq<T>)
    ensures a + ([x] + b) == (a + [x]) + b
  {
  }

  /** Cut the buffer as long as there is a cut before its end; what remains is kept for the next read. */
  method SplitSerial(enc: Encoder, chunk0: Bytes, tab: array<bv32>, win: array<bv32>,
          ghost rest: Bytes) returns (temp: Bytes, ok: bool)
    requires enc.Valid() && chunk0 != [] && |chunk0| < INT_LIMIT && tab.Length == 256 == win.Length
    requires AllSent(RecordsOf(enc.codec, enc.chunks))
    modifies enc, enc.out
    ensures enc.Valid() && temp != [] && ok == AllSent(RecordsOf(enc.codec, enc.chunks))
    ensures var t := Tables(tab[..], win[..]);
            (ok ==> CutLen(t, 0, temp) == |temp|)
            && old(enc.chunks) + Greedy(t, 0, chunk0 + rest) == enc.chunks + Greedy(t, 0, temp + rest)
  {
    hide *;
    ghost var t := Tables(tab[..], win[..]);
    TablesSized(t);
    var chunk := chunk0;
    while true
      invariant enc.Valid() && chunk != [] && |chunk| < INT_LIMIT && t == Tables(tab[..], win[..])
      invariant AllSent(RecordsOf(enc.codec, enc.chunks))
      invariant old(enc.chunks) + Greedy(t, 0, chunk0 + rest) == enc.chunks + Greedy(t, 0, chunk + rest)
      decreases |chunk|
    {
      LimitIs();
      var offset := Segment(chunk, |chunk|, tab, win);
      OffsetIsCut(t, chunk, offset);
      if offset < |chunk| {
        GreedyCut(t, 0, chunk, rest);
        Regroup(enc.chunks, chunk[..offset], Greedy(t, 0, chunk[offset..] + rest));
        SentNext(enc.codec, enc.chunks, chunk[..offset]);
        ok := enc.Process(chunk[..offset]);
        chunk := chunk[offset..];
        if !ok { return chunk, false; }
      } else {
        return chunk, true;
      }
    }
  }

  lemma AllRead(t: Tables, jump: nat, done: seq<Bytes>, b: Bytes)
    requires Sized(t) && b == []
    ensures done + Greedy(t, jump, b) == done
  {
  }

  /** The pieces already emitted, the uncut buffer and the bytes not yet read make up all pieces. */
  ghost predicate Owed(t: Tables, jump: nat, all: seq<Bytes>, done: seq<Bytes>, left: Bytes, rest: Bytes)
    requires Sized(t)
  {
    CutLen(t, jump, left) == |left| && all == done + Greedy(t, jump, left + rest)
  }

  lemma FirstRead(t: Tables, jump: nat, data: Bytes)
    requires Sized(t)
    ensures Owed(t, jump, Greedy(t, jump, data), [], [], data[0..])
  {
  }

  lemma IsOwed(t: Tables, jump: nat, all: seq<Bytes>, done: seq<Bytes>, left: Bytes, rest: Bytes)
    requires Sized(t) && CutLen(t, jump, left) == |left| && all == done + Greedy(t, jump, left + rest)
    ensures Owed(t, jump, all, done, left, rest)
  {
  }

  /** One buffer read: what is owed behind it, and how the loop ends. */
  lemma AfterRead(t: Tables, jump: nat, all: seq<Bytes>, done: seq<Bytes>, left: Bytes, data: Bytes, p: nat, q: nat,
                  maxBuf: nat)
    requires Sized(t) && p <= q <= |data| && q - p <= maxBuf && FitsInt(all, maxBuf)
    requires Owed(t, jump, all, done, left, data[p..])
    ensures all == done + Greedy(t, jump, (left + data[p..q]) + data[q..])
    ensures left + data[p..q] != [] ==> |left + data[p..q]| < INT_LIMIT
    ensures q == |data| && left + data[p..q] == [] ==> all == done
    ensures p == q == |data| && left != [] ==> all == done + [left]
  {
    hide Greedy, CutLen, FitsInt;
    var block, rest := data[p..q], data[q..];
    DataSplit(data, p, q);
    assert left + (block + rest) == (left + block) + rest;
    if left + block != [] {
      FitsTail(done, Greedy(t, jump, left + (block + rest)), maxBuf);
      BufferFits(t, jump, left, block, rest, maxBuf);
    } else if q == |data| {
      AllRead(t, jump, done, left + (block + rest));
    }
    if p == q == |data| && left != [] { GreedyLast(t, jump, left); }
  }

  lemma ArchiveIs(enc: Encoder)
    requires enc.Valid()
    ensures enc.out.bytes == Archive(enc.codec, enc.chunks)
  {
  }

  lemma NothingSent(c: Codec)
    ensures AllSent(RecordsOf(c, []))
  {
  }

  /** SerialIntegratedPipeline: the archive holds the greedy segmentation of the whole file, however the
      reads divide it, unless a record ends the program. */
  method SerialPipeline(input: Input, codec: Codec, maxBuf: nat, tab: array<bv32>,
          win: array<bv32>) returns (enc: Encoder, ok: bool)
    requires input.pos == 0 && 0 < maxBuf && tab.Length == 256 == win.Length && tab != win
    requires FitsInt(Greedy(Tables(tab[..], win[..]), 0, input.data), maxBuf)
    modifies input
    ensures fresh(enc) && enc.Valid() && enc.codec == codec
    ensures ok == AllSent(RecordsOf(codec, Greedy(Tables(tab[..], win[..]), 0, input.data)))
    ensures ok ==> enc.chunks == Greedy(Tables(tab[..], win[..]), 0, input.data)
    ensures ok ==> enc.out.bytes == Archive(codec, Greedy(Tables(tab[..], win[..]), 0, input.data))
    ensures enc.chunks <= Greedy(Tables(tab[..], win[..]), 0, input.data)
  {
    hide *;
    ghost var t := Tables(tab[..], win[..]);
    TablesSized(t);
    ghost var all := Greedy(t, 0, input.data);
    enc := new Encoder(codec);
    var temp: Bytes := [];
    FirstRead(t, 0, input.data);
    NothingSent(codec);
    while true
      invariant input.pos <= |input.data| && t == Tables(tab[..], win[..])
      invariant enc.Valid() && fresh(enc) && fresh(enc.out) && enc.codec == codec
      invariant (temp == [] ==> input.pos == 0) && Owed(t, 0, all, enc.chunks, temp, input.data[input.pos..])
      invariant AllSent(RecordsOf(codec, enc.chunks))
      decreases |input.data| - input.pos
    {
      ghost var p := input.pos;
      var block := input.Fill(maxBuf);
      ghost var rest := input.data[input.pos..];
      AfterRead(t, 0, all, enc.chunks, temp, input.data, p, input.pos, maxBuf);
      if |temp| + |block| == 0 {
        ok := true;
        break;
      }
      if block == [] {
        SentNext(codec, enc.chunks, temp);
        ok := enc.Process(temp);
        break;
      }
      temp, ok := SplitSerial(enc, temp + block, tab, win, rest);
      if !ok {
        SentPrefix(codec, enc.chunks, Greedy(t, 0, temp + rest));
        break;
      }
      IsOwed(t, 0, all, enc.chunks, temp, rest);
    }
    ArchiveIs(enc);
  }

  /** Uncompressed archives always decode to the file. */
  lemma RoundTrip(c: Codec, t: Tables, jump: nat, data: Bytes, maxBuf: nat)
    requires GoodCodec(c) && c.kind == COMPRESS_NONE && Sized(t)
    requires FitsInt(Greedy(t, jump, data), maxBuf) && NoCollision(c, Greedy(t, jump, data))
    ensures DecodedFile(c, Archive(c, Greedy(t, jump, data))) == Ok(data)
  {
    var chunks := Greedy(t, jump, data);
    GreedyConcat(t, jump, data);
    SmallChunks(c, t, jump, data, maxBuf);
    DecodeInverts(c, chunks);
  }

  lemma {:induction false} GreedyNonempty(t: Tables, jump: nat, data: Bytes, k: nat)
    requires Sized(t) && k < |Greedy(t, jump, data)|
    ensures Greedy(t, jump, data)[k] != []
    decreases k
  {
    var r := CutLen(t, jump, data);
    if k > 0 { GreedyNonempty(t, jump, data[r..], k - 1); }
  }

  lemma SmallChunks(c: Codec, t: Tables, jump: nat, data: Bytes, maxBuf: nat)
    requires GoodCodec(c) && c.kind == COMPRESS_NONE && Sized(t) && FitsInt(Greedy(t, jump, data), maxBuf)
    ensures AllStorable(c, Greedy(t, jump, data), 0) && Writable(RecordsOf(c, Greedy(t, jump, data)))
  {
    var chunks := Greedy(t, jump, data);
    EightBytes();
    forall k | 0 <= k < |chunks| ensures SmallAt(c, chunks, k) {
      GreedyNonempty(t, jump, data, k);
      assert |chunks[k]| + maxBuf < INT_LIMIT;
      SmallPlain(c, chunks, k);
    }
    hide *;
    SmallAll(c, chunks);
  }

  /** Chunk k and its record make no trouble for encoder or decoder. */
  ghost predicate SmallAt(c: Codec, chunks: seq<Bytes>, k: nat)
    requires k < |chunks|
  {
    Storable(c, chunks[k]) && |Payload(RecordAt(c, chunks, k))| < Pow256(8) && Sent(RecordAt(c, chunks, k))
  }

  lemma SmallPlain(c: Codec, chunks: seq<Bytes>, k: nat)
    requires GoodCodec(c) && c.kind == COMPRESS_NONE && k < |chunks| && 0 < |chunks[k]| < INT_LIMIT <= Pow256(8)
    ensures SmallAt(c, chunks, k)
  {
    assert c.compress(chunks[k]) == chunks[k];
    assert |c.sha1(chunks[k])| == SHA1_LEN;
  }

  lemma SmallAll(c: Codec, chunks: seq<Bytes>)
    requires forall k :: 0 <= k < |chunks| ==> SmallAt(c, chunks, k)
    ensures AllStorable(c, chunks, 0) && Writable(RecordsOf(c, chunks))
  {
    hide Storable, Sent, Pow256, RecordAt;
    forall k | 0 <= k < |chunks| ensures Storable(c, chunks[k]) && Sent(RecordAt(c, chunks, k)) {
      assert SmallAt(c, chunks, k);
    }
    forall k | 0 <= k < |chunks| ensures |Payload(RecordAt(c, chunks, k))| < Pow256(8) {
      assert SmallAt(c, chunks, k);
    }
  }

  // ---- A file that cannot be decoded -------------------------------------------------------------

  /** Data without a cut is one piece. */
  lemma UncutPiece(t: Tables, jump: nat, data: Bytes)
    requires Sized(t) && data != []
    requires jump <= |data| ==> Uncut(t.tab, t.win, data[jump..])
    ensures Greedy(t, jump, data) == [data]
  {
    if jump < |data| { UncutWhole(t.tab, t.win, data[jump..]); }
    assert CutLen(t, jump, data) == |data|;
    assert data[..|data|] == data && data[|data|..] == [];
  }

  // ---- A file of zeros ---------------------------------------------------------------------------

  lemma ZeroStep(t: Tables, reach: nat, n: nat)
    requires Sized(t) && RedTab(t.tab) && WinTab(t.win, reach) && 0 < n
    ensures var r := if n < 32 then n else 32;
            Greedy(t, 0, Zeros(n)) == [Zeros(r)] + Greedy(t, 0, Zeros(n - r))
  {
    var b, r := Zeros(n), if n < 32 then n else 32;
    assert b[0..] == b;
    ZerosCut(t.tab, t.win, reach, n);
    assert b[..r] == Zeros(r) && b[r..] == Zeros(n - r);
  }

  lemma Thirtyseconds(n: nat)
    requires n >= 32
    ensures (n - 32 + 31) / 32 + 1 == (n + 31) / 32 && (n - 32) / 32 + 1 == n / 32 && (n - 32) % 32 == n % 32
  {
  }

  /** How long the k-th of the chunks of n zeros is. */
  function ZeroLen(n: nat, k: nat): nat {
    if k < n / 32 then 32 else n % 32
  }

  /** n zero bytes, with the tables of any window length, become chunks of 32 bytes and a rest. */
  lemma {:induction false} ZeroFile(t: Tables, reach: nat, n: nat)
    requires Sized(t) && RedTab(t.tab) && WinTab(t.win, reach)
    ensures var pieces := Greedy(t, 0, Zeros(n));
            |pieces| == (n + 31) / 32 && forall k :: 0 <= k < |pieces| ==> |pieces[k]| == ZeroLen(n, k)
  {
    hide *;
    if n == 0 {
      NoZeros(t);
    } else {
      ZeroStep(t, reach, n);
      ZeroSizes(n);
      var r := if n < 32 then n else 32;
      ZeroFile(t, reach, n - r);
      var rest, pieces := Greedy(t, 0, Zeros(n - r)), Greedy(t, 0, Zeros(n));
      forall k | 0 <= k < |pieces| ensures |pieces[k]| == ZeroLen(n, k) {
        if k > 0 { assert pieces[k] == rest[k - 1]; }
      }
    }
  }

  lemma NoZeros(t: Tables)
    requires Sized(t)
    ensures Greedy(t, 0, Zeros(0)) == []
  {
  }

  lemma ZeroSizes(n: nat)
    requires n > 0
    ensures var r := if n < 32 then n else 32;
            && (n - r + 31) / 32 + 1 == (n + 31) / 32 && ZeroLen(n, 0) == r
            && forall k :: 0 < k < (n + 31) / 32 ==> ZeroLen(n, k) == ZeroLen(n - r, k - 1)
  {
    if n >= 32 { Thirtyseconds(n); }
  }
}
