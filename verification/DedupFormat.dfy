/** The archive format of dedup: header, records of type, length and payload, and the decoder. */
module DedupFormat {
  import opened Rabin

  const CHECKBIT := 123456
  const TYPE_FINGERPRINT: Byte := 0
  const TYPE_COMPRESS: Byte := 1
  const SHA1_LEN := 20
  const COMPRESS_NONE: Byte := 2
  const UNCOMPRESS_BOUND := 10_000_000

  type Bytes = seq<Byte>

  datatype Result<T> = Ok(value: T) | Err(error: DecodeError)

  datatype DecodeError = BadHeader | IncompleteChunk | BadFingerprintSize | IllegalDataSize | UnknownType
                       | UncompressFailed | MissingCounterpart

  /** Hash and compressor, which the program takes from libraries. */
  datatype Codec = Codec(kind: Byte, sha1: Bytes -> Bytes, compress: Bytes -> Bytes, uncompress: Bytes -> Bytes)

  ghost predicate GoodCodec(c: Codec) {
    && (forall x :: |c.sha1(x)| == SHA1_LEN)
    && (forall x :: c.uncompress(c.compress(x)) == x)
    && (c.kind == COMPRESS_NONE ==> forall x :: c.compress(x) == x)
    && c.kind <= COMPRESS_NONE
  }

  datatype Record = Data(payload: Bytes) | Fingerprint(sha1: Bytes)

  // ---- Numbers -----------------------------------------------------------------------------------

  function Pow256(k: nat): (p: nat)
    ensures p >= 1
  {
    if k == 0 then 1 else 256 * Pow256(k - 1)
  }

  function Digit(n: nat): Byte {
    (n % 256) as bv8
  }

  /** The byte that counts to n. */
  ghost function Counted(n: nat): (b: bv8)
    requires n < 256
    ensures b as int == n
  {
    if n == 0 then 0 else Counted(n - 1) + 1
  }

  lemma SmallDigit(n: nat)
    requires n < 256
    ensures (n as bv8) as int == n
  {
    var b := Counted(n);
    assert (b as int) as bv8 == b;
  }

  lemma DigitIs(n: nat)
    ensures Digit(n) as int == n % 256
  {
    var m := n % 256;
    SmallDigit(m);
  }

  /** Little-endian, k bytes. */
  function LE(n: nat, k: nat): (s: Bytes)
    ensures |s| == k
  {
    if k == 0 then [] else [Digit(n)] + LE(n / 256, k - 1)
  }

  function FromLE(s: Bytes): nat {
    if s == [] then 0 else s[0] as nat + 256 * FromLE(s[1..])
  }

  lemma {:induction false} LERound(n: nat, k: nat)
    requires n < Pow256(k)
    ensures FromLE(LE(n, k)) == n
  {
    if k > 0 {
      Quotient(n, Pow256(k - 1));
      LERound(n / 256, k - 1);
      DigitIs(n);
    }
  }

  lemma Quotient(n: nat, p: nat)
    requires n < 256 * p
    ensures n / 256 < p && n == 256 * (n / 256) + n % 256
  {
  }

  /** A size as the C int the read functions return. */
  function Int32(n: nat): int {
    var m := n % 0x1_0000_0000;
    if m < 0x8000_0000 then m else m - 0x1_0000_0000
  }

  // ---- Writing -----------------------------------------------------------------------------------

  function Header(kind: Byte): Bytes {
    LE(CHECKBIT, 4) + [kind]
  }

  function Payload(r: Record): Bytes {
    match r
    case Data(p) => p
    case Fingerprint(h) => h
  }

  function TypeOf(r: Record): Byte {
    if r.Data? then TYPE_COMPRESS else TYPE_FINGERPRINT
  }

  /** One record, as write_file puts it down. */
  function RecordBytes(r: Record): Bytes {
    [TypeOf(r)] + LE(|Payload(r)|, 8) + Payload(r)
  }

  /** The number of bytes written, as the C int that xwrite returns, is not taken for an error. */
  predicate Sent(r: Record) {
    Int32(|Payload(r)|) >= 0
  }

  ghost function AllBytes(rs: seq<Record>): Bytes {
    if rs == [] then [] else RecordBytes(rs[0]) + AllBytes(rs[1..])
  }

  /** The output file. */
  class Output {
    var bytes: Bytes

    constructor (kind: Byte)
      ensures bytes == Header(kind)
    {
      bytes := LE(CHECKBIT, 4) + [kind];
    }

    /** write_file; the program ends if it is not ok. */
    method Write(r: Record) returns (ok: bool)
      modifies this
      ensures bytes == old(bytes) + RecordBytes(r) && ok == Sent(r)
    {
      hide LE, TypeOf, Payload, Int32;
      bytes := bytes + [TypeOf(r)];
      bytes := bytes + LE(|Payload(r)|, 8);
      bytes := bytes + Payload(r);
      ok := Int32(|Payload(r)|) >= 0;
    }
  }

  lemma {:induction false} AllBytesAppend(rs: seq<Record>, r: Record)
    ensures AllBytes(rs + [r]) == AllBytes(rs) + RecordBytes(r)
  {
    if rs == [] {
      assert [r][1..] == [];
    } else {
      AllBytesAppend(rs[1..], r);
      assert (rs + [r])[1..] == rs[1..] + [r];
      Assoc(RecordBytes(rs[0]), AllBytes(rs[1..]), RecordBytes(r));
    }
  }

  lemma Assoc(a: Bytes, b: Bytes, c: Bytes)
    ensures (a + b) + c == a + (b + c)
  {
  }

  // ---- Reading -----------------------------------------------------------------------------------

  datatype Parsed = End | Bad(error: DecodeError) | One(record: Record, rest: Bytes)

  /** read_chunk: the next record of the input, and what follows it. */
  function ReadChunk(input: Bytes): (p: Parsed)
    ensures p.One? ==> |p.rest| < |input|
  {
    if input == [] then End
    else if |input| < 9 then Bad(IncompleteChunk)
    else
      var len, rest := FromLE(input[1..9]), input[9..];
      if input[0] == TYPE_FINGERPRINT then
        if len != SHA1_LEN then Bad(BadFingerprintSize)
        else if |rest| < len then Bad(IncompleteChunk)
        else One(Fingerprint(rest[..len]), rest[len..])
      else if input[0] == TYPE_COMPRESS then
        if len == 0 then Bad(IllegalDataSize)
        else if |rest| < len || Int32(len) <= 0 then Bad(IncompleteChunk)
        else One(Data(rest[..len]), rest[len..])
      else Bad(UnknownType)
  }

  /** uncompress_chunk: library decompressors are given a bounded buffer. */
  function Uncompress(c: Codec, payload: Bytes): Result<Bytes> {
    var plain := c.uncompress(payload);
    if c.kind != COMPRESS_NONE && |plain| > UNCOMPRESS_BOUND then Err(UncompressFailed)
    else if Int32(|plain|) <= 0 then Err(UncompressFailed)
    else Ok(plain)
  }

  /** What the decoder makes of the rest of the records. */
  function Decoded(c: Codec, input: Bytes, cache: map<Bytes, Bytes>): Result<Bytes>
    decreases |input|
  {
    match ReadChunk(input)
    case End => Ok([])
    case Bad(e) => Err(e)
    case One(Fingerprint(h), rest) =>
      if h !in cache then Err(MissingCounterpart) else Prepend(cache[h], Decoded(c, rest, cache))
    case One(Data(p), rest) =>
      var plain := Uncompress(c, p);
      if plain.Err? then plain
      else Prepend(plain.value, Decoded(c, rest, cache[c.sha1(plain.value) := plain.value]))
  }

  function Prepend(a: Bytes, r: Result<Bytes>): Result<Bytes> {
    if r.Ok? then Ok(a + r.value) else r
  }

  function DecodedFile(c: Codec, input: Bytes): Result<Bytes> {
    if |input| < 5 || FromLE(input[..4]) != CHECKBIT then Err(BadHeader)
    else Decoded(c.(kind := input[4]), input[5..], map[])
  }

  lemma PrependPrepend(a: Bytes, b: Bytes, r: Result<Bytes>)
    ensures Prepend(a, Prepend(b, r)) == Prepend(a + b, r)
  {
    if r.Ok? { Assoc(a, b, r.value); }
  }

  /** The decoder's loop. */
  method Decode(c: Codec, input: Bytes) returns (result: Result<Bytes>)
    ensures result == DecodedFile(c, input)
  {
    if |input| < 5 || FromLE(input[..4]) != CHECKBIT { return Err(BadHeader); }
    var codec := c.(kind := input[4]);
    var rest, cache, out := input[5..], map[], [];
    ghost var all := Decoded(codec, rest, cache);
    assert all == Prepend([], all) by { if all.Ok? { assert [] + all.value == all.value; } }
    while true
      invariant all == Prepend(out, Decoded(codec, rest, cache))
      decreases |rest|
    {
      var p := ReadChunk(rest);
      if p.Bad? { return Err(p.error); }
      if p.End? { break; }
      var entry;
      if p.record.Data? {
        var plain := Uncompress(codec, p.record.payload);
        if plain.Err? { return plain; }
        cache := cache[codec.sha1(plain.value) := plain.value];
        entry := plain.value;
      } else {
        if p.record.sha1 !in cache { return Err(MissingCounterpart); }
        entry := cache[p.record.sha1];
      }
      PrependPrepend(out, entry, Decoded(codec, p.rest, cache));
      out, rest := out + entry, p.rest;
    }
    assert out + [] == out;
    return Ok(out);
  }

  // ---- The records of a chunk list ---------------------------------------------------------------

  ghost predicate SeenBefore(c: Codec, chunks: seq<Bytes>, i: nat)
    requires i < |chunks|
  {
    exists j :: 0 <= j < i && c.sha1(chunks[j]) == c.sha1(chunks[i])
  }

  /** Data at the first occurrence in stream order, the fingerprint afterwards. */
  ghost function RecordAt(c: Codec, chunks: seq<Bytes>, i: nat): Record
    requires i < |chunks|
  {
    if SeenBefore(c, chunks, i) then Fingerprint(c.sha1(chunks[i])) else Data(c.compress(chunks[i]))
  }

  ghost function RecordsOf(c: Codec, chunks: seq<Bytes>): (rs: seq<Record>)
    ensures |rs| == |chunks| && forall i :: 0 <= i < |chunks| ==> rs[i] == RecordAt(c, chunks, i)
  {
    seq(|chunks|, i requires 0 <= i < |chunks| => RecordAt(c, chunks, i))
  }

  lemma RecordsAppend(c: Codec, chunks: seq<Bytes>, x: Bytes)
    ensures RecordsOf(c, chunks + [x]) == RecordsOf(c, chunks) + [RecordAt(c, chunks + [x], |chunks|)]
  {
    forall i | 0 <= i < |chunks| ensures RecordAt(c, chunks + [x], i) == RecordAt(c, chunks, i) {
      SameRecord(c, chunks, [x], i);
    }
  }

  ghost function Concat(chunks: seq<Bytes>): Bytes {
    if chunks == [] then [] else chunks[0] + Concat(chunks[1..])
  }

  lemma {:induction false} ConcatAppend(chunks: seq<Bytes>, x: Bytes)
    ensures Concat(chunks + [x]) == Concat(chunks) + x
  {
    if chunks == [] {
      assert [x][1..] == [];
    } else {
      ConcatAppend(chunks[1..], x);
      assert (chunks + [x])[1..] == chunks[1..] + [x];
      Assoc(chunks[0], Concat(chunks[1..]), x);
    }
  }

  ghost function Archive(c: Codec, chunks: seq<Bytes>): Bytes {
    Header(c.kind) + AllBytes(RecordsOf(c, chunks))
  }

  // ---- Decoding what was encoded -----------------------------------------------------------------

  /** Different chunks of the run have different hashes. */
  ghost predicate NoCollision(c: Codec, chunks: seq<Bytes>) {
    forall i, j :: 0 <= i < |chunks| && 0 <= j < |chunks| && c.sha1(chunks[i]) == c.sha1(chunks[j]) ==>
        chunks[i] == chunks[j]
  }

  /** The sizes the decoder's C ints and buffers can take. */
  predicate Storable(c: Codec, chunk: Bytes) {
    && 0 < Int32(|c.compress(chunk)|)
    && 0 < Int32(|chunk|)
    && (c.kind != COMPRESS_NONE ==> |chunk| <= UNCOMPRESS_BOUND)
  }

  ghost predicate AllStorable(c: Codec, chunks: seq<Bytes>, i: nat) {
    forall k :: i <= k < |chunks| && !SeenBefore(c, chunks, k) ==> Storable(c, chunks[k])
  }

  /** Payload lengths fit the 64-bit length field. */
  ghost predicate LengthsFit(rs: seq<Record>) {
    forall i :: 0 <= i < |rs| ==> |Payload(rs[i])| < Pow256(8)
  }

  /** The encoder gets through: no record ends it. */
  ghost predicate AllSent(rs: seq<Record>) {
    forall i :: 0 <= i < |rs| ==> Sent(rs[i])
  }

  ghost predicate Writable(rs: seq<Record>) {
    LengthsFit(rs) && AllSent(rs)
  }

  /** A record that ends the encoder does so whatever chunks follow. */
  lemma SentPrefix(c: Codec, chunks: seq<Bytes>, more: seq<Bytes>)
    ensures AllSent(RecordsOf(c, chunks + more)) ==> AllSent(RecordsOf(c, chunks))
  {
    var all := chunks + more;
    if AllSent(RecordsOf(c, all)) {
      forall i | 0 <= i < |chunks| ensures Sent(RecordAt(c, chunks, i)) {
        SameRecord(c, chunks, more, i);
        assert Sent(RecordsOf(c, all)[i]);
      }
    }
  }

  lemma SameRecord(c: Codec, chunks: seq<Bytes>, more: seq<Bytes>, i: nat)
    requires i < |chunks|
    ensures RecordAt(c, chunks + more, i) == RecordAt(c, chunks, i)
  {
    var all := chunks + more;
    if SeenBefore(c, all, i) {
      var j :| 0 <= j < i && c.sha1(all[j]) == c.sha1(all[i]);
      assert c.sha1(chunks[j]) == c.sha1(chunks[i]);
    }
    if SeenBefore(c, chunks, i) {
      var j :| 0 <= j < i && c.sha1(chunks[j]) == c.sha1(chunks[i]);
      assert c.sha1(all[j]) == c.sha1(all[i]);
    }
  }

  lemma SentNext(c: Codec, chunks: seq<Bytes>, x: Bytes)
    ensures AllSent(RecordsOf(c, chunks + [x]))
            <==> AllSent(RecordsOf(c, chunks)) && Sent(RecordAt(c, chunks + [x], |chunks|))
  {
    RecordsAppend(c, chunks, x);
    var rs, rs' := RecordsOf(c, chunks), RecordsOf(c, chunks + [x]);
    if AllSent(rs') {
      forall i | 0 <= i < |rs| ensures Sent(rs[i]) { assert rs'[i] == rs[i]; }
      assert Sent(rs'[|chunks|]);
    }
  }

  lemma ThreeParts(kind: Byte, len: Bytes, body: Bytes)
    requires |len| == 8
    ensures var input := [kind] + len + body;
            |input| >= 9 && input[0] == kind && input[1..9] == len && input[9..] == body
  {
  }

  lemma RecordParts(r: Record, rest: Bytes)
    ensures var input := RecordBytes(r) + rest;
            && |input| >= 9 && input[0] == TypeOf(r)
            && input[1..9] == LE(|Payload(r)|, 8) && input[9..] == Payload(r) + rest
  {
    var n := |Payload(r)|;
    assert RecordBytes(r) + rest == [TypeOf(r)] + LE(n, 8) + (Payload(r) + rest);
    hide LE;
    ThreeParts(TypeOf(r), LE(n, 8), Payload(r) + rest);
  }

  /** What read_chunk answers for a well-formed record. */
  function ReadAnswer(r: Record, rest: Bytes): Parsed {
    if r.Data? && |r.payload| == 0 then Bad(IllegalDataSize)
    else if r.Data? && Int32(|r.payload|) <= 0 then Bad(IncompleteChunk)
    else One(r, rest)
  }

  lemma ReadParts(input: Bytes, r: Record, rest: Bytes)
    requires |input| >= 9 && input[0] == TypeOf(r) && input[9..] == Payload(r) + rest
    requires FromLE(input[1..9]) == |Payload(r)| && (r.Fingerprint? ==> |r.sha1| == SHA1_LEN)
    ensures ReadChunk(input) == ReadAnswer(r, rest)
  {
    hide FromLE;
    var n := |Payload(r)|;
    assert (Payload(r) + rest)[..n] == Payload(r) && (Payload(r) + rest)[n..] == rest;
  }

  lemma ParseRecord(r: Record, rest: Bytes)
    requires |Payload(r)| < Pow256(8) && (r.Fingerprint? ==> |r.sha1| == SHA1_LEN)
    ensures ReadChunk(RecordBytes(r) + rest) == ReadAnswer(r, rest)
  {
    hide *;
    RecordParts(r, rest);
    LERound(|Payload(r)|, 8);
    ReadParts(RecordBytes(r) + rest, r, rest);
  }

  /** The decoder's cache after i chunks. */
  ghost predicate CacheOf(c: Codec, chunks: seq<Bytes>, i: nat, cache: map<Bytes, Bytes>)
    requires i <= |chunks|
  {
    && (forall j :: 0 <= j < i ==> c.sha1(chunks[j]) in cache && cache[c.sha1(chunks[j])] == chunks[j])
    && forall h :: h in cache ==> exists j :: 0 <= j < i && c.sha1(chunks[j]) == h
  }

  lemma CacheGrows(c: Codec, chunks: seq<Bytes>, i: nat, cache: map<Bytes, Bytes>)
    requires i < |chunks| && CacheOf(c, chunks, i, cache) && NoCollision(c, chunks)
    ensures CacheOf(c, chunks, i + 1, cache[c.sha1(chunks[i]) := chunks[i]])
    ensures SeenBefore(c, chunks, i) <==> c.sha1(chunks[i]) in cache
    ensures SeenBefore(c, chunks, i) ==>
              cache[c.sha1(chunks[i]) := chunks[i]] == cache && cache[c.sha1(chunks[i])] == chunks[i]
  {
    var x := c.sha1(chunks[i]);
    if SeenBefore(c, chunks, i) {
      var j :| 0 <= j < i && c.sha1(chunks[j]) == x;
      assert chunks[j] == chunks[i];
    }
    var cache' := cache[x := chunks[i]];
    forall h | h in cache' ensures exists j :: 0 <= j < i + 1 && c.sha1(chunks[j]) == h {
      if h in cache && h != x {
        var j :| 0 <= j < i && c.sha1(chunks[j]) == h;
      }
    }
  }

  /** What the decoder does with the record of one chunk, if the rest of the input decodes to d. */
  ghost predicate StepResult(c: Codec, x: Bytes, seen: bool, d: Result<Bytes>, all: Result<Bytes>) {
    if seen || Storable(c, x) then all == Prepend(x, d)
    else all.Err? && all.error != MissingCounterpart
  }

  lemma StepSeen(c: Codec, x: Bytes, rest: Bytes, cache: map<Bytes, Bytes>)
    requires GoodCodec(c) && c.sha1(x) in cache && cache[c.sha1(x)] == x
    ensures StepResult(c, x, true, Decoded(c, rest, cache),
              Decoded(c, RecordBytes(Fingerprint(c.sha1(x))) + rest, cache))
  {
    assert Pow256(8) >= 256 by { assert Pow256(8) == 256 * Pow256(7); }
    ParseRecord(Fingerprint(c.sha1(x)), rest);
  }

  lemma StepNew(c: Codec, x: Bytes, rest: Bytes, cache: map<Bytes, Bytes>)
    requires GoodCodec(c) && |c.compress(x)| < Pow256(8)
    ensures StepResult(c, x, false, Decoded(c, rest, cache[c.sha1(x) := x]),
              Decoded(c, RecordBytes(Data(c.compress(x))) + rest, cache))
  {
    hide RecordBytes, ReadChunk, Pow256;
    ParseRecord(Data(c.compress(x)), rest);
    assert c.uncompress(c.compress(x)) == x;
  }

  /** The rest of the archive decodes to the rest of the chunks, or fails for a size. */
  ghost predicate DecodesFrom(c: Codec, chunks: seq<Bytes>, i: nat, d: Result<Bytes>)
    requires i <= |chunks|
  {
    && (d.Ok? <==> AllStorable(c, chunks, i))
    && (d.Ok? ==> d.value == Concat(chunks[i..]))
    && (d.Err? ==> d.error != MissingCounterpart)
  }

  lemma DecodesStep(c: Codec, chunks: seq<Bytes>, i: nat, d: Result<Bytes>, all: Result<Bytes>)
    requires i < |chunks| && DecodesFrom(c, chunks, i + 1, d)
    requires StepResult(c, chunks[i], SeenBefore(c, chunks, i), d, all)
    ensures DecodesFrom(c, chunks, i, all)
  {
    hide SeenBefore, Storable;
    assert chunks[i..][0] == chunks[i] && chunks[i..][1..] == chunks[i + 1..];
  }

  lemma RecordsFrom(c: Codec, chunks: seq<Bytes>, i: nat)
    requires i < |chunks|
    ensures AllBytes(RecordsOf(c, chunks)[i..])
              == RecordBytes(RecordAt(c, chunks, i)) + AllBytes(RecordsOf(c, chunks)[i + 1..])
  {
    var rs := RecordsOf(c, chunks);
    assert rs[i..][0] == rs[i] && rs[i..][1..] == rs[i + 1..];
  }

  lemma WritableAt(c: Codec, chunks: seq<Bytes>, i: nat)
    requires Writable(RecordsOf(c, chunks)) && i < |chunks|
    ensures |Payload(RecordAt(c, chunks, i))| < Pow256(8)
  {
    assert RecordsOf(c, chunks)[i] == RecordAt(c, chunks, i);
  }

  lemma {:induction false} DecodeFrom(c: Codec, chunks: seq<Bytes>, i: nat, cache: map<Bytes, Bytes>)
    requires GoodCodec(c) && NoCollision(c, chunks) && i <= |chunks| && CacheOf(c, chunks, i, cache)
    requires Writable(RecordsOf(c, chunks))
    ensures DecodesFrom(c, chunks, i, Decoded(c, AllBytes(RecordsOf(c, chunks)[i..]), cache))
    decreases |chunks| - i
  {
    if i == |chunks| {
      assert RecordsOf(c, chunks)[i..] == [] && chunks[i..] == [];
    } else {
      hide *;
      var x, cache', rest := chunks[i], cache[c.sha1(chunks[i]) := chunks[i]], AllBytes(RecordsOf(c, chunks)[i + 1..]);
      CacheGrows(c, chunks, i, cache);
      DecodeFrom(c, chunks, i + 1, cache');
      RecordsFrom(c, chunks, i);
      WritableAt(c, chunks, i);
      if SeenBefore(c, chunks, i) {
        StepSeen(c, x, rest, cache);
      } else {
        PayloadIs(c, x);
        StepNew(c, x, rest, cache);
      }
      DecodesStep(c, chunks, i, Decoded(c, rest, cache'), Decoded(c, AllBytes(RecordsOf(c, chunks)[i..]), cache));
    }
  }

  lemma PayloadIs(c: Codec, x: Bytes)
    ensures Payload(Data(c.compress(x))) == c.compress(x)
  {
  }

  /** Decoding an archive gives back the chunks in order, exactly if the sizes are within the decoder's reach. */
  lemma DecodeInverts(c: Codec, chunks: seq<Bytes>)
    requires GoodCodec(c) && NoCollision(c, chunks) && Writable(RecordsOf(c, chunks))
    ensures DecodedFile(c, Archive(c, chunks)) == Ok(Concat(chunks)) <==> AllStorable(c, chunks, 0)
    ensures DecodedFile(c, Archive(c, chunks)).Ok? <==> AllStorable(c, chunks, 0)
    ensures DecodedFile(c, Archive(c, chunks)) != Err(MissingCounterpart)
  {
    var input, rs := Archive(c, chunks), RecordsOf(c, chunks);
    assert Pow256(4) == 256 * (256 * (256 * 256)) by { assert Pow256(1) == 256; assert Pow256(2) == 256 * 256; }
    LERound(CHECKBIT, 4);
    assert input[..4] == LE(CHECKBIT, 4);
    assert input[4] == c.kind && input[5..] == AllBytes(rs);
    assert rs[0..] == rs && chunks[0..] == chunks;
    assert c.(kind := c.kind) == c;
    DecodeFrom(c, chunks, 0, map[]);
  }

  lemma EightBytes()
    ensures 0x8000_0000 < Pow256(8)
  {
    assert Pow256(4) == 0x1_0000_0000 by { assert Pow256(2) == 0x1_0000; }
    assert Pow256(8) >= Pow256(7) >= Pow256(6) >= Pow256(5) >= Pow256(4);
  }

  lemma OneChunk(c: Codec, chunk: Bytes)
    requires 0 < |chunk| < 0x8000_0000 && 0 < |c.compress(chunk)| < 0x8000_0000
    ensures NoCollision(c, [chunk]) && Writable(RecordsOf(c, [chunk]))
    ensures AllStorable(c, [chunk], 0) <==> c.kind == 2 || |chunk| <= 10_000_000
    ensures Concat([chunk]) == chunk
  {
    hide Pow256;
    EightBytes();
    assert RecordAt(c, [chunk], 0) == Data(c.compress(chunk));
    assert !SeenBefore(c, [chunk], 0) && [chunk][0] == chunk;
    assert [chunk][1..] == [] && Concat([chunk]) == chunk + Concat([]);
  }

  /** A file of one chunk comes back exactly if it is not compressed, or has no more than ten million bytes. */
  lemma OneChunkIff(c: Codec, chunk: Bytes)
    requires GoodCodec(c) && 0 < |chunk| < 0x8000_0000 && 0 < |c.compress(chunk)| < 0x8000_0000
    ensures NoCollision(c, [chunk]) && Writable(RecordsOf(c, [chunk]))
    ensures DecodedFile(c, Archive(c, [chunk])) == Ok(chunk) <==> c.kind == 2 || |chunk| <= 10_000_000
    ensures DecodedFile(c, Archive(c, [chunk])).Ok? <==> c.kind == 2 || |chunk| <= 10_000_000
  {
    hide *;
    OneChunk(c, chunk);
    DecodeInverts(c, [chunk]);
  }

  /** One chunk of 10000001 bytes under a library codec: the encoder finishes, and the archive does not decode. */
  lemma BigChunkLost(c: Codec, chunk: Bytes)
    requires GoodCodec(c) && c.kind != 2 && |chunk| == 10_000_001 && |c.compress(chunk)| < 0x8000_0000
    ensures NoCollision(c, [chunk]) && Writable(RecordsOf(c, [chunk]))
    ensures DecodedFile(c, Archive(c, [chunk])).Err?
  {
    BigChunk(c, chunk);
    hide *;
    DecodeInverts(c, [chunk]);
  }

  lemma BigChunk(c: Codec, chunk: Bytes)
    requires c.kind != 2 && |chunk| == 10_000_001 && |c.compress(chunk)| < 0x8000_0000
    ensures NoCollision(c, [chunk]) && Writable(RecordsOf(c, [chunk])) && !AllStorable(c, [chunk], 0)
  {
    hide Pow256;
    EightBytes();
    assert RecordAt(c, [chunk], 0) == Data(c.compress(chunk));
    assert !SeenBefore(c, [chunk], 0) && !Storable(c, [chunk][0]);
  }

  // ---- What an archive looks like ----------------------------------------------------------------

  lemma LEStep(n: nat, k: nat)
    requires k > 0
    ensures LE(n, k) == [Digit(n)] + LE(n / 256, k - 1) && LE(n, 0) == []
  {
    hide Digit;
  }

  lemma DigitZero()
    ensures Digit(0) == 0
  {
  }

  lemma DigitOne()
    ensures Digit(1) == 1
  {
  }

  lemma DigitTwenty()
    ensures Digit(20) == 20
  {
  }

  lemma DigitsAlike(m: nat, n: nat)
    requires m % 256 == n % 256
    ensures Digit(m) == Digit(n)
  {
  }

  lemma CheckDigits()
    ensures Digit(123456) == 0x40 && Digit(482) == 0xe2
  {
    DigitsAlike(123456, 64);
    DigitsAlike(482, 226);
    DigitLow();
    DigitHigh();
    hide Digit;
  }

  lemma DigitLow()
    ensures Digit(64) == 0x40
  {
  }

  lemma DigitHigh()
    ensures Digit(226) == 0xe2
  {
  }

  /** The check number, least significant byte first, and the kind of compression. */
  lemma HeaderBytes(kind: Byte)
    ensures Header(kind) == [0x40, 0xe2, 0x01, 0x00, kind]
  {
    hide LE, Digit;
    LEStep(123456, 4);
    LEStep(482, 3);
    LEStep(1, 2);
    LEStep(0, 1);
    CheckDigits();
    DigitZero();
    DigitOne();
    assert LE(CHECKBIT, 4) == [0x40] + ([0xe2] + ([0x01] + ([0x00] + LE(0, 0))));
  }

  lemma {:induction false} LEZero(k: nat)
    ensures LE(0, k) == seq(k, _ => 0)
  {
    hide Digit;
    if k > 0 {
      LEZero(k - 1);
      DigitZero();
    }
  }

  /** The length of a fingerprint. */
  lemma TwentyBytes()
    ensures LE(SHA1_LEN, 8) == [20, 0, 0, 0, 0, 0, 0, 0]
  {
    hide LE, Digit;
    LEStep(20, 8);
    LEZero(7);
    DigitTwenty();
  }

  /** Every archive begins with the check number and the kind; the first record holds data, and its byte says so. */
  lemma ArchiveBegins(c: Codec, chunks: seq<Bytes>)
    ensures Archive(c, chunks)[..5] == [0x40, 0xe2, 0x01, 0x00, c.kind]
    ensures if chunks == [] then |Archive(c, chunks)| == 5 else |Archive(c, chunks)| >= 14 && Archive(c, chunks)[5] == 1
  {
    HeaderBytes(c.kind);
    var rs := RecordsOf(c, chunks);
    if chunks != [] {
      assert rs[0] == RecordAt(c, chunks, 0) == Data(c.compress(chunks[0]));
      assert AllBytes(rs) == RecordBytes(rs[0]) + AllBytes(rs[1..]);
    }
    hide LE, Header;
  }

  lemma TwoRecords(c: Codec, x: Bytes)
    ensures RecordsOf(c, [x, x]) == [Data(c.compress(x)), Fingerprint(c.sha1(x))]
  {
    assert [x, x][0] == [x, x][1] == x;
    assert SeenBefore(c, [x, x], 1) by { assert c.sha1([x, x][0]) == c.sha1([x, x][1]); }
  }

  lemma TwoRecordBytes(first: Record, second: Record)
    ensures AllBytes([first, second]) == RecordBytes(first) + RecordBytes(second)
  {
    hide RecordBytes;
    assert [first, second][1..] == [second] && [second][1..] == [];
    assert AllBytes([second]) == RecordBytes(second) + [];
  }

  lemma RecordIs(p: Bytes)
    ensures RecordBytes(Data(p)) == [1] + LE(|p|, 8) + p
    ensures RecordBytes(Fingerprint(p)) == [0] + LE(|p|, 8) + p
  {
    hide LE;
  }

  /** The same chunk twice: its data, and then its fingerprint. */
  lemma TwiceTheSame(c: Codec, x: Bytes)
    requires GoodCodec(c)
    ensures Archive(c, [x, x])
         == [0x40, 0xe2, 0x01, 0x00, c.kind]
            + ([1] + LE(|c.compress(x)|, 8) + c.compress(x))
            + ([0] + [20, 0, 0, 0, 0, 0, 0, 0] + c.sha1(x))
  {
    HeaderBytes(c.kind);
    TwentyBytes();
    TwoRecords(c, x);
    var first, second := Data(c.compress(x)), Fingerprint(c.sha1(x));
    TwoRecordBytes(first, second);
    RecordIs(c.compress(x));
    RecordIs(c.sha1(x));
    hide LE, Header, RecordBytes, RecordsOf, AllBytes, TypeOf, Payload;
    Assoc(Header(c.kind), RecordBytes(first), RecordBytes(second));
  }
}
