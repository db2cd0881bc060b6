/** The two chunking stages of the pipeline: coarse pieces numbered by the reader, refined into chunks that
    carry a two-level sequence number. */
module DedupFragment {
  import opened Rabin
  import opened RabinSeg
  import opened DedupFormat
  import opened DedupChunking

  datatype Coarse = Coarse(l1: nat, data: Bytes)

  datatype Chunk = Chunk(l1: nat, l2: nat, last: bool, data: Bytes)

  /** Pieces numbered in order. */
  ghost function Numbered(pieces: seq<Bytes>): (cs: seq<Coarse>)
    ensures |cs| == |pieces| && forall i :: 0 <= i < |cs| ==> cs[i] == Coarse(i, pieces[i])
  {
    seq(|pieces|, i requires 0 <= i < |pieces| => Coarse(i, pieces[i]))
  }

  ghost function Labelled(l1: nat, pieces: seq<Bytes>): (cs: seq<Chunk>)
    ensures |cs| == |pieces| && forall k :: 0 <= k < |cs| ==> cs[k] == Chunk(l1, k, k == |pieces| - 1, pieces[k])
  {
    seq(|pieces|, k requires 0 <= k < |pieces| => Chunk(l1, k, k == |pieces| - 1, pieces[k]))
  }

  /** The chunks of each coarse piece. */
  ghost function Fine(t: Tables, coarse: seq<Bytes>): (groups: seq<seq<Bytes>>)
    requires Sized(t)
    ensures |groups| == |coarse|
    ensures forall i :: 0 <= i < |coarse| ==> groups[i] == Greedy(t, 0, coarse[i])
  {
    if coarse == [] then [] else [Greedy(t, 0, coarse[0])] + Fine(t, coarse[1..])
  }

  ghost function Flatten(groups: seq<seq<Bytes>>): seq<Bytes> {
    if groups == [] then [] else groups[0] + Flatten(groups[1..])
  }

  lemma {:induction false} ConcatConcat(a: seq<Bytes>, b: seq<Bytes>)
    ensures Concat(a + b) == Concat(a) + Concat(b)
  {
    if a == [] {
      assert [] + b == b;
    } else {
      ConcatConcat(a[1..], b);
      assert (a + b)[1..] == a[1..] + b;
      Assoc(a[0], Concat(a[1..]), Concat(b));
    }
  }

  lemma {:induction false} FineConcat(t: Tables, coarse: seq<Bytes>)
    requires Sized(t)
    ensures Concat(Flatten(Fine(t, coarse))) == Concat(coarse)
  {
    if coarse != [] {
      FineConcat(t, coarse[1..]);
      ConcatConcat(Greedy(t, 0, coarse[0]), Flatten(Fine(t, coarse[1..])));
      GreedyConcat(t, 0, coarse[0]);
      assert Fine(t, coarse)[1..] == Fine(t, coarse[1..]);
    }
  }

  /** The chunks of the two stages, in label order, are the file; every label group is nonempty. */
  lemma StagesKeepData(t: Tables, jump: nat, data: Bytes)
    requires Sized(t)
    ensures Concat(Flatten(Fine(t, Greedy(t, jump, data)))) == data
    ensures forall i :: 0 <= i < |Fine(t, Greedy(t, jump, data))| ==> Fine(t, Greedy(t, jump, data))[i] != []
  {
    var coarse := Greedy(t, jump, data);
    FineConcat(t, coarse);
    GreedyConcat(t, jump, data);
    forall i | 0 <= i < |coarse| ensures Fine(t, coarse)[i] != [] {
      GreedyNonempty(t, jump, data, i);
    }
  }

  lemma NumberedAppend(pieces: seq<Bytes>, x: Bytes)
    ensures Numbered(pieces + [x]) == Numbered(pieces) + [Coarse(|pieces|, x)]
  {
  }

  lemma CoarseOffset(t: Tables, jump: nat, chunk: Bytes, offset: nat)
    requires |t.tab| == 256 == |t.win| && jump < |chunk| && IsSegment(t.tab, t.win, chunk[jump..], offset)
    ensures Sized(t) && CutLen(t, jump, chunk) == jump + offset && 0 < offset
  {
    SegmentUnique(t.tab, t.win, chunk[jump..], offset, SegLen(t.tab, t.win, chunk[jump..]));
  }

  lemma CoarseStub(t: Tables, jump: nat, chunk: Bytes)
    requires Sized(t) && |chunk| <= jump
    ensures CutLen(t, jump, chunk) == |chunk|
  {
  }

  class Fragmenter {
    var anchorCount: nat
    var sent: seq<Coarse>
    ghost var pieces: seq<Bytes>

    constructor ()
      ensures anchorCount == 0 && sent == [] && pieces == []
    {
      anchorCount, sent, pieces := 0, [], [];
    }

    /** The pieces sent so far carry their numbers, and the piece at hand has the next one. */
    ghost predicate Valid()
      reads this
    {
      sent == Numbered(pieces) && anchorCount == |pieces| + 1
    }

    method Send(c: Coarse)
      requires Valid() && c.l1 == |pieces|
      modifies this`sent, this`pieces
      ensures sent == Numbered(pieces) && pieces == old(pieces) + [c.data]
    {
      NumberedAppend(pieces, c.data);
      sent, pieces := sent + [c], pieces + [c.data];
    }

    /** Hand on the first `cut` bytes of a coarse piece and number the rest. */
    method CutOff(chunk: Coarse, cut: nat, ghost t: Tables, ghost jump: nat, ghost rest: Bytes) returns (temp: Coarse)
      requires Valid() && chunk.l1 == |pieces| && cut < |chunk.data| && Sized(t) && CutLen(t, jump, chunk.data) == cut
      modifies this
      ensures Valid() && temp.l1 == |pieces| && temp.data == chunk.data[cut..]
      ensures old(pieces) + Greedy(t, jump, chunk.data + rest) == pieces + Greedy(t, jump, temp.data + rest)
    {
      hide *;
      ValidFacts();
      GreedyCut(t, jump, chunk.data, rest);
      Regroup(pieces, chunk.data[..cut], Greedy(t, jump, chunk.data[cut..] + rest));
      temp := Coarse(anchorCount, chunk.data[cut..]);
      Send(chunk.(data := chunk.data[..cut]));
      anchorCount := anchorCount + 1;
      MakeValid();
    }

    /** Split off coarse pieces while a cut is found at least jump bytes in. */
    method SplitCoarse(chunk0: Coarse, jump: nat, tab: array<bv32>, win: array<bv32>,
            ghost rest: Bytes) returns (temp: Coarse)
      requires Valid() && chunk0.l1 == |pieces| && chunk0.data != [] && |chunk0.data| < INT_LIMIT
      requires tab.Length == 256 == win.Length
      modifies this
      ensures Valid() && temp.l1 == |pieces| && temp.data != []
      ensures var t := Tables(tab[..], win[..]);
              Sized(t) && CutLen(t, jump, temp.data) == |temp.data|
              && old(pieces) + Greedy(t, jump, chunk0.data + rest) == pieces + Greedy(t, jump, temp.data + rest)
    {
      ghost var t := Tables(tab[..], win[..]);
      TablesSized(t);
      hide *;
      var chunk := chunk0;
      while true
        invariant Valid() && chunk.l1 == |pieces| && chunk.data != [] && |chunk.data| < INT_LIMIT
        invariant t == Tables(tab[..], win[..])
        invariant old(pieces) + Greedy(t, jump, chunk0.data + rest) == pieces + Greedy(t, jump, chunk.data + rest)
        decreases |chunk.data|
      {
        if jump < |chunk.data| {
          LimitIs();
          var offset := Segment(chunk.data[jump..], |chunk.data| - jump, tab, win);
          CoarseOffset(t, jump, chunk.data, offset);
          if offset + jump < |chunk.data| {
            chunk := CutOff(chunk, offset + jump, t, jump, rest);
          } else {
            CutIsWhole(t, jump, chunk.data);
            return chunk;
          }
        } else {
          CoarseStub(t, jump, chunk.data);
          return chunk;
        }
      }
    }

    lemma ValidFacts()
      requires Valid()
      ensures sent == Numbered(pieces) && anchorCount == |pieces| + 1
    {
    }

    lemma MakeValid()
      requires sent == Numbered(pieces) && anchorCount == |pieces| + 1
      ensures Valid()
    {
    }

    /** Fragment: the coarse pieces of the whole file, numbered in order. */
    method Fragment(input: Input, maxBuf: nat, jump: nat, tab: array<bv32>, win: array<bv32>)
      requires input.pos == 0 && 0 < maxBuf && tab.Length == 256 == win.Length
      requires anchorCount == 0 && sent == [] && pieces == []
      requires FitsInt(Greedy(Tables(tab[..], win[..]), jump, input.data), maxBuf)
      modifies this, input
      ensures sent == Numbered(Greedy(Tables(tab[..], win[..]), jump, input.data))
    {
      ghost var t := Tables(tab[..], win[..]);
      TablesSized(t);
      ghost var all := Greedy(t, jump, input.data);
      FirstRead(t, jump, input.data);
      assert sent == Numbered(pieces);
      hide *;
      var temp: Coarse := Coarse(0, []);
      while true
        invariant input.pos <= |input.data| && t == Tables(tab[..], win[..]) && sent == Numbered(pieces)
        invariant temp.data == [] ==> input.pos == 0 && anchorCount == |pieces| == 0
        invariant temp.data != [] ==> temp.l1 == |pieces| && anchorCount == |pieces| + 1
        invariant Owed(t, jump, all, pieces, temp.data, input.data[input.pos..])
        decreases |input.data| - input.pos
      {
        ghost var p := input.pos;
        var l1 := temp.l1;
        if |temp.data| == 0 {
          l1 := anchorCount;
          anchorCount := anchorCount + 1;
        }
        var block := input.Fill(maxBuf);
        ghost var rest := input.data[input.pos..];
        AfterRead(t, jump, all, pieces, temp.data, input.data, p, input.pos, maxBuf);
        if |temp.data| + |block| == 0 { break; }
        MakeValid();
        if block == [] {
          Send(Coarse(l1, temp.data));
          break;
        }
        temp := SplitCoarse(Coarse(l1, temp.data + block), jump, tab, win, rest);
        ValidFacts();
        IsOwed(t, jump, all, pieces, temp.data, rest);
      }
    }
  }

  lemma CutIsWhole(t: Tables, jump: nat, chunk: Bytes)
    requires Sized(t) && CutLen(t, jump, chunk) >= |chunk|
    ensures CutLen(t, jump, chunk) == |chunk|
  {
  }

  lemma LabelledFront(l1: nat, pieces: seq<Bytes>, k: nat)
    requires k < |pieces|
    ensures Labelled(l1, pieces)[..k + 1] == Labelled(l1, pieces)[..k] + [Chunk(l1, k, k == |pieces| - 1, pieces[k])]
  {
  }

  /** FragmentRefine: the chunks of one coarse piece, numbered in order, the last one marked. */
  method FragmentRefine(coarse: Coarse, tab: array<bv32>, win: array<bv32>) returns (sent: seq<Chunk>)
    requires coarse.data != [] && |coarse.data| < INT_LIMIT && tab.Length == 256 == win.Length
    ensures Sized(Tables(tab[..], win[..]))
    ensures sent == Labelled(coarse.l1, Greedy(Tables(tab[..], win[..]), 0, coarse.data))
  {
    ghost var t := Tables(tab[..], win[..]);
    TablesSized(t);
    ghost var pieces := Greedy(t, 0, coarse.data);
    hide *;
    var chunk, chCount := coarse.data, 0;
    sent := [];
    var split := true;
    while split
      invariant |sent| == chCount <= |pieces| && sent == Labelled(coarse.l1, pieces)[..chCount]
      invariant split ==> chunk != [] && |chunk| < INT_LIMIT && pieces[chCount..] == Greedy(t, 0, chunk)
      invariant !split ==> chCount == |pieces|
      decreases split, |chunk|
    {
      LimitIs();
      var offset := Segment(chunk, |chunk|, tab, win);
      OffsetIsCut(t, chunk, offset);
      GreedyFirst(t, chunk);
      assert pieces[chCount..][1..] == pieces[chCount + 1..];
      LabelledFront(coarse.l1, pieces, chCount);
      if offset < |chunk| {
        GreedyMore(t, chunk[offset..]);
        sent := sent + [Chunk(coarse.l1, chCount, false, chunk[..offset])];
        chunk := chunk[offset..];
      } else {
        GreedyNone(t, chunk, offset);
        sent := sent + [Chunk(coarse.l1, chCount, true, chunk)];
        split := false;
      }
      chCount := chCount + 1;
    }
  }

  lemma GreedyFirst(t: Tables, b: Bytes)
    requires Sized(t) && b != []
    ensures |Greedy(t, 0, b)| > 0 && Greedy(t, 0, b)[0] == b[..CutLen(t, 0, b)]
    ensures Greedy(t, 0, b)[1..] == Greedy(t, 0, b[CutLen(t, 0, b)..])
  {
  }

  lemma GreedyMore(t: Tables, b: Bytes)
    requires Sized(t) && b != []
    ensures |Greedy(t, 0, b)| > 0
  {
  }

  lemma GreedyNone(t: Tables, b: Bytes, offset: nat)
    requires Sized(t) && offset == |b|
    ensures Greedy(t, 0, b[offset..]) == [] && b[..offset] == b
  {
  }
}
