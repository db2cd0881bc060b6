/** The ring buffer of dedup and the producer-counted queue on top of it. */
module RingQueue {
  /** The slots from tail up to head, wrapping around. */
  ghost function Between<T>(data: seq<T>, tail: nat, head: nat): seq<T>
    requires tail < |data| && head < |data|
  {
    if tail <= head then data[tail..head] else data[tail..] + data[..head]
  }

  lemma InsertSlot<T>(data: seq<T>, tail: nat, head: nat, x: T)
    requires tail < |data| && head < |data| && Next(head, |data|) != tail
    ensures Between(data[head := x], tail, Next(head, |data|)) == Between(data, tail, head) + [x]
  {
    var d, h := data[head := x], Next(head, |data|);
    if tail <= head {
      if h == 0 {
        assert d[tail..] == data[tail..head] + [x];
        assert d[tail..] + d[..0] == d[tail..];
      } else {
        assert d[tail..h] == data[tail..head] + [x];
      }
    } else {
      assert d[tail..] == data[tail..] && d[..h] == data[..head] + [x];
    }
  }

  lemma RemoveSlot<T>(data: seq<T>, tail: nat, head: nat)
    requires tail < |data| && head < |data| && tail != head
    ensures Between(data, tail, head) == [data[tail]] + Between(data, Next(tail, |data|), head)
  {
    var t := Next(tail, |data|);
    if tail < head {
      assert data[tail..head] == [data[tail]] + data[t..head];
    } else if t == 0 {
      assert data[tail..] == [data[tail]];
      assert data[0..head] == data[..head];
    } else {
      assert data[tail..] == [data[tail]] + data[t..];
    }
  }

  function Next(i: nat, size: nat): (n: nat)
    requires i < size
    ensures n < size
  {
    if i + 1 == size then 0 else i + 1
  }

  lemma FullIsOneFree<T>(data: seq<T>, tail: nat, head: nat)
    requires tail < |data| && head < |data|
    ensures Next(head, |data|) == tail <==> |Between(data, tail, head)| == |data| - 1
    ensures head == tail <==> Between(data, tail, head) == []
    ensures |Between(data, tail, head)| < |data|
    ensures Next(head, |data|) == tail <==> head == (tail - 1 + |data|) % |data|
  {
    if tail == 0 {
      assert (tail - 1 + |data|) % |data| == |data| - 1;
    } else {
      assert (tail - 1 + |data|) % |data| == tail - 1 by { Wrap(tail - 1, |data|); }
    }
  }

  lemma Wrap(a: nat, n: nat)
    requires a < n
    ensures (a + n) % n == a
  {
  }

  class RingBuffer<T(0)> {
    const data: array<T>
    var head: nat
    var tail: nat

    ghost predicate Valid()
      reads this
    {
      tail < data.Length && head < data.Length
    }

    ghost function Contents(): seq<T>
      reads this, data
      requires Valid()
    {
      Between(data[..], tail, head)
    }

    /** One slot more than asked for, to tell full from empty. */
    constructor (size: nat)
      ensures Valid() && Contents() == [] && data.Length == size + 1 && fresh(data)
    {
      data := new T[size + 1];
      head, tail := 0, 0;
    }

    predicate IsEmpty()
      requires Valid()
      reads this, data
      ensures IsEmpty() <==> Contents() == []
    {
      FullIsOneFree(data[..], tail, head);
      tail == head
    }

    predicate IsFull()
      requires Valid()
      reads this, data
      ensures IsFull() <==> |Contents()| == data.Length - 1
      ensures |Contents()| <= data.Length - 1
    {
      FullIsOneFree(data[..], tail, head);
      head == (tail - 1 + data.Length) % data.Length
    }

    method Remove() returns (x: T)
      requires Valid() && !IsEmpty()
      modifies this`tail
      ensures Valid() && old(Contents()) == [x] + Contents()
    {
      RemoveSlot(data[..], tail, head);
      x := data[tail];
      tail := tail + 1;
      if tail >= data.Length { tail := 0; }
    }

    method Insert(x: T) returns (rv: int)
      requires Valid()
      modifies this`head, data
      ensures Valid()
      ensures rv == if |old(Contents())| == data.Length - 1 then -1 else 0
      ensures Contents() == if rv == 0 then old(Contents()) + [x] else old(Contents())
    {
      FullIsOneFree(data[..], tail, head);
      if IsFull() { return -1; }
      InsertSlot(data[..], tail, head, x);
      ghost var before := data[..];
      data[head] := x;
      assert data[..] == before[head := x];
      head := head + 1;
      if head == data.Length { head := 0; }
      rv := 0;
    }
  }

  class Queue<T(0)> {
    const buf: RingBuffer<T>
    const nProducers: nat
    var nTerminated: nat

    constructor (size: nat, nProducers: nat)
      requires 0 < nProducers
      ensures Valid() && Contents() == [] && nTerminated == 0 && this.nProducers == nProducers
      ensures fresh(buf) && fresh(buf.data) && buf.data.Length == size + 1
    {
      buf := new RingBuffer<T>(size);
      this.nProducers, nTerminated := nProducers, 0;
    }

    ghost predicate Valid()
      reads this, buf
    {
      buf.Valid() && nTerminated <= nProducers
    }

    ghost function Contents(): seq<T>
      reads this, buf, buf.data
      requires Valid()
    {
      buf.Contents()
    }

    predicate IsTerminated()
      requires Valid()
      reads this, buf
    {
      nTerminated == nProducers
    }

    /** One producer less; each counted producer calls this once. */
    method Terminate()
      requires Valid() && !IsTerminated()
      modifies this`nTerminated
      ensures Valid() && nTerminated == old(nTerminated) + 1 && Contents() == old(Contents())
    {
      nTerminated := nTerminated + 1;
    }

    /** The section of queue_dequeue after the wait: -1 if there is and will be nothing, else the oldest
        items, as many as the limit and the receiving buffer allow. */
    method Dequeue(to: RingBuffer<T>, limit: nat) returns (r: int)
      requires Valid() && to.Valid() && to != buf && to.data != buf.data
      requires Contents() != [] || IsTerminated()
      modifies buf, to, to.data
      ensures Valid() && to.Valid() && nTerminated == old(nTerminated)
      ensures r == -1 <==> old(Contents()) == []
      ensures r == -1 ==> Contents() == [] && to.Contents() == old(to.Contents())
      ensures r >= 0 ==>
                && r <= |old(Contents())| && Contents() == old(Contents())[r..]
                && to.Contents() == old(to.Contents()) + old(Contents())[..r]
                && (r == limit || Contents() == [] || |to.Contents()| == to.data.Length - 1) && r <= limit
    {
      if buf.IsEmpty() && IsTerminated() { return -1; }
      r := Move(buf, to, limit);
    }

    /** The section of queue_enqueue after the wait for room. */
    method Enqueue(from: RingBuffer<T>, limit: nat) returns (r: int)
      requires Valid() && from.Valid() && from != buf && from.data != buf.data
      requires !IsTerminated() && |Contents()| < buf.data.Length - 1
      modifies buf, buf.data, from
      ensures Valid() && from.Valid() && nTerminated == old(nTerminated)
      ensures 0 <= r <= |old(from.Contents())| && from.Contents() == old(from.Contents())[r..]
      ensures Contents() == old(Contents()) + old(from.Contents())[..r]
      ensures r <= limit && (r == limit || from.Contents() == [] || |Contents()| == buf.data.Length - 1)
      ensures 0 < limit && old(from.Contents()) != [] ==> r >= 1
    {
      r := Move(from, buf, limit);
    }
  }

  /** The copying loop that both operations share. */
  method Move<T(0)>(from: RingBuffer<T>, to: RingBuffer<T>, limit: nat) returns (i: nat)
    requires from.Valid() && to.Valid() && from != to && from.data != to.data
    modifies from`tail, to`head, to.data
    ensures from.Valid() && to.Valid()
    ensures i <= limit && i <= |old(from.Contents())|
    ensures from.Contents() == old(from.Contents())[i..]
    ensures to.Contents() == old(to.Contents()) + old(from.Contents())[..i]
    ensures i == limit || from.Contents() == [] || |to.Contents()| == to.data.Length - 1
  {
    hide *;
    i := 0;
    ghost var source, target := from.Contents(), to.Contents();
    assert target + source[..0] == target && source[0..] == source;
    while i < limit && !from.IsEmpty() && !to.IsFull()
      invariant from.Valid() && to.Valid() && i <= limit && i <= |source|
      invariant from.Contents() == source[i..] && to.Contents() == target + source[..i]
    {
      var temp := from.Remove();
      assert temp == source[i] && source[i..][1..] == source[i + 1..];
      var rv := to.Insert(temp);
      assert rv == 0;
      assert source[..i + 1] == source[..i] + [source[i]];
      assert (target + source[..i]) + [temp] == target + source[..i + 1];
      i := i + 1;
    }
  }
}
