/** The circular buffer of ciaaLibs: a power-of-two ring with masked indices. */
module CircBuf {
  import opened Words
  import opened Bits
  import opened Memory

  // ---------------------------------------------------------------- the macros

  /** `ciaaLibs_circBufSpace`; `size` holds the mask, the number of bytes minus one. */
  function Space(head: nat, tail: nat, size: nat): nat {
    And(Sub(Sub(head, tail), 1), size)
  }

  function RawSpace(head: nat, tail: nat, size: nat): int {
    if tail >= head then size - tail + (if head > 0 then 1 else 0) else head - tail - 1
  }

  function Count(head: nat, tail: nat, size: nat): nat {
    And(Sub(tail, head), size)
  }

  function RawCount(head: nat, tail: nat, size: nat): int {
    if head <= tail then tail - head else size + 1 - head
  }

  /** `ciaaLibs_circBufUpdateTail` and `ciaaLibs_circBufUpdateHead`. */
  function Advance(index: nat, nbytes: nat, size: nat): nat {
    And((index + nbytes) % Pow2(WIDTH), size)
  }

  /** An index moved past the end of the ring. */
  function Wrap(index: nat, size: nat): nat
    requires index <= 2 * size + 1
  {
    if index <= size then index else index - (size + 1)
  }

  predicate Empty(head: nat, tail: nat) {
    tail == head
  }

  predicate Full(head: nat, tail: nat, size: nat) {
    And((tail + 1) % Pow2(WIDTH), size) == head
  }

  /** Indices of a ring of `Pow2(k)` bytes. */
  predicate Indices(head: nat, tail: nat, size: nat, k: nat) {
    k < WIDTH && size + 1 == Pow2(k) && head <= size && tail <= size
  }

  /** Every masked expression is the remainder it stands for, wrap-around of `size_t` included. */
  lemma {:induction false} MaskedExpressions(head: nat, tail: nat, nbytes: nat, size: nat, k: nat)
    requires Indices(head, tail, size, k)
    ensures Space(head, tail, size) == (head - tail - 1) % (size + 1)
    ensures Count(head, tail, size) == (tail - head) % (size + 1)
    ensures Advance(tail, nbytes, size) == (tail + nbytes) % (size + 1)
    ensures Full(head, tail, size) <==> (tail + 1) % (size + 1) == head
  {
    SpaceMask(head, tail, size, k);
    WrapThenMask(tail - head, k);
    WrapThenMask(tail + nbytes, k);
    WrapThenMask(tail + 1, k);
  }

  lemma {:induction false} SpaceMask(head: nat, tail: nat, size: nat, k: nat)
    requires Indices(head, tail, size, k)
    ensures Space(head, tail, size) == (head - tail - 1) % (size + 1)
  {
    SubTwice(head, tail);
    WrapThenMask(head - tail - 1, k);
  }

  /** The same without remainders: the four distances of a ring in which one byte stays free. */
  lemma {:induction false} Distances(head: nat, tail: nat, size: nat, k: nat)
    requires Indices(head, tail, size, k)
    ensures Count(head, tail, size) == if head <= tail then tail - head else size + 1 - head + tail
    ensures Space(head, tail, size) + Count(head, tail, size) == size
    ensures Empty(head, tail) <==> Count(head, tail, size) == 0
    ensures Full(head, tail, size) <==> Space(head, tail, size) == 0
    ensures 0 <= RawSpace(head, tail, size) <= Space(head, tail, size)
    ensures 0 <= RawCount(head, tail, size)
    ensures head <= tail ==> RawCount(head, tail, size) == Count(head, tail, size)
  {
    var n := size + 1;
    MaskedExpressions(head, tail, 0, size, k);
    ModUnique(tail - head, n, if head <= tail then 0 else -1, if head <= tail then tail - head else n - head + tail);
    ModUnique(head - tail - 1, n, if tail < head then 0 else -1, if tail < head then head - tail - 1
        else n - tail + head - 1);
    ModUnique(tail + 1, n, if tail == size then 1 else 0, if tail == size then 0 else tail + 1);
  }

  lemma {:induction false} AdvanceIs(index: nat, nbytes: nat, size: nat, k: nat)
    requires Indices(index, index, size, k) && nbytes <= size
    ensures Advance(index, nbytes, size) == Wrap(index + nbytes, size)
  {
    MaskedExpressions(index, index, nbytes, size, k);
    ModUnique(index + nbytes, size + 1, if index + nbytes <= size then 0 else 1,
              if index + nbytes <= size then index + nbytes else index + nbytes - (size + 1));
  }

  // ---------------------------------------------------------------- the buffer as a queue

  /** The bytes stored, oldest first. */
  function Queue(b: seq<uint8>, head: nat, tail: nat, n: nat): (q: seq<uint8>)
    requires head < n <= |b| && tail < n
    ensures |q| == if head <= tail then tail - head else n - head + tail
  {
    if head <= tail then b[head..tail] else b[head..n] + b[..tail]
  }

  class CircBuf {
    var head: nat
    var tail: nat
    var size: nat
    var buf: array<uint8>
    /** Binary logarithm of the number of bytes. */
    ghost var k: nat

    ghost predicate Valid()
      reads this
    {
      3 <= k && Indices(head, tail, size, k) && size + 1 <= buf.Length
    }

    ghost function Contents(): seq<uint8>
      requires Valid()
      reads this, buf
    {
      Queue(buf[..], head, tail, size + 1)
    }

    constructor (storage: array<uint8>)
      ensures buf == storage
    {
      buf := storage;
    }

    /** `ciaaLibs_circBufInit`: succeeds exactly for powers of two from 8 on and a buffer that is there. */
    method Init(storage: array?<uint8>, nbytes: nat) returns (ret: int)
      requires nbytes < Pow2(WIDTH) && (storage != null ==> nbytes <= storage.Length)
      modifies this
      ensures ret == 1 <==> nbytes > 7 && storage != null && exists j: nat :: nbytes == Pow2(j)
      ensures ret == 1 ==> Valid() && buf == storage && size + 1 == nbytes && Contents() == []
      ensures ret != 1 ==> ret == -1 && unchanged(this)
    {
      ret := -1;
      IsPowerOfTwoIff(nbytes);
      if nbytes > 7 && IsPowerOfTwo(nbytes) && storage != null {
        size := nbytes - 1;
        head := 0;
        tail := 0;
        buf := storage;
        ret := 1;
        k := LogOf(nbytes);
      }
    }

    /** The macros of the writer and of the reader, applied to this buffer. */
    method SpaceLeft() returns (n: nat)
      requires Valid()
      ensures n + |Contents()| == size
    {
      Distances(head, tail, size, k);
      n := Space(head, tail, size);
    }

    method CountStored() returns (n: nat)
      requires Valid()
      ensures n == |Contents()|
    {
      Distances(head, tail, size, k);
      n := Count(head, tail, size);
    }

    method UpdateTail(nbytes: nat)
      requires Valid() && nbytes <= size
      modifies this`tail
      ensures Valid() && tail == Wrap(old(tail) + nbytes, size)
    {
      AdvanceIs(tail, nbytes, size, k);
      tail := Advance(tail, nbytes, size);
    }

    method UpdateHead(nbytes: nat)
      requires Valid() && nbytes <= size
      modifies this`head
      ensures Valid() && head == Wrap(old(head) + nbytes, size)
    {
      AdvanceIs(head, nbytes, size, k);
      head := Advance(head, nbytes, size);
    }

    /** The copy and the new tail of a Put that fits. */
    method Append(data: seq<uint8>)
      requires Valid() && |Contents()| + |data| <= size
      modifies this`tail, buf
      ensures Valid() && Contents() == old(Contents()) + data
    {
      Store(buf, head, tail, size, data);
      UpdateTail(|data|);
    }

    /** `ciaaLibs_circBufPut`: all of `data` is appended, or nothing. */
    method Put(data: seq<uint8>) returns (ret: nat)
      requires Valid()
      modifies this`tail, buf
      ensures Valid()
      ensures ret == if old(|Contents()|) + |data| <= size then |data| else 0
      ensures Contents() == if old(|Contents()|) + |data| <= size then old(Contents()) + data else old(Contents())
    {
      ret := 0;
      var space := SpaceLeft();
      if space >= |data| {
        Append(data);
        ret := |data|;
      }
    }

    /** The copy and the new head of a Get of `n` stored bytes. */
    method Remove(data: array<uint8>, n: nat)
      requires Valid() && 0 < n <= |Contents()| && n <= data.Length && data != buf
      modifies this`head, data
      ensures Valid() && Contents() == old(Contents()[n..])
      ensures data[..] == old(Contents()[..n]) + old(data[n..])
    {
      Fetch(buf, head, tail, size, data, n);
      UpdateHead(n);
    }

    /** `ciaaLibs_circBufGet`: the oldest `min(nbytes, stored)` bytes, in order. */
    method Get(data: array<uint8>, nbytes: nat) returns (ret: nat)
      requires Valid() && nbytes <= data.Length && data != buf
      modifies this`head, data
      ensures Valid()
      ensures ret == if nbytes <= old(|Contents()|) then nbytes else old(|Contents()|)
      ensures ret > 0 ==>
          data[..] == old(Contents())[..ret] + old(data[..])[ret..] && Contents() == old(Contents())[ret..]
      ensures ret == 0 ==> data[..] == old(data[..]) && Contents() == old(Contents())
    {
      ret := nbytes;
      var count := CountStored();
      if ret > count {
        ret := count;
      }
      if ret > 0 {
        Remove(data, ret);
      }
    }
  }

  /** The copies of Put, in one piece or in two. */
  method Store(buf: array<uint8>, head: nat, tail: nat, size: nat, data: seq<uint8>)
    requires head <= size && tail <= size < buf.Length
    requires |data| <= if tail < head then head - tail - 1 else size - tail + head
    modifies buf
    ensures Queue(buf[..], head, Wrap(tail + |data|, size), size + 1)
            == old(Queue(buf[..], head, tail, size + 1)) + data
  {
    ghost var was := buf[..];
    var rawSpace := RawSpace(head, tail, size);
    if rawSpace >= |data| {
      StoredWhole(was, head, tail, size, data);
      CopyIn(buf, tail, data);
      assert buf[..] == was[..tail] + data + was[tail + |data|..];
    } else {
      CopyIn(buf, tail, data[..rawSpace]);
      CopyIn(buf, 0, data[rawSpace..]);
      StoredWrapped(was, buf[..], head, tail, size, data);
    }
  }

  /** The copies of Get, in one piece or in two. */
  method Fetch(buf: array<uint8>, head: nat, tail: nat, size: nat, data: array<uint8>, n: nat)
    requires head <= size && tail <= size < buf.Length && data != buf && n <= data.Length
    requires n <= |Queue(buf[..], head, tail, size + 1)|
    modifies data
    ensures data[..] == Queue(buf[..], head, tail, size + 1)[..n] + old(data[n..])
    ensures n > 0 ==> Queue(buf[..], Wrap(head + n, size), tail, size + 1) == Queue(buf[..], head, tail, size + 1)[n..]
  {
    var rawCount := RawCount(head, tail, size);
    if n <= rawCount {
      CopyOut(buf, head, data, 0, n);
      assert data[..] == buf[head..head + n] + old(data[n..]);
      FetchedWhole(buf[..], head, tail, size, n);
    } else {
      CopyTwo(buf, head, data, rawCount, n - rawCount);
      FetchedWrapped(buf[..], head, tail, size, n);
    }
  }

  method CopyTwo(buf: array<uint8>, at: nat, data: array<uint8>, n1: nat, n2: nat)
    requires data != buf && at + n1 <= buf.Length && n2 <= buf.Length && n1 + n2 <= data.Length
    modifies data
    ensures data[..] == buf[at..at + n1] + buf[..n2] + old(data[n1 + n2..])
  {
    CopyOut(buf, at, data, 0, n1);
    ghost var mid := data[..];
    assert mid[..n1] == buf[at..at + n1] && mid[n1 + n2..] == old(data[n1 + n2..]);
    CopyOut(buf, 0, data, n1, n2);
  }

  lemma {:induction false} FetchedWhole(b: seq<uint8>, head: nat, tail: nat, size: nat, n: nat)
    requires head <= size && tail <= size < |b|
    requires n <= RawCount(head, tail, size)
    ensures b[head..head + n] == Queue(b, head, tail, size + 1)[..n]
    ensures 0 < n <= |Queue(b, head, tail, size + 1)| ==>
              Queue(b, Wrap(head + n, size), tail, size + 1) == Queue(b, head, tail, size + 1)[n..]
  {
    if head > tail {
      assert b[head..size + 1] == b[head..head + n] + b[head + n..size + 1];
    }
  }

  lemma {:induction false} FetchedWrapped(b: seq<uint8>, head: nat, tail: nat, size: nat, n: nat)
    requires tail < head <= size < |b|
    requires size + 1 - head < n <= |Queue(b, head, tail, size + 1)|
    ensures b[head..size + 1] + b[..n - (size + 1 - head)] == Queue(b, head, tail, size + 1)[..n]
    ensures Queue(b, Wrap(head + n, size), tail, size + 1) == Queue(b, head, tail, size + 1)[n..]
  {
  }

  lemma {:induction false} LogOf(nbytes: nat) returns (j: nat)
    requires 7 < nbytes < Pow2(WIDTH) && exists i: nat :: nbytes == Pow2(i)
    ensures nbytes == Pow2(j) && 3 <= j < WIDTH
  {
    j :| nbytes == Pow2(j);
    LogBounds(j);
  }

  lemma {:induction false} LogBounds(j: nat)
    requires 7 < Pow2(j) < Pow2(WIDTH)
    ensures 3 <= j < WIDTH
  {
    if j < 3 {
      Pow2Grows(j, 2);
    } else if j >= WIDTH {
      Pow2Grows(WIDTH, j);
    }
  }

  /** A copy that does not wrap; the new tail may still be index zero. */
  lemma {:induction false} StoredWhole(b: seq<uint8>, head: nat, tail: nat, size: nat, data: seq<uint8>)
    requires head <= size && tail <= size < |b| && |data| <= RawSpace(head, tail, size)
    ensures var t := tail + |data|; var c := b[..tail] + data + b[t..];
            Queue(c, head, Wrap(t, size), size + 1) == Queue(b, head, tail, size + 1) + data
  {
    var t := tail + |data|;
    var c := b[..tail] + data + b[t..];
    assert c[..t] == b[..tail] + data;
    if head <= tail {
      assert c[head..t] == b[head..tail] + data;
    } else {
      assert c[head..size + 1] == b[head..size + 1];
    }
  }

  /** A copy in two pieces, around the end of the ring. */
  lemma {:induction false} StoredWrapped(b: seq<uint8>, d: seq<uint8>, head: nat, tail: nat, size: nat,
      data: seq<uint8>)
    requires 0 < head <= tail <= size < |b| && RawSpace(head, tail, size) < |data| < size + 1 - tail + head
    requires var r := RawSpace(head, tail, size);
             var c := b[..tail] + data[..r] + b[tail + r..];
             d == data[r..] + c[|data| - r..]
    ensures Queue(d, head, tail + |data| - (size + 1), size + 1) == Queue(b, head, tail, size + 1) + data
  {
    var r := RawSpace(head, tail, size);
    assert d[head..size + 1] == b[head..tail] + data[..r];
    assert d[..|data| - r] == data[r..];
    assert data[..r] + data[r..] == data;
  }
}
