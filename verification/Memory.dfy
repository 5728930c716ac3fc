/** Copying between byte arrays, as `memcpy` and the copy loops of the firmware do it. */
module Memory {
  import opened Words

  /** Stores `data` at position `at`. */
  method CopyIn(buf: array<uint8>, at: nat, data: seq<uint8>)
    requires at + |data| <= buf.Length
    modifies buf
    ensures buf[..] == old(buf[..at]) + data + old(buf[at + |data|..])
  {
    forall i | 0 <= i < |data| {
      buf[at + i] := data[i];
    }
  }

  /** Copies `n` bytes from `buf[at..]` to `dst[to..]`. */
  method CopyOut(buf: array<uint8>, at: nat, dst: array<uint8>, to: nat, n: nat)
    requires dst != buf && at + n <= buf.Length && to + n <= dst.Length
    modifies dst
    ensures dst[..] == old(dst[..to]) + buf[at..at + n] + old(dst[to + n..])
  {
    for i := 0 to n
      invariant dst[to..to + i] == buf[at..at + i]
      invariant dst[..to] == old(dst[..to]) && dst[to + i..] == old(dst[to + i..])
    {
      dst[to + i] := buf[at + i];
    }
    assert dst[..] == dst[..to] + dst[to..to + n] + dst[to + n..];
  }
}
