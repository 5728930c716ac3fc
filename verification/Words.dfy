/** Machine integers of the Modbus code and the big-endian accessors of ciaaModbus.h. */
module Words {

  type uint8 = x: int | 0 <= x < 0x100

  type uint16 = x: int | 0 <= x < 0x1_0000

  datatype Option<+T> = None | Some(value: T)

  /** Conversion of a 32-bit value to `int8_t`: the low eight bits, read as two's complement. */
  function ToInt8(n: int): (r: int)
    ensures -128 <= r < 128 && (n - r) % 256 == 0
    ensures -128 <= n < 128 ==> r == n
    ensures 0 <= n ==> r <= n
  {
    (n + 128) % 256 - 128
  }

  /** `b | 0x80`: a function code with the error flag. */
  function WithErrorFlag(b: uint8): (r: uint8)
    ensures r == b % 0x80 + 0x80
  {
    if b < 0x80 then b + 0x80 else b
  }

  /** The same for the bit operation of the source. */
  lemma {:induction false} ErrorFlagBit(b: bv8)
    ensures WithErrorFlag(b as int) == (b | 0x80) as int
  {
    if b < 0x80 {
      assert b | 0x80 == b + 0x80;
    } else {
      assert b | 0x80 == b;
    }
  }

  /** The 16-bit value with the given high and low bytes. */
  function Join(hi: uint8, lo: uint8): uint16 {
    hi as int * 256 + lo as int
  }

  /** `ciaaModbus_readInt(&b[at])`. */
  function ReadInt(b: seq<uint8>, at: nat): uint16
    requires at + 1 < |b|
  {
    Join(b[at], b[at + 1])
  }

  /** The two bytes `ciaaModbus_writeInt` stores. */
  function IntBytes(v: uint16): seq<uint8> {
    [v / 256, v % 256]
  }

  /** The bytes of a list of registers, most significant byte first. */
  function RegBytes(vs: seq<uint16>): (r: seq<uint8>)
    ensures |r| == 2 * |vs|
  {
    if vs == [] then [] else RegBytes(vs[..|vs| - 1]) + IntBytes(vs[|vs| - 1])
  }

  /** The registers held in an even number of bytes. */
  function RegsOf(bs: seq<uint8>): (r: seq<uint16>)
    requires |bs| % 2 == 0
    ensures |r| == |bs| / 2
  {
    if bs == [] then [] else RegsOf(bs[..|bs| - 2]) + [Join(bs[|bs| - 2], bs[|bs| - 1])]
  }

  lemma {:induction false} RegBytesAt(vs: seq<uint16>, k: nat)
    requires k < |vs|
    ensures RegBytes(vs)[2 * k] == vs[k] / 256 && RegBytes(vs)[2 * k + 1] == vs[k] % 256
    decreases |vs|
  {
    if k == |vs| - 1 {
    } else {
      RegBytesAt(vs[..|vs| - 1], k);
    }
  }

  lemma {:induction false} RegsOfAt(bs: seq<uint8>, k: nat)
    requires |bs| % 2 == 0 && 2 * k < |bs|
    ensures RegsOf(bs)[k] == Join(bs[2 * k], bs[2 * k + 1])
    decreases |bs|
  {
    if 2 * k == |bs| - 2 {
    } else {
      RegsOfAt(bs[..|bs| - 2], k);
    }
  }

  lemma {:induction false} JoinOfBytes(v: uint16)
    ensures Join(v / 256, v % 256) == v
  {
  }

  lemma {:induction false} BytesOfJoin(hi: uint8, lo: uint8)
    ensures IntBytes(Join(hi, lo)) == [hi, lo]
  {
    var v: uint16 := Join(hi, lo);
    assert v / 256 == hi && v % 256 == lo;
  }

  lemma {:induction false} ReadIntOfIntBytes(b: seq<uint8>, at: nat, v: uint16)
    requires at + 1 < |b|
    ensures ReadInt(b, at) == v <==> b[at..at + 2] == IntBytes(v)
  {
    assert b[at..at + 2] == [b[at], b[at + 1]];
    BytesOfJoin(b[at], b[at + 1]);
    JoinOfBytes(v);
  }

  lemma {:induction false} RegsOfAppend(bs: seq<uint8>, hi: uint8, lo: uint8)
    requires |bs| % 2 == 0
    ensures RegsOf(bs + [hi, lo]) == RegsOf(bs) + [Join(hi, lo)]
  {
    var t := bs + [hi, lo];
    assert t[..|t| - 2] == bs && t[|t| - 2] == hi && t[|t| - 1] == lo;
  }

  lemma {:induction false} RegsOfRegBytes(vs: seq<uint16>)
    ensures RegsOf(RegBytes(vs)) == vs
  {
    if vs == [] {
    } else {
      var n := |vs| - 1;
      RegsOfRegBytes(vs[..n]);
      JoinOfBytes(vs[n]);
      RegsOfAppend(RegBytes(vs[..n]), vs[n] / 256, vs[n] % 256);
      assert vs == vs[..n] + [vs[n]];
    }
  }

  lemma {:induction false} RegBytesOfRegsOf(bs: seq<uint8>)
    requires |bs| % 2 == 0
    ensures RegBytes(RegsOf(bs)) == bs
  {
    forall k | 0 <= k < |bs| / 2
      ensures RegBytes(RegsOf(bs))[2 * k] == bs[2 * k] && RegBytes(RegsOf(bs))[2 * k + 1] == bs[2 * k + 1]
    {
      RegsOfAt(bs, k);
      RegBytesAt(RegsOf(bs), k);
      BytesOfJoin(bs[2 * k], bs[2 * k + 1]);
    }
    PairsEqual(RegBytes(RegsOf(bs)), bs);
  }

  /** Sequences of pairs that agree on every pair are equal. */
  lemma {:induction false} PairsEqual(a: seq<uint8>, b: seq<uint8>)
    requires |a| == |b| && |a| % 2 == 0
    requires forall k :: 0 <= k < |a| / 2 ==> a[2 * k] == b[2 * k] && a[2 * k + 1] == b[2 * k + 1]
    ensures a == b
  {
    forall i | 0 <= i < |a| ensures a[i] == b[i] {
      var k := i / 2;
      assert i == 2 * k || i == 2 * k + 1;
    }
  }
}
