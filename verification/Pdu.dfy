/**
 Requests of the nine Modbus functions as values, the PDU of each, and the reading of a PDU back
 into a request. The limits are those of "MODBUS Application Protocol Specification V1.1b",
 sections 6.1 to 6.6, 6.11, 6.12 and 6.17, as the slave checks them.
 */
module Pdu {
  import opened Words

  const READ_COILS: uint8 := 0x01
  const READ_DISCRETE_INPUTS: uint8 := 0x02
  const READ_HOLDING_REGISTERS: uint8 := 0x03
  const READ_INPUT_REGISTERS: uint8 := 0x04
  const WRITE_SINGLE_COIL: uint8 := 0x05
  const WRITE_SINGLE_REGISTER: uint8 := 0x06
  const WRITE_MULTIPLE_COILS: uint8 := 0x0F
  const WRITE_MULTIPLE_REGISTERS: uint8 := 0x10
  const READ_WRITE_REGISTERS: uint8 := 0x17

  const NO_ERROR: uint8 := 0x00
  const FNC_NOT_SUPPORTED: uint8 := 0x01
  const WRONG_STR_ADDR: uint8 := 0x02
  const WRONG_REG_QTY: uint8 := 0x03
  const SLAVE_NOT_RESPOND: uint8 := 0x10
  const PDU_RECEIVED_WRONG: uint8 := 0x11

  datatype Request =
    | ReadBits(fc: uint8, address: uint16, quantity: uint16)
    | ReadRegs(fc: uint8, address: uint16, quantity: uint16)
    | WriteSingle(fc: uint8, address: uint16, value: uint16)
    | WriteCoils(address: uint16, quantity: uint16, data: seq<uint8>)
    | WriteRegs(address: uint16, values: seq<uint16>)
    | ReadWrite(address: uint16, quantity: uint16, addressW: uint16, values: seq<uint16>)

  function CoilBytes(quantity: uint16): (r: nat)
    ensures r == (quantity + 7) / 8
  {
    quantity / 8 + if quantity % 8 != 0 then 1 else 0
  }

  /** Requests a PDU can be built for: function codes that exist, lengths that match. */
  predicate Encodable(r: Request) {
    match r
    case ReadBits(fc, _, _) => fc == READ_COILS || fc == READ_DISCRETE_INPUTS
    case ReadRegs(fc, _, _) => fc == READ_HOLDING_REGISTERS || fc == READ_INPUT_REGISTERS
    case WriteSingle(fc, _, _) => fc == WRITE_SINGLE_COIL || fc == WRITE_SINGLE_REGISTER
    case WriteCoils(_, quantity, data) => quantity <= 250 * 8 && |data| == CoilBytes(quantity)
    case WriteRegs(_, values) => |values| <= 125
    case ReadWrite(_, _, _, values) => |values| <= 123
  }

  /** How many bytes the master stores to build the PDU: one for each coil, not one for each eight. */
  function BytesStored(r: Request): nat {
    match r
    case WriteCoils(_, quantity, _) => 6 + quantity
    case WriteRegs(_, values) => 6 + 2 * |values|
    case ReadWrite(_, _, _, values) => 10 + 2 * |values|
    case _ => 5
  }

  /** Requests the master can build in the gateway's buffer of 256 bytes. */
  predicate Buildable(r: Request) {
    Encodable(r) && BytesStored(r) <= 256
  }

  /** Requests inside the limits of the protocol. */
  predicate WellFormed(r: Request) {
    && Encodable(r)
    && match r
       case ReadBits(_, _, quantity) => 1 <= quantity <= 0x07D0
       case ReadRegs(_, _, quantity) => 1 <= quantity <= 0x007D
       case WriteSingle(fc, _, value) => fc == WRITE_SINGLE_COIL ==> value == 0 || value == 0xFF00
       case WriteCoils(_, quantity, _) => 1 <= quantity <= 0x07B0
       case WriteRegs(_, values) => 1 <= |values| <= 0x007B
       case ReadWrite(_, quantity, _, values) => 1 <= quantity <= 0x007D && 1 <= |values| <= 0x0079
  }

  function FunctionCode(r: Request): uint8 {
    match r
    case ReadBits(fc, _, _) => fc
    case ReadRegs(fc, _, _) => fc
    case WriteSingle(fc, _, _) => fc
    case WriteCoils(_, _, _) => WRITE_MULTIPLE_COILS
    case WriteRegs(_, _) => WRITE_MULTIPLE_REGISTERS
    case ReadWrite(_, _, _, _) => READ_WRITE_REGISTERS
  }

  /** Function code, address and a second integer: the start of every request. */
  function Head(fc: uint8, a: uint16, q: uint16): (h: seq<uint8>)
    ensures |h| == 5 && h[0] == fc
  {
    [fc, a / 256, a % 256, q / 256, q % 256]
  }

  /** The request PDU. */
  function Encode(r: Request): (pdu: seq<uint8>)
    requires Encodable(r)
    ensures 5 <= |pdu| <= 256 && pdu[0] == FunctionCode(r)
  {
    match r
    case ReadBits(fc, a, q) => Head(fc, a, q)
    case ReadRegs(fc, a, q) => Head(fc, a, q)
    case WriteSingle(fc, a, v) => Head(fc, a, v)
    case WriteCoils(a, q, data) => Head(WRITE_MULTIPLE_COILS, a, q) + [CoilBytes(q)] + data
    case WriteRegs(a, values) => Head(WRITE_MULTIPLE_REGISTERS, a, |values|) + [2 * |values|] + RegBytes(values)
    case ReadWrite(a, q, aw, values) =>
      Head(READ_WRITE_REGISTERS, a, q) + IntBytes(aw) + IntBytes(|values|) + [2 * |values|] + RegBytes(values)
  }

  /** The request inside the protocol limits that a PDU carries, if it carries one. */
  function Parse(pdu: seq<uint8>): Option<Request> {
    if |pdu| < 5 then None
    else
      var fc, a, q := pdu[0], ReadInt(pdu, 1), ReadInt(pdu, 3);
      if fc == READ_COILS || fc == READ_DISCRETE_INPUTS then
        if |pdu| == 5 && 1 <= q <= 0x07D0 then Some(ReadBits(fc, a, q)) else None
      else if fc == READ_HOLDING_REGISTERS || fc == READ_INPUT_REGISTERS then
        if |pdu| == 5 && 1 <= q <= 0x007D then Some(ReadRegs(fc, a, q)) else None
      else if fc == WRITE_SINGLE_COIL then
        if |pdu| == 5 && (q == 0 || q == 0xFF00) then Some(WriteSingle(fc, a, q)) else None
      else if fc == WRITE_SINGLE_REGISTER then
        if |pdu| == 5 then Some(WriteSingle(fc, a, q)) else None
      else if fc == WRITE_MULTIPLE_COILS then
        if 1 <= q <= 0x07B0 && |pdu| == 6 + CoilBytes(q) && pdu[5] == CoilBytes(q)
        then Some(WriteCoils(a, q, pdu[6..])) else None
      else if fc == WRITE_MULTIPLE_REGISTERS then
        if 1 <= q <= 0x007B && |pdu| == 6 + 2 * q && pdu[5] == 2 * q
        then Some(WriteRegs(a, RegsOf(pdu[6..]))) else None
      else if fc == READ_WRITE_REGISTERS then
        if |pdu| < 10 then None
        else
          var aw, qw := ReadInt(pdu, 5), ReadInt(pdu, 7);
          if 1 <= q <= 0x007D && 1 <= qw <= 0x0079 && |pdu| == 10 + 2 * qw && pdu[9] == 2 * qw
          then Some(ReadWrite(a, q, aw, RegsOf(pdu[10..]))) else None
      else None
  }

  // ---------------------------------------------------------------- what the master builds

  /**
   All bytes the master stores when it builds the PDU of a request, for any quantity: the byte count
   is cut to eight bits, and `coils` are the bytes it copies, one for each coil.
   */
  function Image(r: Request, coils: seq<uint8>): (b: seq<uint8>)
    requires r.WriteCoils? ==> |coils| == r.quantity
    requires r.WriteRegs? || r.ReadWrite? ==> |r.values| < 0x1_0000
    ensures |b| == BytesStored(r)
  {
    match r
    case ReadBits(fc, a, q) => Head(fc, a, q)
    case ReadRegs(fc, a, q) => Head(fc, a, q)
    case WriteSingle(fc, a, v) => Head(fc, a, v)
    case WriteCoils(a, q, _) => Head(WRITE_MULTIPLE_COILS, a, q) + [CoilBytes(q) % 0x100] + coils
    case WriteRegs(a, values) => Head(WRITE_MULTIPLE_REGISTERS, a, |values|) + [2 * |values| % 0x100] + RegBytes(values)
    case ReadWrite(a, q, aw, values) =>
      Head(READ_WRITE_REGISTERS, a, q) + IntBytes(aw) + IntBytes(|values|) + [2 * |values| % 0x100] + RegBytes(values)
  }

  /** The length the master reports for it. */
  function ImageSize(r: Request): (n: nat)
    ensures n <= BytesStored(r)
  {
    match r
    case WriteCoils(_, q, _) => 6 + CoilBytes(q) % 0x100
    case WriteRegs(_, values) => 6 + 2 * |values|
    case ReadWrite(_, _, _, values) => 10 + 2 * |values|
    case _ => 5
  }

  /** Of a request that has a PDU, the bytes that count are that PDU. */
  lemma {:induction false} ImageIsEncoded(r: Request, coils: seq<uint8>)
    requires Encodable(r) && (r.WriteCoils? ==> |coils| == r.quantity && coils[..CoilBytes(r.quantity)] == r.data)
    ensures ImageSize(r) == |Encode(r)| && Image(r, coils)[..ImageSize(r)] == Encode(r)
  {
    if r.WriteCoils? {
      ImageOfCoils(r, coils);
    } else {
      ImageOfOthers(r, coils);
      assert Image(r, coils)[..|Encode(r)|] == Image(r, coils);
    }
  }

  lemma {:induction false} ImageOfOthers(r: Request, coils: seq<uint8>)
    requires Encodable(r) && !r.WriteCoils?
    ensures ImageSize(r) == |Encode(r)| && Image(r, coils) == Encode(r)
  {
    match r
    case WriteRegs(_, values) => assert 2 * |values| % 0x100 == 2 * |values|;
    case ReadWrite(_, _, _, values) => assert 2 * |values| % 0x100 == 2 * |values|;
    case _ =>
  }

  lemma {:induction false} ImageOfCoils(r: Request, coils: seq<uint8>)
    requires Encodable(r) && r.WriteCoils? && |coils| == r.quantity && coils[..CoilBytes(r.quantity)] == r.data
    ensures ImageSize(r) == |Encode(r)| && Image(r, coils)[..ImageSize(r)] == Encode(r)
  {
    var head := Head(WRITE_MULTIPLE_COILS, r.address, r.quantity) + [CoilBytes(r.quantity)];
    FrontOf(head, coils, CoilBytes(r.quantity));
  }

  lemma {:induction false} FrontOf(a: seq<uint8>, b: seq<uint8>, n: nat)
    requires n <= |b|
    ensures (a + b)[..|a| + n] == a + b[..n]
  {
  }

  /** So it is in a buffer with anything behind the bytes stored. */
  lemma {:induction false} ImageInBuffer(b: seq<uint8>, rest: seq<uint8>, r: Request, coils: seq<uint8>)
    requires Encodable(r) && (r.WriteCoils? ==> |coils| == r.quantity && coils[..CoilBytes(r.quantity)] == r.data)
    requires b == Image(r, coils) + rest
    ensures ImageSize(r) <= |b| && b[..ImageSize(r)] == Encode(r) && b[BytesStored(r)..] == rest
  {
    ImageIsEncoded(r, coils);
    assert b[..ImageSize(r)] == Image(r, coils)[..ImageSize(r)];
  }

  /** Within the limits of the protocol the master can build all requests but those for more than 250 coils. */
  lemma {:induction false} BuildableIff(r: Request)
    requires WellFormed(r)
    ensures Buildable(r) <==> !(r.WriteCoils? && r.quantity > 250)
    ensures |Encode(r)| <= 252
  {
  }

  /** The smallest request it cannot: 251 coils make a PDU of 38 bytes, and 257 bytes are stored. */
  lemma {:induction false} TooManyCoils(a: uint16, data: seq<uint8>, coils: seq<uint8>)
    requires |data| == 32 && |coils| == 251
    ensures var r := WriteCoils(a, 251, data);
            && WellFormed(r) && !Buildable(r) && |Encode(r)| == 38
            && |Image(r, coils)| == 257 && Image(r, coils)[256] == coils[250]
  {
  }

  // ---------------------------------------------------------------- building and reading

  /** Reading is the inverse of building: a PDU is read as a request exactly when it is that request's PDU. */
  lemma {:induction false} ParseIffEncoded(pdu: seq<uint8>, r: Request)
    ensures Parse(pdu) == Some(r) <==> WellFormed(r) && pdu == Encode(r)
  {
    if Parse(pdu) == Some(r) {
      ParsedIsEncoded(pdu, r);
    }
    if WellFormed(r) && pdu == Encode(r) {
      EncodedParses(r);
    }
  }

  lemma {:induction false} EncodedParses(r: Request)
    requires WellFormed(r)
    ensures Parse(Encode(r)) == Some(r)
  {
    match r
    case ReadBits(fc, a, q) => HeadFields(fc, a, q, []);
    case ReadRegs(fc, a, q) => HeadFields(fc, a, q, []);
    case WriteSingle(fc, a, v) => HeadFields(fc, a, v, []);
    case WriteCoils(_, _, _) => EncodedCoils(r);
    case WriteRegs(_, _) => EncodedRegs(r);
    case ReadWrite(_, _, _, _) => EncodedReadWrite(r);
  }

  /** The fields of a head, and what comes behind it. */
  lemma {:induction false} HeadFields(fc: uint8, a: uint16, q: uint16, tail: seq<uint8>)
    ensures var pdu := Head(fc, a, q) + tail;
            pdu[0] == fc && ReadInt(pdu, 1) == a && ReadInt(pdu, 3) == q && pdu[5..] == tail
    ensures tail == [] ==> Head(fc, a, q) + tail == Head(fc, a, q)
  {
    JoinOfBytes(a);
    JoinOfBytes(q);
  }

  /** Every PDU of five bytes or more starts with the head of its fields. */
  lemma {:induction false} HeadOf(pdu: seq<uint8>)
    requires |pdu| >= 5
    ensures pdu == Head(pdu[0], ReadInt(pdu, 1), ReadInt(pdu, 3)) + pdu[5..]
  {
    BytesOfJoin(pdu[1], pdu[2]);
    BytesOfJoin(pdu[3], pdu[4]);
  }

  lemma {:induction false} EncodedCoils(r: Request)
    requires WellFormed(r) && r.WriteCoils?
    ensures Parse(Encode(r)) == Some(r)
  {
    var tail := [CoilBytes(r.quantity)] + r.data;
    HeadFields(WRITE_MULTIPLE_COILS, r.address, r.quantity, tail);
    assert Encode(r) == Head(WRITE_MULTIPLE_COILS, r.address, r.quantity) + tail;
    assert Encode(r)[6..] == tail[1..] == r.data;
  }

  /** Where the fields of a request to write registers are. */
  lemma {:induction false} RegsLayout(a: uint16, values: seq<uint16>)
    requires |values| <= 125
    ensures var pdu := Encode(WriteRegs(a, values));
            && |pdu| == 6 + 2 * |values| && ReadInt(pdu, 1) == a && ReadInt(pdu, 3) == |values|
            && pdu[5] == 2 * |values| && pdu[6..] == RegBytes(values)
  {
    var tail := [2 * |values|] + RegBytes(values);
    HeadFields(WRITE_MULTIPLE_REGISTERS, a, |values|, tail);
    var pdu := Encode(WriteRegs(a, values));
    assert pdu == Head(WRITE_MULTIPLE_REGISTERS, a, |values|) + tail;
    assert pdu[6..] == tail[1..] == RegBytes(values);
  }

  lemma {:induction false} EncodedRegs(r: Request)
    requires WellFormed(r) && r.WriteRegs?
    ensures Parse(Encode(r)) == Some(r)
  {
    RegsLayout(r.address, r.values);
    RegsOfRegBytes(r.values);
  }

  /** The write part of a read/write request: two integers, a byte count and the values. */
  function WritePart(aw: uint16, values: seq<uint16>): seq<uint8>
    requires |values| <= 123
  {
    IntBytes(aw) + IntBytes(|values|) + [2 * |values|] + RegBytes(values)
  }

  lemma {:induction false} WritePartFields(pdu: seq<uint8>, aw: uint16, values: seq<uint16>)
    requires |pdu| >= 5 && |values| <= 123 && pdu[5..] == WritePart(aw, values)
    ensures |pdu| == 10 + 2 * |values| && ReadInt(pdu, 5) == aw && ReadInt(pdu, 7) == |values|
    ensures pdu[9] == 2 * |values| && pdu[10..] == RegBytes(values)
  {
    var t := pdu[5..];
    assert t[0] == pdu[5] && t[1] == pdu[6] && t[2] == pdu[7] && t[3] == pdu[8] && t[4] == pdu[9];
    assert pdu[10..] == t[5..];
    JoinOfBytes(aw);
    JoinOfBytes(|values|);
  }

  lemma {:induction false} EncodedReadWrite(r: Request)
    requires WellFormed(r) && r.ReadWrite?
    ensures Parse(Encode(r)) == Some(r)
  {
    var tail := WritePart(r.addressW, r.values);
    HeadFields(READ_WRITE_REGISTERS, r.address, r.quantity, tail);
    assert Encode(r) == Head(READ_WRITE_REGISTERS, r.address, r.quantity) + tail;
    WritePartFields(Encode(r), r.addressW, r.values);
    RegsOfRegBytes(r.values);
  }

  lemma {:induction false} ParsedIsEncoded(pdu: seq<uint8>, r: Request)
    requires Parse(pdu) == Some(r)
    ensures WellFormed(r) && pdu == Encode(r)
  {
    match r
    case ReadBits(_, _, _) => ParsedHead(pdu, r);
    case ReadRegs(_, _, _) => ParsedHead(pdu, r);
    case WriteSingle(_, _, _) => ParsedHead(pdu, r);
    case WriteCoils(_, _, _) => ParsedCoils(pdu, r);
    case WriteRegs(_, _) => ParsedRegs(pdu, r);
    case ReadWrite(_, _, _, _) => ParsedReadWrite(pdu, r);
  }

  lemma {:induction false} ParsedHead(pdu: seq<uint8>, r: Request)
    requires Parse(pdu) == Some(r) && (r.ReadBits? || r.ReadRegs? || r.WriteSingle?)
    ensures WellFormed(r) && pdu == Encode(r)
  {
    HeadOf(pdu);
  }

  lemma {:induction false} ParsedCoils(pdu: seq<uint8>, r: Request)
    requires Parse(pdu) == Some(r) && r.WriteCoils?
    ensures WellFormed(r) && pdu == Encode(r)
  {
    HeadOf(pdu);
    assert pdu[5..] == [pdu[5]] + pdu[6..];
  }

  lemma {:induction false} ParsedRegs(pdu: seq<uint8>, r: Request)
    requires Parse(pdu) == Some(r) && r.WriteRegs?
    ensures WellFormed(r) && pdu == Encode(r)
  {
    RegBytesOfRegsOf(pdu[6..]);
    RegsAre(pdu, r.address, r.values);
  }

  lemma {:induction false} RegsAre(pdu: seq<uint8>, a: uint16, values: seq<uint16>)
    requires |values| <= 123 && |pdu| == 6 + 2 * |values| && pdu[0] == WRITE_MULTIPLE_REGISTERS
    requires ReadInt(pdu, 1) == a && ReadInt(pdu, 3) == |values| && pdu[5] == 2 * |values|
        && pdu[6..] == RegBytes(values)
    ensures pdu == Encode(WriteRegs(a, values))
  {
    HeadOf(pdu);
    assert pdu[5..] == [pdu[5]] + pdu[6..];
  }

  lemma {:induction false} ParsedReadWrite(pdu: seq<uint8>, r: Request)
    requires Parse(pdu) == Some(r) && r.ReadWrite?
    ensures WellFormed(r) && pdu == Encode(r)
  {
    RegBytesOfRegsOf(pdu[10..]);
    ReadWriteIs(pdu, r.address, r.quantity, r.addressW, r.values);
  }

  lemma {:induction false} ReadWriteIs(pdu: seq<uint8>, a: uint16, q: uint16, aw: uint16, values: seq<uint16>)
    requires |values| <= 121 && |pdu| == 10 + 2 * |values| && pdu[0] == READ_WRITE_REGISTERS
    requires ReadInt(pdu, 1) == a && ReadInt(pdu, 3) == q && ReadInt(pdu, 5) == aw && ReadInt(pdu, 7) == |values|
    requires pdu[9] == 2 * |values| && pdu[10..] == RegBytes(values)
    ensures pdu == Encode(ReadWrite(a, q, aw, values))
  {
    HeadOf(pdu);
    BytesOfJoin(pdu[5], pdu[6]);
    BytesOfJoin(pdu[7], pdu[8]);
    assert pdu[5..] == [pdu[5], pdu[6]] + [pdu[7], pdu[8]] + [pdu[9]] + pdu[10..];
    assert pdu[5..] == WritePart(aw, values);
  }

  // ---------------------------------------------------------------- byte by byte

  /** The 16-bit value at position `at`, most significant byte first. */
  function WordAt(b: seq<uint8>, at: nat): nat
    requires at + 1 < |b|
  {
    b[at] as int * 256 + b[at + 1] as int
  }

  /** From position `at` on the bytes are those of `values` and nothing else. */
  predicate WordsFrom(b: seq<uint8>, at: nat, values: seq<uint16>) {
    |b| == at + 2 * |values| && forall k :: 0 <= k < |values| ==> WordAt(b, at + 2 * k) == values[k]
  }

  lemma {:induction false} RegBytesWords(b: seq<uint8>, at: nat, values: seq<uint16>)
    requires at <= |b| && b[at..] == RegBytes(values)
    ensures WordsFrom(b, at, values)
  {
    forall k | 0 <= k < |values| ensures WordAt(b, at + 2 * k) == values[k] {
      RegBytesAt(values, k);
      var t := b[at..];
      assert t[2 * k] == b[at + 2 * k] && t[2 * k + 1] == b[at + 2 * k + 1];
    }
  }

  lemma {:induction false} ReadWriteLayout(r: Request)
    requires Encodable(r) && r.ReadWrite?
    ensures var e := Encode(r);
            && |e| == 10 + 2 * |r.values| && e[0] == 23 && ReadInt(e, 1) == r.address && ReadInt(e, 3) == r.quantity
            && ReadInt(e, 5) == r.addressW && ReadInt(e, 7) == |r.values|
            && e[9] == 2 * |r.values| && e[10..] == RegBytes(r.values)
  {
    var tail := WritePart(r.addressW, r.values);
    HeadFields(READ_WRITE_REGISTERS, r.address, r.quantity, tail);
    assert Encode(r) == Head(READ_WRITE_REGISTERS, r.address, r.quantity) + tail;
    WritePartFields(Encode(r), r.addressW, r.values);
  }

  /** Every request PDU byte by byte, with the function codes of the protocol. */
  lemma {:induction false} RequestLayout(r: Request)
    requires Encodable(r)
    ensures var e := Encode(r);
            && |e| >= 5 && WordAt(e, 1) == r.address
            && match r
               case ReadBits(fc, _, q) => fc in {1, 2} && |e| == 5 && e[0] == fc && WordAt(e, 3) == q
               case ReadRegs(fc, _, q) => fc in {3, 4} && |e| == 5 && e[0] == fc && WordAt(e, 3) == q
               case WriteSingle(fc, _, v) => fc in {5, 6} && |e| == 5 && e[0] == fc && WordAt(e, 3) == v
               case WriteCoils(_, q, data) =>
                 e[0] == 15 && WordAt(e, 3) == q && |e| == 6 + (q + 7) / 8 && e[5] == (q + 7) / 8 && e[6..] == data
               case WriteRegs(_, values) =>
                 |e| >= 6 && e[0] == 16 && WordAt(e, 3) == |values| && e[5] == 2 * |values| && WordsFrom(e, 6, values)
               case ReadWrite(_, q, aw, values) =>
                 && |e| >= 10 && e[0] == 23 && WordAt(e, 3) == q && WordAt(e, 5) == aw && WordAt(e, 7) == |values|
                 && e[9] == 2 * |values| && WordsFrom(e, 10, values)
  {
    match r
    case WriteRegs(a, values) =>
      RegsLayout(a, values);
      RegBytesWords(Encode(r), 6, values);
    case ReadWrite(_, _, _, values) =>
      ReadWriteLayout(r);
      RegBytesWords(Encode(r), 10, values);
    case WriteCoils(_, _, data) =>
      assert Encode(r)[6..] == data;
    case _ =>
  }
}
