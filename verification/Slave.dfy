/**
 The Modbus slave: a request is read from a buffer, the application's callback is run, and the
 reply is written over the request in the same buffer. `Run` follows the dispatcher on that buffer;
 `Serve` says what the reply to a message is, without a buffer; the lemmas connect the two.
 */
module Slave {
  import opened Words
  import opened Memory
  import opened Pdu

  // ---------------------------------------------------------------- callbacks

  /** What a reading callback does: new application data, returned count, exception code, bytes stored. */
  datatype ReadOut<S> = ReadOut(app: S, count: uint16, exc: uint8, data: seq<uint8>)

  datatype WriteOut<S> = WriteOut(app: S, exc: uint8)

  type ReadFn<!S> = (S, uint16, uint16) -> ReadOut<S>
  type SingleFn<!S> = (S, uint16, seq<uint8>) -> WriteOut<S>
  type MultiFn<!S> = (S, uint16, uint16, uint8, seq<uint8>) -> WriteOut<S>

  /** `ciaaModbus_slaveCmd_type`: the callbacks of an application, each possibly missing. */
  datatype Handlers<!S> = Handlers(
    readCoils: Option<ReadFn<S>>, readInputs: Option<ReadFn<S>>,
    readHolding: Option<ReadFn<S>>, readInputRegs: Option<ReadFn<S>>,
    writeCoil: Option<SingleFn<S>>, writeReg: Option<SingleFn<S>>,
    writeCoils: Option<MultiFn<S>>, writeRegs: Option<MultiFn<S>>)

  /** A callback that was run, with its arguments. */
  datatype Call =
    | ReadCall(fc: uint8, address: uint16, quantity: uint16)
    | SingleCall(fc: uint8, address: uint16, value: seq<uint8>)
    | MultiCall(fc: uint8, address: uint16, quantity: uint16, byteCount: uint8, data: seq<uint8>)

  /** Bytes that hold `n` coils or registers. */
  function Packed(bits: bool, n: uint16): nat {
    if bits then CoilBytes(n) else 2 * n
  }

  /** A reading callback stores no more than what was asked for. */
  ghost predicate Contained<S(!new)>(f: Option<ReadFn<S>>, bits: bool) {
    f.Some? ==> forall s, a, q :: |f.value(s, a, q).data| <= Packed(bits, q)
  }

  /** It returns at most the requested count, and stores exactly that many values. */
  ghost predicate Honest<S(!new)>(f: Option<ReadFn<S>>, bits: bool) {
    f.Some? ==> forall s, a, q :: var o := f.value(s, a, q);
        o.count <= q && (o.exc == 0 ==> |o.data| == Packed(bits, o.count))
  }

  ghost predicate AllContained<S(!new)>(h: Handlers<S>) {
    Contained(h.readCoils, true) && Contained(h.readInputs, true)
    && Contained(h.readHolding, false) && Contained(h.readInputRegs, false)
  }

  ghost predicate AllHonest<S(!new)>(h: Handlers<S>) {
    && AllContained(h)
    && Honest(h.readCoils, true) && Honest(h.readInputs, true)
    && Honest(h.readHolding, false) && Honest(h.readInputRegs, false)
  }

  // ---------------------------------------------------------------- the dispatcher on a buffer

  const BUFFER := 256

  /** A step of the dispatcher: buffer, return value, exception code, application data, calls made. */
  datatype Served<S> = Served(buf: seq<uint8>, ret: nat, exc: uint8, app: S, calls: seq<Call>)

  /** Values written over the buffer from position `at`. */
  function Store(b: seq<uint8>, at: nat, data: seq<uint8>): (r: seq<uint8>)
    requires at + |data| <= |b|
    ensures |r| == |b| && r[at..at + |data|] == data && r[..at] == b[..at]
  {
    b[..at] + data + b[at + |data|..]
  }

  /** The byte count that is reported for `count` values, as an `uint8_t`. */
  function ByteCount(bits: bool, count: uint16): uint8 {
    Packed(bits, count) % 0x100
  }

  /** What a reading callback stored from position 2 on, with its byte count in front. */
  function Answer<S>(bits: bool, buf: seq<uint8>, o: ReadOut<S>, calls: seq<Call>): Served<S>
    requires |buf| == BUFFER && |o.data| <= BUFFER - 2
  {
    var n := ByteCount(bits, o.count);
    Served(Store(buf, 2, o.data)[1 := n], 2 + n, o.exc, o.app, calls)
  }

  function ReadCase<S(!new)>(f: Option<ReadFn<S>>, bits: bool, fc: uint8, app: S, buf: seq<uint8>, size: nat): Served<S>
    requires |buf| == BUFFER
    requires Contained(f, bits)
  {
    if f.None? then Served(buf, 0, FNC_NOT_SUPPORTED, app, [])
    else
      var q := ReadInt(buf, 3);
      if (if bits then 0x07D0 else 0x007D) < q || 1 > q || 5 != size then Served(buf, 0, WRONG_REG_QTY, app, [])
      else
        var a := ReadInt(buf, 1);
        Answer(bits, buf, f.value(app, a, q), [ReadCall(fc, a, q)])
  }

  function SingleCase<S>(f: Option<SingleFn<S>>, fc: uint8, app: S, buf: seq<uint8>, size: nat): Served<S>
    requires |buf| == BUFFER
  {
    if f.None? then Served(buf, 0, FNC_NOT_SUPPORTED, app, [])
    else
      var v := ReadInt(buf, 3);
      if (fc == WRITE_SINGLE_COIL && v != 0 && v != 0xFF00) || 5 != size then Served(buf, 0, WRONG_REG_QTY, app, [])
      else
        var a := ReadInt(buf, 1);
        var o := f.value(app, a, buf[3..5]);
        Served(buf, 5, o.exc, o.app, [SingleCall(fc, a, buf[3..5])])
  }

  /** The byte count computed from a quantity, as an `uint16_t`. */
  function ExpectedBytes(bits: bool, q: uint16): uint16 {
    Packed(bits, q) % 0x1_0000
  }

  function MultiCase<S>(f: Option<MultiFn<S>>, bits: bool, fc: uint8, app: S, buf: seq<uint8>, size: nat): Served<S>
    requires |buf| == BUFFER && size <= BUFFER
  {
    if f.None? then Served(buf, 0, FNC_NOT_SUPPORTED, app, [])
    else
      var a, q := ReadInt(buf, 1), ReadInt(buf, 3);
      var n := ExpectedBytes(bits, q);
      if (if bits then 0x07B0 else 0x007B) < q || 1 > q || n != buf[5] || 6 + n != size
      then Served(buf, 0, WRONG_REG_QTY, app, [])
      else
        var o := f.value(app, a, q, n, buf[6..6 + n]);
        Served(buf, 5, o.exc, o.app, [MultiCall(fc, a, q, n, buf[6..6 + n])])
  }

  function ReadWriteCase<S(!new)>(w: Option<MultiFn<S>>, f: Option<ReadFn<S>>, app: S, buf: seq<uint8>,
      size: nat): Served<S>
    requires |buf| == BUFFER && size <= BUFFER
    requires Contained(f, false)
  {
    if f.None? || w.None? then Served(buf, 0, FNC_NOT_SUPPORTED, app, [])
    else
      var a, q, aw, qw := ReadInt(buf, 1), ReadInt(buf, 3), ReadInt(buf, 5), ReadInt(buf, 7);
      var n := ExpectedBytes(false, qw);
      if 0x007D < q || 1 > q || 0x0079 < qw || 1 > qw || n != buf[9] || 10 + n != size
      then Served(buf, 0, WRONG_REG_QTY, app, [])
      else
        var call := MultiCall(WRITE_MULTIPLE_REGISTERS, aw, qw, n, buf[10..10 + n]);
        var o := w.value(app, aw, qw, n, buf[10..10 + n]);
        if o.exc != 0 then Served(buf, 0, o.exc, o.app, [call])
        else
          Answer(false, buf, f.value(o.app, a, q), [call, ReadCall(READ_HOLDING_REGISTERS, a, q)])
  }

  function Dispatch<S(!new)>(h: Handlers<S>, app: S, buf: seq<uint8>, size: nat): (s: Served<S>)
    requires |buf| == BUFFER && size <= BUFFER && AllContained(h)
    ensures |s.buf| == BUFFER
  {
    var fc := buf[0];
    if size == 0 then Served(buf, 0, NO_ERROR, app, [])
    else if fc == READ_COILS then ReadCase(h.readCoils, true, fc, app, buf, size)
    else if fc == READ_DISCRETE_INPUTS then ReadCase(h.readInputs, true, fc, app, buf, size)
    else if fc == READ_HOLDING_REGISTERS then ReadCase(h.readHolding, false, fc, app, buf, size)
    else if fc == READ_INPUT_REGISTERS then ReadCase(h.readInputRegs, false, fc, app, buf, size)
    else if fc == WRITE_SINGLE_COIL then SingleCase(h.writeCoil, fc, app, buf, size)
    else if fc == WRITE_SINGLE_REGISTER then SingleCase(h.writeReg, fc, app, buf, size)
    else if fc == WRITE_MULTIPLE_COILS then MultiCase(h.writeCoils, true, fc, app, buf, size)
    else if fc == WRITE_MULTIPLE_REGISTERS then MultiCase(h.writeRegs, false, fc, app, buf, size)
    else if fc == READ_WRITE_REGISTERS then ReadWriteCase(h.writeRegs, h.readHolding, app, buf, size)
    else Served(buf, 0, FNC_NOT_SUPPORTED, app, [])
  }

  /** The buffer, size and application data a run of `ciaaModbus_slaveTask` leaves, and the calls it makes. */
  datatype Outcome<S> = Outcome(buf: seq<uint8>, size: nat, app: S, calls: seq<Call>)

  function Finish<S>(s: Served<S>): (o: Outcome<S>)
    requires |s.buf| == BUFFER
    ensures |o.buf| == BUFFER
  {
    if s.exc != 0 then Outcome(s.buf[0 := WithErrorFlag(s.buf[0])][1 := s.exc], 2, s.app, s.calls)
    else Outcome(s.buf, s.ret, s.app, s.calls)
  }

  function Run<S(!new)>(h: Handlers<S>, app: S, buf: seq<uint8>, size: nat): (o: Outcome<S>)
    requires |buf| == BUFFER && size <= BUFFER && AllContained(h)
    ensures |o.buf| == BUFFER
  {
    Finish(Dispatch(h, app, buf, size))
  }

  // ---------------------------------------------------------------- the reply to a message

  datatype Reply<S> = Reply(pdu: seq<uint8>, app: S, calls: seq<Call>)

  function Exception<S>(fc: uint8, code: uint8, app: S, calls: seq<Call>): Reply<S> {
    Reply([WithErrorFlag(fc), code], app, calls)
  }

  predicate Supported<S>(h: Handlers<S>, fc: uint8) {
    || (fc == READ_COILS && h.readCoils.Some?) || (fc == READ_DISCRETE_INPUTS && h.readInputs.Some?)
    || (fc == READ_HOLDING_REGISTERS && h.readHolding.Some?) || (fc == READ_INPUT_REGISTERS && h.readInputRegs.Some?)
    || (fc == WRITE_SINGLE_COIL && h.writeCoil.Some?) || (fc == WRITE_SINGLE_REGISTER && h.writeReg.Some?)
    || (fc == WRITE_MULTIPLE_COILS && h.writeCoils.Some?) || (fc == WRITE_MULTIPLE_REGISTERS && h.writeRegs.Some?)
    || (fc == READ_WRITE_REGISTERS && h.readHolding.Some? && h.writeRegs.Some?)
  }

  /** Reply of a reading function: function code, byte count, values. */
  function ReadReply<S>(fc: uint8, o: ReadOut<S>, calls: seq<Call>): Reply<S> {
    if o.exc != 0 then Exception(fc, o.exc, o.app, calls)
    else Reply([fc, |o.data| % 0x100] + o.data, o.app, calls)
  }

  /** Reply of a writing function: the first five bytes of the request. */
  function WriteReply<S>(r: Request, o: WriteOut<S>, calls: seq<Call>): Reply<S>
    requires WellFormed(r)
  {
    if o.exc != 0 then Exception(FunctionCode(r), o.exc, o.app, calls)
    else Reply(Encode(r)[..5], o.app, calls)
  }

  /** A well-formed request of a supported function: the callback's results, sent back. */
  function Perform<S>(h: Handlers<S>, app: S, r: Request): Reply<S>
    requires WellFormed(r) && Supported(h, FunctionCode(r))
  {
    match r
    case ReadBits(fc, a, q) =>
      ReadReply(fc, (if fc == READ_COILS then h.readCoils else h.readInputs).value(app, a, q), [ReadCall(fc, a, q)])
    case ReadRegs(fc, a, q) =>
      ReadReply(fc, (if fc == READ_HOLDING_REGISTERS then h.readHolding else h.readInputRegs).value(app, a, q),
          [ReadCall(fc, a, q)])
    case WriteSingle(fc, a, v) =>
      WriteReply(r, (if fc == WRITE_SINGLE_COIL then h.writeCoil else h.writeReg).value(app, a, IntBytes(v)),
                 [SingleCall(fc, a, IntBytes(v))])
    case WriteCoils(a, q, data) =>
      WriteReply(r, h.writeCoils.value(app, a, q, |data|, data), [MultiCall(WRITE_MULTIPLE_COILS, a, q, |data|, data)])
    case WriteRegs(a, values) =>
      var data := RegBytes(values);
      WriteReply(r, h.writeRegs.value(app, a, |values|, |data|, data),
                 [MultiCall(WRITE_MULTIPLE_REGISTERS, a, |values|, |data|, data)])
    case ReadWrite(a, q, aw, values) =>
      var data := RegBytes(values);
      var call := MultiCall(WRITE_MULTIPLE_REGISTERS, aw, |values|, |data|, data);
      var o := h.writeRegs.value(app, aw, |values|, |data|, data);
      if o.exc != 0 then Exception(READ_WRITE_REGISTERS, o.exc, o.app, [call])
      else ReadReply(READ_WRITE_REGISTERS, h.readHolding.value(o.app, a, q),
          [call, ReadCall(READ_HOLDING_REGISTERS, a, q)])
  }

  /** The reply to any message: performed if it is a request in the protocol limits, refused otherwise. */
  function Serve<S>(h: Handlers<S>, app: S, pdu: seq<uint8>): Reply<S>
    requires pdu != []
  {
    if !Supported(h, pdu[0]) then Exception(pdu[0], FNC_NOT_SUPPORTED, app, [])
    else match Parse(pdu)
      case None => Exception(pdu[0], WRONG_REG_QTY, app, [])
      case Some(r) => ParseIffEncoded(pdu, r); Perform(h, app, r)
  }

  // ---------------------------------------------------------------- the buffer does what the message says

  lemma {:induction false} HeadInBuffer(buf: seq<uint8>, size: nat, at: nat)
    requires size <= |buf| && at + 1 < size
    ensures ReadInt(buf, at) == ReadInt(buf[..size], at)
  {
  }

  lemma {:induction false} ReadCaseServes<S(!new)>(f: Option<ReadFn<S>>, bits: bool, fc: uint8, app: S,
      buf: seq<uint8>, size: nat)
    requires |buf| == BUFFER && 1 <= size <= BUFFER && Contained(f, bits) && Honest(f, bits) && f.Some?
    requires buf[0] == fc && (if bits then fc == READ_COILS || fc == READ_DISCRETE_INPUTS
                              else fc == READ_HOLDING_REGISTERS || fc == READ_INPUT_REGISTERS)
    ensures var o := Finish(ReadCase(f, bits, fc, app, buf, size));
            o.size <= BUFFER && match Parse(buf[..size])
            case None => Reply(o.buf[..o.size], o.app, o.calls) == Exception(fc, WRONG_REG_QTY, app, [])
            case Some(r) =>
              && (if bits then r.ReadBits? else r.ReadRegs?) && r.fc == fc
              && Reply(o.buf[..o.size], o.app, o.calls)
                 == ReadReply(fc, f.value(app, r.address, r.quantity), [ReadCall(fc, r.address, r.quantity)])
  {
    if size == 5 && 1 <= ReadInt(buf, 3) <= if bits then 0x07D0 else 0x007D {
      var a, q := ReadInt(buf, 1), ReadInt(buf, 3);
      AnswerIsReply(bits, buf, f.value(app, a, q), [ReadCall(fc, a, q)]);
    }
  }

  lemma {:induction false} AnswerIsReply<S>(bits: bool, buf: seq<uint8>, o: ReadOut<S>, calls: seq<Call>)
    requires |buf| == BUFFER && |o.data| <= BUFFER - 2
    requires o.exc == 0 ==> |o.data| == Packed(bits, o.count)
    ensures var t := Finish(Answer(bits, buf, o, calls));
            t.size <= BUFFER && Reply(t.buf[..t.size], t.app, t.calls) == ReadReply(buf[0], o, calls)
  {
    if o.exc == 0 {
      var n := |o.data|;
      var t := Store(buf, 2, o.data);
      assert t[1 := n][..2 + n] == [buf[0], n] + o.data by {
        assert t[2..2 + n] == o.data && t[..2][0] == buf[0];
      }
    }
  }

  lemma {:induction false} SingleFields(buf: seq<uint8>, size: nat, r: Request)
    requires |buf| == BUFFER && size <= BUFFER && WellFormed(r) && r.WriteSingle? && buf[..size] == Encode(r)
    ensures size == 5 && Encode(r)[..5] == buf[..5] && buf[3..5] == IntBytes(r.value)
    ensures ReadInt(buf, 1) == r.address && ReadInt(buf, 3) == r.value
  {
    assert buf[1..3] == Encode(r)[1..3] == IntBytes(r.address) && buf[3..5] == Encode(r)[3..5] == IntBytes(r.value);
    ReadIntOfIntBytes(buf, 1, r.address);
    ReadIntOfIntBytes(buf, 3, r.value);
  }

  lemma {:induction false} SingleCaseServes<S>(f: Option<SingleFn<S>>, fc: uint8, app: S, buf: seq<uint8>, size: nat)
    requires |buf| == BUFFER && 1 <= size <= BUFFER && f.Some?
    requires buf[0] == fc && (fc == WRITE_SINGLE_COIL || fc == WRITE_SINGLE_REGISTER)
    ensures var o := Finish(SingleCase(f, fc, app, buf, size));
            o.size <= BUFFER && match Parse(buf[..size])
            case None => Reply(o.buf[..o.size], o.app, o.calls) == Exception(fc, WRONG_REG_QTY, app, [])
            case Some(r) =>
              && r.WriteSingle? && r.fc == fc && WellFormed(r)
              && Reply(o.buf[..o.size], o.app, o.calls)
                 == WriteReply(r, f.value(app, r.address, IntBytes(r.value)),
                     [SingleCall(fc, r.address, IntBytes(r.value))])
  {
    if Parse(buf[..size]).Some? {
      var r := Parse(buf[..size]).value;
      ParseIffEncoded(buf[..size], r);
      SingleFields(buf, size, r);
    }
  }

  lemma {:induction false} MultiCaseServes<S>(f: Option<MultiFn<S>>, bits: bool, fc: uint8, app: S, buf: seq<uint8>,
      size: nat)
    requires |buf| == BUFFER && 1 <= size <= BUFFER && f.Some?
    requires buf[0] == fc && fc == if bits then WRITE_MULTIPLE_COILS else WRITE_MULTIPLE_REGISTERS
    ensures var o := Finish(MultiCase(f, bits, fc, app, buf, size));
            o.size <= BUFFER && match Parse(buf[..size])
            case None => Reply(o.buf[..o.size], o.app, o.calls) == Exception(fc, WRONG_REG_QTY, app, [])
            case Some(r) =>
              && WellFormed(r) && (if bits then r.WriteCoils? else r.WriteRegs?)
              && var q, data := WrittenCount(r), WrittenData(r);
              Reply(o.buf[..o.size], o.app, o.calls)
              == WriteReply(r, f.value(app, r.address, q, |data|, data), [MultiCall(fc, r.address, q, |data|, data)])
  {
    MultiParsed(bits, buf, size);
    if Parse(buf[..size]).Some? {
      MultiFields(bits, buf, size);
      MultiAccepted(f, bits, fc, app, buf, size, Parse(buf[..size]).value);
    }
  }

  /** The quantity and the data of a writing request. */
  function WrittenCount(r: Request): uint16
    requires WellFormed(r) && (r.WriteCoils? || r.WriteRegs?)
  {
    if r.WriteCoils? then r.quantity else |r.values|
  }

  function WrittenData(r: Request): (data: seq<uint8>)
    requires WellFormed(r) && (r.WriteCoils? || r.WriteRegs?)
    ensures |data| == Packed(r.WriteCoils?, WrittenCount(r)) <= 246
  {
    if r.WriteCoils? then r.data else RegBytes(r.values)
  }

  /** The fields of an accepted writing request, found in the buffer. */
  lemma {:induction false} MultiFields(bits: bool, buf: seq<uint8>, size: nat)
    requires |buf| == BUFFER && 1 <= size <= BUFFER
    requires buf[0] == if bits then WRITE_MULTIPLE_COILS else WRITE_MULTIPLE_REGISTERS
    requires Parse(buf[..size]).Some?
    ensures var r := Parse(buf[..size]).value;
            && WellFormed(r) && (if bits then r.WriteCoils? else r.WriteRegs?) && Encode(r)[..5] == buf[..5]
            && size == 6 + |WrittenData(r)| && buf[5] == |WrittenData(r)| && buf[6..size] == WrittenData(r)
            && ReadInt(buf, 1) == r.address && ReadInt(buf, 3) == WrittenCount(r)
  {
    if bits {
      CoilFields(buf, size);
    } else {
      RegFields(buf, size);
    }
  }

  lemma {:induction false} CoilFields(buf: seq<uint8>, size: nat)
    requires |buf| == BUFFER && 1 <= size <= BUFFER && buf[0] == WRITE_MULTIPLE_COILS && Parse(buf[..size]).Some?
    ensures var r := Parse(buf[..size]).value;
            && WellFormed(r) && r.WriteCoils? && Encode(r)[..5] == buf[..5]
            && size == 6 + |r.data| && buf[5] == |r.data| && buf[6..size] == r.data
            && ReadInt(buf, 1) == r.address && ReadInt(buf, 3) == r.quantity
  {
    var pdu := buf[..size];
    ParseIffEncoded(pdu, Parse(pdu).value);
    assert buf[6..size] == pdu[6..] && buf[..5] == pdu[..5];
  }

  lemma {:induction false} RegFields(buf: seq<uint8>, size: nat)
    requires |buf| == BUFFER && 1 <= size <= BUFFER && buf[0] == WRITE_MULTIPLE_REGISTERS && Parse(buf[..size]).Some?
    ensures var r := Parse(buf[..size]).value;
            && WellFormed(r) && r.WriteRegs? && Encode(r)[..5] == buf[..5]
            && size == 6 + 2 * |r.values| && buf[5] == 2 * |r.values| && buf[6..size] == RegBytes(r.values)
            && ReadInt(buf, 1) == r.address && ReadInt(buf, 3) == |r.values|
  {
    ParseIffEncoded(buf[..size], Parse(buf[..size]).value);
    EncodedRegFields(buf, size, Parse(buf[..size]).value);
  }

  lemma {:induction false} EncodedRegFields(buf: seq<uint8>, size: nat, r: Request)
    requires |buf| == BUFFER && size <= BUFFER && WellFormed(r) && r.WriteRegs? && buf[..size] == Encode(r)
    ensures Encode(r)[..5] == buf[..5] && ReadInt(buf, 1) == r.address && ReadInt(buf, 3) == |r.values|
    ensures size == 6 + 2 * |r.values| && buf[5] == 2 * |r.values| && buf[6..size] == RegBytes(r.values)
  {
    var pdu := buf[..size];
    RegsLayout(r.address, r.values);
    assert buf[6..size] == pdu[6..] && buf[..5] == pdu[..5] && buf[5] == pdu[5];
    HeadInBuffer(buf, size, 1);
    HeadInBuffer(buf, size, 3);
  }

  lemma {:induction false} MultiAccepted<S>(f: Option<MultiFn<S>>, bits: bool, fc: uint8, app: S, buf: seq<uint8>,
      size: nat, r: Request)
    requires |buf| == BUFFER && f.Some? && buf[0] == fc && fc == if bits then WRITE_MULTIPLE_COILS
        else WRITE_MULTIPLE_REGISTERS
    requires WellFormed(r) && (if bits then r.WriteCoils? else r.WriteRegs?) && Encode(r)[..5] == buf[..5]
    requires size == 6 + |WrittenData(r)| && buf[5] == |WrittenData(r)| && buf[6..size] == WrittenData(r)
    requires ReadInt(buf, 1) == r.address && ReadInt(buf, 3) == WrittenCount(r)
    ensures var o := Finish(MultiCase(f, bits, fc, app, buf, size));
            var q, data := WrittenCount(r), WrittenData(r);
            && o.size <= BUFFER
            && Reply(o.buf[..o.size], o.app, o.calls)
               == WriteReply(r, f.value(app, r.address, q, |data|, data), [MultiCall(fc, r.address, q, |data|, data)])
  {
    var n := |WrittenData(r)|;
    assert ExpectedBytes(bits, WrittenCount(r)) == n;
    var w := f.value(app, r.address, WrittenCount(r), n, WrittenData(r));
    var calls := [MultiCall(fc, r.address, WrittenCount(r), n, WrittenData(r))];
    MultiCaseIs(f, bits, fc, app, buf, size, WrittenCount(r), WrittenData(r));
    EchoIsReply(buf, r, w, calls);
  }

  lemma {:induction false} MultiCaseIs<S>(f: Option<MultiFn<S>>, bits: bool, fc: uint8, app: S, buf: seq<uint8>,
      size: nat, q: uint16, data: seq<uint8>)
    requires |buf| == BUFFER && f.Some? && ReadInt(buf, 3) == q && 1 <= q <= if bits then 0x07B0 else 0x007B
    requires |data| == ExpectedBytes(bits, q) && buf[5] == |data| && size == 6 + |data| <= BUFFER
        && buf[6..size] == data
    ensures var a := ReadInt(buf, 1); var w := f.value(app, a, q, |data|, data);
            MultiCase(f, bits, fc, app, buf, size) == Served(buf, 5, w.exc, w.app, [MultiCall(fc, a, q, |data|, data)])
  {
  }

  lemma {:induction false} EchoIsReply<S>(buf: seq<uint8>, r: Request, w: WriteOut<S>, calls: seq<Call>)
    requires |buf| == BUFFER && WellFormed(r) && Encode(r)[..5] == buf[..5]
    ensures var o := Finish(Served(buf, 5, w.exc, w.app, calls));
            o.size <= BUFFER && Reply(o.buf[..o.size], o.app, o.calls) == WriteReply(r, w, calls)
  {
    assert buf[0] == Encode(r)[..5][0];
    if w.exc != 0 {
      assert buf[0 := WithErrorFlag(buf[0])][1 := w.exc][..2] == [WithErrorFlag(buf[0]), w.exc];
    }
  }

  /** The dispatcher's test for a writing request is the parser's. */
  lemma {:induction false} MultiParsed(bits: bool, buf: seq<uint8>, size: nat)
    requires |buf| == BUFFER && 1 <= size <= BUFFER
    requires buf[0] == if bits then WRITE_MULTIPLE_COILS else WRITE_MULTIPLE_REGISTERS
    ensures var q := ReadInt(buf, 3); var n := ExpectedBytes(bits, q);
            Parse(buf[..size]).Some? <==>
            !((if bits then 0x07B0 else 0x007B) < q || 1 > q || n != buf[5] || 6 + n != size)
  {
  }

  lemma {:induction false} ReadWriteParsed(buf: seq<uint8>, size: nat)
    requires |buf| == BUFFER && 1 <= size <= BUFFER && buf[0] == READ_WRITE_REGISTERS
    ensures var q, qw := ReadInt(buf, 3), ReadInt(buf, 7); var n := ExpectedBytes(false, qw);
            Parse(buf[..size]).Some? <==>
            !(0x007D < q || 1 > q || 0x0079 < qw || 1 > qw || n != buf[9] || 10 + n != size)
  {
  }

  /** The fields of an accepted read/write request, found in the buffer. */
  lemma {:induction false} ReadWriteFields(buf: seq<uint8>, size: nat)
    requires |buf| == BUFFER && 1 <= size <= BUFFER && buf[0] == READ_WRITE_REGISTERS
    requires Parse(buf[..size]).Some?
    ensures var r := Parse(buf[..size]).value; var n := 2 * |r.values|;
            && r.ReadWrite? && WellFormed(r) && size == 10 + n && buf[9] == n && buf[10..size] == RegBytes(r.values)
            && ReadInt(buf, 1) == r.address && ReadInt(buf, 3) == r.quantity
            && ReadInt(buf, 5) == r.addressW && ReadInt(buf, 7) == |r.values|
  {
    var pdu := buf[..size];
    ParseIffEncoded(pdu, Parse(pdu).value);
    RegBytesOfRegsOf(pdu[10..]);
    assert buf[10..size] == pdu[10..];
  }

  lemma {:induction false} ReadWriteAccepted<S(!new)>(h: Handlers<S>, app: S, buf: seq<uint8>, size: nat, r: Request)
    requires |buf| == BUFFER && AllHonest(h) && h.readHolding.Some? && h.writeRegs.Some?
    requires r.ReadWrite? && WellFormed(r) && size == 10 + 2 * |r.values| && buf[0] == READ_WRITE_REGISTERS
    requires buf[9] == 2 * |r.values| && buf[10..size] == RegBytes(r.values)
    requires ReadInt(buf, 1) == r.address && ReadInt(buf, 3) == r.quantity
    requires ReadInt(buf, 5) == r.addressW && ReadInt(buf, 7) == |r.values|
    ensures var o := Finish(ReadWriteCase(h.writeRegs, h.readHolding, app, buf, size));
            o.size <= BUFFER && Reply(o.buf[..o.size], o.app, o.calls) == Perform(h, app, r)
  {
    var n := 2 * |r.values|;
    assert ExpectedBytes(false, |r.values|) == n;
    var data := RegBytes(r.values);
    var call := MultiCall(WRITE_MULTIPLE_REGISTERS, r.addressW, |r.values|, n, data);
    var o := h.writeRegs.value(app, r.addressW, |r.values|, n, data);
    if o.exc == 0 {
      var p := h.readHolding.value(o.app, r.address, r.quantity);
      AnswerIsReply(false, buf, p, [call, ReadCall(READ_HOLDING_REGISTERS, r.address, r.quantity)]);
    }
  }

  lemma {:induction false} ReadWriteCaseServes<S(!new)>(h: Handlers<S>, app: S, buf: seq<uint8>, size: nat)
    requires |buf| == BUFFER && 1 <= size <= BUFFER && AllHonest(h) && h.readHolding.Some? && h.writeRegs.Some?
    requires buf[0] == READ_WRITE_REGISTERS
    ensures var o := Finish(ReadWriteCase(h.writeRegs, h.readHolding, app, buf, size));
            o.size <= BUFFER && Reply(o.buf[..o.size], o.app, o.calls) == Serve(h, app, buf[..size])
  {
    ReadWriteParsed(buf, size);
    if Parse(buf[..size]).Some? {
      ReadWriteFields(buf, size);
      ReadWriteAccepted(h, app, buf, size, Parse(buf[..size]).value);
    }
  }

  /** One run of the slave task leaves in the buffer the reply to the message, and nothing else matters. */
  lemma {:induction false} RunServes<S(!new)>(h: Handlers<S>, app: S, buf: seq<uint8>, size: nat)
    requires |buf| == BUFFER && 1 <= size <= BUFFER && AllHonest(h)
    ensures var o := Run(h, app, buf, size);
            o.size <= BUFFER && Reply(o.buf[..o.size], o.app, o.calls) == Serve(h, app, buf[..size])
  {
    var fc, pdu := buf[0], buf[..size];
    assert pdu[0] == fc;
    if !Supported(h, fc) {
      assert Dispatch(h, app, buf, size) == Served(buf, 0, FNC_NOT_SUPPORTED, app, []);
    } else if fc == READ_COILS || fc == READ_DISCRETE_INPUTS {
      ReadCaseServes(if fc == READ_COILS then h.readCoils else h.readInputs, true, fc, app, buf, size);
    } else if fc == READ_HOLDING_REGISTERS || fc == READ_INPUT_REGISTERS {
      ReadCaseServes(if fc == READ_HOLDING_REGISTERS then h.readHolding
          else h.readInputRegs, false, fc, app, buf, size);
    } else if fc == WRITE_SINGLE_COIL || fc == WRITE_SINGLE_REGISTER {
      SingleCaseServes(if fc == WRITE_SINGLE_COIL then h.writeCoil else h.writeReg, fc, app, buf, size);
    } else if fc == WRITE_MULTIPLE_COILS {
      MultiCaseServes(h.writeCoils, true, fc, app, buf, size);
    } else if fc == WRITE_MULTIPLE_REGISTERS {
      MultiCaseServes(h.writeRegs, false, fc, app, buf, size);
    } else {
      ReadWriteCaseServes(h, app, buf, size);
    }
  }

  /** A PDU of legal size that carries the function code, or that code with bit 7 set and an exception code. */
  predicate Bounded(reply: seq<uint8>, fc: uint8) {
    && 2 <= |reply| <= 252
    && (reply[0] == fc || (|reply| == 2 && reply[0] == fc % 0x80 + 0x80 && reply[1] != 0))
  }

  /** Every reply to a message is bounded so. */
  lemma {:induction false} ReplyBounds<S(!new)>(h: Handlers<S>, app: S, pdu: seq<uint8>)
    requires pdu != [] && AllHonest(h)
    ensures Bounded(Serve(h, app, pdu).pdu, pdu[0])
  {
    if Supported(h, pdu[0]) && Parse(pdu).Some? {
      var r := Parse(pdu).value;
      ParseIffEncoded(pdu, r);
      PerformBounds(h, app, r);
    }
  }

  lemma {:induction false} PerformBounds<S(!new)>(h: Handlers<S>, app: S, r: Request)
    requires WellFormed(r) && Supported(h, FunctionCode(r)) && AllHonest(h)
    ensures Bounded(Perform(h, app, r).pdu, FunctionCode(r))
  {
    match r
    case ReadWrite(a, q, aw, values) =>
      var data := RegBytes(values);
      var o := h.writeRegs.value(app, aw, |values|, |data|, data);
      if o.exc == 0 {
        ReadBounds(READ_WRITE_REGISTERS, h.readHolding, false, o.app, a, q, Perform(h, app, r).calls);
      }
    case ReadBits(fc, a, q) => ReadBounds(fc, if fc == READ_COILS then h.readCoils
        else h.readInputs, true, app, a, q, Perform(h, app, r).calls);
    case ReadRegs(fc, a, q) =>
      ReadBounds(fc, if fc == READ_HOLDING_REGISTERS then h.readHolding
          else h.readInputRegs, false, app, a, q, Perform(h, app, r).calls);
    case WriteSingle(_, _, _) =>
    case WriteCoils(_, _, _) =>
    case WriteRegs(_, _) =>
  }

  lemma {:induction false} ReadBounds<S(!new)>(fc: uint8, f: Option<ReadFn<S>>, bits: bool, app: S, a: uint16,
      q: uint16, calls: seq<Call>)
    requires f.Some? && Contained(f, bits) && Packed(bits, q) <= 250
    ensures Bounded(ReadReply(fc, f.value(app, a, q), calls).pdu, fc)
  {
    assert |f.value(app, a, q).data| <= Packed(bits, q);
  }

  // ---------------------------------------------------------------- bytes beyond the message

  /** Size, function and second byte of the reply, application data and calls made. */
  predicate SameVisible<S(==)>(a: Outcome<S>, b: Outcome<S>) {
    && |a.buf| >= 2 && |b.buf| >= 2 && a.size == b.size >= 2 && a.buf[0] == b.buf[0] && a.buf[1] == b.buf[1]
    && a.app == b.app && a.calls == b.calls
  }

  predicate SameMessage(a: seq<uint8>, b: seq<uint8>, size: nat) {
    |a| == |b| == BUFFER && 1 <= size <= BUFFER && a[..size] == b[..size]
  }

  lemma {:induction false} SameHead(a: seq<uint8>, b: seq<uint8>, size: nat, at: nat)
    requires SameMessage(a, b, size) && at < size
    ensures a[at] == b[at]
  {
    assert a[..size][at] == b[..size][at];
  }

  lemma {:induction false} SameInt(a: seq<uint8>, b: seq<uint8>, size: nat, at: nat)
    requires SameMessage(a, b, size) && at + 1 < size
    ensures ReadInt(a, at) == ReadInt(b, at)
  {
    SameHead(a, b, size, at);
    SameHead(a, b, size, at + 1);
  }

  lemma {:induction false} SameRead<S(!new)>(f: Option<ReadFn<S>>, bits: bool, fc: uint8, app: S, a: seq<uint8>,
      b: seq<uint8>, size: nat)
    requires SameMessage(a, b, size) && Contained(f, bits)
    ensures SameVisible(Finish(ReadCase(f, bits, fc, app, a, size)), Finish(ReadCase(f, bits, fc, app, b, size)))
  {
    SameHead(a, b, size, 0);
    if size == 5 {
      SameInt(a, b, size, 1);
      SameInt(a, b, size, 3);
    }
  }

  lemma {:induction false} SameSingle<S>(f: Option<SingleFn<S>>, fc: uint8, app: S, a: seq<uint8>, b: seq<uint8>,
      size: nat)
    requires SameMessage(a, b, size)
    ensures SameVisible(Finish(SingleCase(f, fc, app, a, size)), Finish(SingleCase(f, fc, app, b, size)))
  {
    SameHead(a, b, size, 0);
    if size == 5 {
      SameHead(a, b, size, 1);
      SameInt(a, b, size, 1);
      SameInt(a, b, size, 3);
      assert a[3..5] == a[..size][3..5] == b[3..5];
    }
  }

  lemma {:induction false} SameMulti<S>(f: Option<MultiFn<S>>, bits: bool, fc: uint8, app: S, a: seq<uint8>,
      b: seq<uint8>, size: nat)
    requires SameMessage(a, b, size)
    ensures SameVisible(Finish(MultiCase(f, bits, fc, app, a, size)), Finish(MultiCase(f, bits, fc, app, b, size)))
  {
    SameHead(a, b, size, 0);
    if size >= 6 {
      SameHead(a, b, size, 1);
      SameInt(a, b, size, 1);
      SameInt(a, b, size, 3);
      SameHead(a, b, size, 5);
      assert a[6..size] == a[..size][6..] == b[6..size];
    }
  }

  lemma {:induction false} SameReadWrite<S(!new)>(w: Option<MultiFn<S>>, f: Option<ReadFn<S>>, app: S, a: seq<uint8>,
      b: seq<uint8>, size: nat)
    requires SameMessage(a, b, size) && Contained(f, false)
    ensures SameVisible(Finish(ReadWriteCase(w, f, app, a, size)), Finish(ReadWriteCase(w, f, app, b, size)))
  {
    SameHead(a, b, size, 0);
    if size >= 10 {
      SameHead(a, b, size, 1);
      SameFields(a, b, size);
      if w.Some? && f.Some? {
        SameReadPart(w, f, app, a, b, size);
      }
    }
  }

  /** When the request is accepted and the write succeeds, the reading part answers both alike. */
  lemma {:induction false} SameReadPart<S(!new)>(w: Option<MultiFn<S>>, f: Option<ReadFn<S>>, app: S, a: seq<uint8>,
      b: seq<uint8>, size: nat)
    requires SameMessage(a, b, size) && size >= 10 && Contained(f, false) && w.Some? && f.Some?
    ensures var n := ExpectedBytes(false, ReadInt(a, 7));
            size - 10 == n && n < 0x100 && Packed(false, ReadInt(a, 3)) <= BUFFER - 2 ==>
              var p := f.value(w.value(app, ReadInt(a, 5), ReadInt(a, 7), n, a[10..size]).app, ReadInt(a, 1),
                  ReadInt(a, 3));
              var calls := ReadWriteCase(w, f, app, a, size).calls;
              |p.data| <= BUFFER - 2 && SameVisible(Finish(Answer(false, a, p, calls)),
                  Finish(Answer(false, b, p, calls)))
  {
    SameHead(a, b, size, 0);
    var n := ExpectedBytes(false, ReadInt(a, 7));
    if size - 10 == n && n < 0x100 && Packed(false, ReadInt(a, 3)) <= BUFFER - 2 {
      var o := w.value(app, ReadInt(a, 5), ReadInt(a, 7), n, a[10..size]);
      SameAnswer(false, a, b, f.value(o.app, ReadInt(a, 1), ReadInt(a, 3)), ReadWriteCase(w, f, app, a, size).calls);
    }
  }

  lemma {:induction false} SameFields(a: seq<uint8>, b: seq<uint8>, size: nat)
    requires SameMessage(a, b, size) && size >= 10
    ensures ReadInt(a, 1) == ReadInt(b, 1) && ReadInt(a, 3) == ReadInt(b, 3)
    ensures ReadInt(a, 5) == ReadInt(b, 5) && ReadInt(a, 7) == ReadInt(b, 7)
    ensures a[9] == b[9] && a[10..size] == b[10..size]
  {
    SameInt(a, b, size, 1);
    SameInt(a, b, size, 3);
    SameInt(a, b, size, 5);
    SameInt(a, b, size, 7);
    SameHead(a, b, size, 9);
    assert a[10..size] == a[..size][10..] == b[10..size];
  }

  lemma {:induction false} SameAnswer<S>(bits: bool, a: seq<uint8>, b: seq<uint8>, o: ReadOut<S>, calls: seq<Call>)
    requires |a| == |b| == BUFFER && |o.data| <= BUFFER - 2 && a[0] == b[0]
    ensures SameVisible(Finish(Answer(bits, a, o, calls)), Finish(Answer(bits, b, o, calls)))
  {
    assert Store(a, 2, o.data)[..2][0] == a[0] && Store(b, 2, o.data)[..2][0] == b[0];
  }

  /**
   Bytes left in the buffer behind the message never change the reply's size, its function and
   second byte, or which callbacks are run on what: callbacks need only keep to their own bytes.
   With no message there is no reply, and nothing is called.
   */
  lemma {:induction false} LeftoverIrrelevant<S(!new)>(h: Handlers<S>, app: S, a: seq<uint8>, b: seq<uint8>, size: nat)
    requires |a| == |b| == BUFFER && size <= BUFFER && a[..size] == b[..size] && AllContained(h)
    ensures size == 0 ==> Run(h, app, a, size) == Outcome(a, 0, app, [])
    ensures size > 0 ==> SameVisible(Run(h, app, a, size), Run(h, app, b, size))
  {
    if size == 0 {
      return;
    }
    SameHead(a, b, size, 0);
    var fc := a[0];
    if fc == READ_COILS { SameRead(h.readCoils, true, fc, app, a, b, size); }
    else if fc == READ_DISCRETE_INPUTS { SameRead(h.readInputs, true, fc, app, a, b, size); }
    else if fc == READ_HOLDING_REGISTERS { SameRead(h.readHolding, false, fc, app, a, b, size); }
    else if fc == READ_INPUT_REGISTERS { SameRead(h.readInputRegs, false, fc, app, a, b, size); }
    else if fc == WRITE_SINGLE_COIL { SameSingle(h.writeCoil, fc, app, a, b, size); }
    else if fc == WRITE_SINGLE_REGISTER { SameSingle(h.writeReg, fc, app, a, b, size); }
    else if fc == WRITE_MULTIPLE_COILS { SameMulti(h.writeCoils, true, fc, app, a, b, size); }
    else if fc == WRITE_MULTIPLE_REGISTERS { SameMulti(h.writeRegs, false, fc, app, a, b, size); }
    else if fc == READ_WRITE_REGISTERS { SameReadWrite(h.writeRegs, h.readHolding, app, a, b, size); }
  }

  // ---------------------------------------------------------------- the object

  /** Stores a reading callback's values and their byte count; returns the length of the reply. */
  method StoreAnswer<S>(buf: array<uint8>, bits: bool, o: ReadOut<S>) returns (ret: nat)
    requires buf.Length == BUFFER && |o.data| <= BUFFER - 2
    modifies buf
    ensures ret == 2 + ByteCount(bits, o.count)
    ensures buf[..] == Store(old(buf[..]), 2, o.data)[1 := ByteCount(bits, o.count)]
  {
    CopyIn(buf, 2, o.data);
    buf[1] := ByteCount(bits, o.count);
    ret := 2 + ByteCount(bits, o.count);
  }

  class SlaveObj<S(!new)> {
    const cmd: Handlers<S>
    const id: uint8
    /** Data of the application, changed by its callbacks only. */
    var app: S
    var buf: array?<uint8>
    var size: nat
    ghost var calls: seq<Call>

    ghost predicate Valid()
      reads this
    {
      (buf != null ==> buf.Length == BUFFER) && size <= BUFFER && AllHonest(cmd)
    }

    constructor (cmd: Handlers<S>, id: uint8, app: S)
      requires AllHonest(cmd)
      ensures Valid() && buf == null && size == 0 && this.cmd == cmd && this.id == id && this.app == app && calls == []
    {
      this.cmd := cmd;
      this.id := id;
      this.app := app;
      buf := null;
      size := 0;
      calls := [];
    }

    /** `ciaaModbus_slaveSendMsg`: keeps a pointer to the caller's buffer. */
    method SendMsg(pdu: array<uint8>, size: nat)
      requires Valid() && pdu.Length == BUFFER && size <= BUFFER
      modifies this`buf, this`size
      ensures Valid() && buf == pdu && this.size == size
    {
      buf := pdu;
      this.size := size;
    }

    /** `ciaaModbus_slaveRecvMsg`: `pdu` may be the buffer the slave works on. */
    method RecvMsg(pdu: array<uint8>) returns (id: uint8, size: nat)
      requires Valid() && buf != null && pdu.Length == BUFFER
      modifies pdu
      ensures id == this.id && size == this.size
      ensures pdu[..] == old(buf[..size]) + old(pdu[size..])
    {
      id := this.id;
      for i := 0 to this.size
        invariant forall j :: 0 <= j < i ==> pdu[j] == old(buf[j])
        invariant forall j :: i <= j < BUFFER ==> pdu[j] == old(pdu[j])
        invariant pdu != buf ==> buf[..] == old(buf[..])
      {
        pdu[i] := buf[i];
      }
      size := this.size;
      assert pdu[..size] == old(buf[..size]) && pdu[size..] == old(pdu[size..]);
      assert pdu[..] == pdu[..size] + pdu[size..];
    }

    /** The two cases of a reading function, on the object's buffer. */
    method ReadFunction(f: Option<ReadFn<S>>, bits: bool, fc: uint8) returns (ret: nat, exc: uint8)
      requires Valid() && buf != null && Contained(f, bits)
      modifies this`app, this`calls, buf
      ensures var s := ReadCase(f, bits, fc, old(app), old(buf[..]), size);
              ret == s.ret && exc == s.exc && app == s.app && buf[..] == s.buf && calls == old(calls) + s.calls
    {
      ret, exc := 0, NO_ERROR;
      if f.None? {
        exc := FNC_NOT_SUPPORTED;
      } else {
        var quantity := Join(buf[3], buf[4]);
        if (if bits then 0x07D0 else 0x007D) < quantity || 1 > quantity || 5 != size {
          exc := WRONG_REG_QTY;
        } else {
          var address := Join(buf[1], buf[2]);
          var o := f.value(app, address, quantity);
          app, exc := o.app, o.exc;
          calls := calls + [ReadCall(fc, address, quantity)];
          ret := StoreAnswer(buf, bits, o);
        }
      }
    }

    method SingleFunction(f: Option<SingleFn<S>>, fc: uint8) returns (ret: nat, exc: uint8)
      requires Valid() && buf != null
      modifies this`app, this`calls
      ensures var s := SingleCase(f, fc, old(app), buf[..], size);
              ret == s.ret && exc == s.exc && app == s.app && buf[..] == s.buf && calls == old(calls) + s.calls
    {
      ret, exc := 0, NO_ERROR;
      if f.None? {
        exc := FNC_NOT_SUPPORTED;
      } else {
        var value := Join(buf[3], buf[4]);
        if (fc == WRITE_SINGLE_COIL && value != 0 && value != 0xFF00) || 5 != size {
          exc := WRONG_REG_QTY;
        } else {
          var address := Join(buf[1], buf[2]);
          var o := f.value(app, address, buf[3..5]);
          app, exc := o.app, o.exc;
          calls := calls + [SingleCall(fc, address, buf[3..5])];
          ret := 5;
        }
      }
    }

    method MultiFunction(f: Option<MultiFn<S>>, bits: bool, fc: uint8) returns (ret: nat, exc: uint8)
      requires Valid() && buf != null
      modifies this`app, this`calls
      ensures var s := MultiCase(f, bits, fc, old(app), buf[..], size);
              ret == s.ret && exc == s.exc && app == s.app && buf[..] == s.buf && calls == old(calls) + s.calls
    {
      ret, exc := 0, NO_ERROR;
      if f.None? {
        exc := FNC_NOT_SUPPORTED;
      } else {
        var address, quantity := Join(buf[1], buf[2]), Join(buf[3], buf[4]);
        var byteCount := ExpectedBytes(bits, quantity);
        if (if bits then 0x07B0 else 0x007B) < quantity || 1 > quantity || byteCount != buf[5]
            || 6 + byteCount != size {
          exc := WRONG_REG_QTY;
        } else {
          var o := f.value(app, address, quantity, byteCount, buf[6..6 + byteCount]);
          app, exc := o.app, o.exc;
          calls := calls + [MultiCall(fc, address, quantity, byteCount, buf[6..6 + byteCount])];
          ret := 5;
        }
      }
    }

    method ReadWriteFunction() returns (ret: nat, exc: uint8)
      requires Valid() && buf != null
      modifies this`app, this`calls, buf
      ensures var s := ReadWriteCase(cmd.writeRegs, cmd.readHolding, old(app), old(buf[..]), size);
              ret == s.ret && exc == s.exc && app == s.app && buf[..] == s.buf && calls == old(calls) + s.calls
    {
      ret, exc := 0, NO_ERROR;
      if cmd.readHolding.None? || cmd.writeRegs.None? {
        exc := FNC_NOT_SUPPORTED;
      } else {
        var address, quantity := Join(buf[1], buf[2]), Join(buf[3], buf[4]);
        var addressW, quantityW := Join(buf[5], buf[6]), Join(buf[7], buf[8]);
        var byteCount := ExpectedBytes(false, quantityW);
        if 0x007D < quantity || 1 > quantity || 0x0079 < quantityW || 1 > quantityW
           || byteCount != buf[9] || 10 + byteCount != size {
          exc := WRONG_REG_QTY;
        } else {
          var o := cmd.writeRegs.value(app, addressW, quantityW, byteCount, buf[10..10 + byteCount]);
          app, exc := o.app, o.exc;
          calls := calls + [MultiCall(WRITE_MULTIPLE_REGISTERS, addressW, quantityW, byteCount,
              buf[10..10 + byteCount])];
          if 0 == exc {
            var p := cmd.readHolding.value(app, address, quantity);
            app, exc := p.app, p.exc;
            calls := calls + [ReadCall(READ_HOLDING_REGISTERS, address, quantity)];
            ret := StoreAnswer(buf, false, p);
          }
        }
      }
    }

    /** The switch on the function code. */
    method RunFunction() returns (ret: nat, exc: uint8)
      requires Valid() && buf != null
      modifies this`app, this`calls, buf
      ensures var s := Dispatch(cmd, old(app), old(buf[..]), size);
              ret == s.ret && exc == s.exc && app == s.app && buf[..] == s.buf && calls == old(calls) + s.calls
    {
      ret, exc := 0, NO_ERROR;
      var fc := buf[0];
      if size != 0 {
        if fc == READ_COILS {
          ret, exc := ReadFunction(cmd.readCoils, true, fc);
        } else if fc == READ_DISCRETE_INPUTS {
          ret, exc := ReadFunction(cmd.readInputs, true, fc);
        } else if fc == READ_HOLDING_REGISTERS {
          ret, exc := ReadFunction(cmd.readHolding, false, fc);
        } else if fc == READ_INPUT_REGISTERS {
          ret, exc := ReadFunction(cmd.readInputRegs, false, fc);
        } else if fc == WRITE_SINGLE_COIL {
          ret, exc := SingleFunction(cmd.writeCoil, fc);
        } else if fc == WRITE_SINGLE_REGISTER {
          ret, exc := SingleFunction(cmd.writeReg, fc);
        } else if fc == WRITE_MULTIPLE_COILS {
          ret, exc := MultiFunction(cmd.writeCoils, true, fc);
        } else if fc == WRITE_MULTIPLE_REGISTERS {
          ret, exc := MultiFunction(cmd.writeRegs, false, fc);
        } else if fc == READ_WRITE_REGISTERS {
          ret, exc := ReadWriteFunction();
        } else {
          exc := FNC_NOT_SUPPORTED;
        }
      }
    }

    /** `ciaaModbus_slaveTask`. */
    method Task()
      requires Valid() && buf != null
      modifies this`app, this`size, this`calls, buf
      ensures Valid()
      ensures var o := Run(cmd, old(app), old(buf[..]), old(size));
              buf[..] == o.buf && size == o.size && app == o.app && calls == old(calls) + o.calls
    {
      RunSize(cmd, app, buf[..], size);
      var ret, exc := RunFunction();
      if exc != 0 {
        buf[0] := WithErrorFlag(buf[0]);
        buf[1] := exc;
        ret := 2;
      }
      size := ret;
    }
  }

  lemma {:induction false} RunSize<S(!new)>(h: Handlers<S>, app: S, buf: seq<uint8>, size: nat)
    requires |buf| == BUFFER && size <= BUFFER && AllHonest(h)
    ensures Run(h, app, buf, size).size <= BUFFER
  {
    if size > 0 {
      RunServes(h, app, buf, size);
    }
  }
}
