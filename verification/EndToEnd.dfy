/**
 A command from master to slave and back over the ASCII line: request built, framed, received,
 served, framed, received and checked. For any application the master ends up with what a direct
 call of the callback would have given; for a file of registers, with its contents.
 */
module EndToEnd {
  import opened Words
  import opened AsciiFrame
  import opened AsciiErrors
  import opened Pdu
  import opened Slave
  import M = Master

  datatype Exchanged<S> = Exchanged(app: S, answer: Option<Message>)

  /** The slave side of one request on the line, and what the master's port receives for it. */
  function Exchange<S>(h: Handlers<S>, app: S, id: uint8, r: Request): Exchanged<S>
    requires Buildable(r)
  {
    match Receive(Frame(id, Encode(r)))
    case None => Exchanged(app, None)
    case Some(m) =>
      if m.pdu == [] then Exchanged(app, None)
      else
        var reply := Serve(h, app, m.pdu);
        Exchanged(reply.app, Receive(Frame(m.id, reply.pdu)))
  }

  /** The master can build it, and both frames have at most 127 characters. */
  predicate FitsLine(r: Request) {
    match r
    case ReadBits(_, _, q) => CoilBytes(q) <= 58
    case ReadRegs(_, _, q) => q <= 29
    case WriteSingle(_, _, _) => true
    case WriteCoils(_, q, _) => q <= 250
    case WriteRegs(_, values) => |values| <= 27
    case ReadWrite(_, q, _, values) => q <= 29 && |values| <= 25
  }

  predicate Reads(r: Request) {
    r.ReadBits? || r.ReadRegs? || r.ReadWrite?
  }

  // ---------------------------------------------------------------- a direct call

  /** Exception code the application gives, 0 if none. */
  function DirectCode<S>(h: Handlers<S>, app: S, r: Request): uint8
    requires WellFormed(r) && Supported(h, FunctionCode(r))
  {
    match r
    case ReadBits(_, _, _) => ReadResult(h, app, r).exc
    case ReadRegs(_, _, _) => ReadResult(h, app, r).exc
    case ReadWrite(_, _, aw, values) =>
      var o := h.writeRegs.value(app, aw, |values|, 2 * |values|, RegBytes(values));
      if o.exc != 0 then o.exc else ReadResult(h, o.app, r).exc
    case WriteSingle(fc, a, v) => (if fc == WRITE_SINGLE_COIL then h.writeCoil
        else h.writeReg).value(app, a, IntBytes(v)).exc
    case WriteCoils(a, q, data) => h.writeCoils.value(app, a, q, |data|, data).exc
    case WriteRegs(a, values) => h.writeRegs.value(app, a, |values|, 2 * |values|, RegBytes(values)).exc
  }

  /** The reading callback of a request, run on `app`. */
  function ReadResult<S>(h: Handlers<S>, app: S, r: Request): ReadOut<S>
    requires WellFormed(r) && Supported(h, FunctionCode(r)) && Reads(r)
  {
    var f := match FunctionCode(r)
      case 0x01 => h.readCoils
      case 0x02 => h.readInputs
      case 0x04 => h.readInputRegs
      case _ => h.readHolding;
    f.value(app, r.address, r.quantity)
  }

  /** Application data the reading part of a request meets: those after the write, if there is one. */
  function ReadApp<S>(h: Handlers<S>, app: S, r: Request): S
    requires WellFormed(r) && Supported(h, FunctionCode(r))
  {
    if r.ReadWrite? then h.writeRegs.value(app, r.addressW, |r.values|, 2 * |r.values|, RegBytes(r.values)).app else app
  }

  // ---------------------------------------------------------------- the line

  lemma {:induction false} SizesFit<S(!new)>(h: Handlers<S>, app: S, r: Request)
    requires WellFormed(r) && Supported(h, FunctionCode(r)) && AllHonest(h) && FitsLine(r)
    ensures |Encode(r)| <= 60 && 1 <= |Perform(h, app, r).pdu| <= 60
  {
    if Reads(r) {
      var o := ReadResult(h, ReadApp(h, app, r), r);
      assert |o.data| <= Packed(r.ReadBits?, r.quantity) <= 58;
    }
  }

  /** A request that fits the line is served once, and its reply arrives as it was sent. */
  lemma {:induction false} ExchangeServes<S(!new)>(h: Handlers<S>, app: S, id: uint8, r: Request)
    requires WellFormed(r) && Supported(h, FunctionCode(r)) && AllHonest(h) && FitsLine(r)
    ensures var p := Perform(h, app, r);
            Exchange(h, app, id, r) == Exchanged(p.app, Some(Message(id, p.pdu)))
  {
    SizesFit(h, app, r);
    RoundTrip(id, Encode(r));
    ParseIffEncoded(Encode(r), r);
    RoundTrip(id, Perform(h, app, r).pdu);
  }

  /** A longer request is lost on the way: the slave does nothing and no answer comes. */
  lemma {:induction false} LongRequestLost<S>(h: Handlers<S>, app: S, id: uint8, r: Request)
    requires Buildable(r) && |Encode(r)| > 60
    ensures Exchange(h, app, id, r) == Exchanged(app, None)
  {
    RoundTrip(id, Encode(r));
  }

  /** A longer reply is lost on the way back: the application has been called and no answer comes. */
  lemma {:induction false} LongReplyLost<S>(h: Handlers<S>, app: S, id: uint8, r: Request)
    requires WellFormed(r) && Buildable(r) && Supported(h, FunctionCode(r)) && |Encode(r)| <= 60
        && |Perform(h, app, r).pdu| > 60
    ensures Exchange(h, app, id, r) == Exchanged(Perform(h, app, r).app, None)
  {
    RoundTrip(id, Encode(r));
    ParseIffEncoded(Encode(r), r);
    RoundTrip(id, Perform(h, app, r).pdu);
  }

  /** For any application: an answer comes if and only if both PDUs have 60 bytes at most. */
  lemma {:induction false} AnswerIff<S(!new)>(h: Handlers<S>, app: S, id: uint8, r: Request)
    requires WellFormed(r) && Buildable(r) && Supported(h, FunctionCode(r)) && AllHonest(h)
    ensures Exchange(h, app, id, r).answer.Some? <==> |Encode(r)| <= 60 && |Perform(h, app, r).pdu| <= 60
    ensures Exchange(h, app, id, r).app == if |Encode(r)| <= 60 then Perform(h, app, r).app else app
  {
    RoundTrip(id, Encode(r));
    ParseIffEncoded(Encode(r), r);
    RoundTrip(id, Perform(h, app, r).pdu);
    PerformBounds(h, app, r);
  }

  /** A direct call succeeds, with all that was asked for. */
  predicate ServedInFull<S>(h: Handlers<S>, app: S, r: Request)
    requires WellFormed(r) && Supported(h, FunctionCode(r))
  {
    DirectCode(h, app, r) == 0 && (Reads(r) ==> ReadResult(h, ReadApp(h, app, r), r).count == r.quantity)
  }

  lemma {:induction false} FitsIff<S(!new)>(h: Handlers<S>, app: S, r: Request)
    requires WellFormed(r) && Buildable(r) && Supported(h, FunctionCode(r)) && AllHonest(h) && ServedInFull(h, app, r)
    ensures |Encode(r)| <= 60 && |Perform(h, app, r).pdu| <= 60 <==> FitsLine(r)
  {
    if Reads(r) {
      var o := ReadResult(h, ReadApp(h, app, r), r);
      assert |o.data| == Packed(r.ReadBits?, r.quantity);
    }
  }

  /**
   The limits of the line are exact, and known before the call: a request that the application serves in
   full is answered if and only if it is within them.
   */
  lemma {:induction false} AnsweredIffFits<S(!new)>(h: Handlers<S>, app: S, id: uint8, r: Request)
    requires WellFormed(r) && Buildable(r) && Supported(h, FunctionCode(r)) && AllHonest(h) && ServedInFull(h, app, r)
    ensures Exchange(h, app, id, r).answer.Some? <==> FitsLine(r)
  {
    AnswerIff(h, app, id, r);
    FitsIff(h, app, r);
  }

  // ---------------------------------------------------------------- what the master makes of the reply

  predicate ExpectedCount<S>(h: Handlers<S>, app: S, r: Request)
    requires WellFormed(r) && Supported(h, FunctionCode(r))
  {
    r.ReadRegs? || r.ReadWrite? ==> ReadResult(h, ReadApp(h, app, r), r).count == r.quantity
  }

  lemma {:induction false} ReadVerdict<S>(s: M.State, r: Request, o: ReadOut<S>, calls: seq<Call>, buf: seq<uint8>)
    requires s.pending == Some(r) && WellFormed(r) && Reads(r)
    requires o.exc == 0 ==> o.count <= r.quantity && |o.data| == Packed(r.ReadBits?, o.count)
    requires |buf| >= 5 && ReadReply(FunctionCode(r), o, calls).pdu <= buf
    ensures M.Verdict(s, buf, |ReadReply(FunctionCode(r), o, calls).pdu|) ==
            if o.exc != 0 then o.exc else if !r.ReadBits? && o.count != r.quantity then PDU_RECEIVED_WRONG else NO_ERROR
    ensures o.exc == 0 ==> 2 + |o.data| <= |buf| && buf[2..2 + |o.data|] == o.data
  {
    var p := ReadReply(FunctionCode(r), o, calls).pdu;
    assert buf[0] == p[0] && buf[1] == p[1];
    if o.exc == 0 {
      assert buf[..|p|][2..] == p[2..] == o.data;
    }
  }

  lemma {:induction false} WriteVerdict<S>(s: M.State, r: Request, o: WriteOut<S>, calls: seq<Call>, buf: seq<uint8>)
    requires s.pending == Some(r) && WellFormed(r) && (r.WriteSingle? || r.WriteCoils? || r.WriteRegs?)
    requires |buf| >= 5 && WriteReply(r, o, calls).pdu <= buf
    ensures M.Verdict(s, buf, |WriteReply(r, o, calls).pdu|) == o.exc
  {
    var p := WriteReply(r, o, calls).pdu;
    assert buf[0] == p[0] && buf[1] == p[1];
    if o.exc == 0 {
      var e := Encode(r);
      assert buf[..5] == e[..5];
      assert ReadInt(buf, 1) == ReadInt(e, 1) && ReadInt(buf, 3) == ReadInt(e, 3);
      ReadIntOfIntBytes(e, 1, r.address);
      assert e[1..3] == IntBytes(r.address);
      var q := if r.WriteSingle? then r.value else if r.WriteCoils? then r.quantity else |r.values|;
      ReadIntOfIntBytes(e, 3, q);
      assert e[3..5] == IntBytes(q);
    }
  }

  /**
   A remote call is a direct call. The reply of a well-formed request, in a buffer with anything
   behind it, gives the master the exception code of the application; without one, success, unless
   the application returned fewer registers than asked for.
   */
  lemma {:induction false} RemoteIsDirect<S(!new)>(h: Handlers<S>, app: S, s: M.State, r: Request, buf: seq<uint8>)
    requires WellFormed(r) && Supported(h, FunctionCode(r)) && AllHonest(h)
    requires s.pending == Some(r) && |buf| >= 5 && Perform(h, app, r).pdu <= buf
    ensures M.Verdict(s, buf, |Perform(h, app, r).pdu|) ==
            if DirectCode(h, app, r) != 0 then DirectCode(h, app, r)
            else if !ExpectedCount(h, app, r) then PDU_RECEIVED_WRONG else NO_ERROR
    ensures DirectCode(h, app, r) == 0 && Reads(r) ==>
              var data := ReadResult(h, ReadApp(h, app, r), r).data; 2 + |data| <= |buf| && buf[2..2 + |data|] == data
  {
    var calls := Perform(h, app, r).calls;
    match r
    case ReadBits(_, _, _) => ReadVerdict(s, r, ReadResult(h, app, r), calls, buf);
    case ReadRegs(_, _, _) => ReadVerdict(s, r, ReadResult(h, app, r), calls, buf);
    case ReadWrite(a, q, aw, values) =>
      var o := h.writeRegs.value(app, aw, |values|, 2 * |values|, RegBytes(values));
      if o.exc != 0 {
        assert buf[0] == WithErrorFlag(READ_WRITE_REGISTERS) && buf[1] == o.exc;
      } else {
        ReadVerdict(s, r, ReadResult(h, o.app, r), calls, buf);
      }
    case WriteSingle(fc, a, v) =>
      WriteVerdict(s, r, (if fc == WRITE_SINGLE_COIL then h.writeCoil else h.writeReg).value(app, a, IntBytes(v)),
          calls, buf);
    case WriteCoils(a, q, data) => WriteVerdict(s, r, h.writeCoils.value(app, a, q, |data|, data), calls, buf);
    case WriteRegs(a, values) => WriteVerdict(s, r,
        h.writeRegs.value(app, a, |values|, 2 * |values|, RegBytes(values)), calls, buf);
  }

  /** A slave that keeps its contract never sends more bytes of coils than the master has room for. */
  lemma {:induction false} HonestReplyFits<S(!new)>(h: Handlers<S>, app: S, s: M.State, r: Request, buf: seq<uint8>)
    requires WellFormed(r) && Supported(h, FunctionCode(r)) && AllHonest(h) && r.ReadBits?
    requires s.pending == Some(r) && |buf| >= 5 && Perform(h, app, r).pdu <= buf
    ensures M.BitsStored(s, buf, |Perform(h, app, r).pdu|) <= CoilBytes(r.quantity)
  {
    var o := ReadResult(h, app, r);
    var p := Perform(h, app, r).pdu;
    assert buf[0] == p[0] && buf[1] == p[1];
    assert |o.data| <= Packed(true, r.quantity);
  }

  /** The answer, if one comes, is at the start of the master's buffer. */
  predicate Holds<S>(buf: seq<uint8>, e: Exchanged<S>) {
    |buf| == BUFFER && (e.answer.Some? ==> e.answer.value.pdu <= buf)
  }

  /** The master's state after the exchange. */
  function AfterExchange<S>(s: M.State, e: Exchanged<S>, buf: seq<uint8>): M.State
    requires Holds(buf, e)
  {
    if e.answer.None? then s else M.Answer(s, e.answer.value.id, buf, |e.answer.value.pdu|)
  }

  /**
   A whole command over the line. An answer comes, and the application's data have changed as by one
   direct call. The command ends with code 0 exactly when the direct call succeeds with the count
   asked for; otherwise it stays pending with the code of the failure, to be tried again.
   */
  lemma {:induction false} RemoteCommand<S(!new)>(h: Handlers<S>, app: S, s: M.State, r: Request, buf: seq<uint8>)
    requires WellFormed(r) && Supported(h, FunctionCode(r)) && AllHonest(h) && FitsLine(r) && s.pending == Some(r)
    requires Holds(buf, Exchange(h, app, s.slaveId, r))
    ensures var e := Exchange(h, app, s.slaveId, r);
            var code := DirectCode(h, app, r);
            && e.answer.Some? && e.app == Perform(h, app, r).app
            && AfterExchange(s, e, buf) ==
               if code != 0 then s.(exc := code)
               else if !ExpectedCount(h, app, r) then s.(exc := PDU_RECEIVED_WRONG)
               else M.Complete(s.(exc := NO_ERROR))
    ensures DirectCode(h, app, r) == 0 && Reads(r) ==>
              var data := ReadResult(h, ReadApp(h, app, r), r).data; 2 + |data| <= BUFFER && buf[2..2 + |data|] == data
  {
    ExchangeServes(h, app, s.slaveId, r);
    RemoteIsDirect(h, app, s, r, buf);
  }

  // ---------------------------------------------------------------- a file of registers

  type Registers = seq<uint16>

  function ReadFile(regs: Registers, a: uint16, q: uint16): ReadOut<Registers> {
    if a as int + q as int <= |regs| then ReadOut(regs, q, NO_ERROR, RegBytes(regs[a..a as int + q as int]))
    else ReadOut(regs, 0, WRONG_STR_ADDR, [])
  }

  function WriteFile(regs: Registers, a: uint16, q: uint16, byteCount: uint8, data: seq<uint8>): WriteOut<Registers> {
    if |data| == 2 * q && a as int + q as int <= |regs| then WriteOut(Overwrite(regs, a, RegsOf(data)), NO_ERROR)
    else WriteOut(regs, WRONG_STR_ADDR)
  }

  function Overwrite(regs: Registers, a: nat, values: seq<uint16>): Registers
    requires a + |values| <= |regs|
  {
    regs[..a] + values + regs[a + |values|..]
  }

  /** An application that serves functions 0x03, 0x10 and 0x17 from a list of registers. */
  function RegisterFile(): Handlers<Registers> {
    Handlers(None, None, Some((s: Registers, a: uint16, q: uint16) => ReadFile(s, a, q)), None, None, None, None,
             Some((s: Registers, a: uint16, q: uint16, n: uint8, data: seq<uint8>) => WriteFile(s, a, q, n, data)))
  }

  lemma {:induction false} RegisterFileHonest()
    ensures AllHonest(RegisterFile())
  {
    var f := RegisterFile().readHolding;
    forall s: Registers, a: uint16, q: uint16
      ensures f.value(s, a, q).count <= q && |f.value(s, a, q).data| == 2 * f.value(s, a, q).count
    {
    }
  }

  /** The registers a master that asked for `q` takes from its buffer. */
  function RegsReceived(buf: seq<uint8>, q: uint16): seq<uint16>
    requires 2 + 2 * q <= |buf|
  {
    RegsOf(buf[2..2 + 2 * q])
  }

  function Slice(regs: Registers, a: uint16, q: uint16): seq<uint16>
    requires a as int + q as int <= |regs|
  {
    regs[a..a as int + q as int]
  }

  /** The addresses of a request are those of registers in the file. */
  predicate InFile(regs: Registers, r: Request) {
    match r
    case ReadRegs(_, a, q) => a as int + q as int <= |regs|
    case WriteRegs(a, values) => a as int + |values| <= |regs|
    case ReadWrite(a, q, aw, values) => a as int + q as int <= |regs| && aw as int + |values| <= |regs|
    case _ => false
  }

  /** The file after a request: the values written are there, all others are kept. */
  function Written(regs: Registers, r: Request): (after: Registers)
    requires InFile(regs, r)
    ensures |after| == |regs|
  {
    match r
    case WriteRegs(a, values) => Overwrite(regs, a, values)
    case ReadWrite(_, _, aw, values) => Overwrite(regs, aw, values)
    case _ => regs
  }

  /** What a request to the register file does, called directly: the write part and the read part. */
  lemma {:induction false} FileWrites(regs: Registers, aw: uint16, values: seq<uint16>)
    requires aw as int + |values| <= |regs| && 2 * |values| < 0x100
    ensures WriteFile(regs, aw, |values|, 2 * |values|, RegBytes(values))
        == WriteOut(Overwrite(regs, aw, values), NO_ERROR)
  {
    RegsOfRegBytes(values);
  }

  lemma {:induction false} FileApps(regs: Registers, r: Request)
    requires WellFormed(r) && Supported(RegisterFile(), FunctionCode(r)) && InFile(regs, r)
    ensures ReadApp(RegisterFile(), regs, r) == Written(regs, r) || r.WriteRegs?
    ensures Reads(r) ==>
        ReadResult(RegisterFile(), Written(regs, r), r) == ReadFile(Written(regs, r), r.address, r.quantity)
  {
    if r.ReadWrite? {
      FileWrites(regs, r.addressW, r.values);
    }
  }

  lemma {:induction false} FileServes(regs: Registers, r: Request)
    requires WellFormed(r) && Supported(RegisterFile(), FunctionCode(r)) && InFile(regs, r)
    ensures var h := RegisterFile();
            && DirectCode(h, regs, r) == 0 && ExpectedCount(h, regs, r)
            && Perform(h, regs, r).app == Written(regs, r)
            && (Reads(r) ==>
                ReadResult(h, ReadApp(h, regs, r), r).data == RegBytes(Slice(Written(regs, r), r.address, r.quantity)))
  {
    FileApps(regs, r);
    match r
    case WriteRegs(a, values) => FileWrites(regs, a, values);
    case ReadWrite(_, _, aw, values) => FileWrites(regs, aw, values);
    case _ =>
  }

  /**
   Functions 0x03, 0x10 and 0x17 against a file of registers, with up to 29 registers read and 27
   (25 together with a read) written: the slave's registers become those sent, the command ends with
   code 0, and the registers the master reads are the slave's after the write.
   */
  lemma {:induction false} RegistersTravel(regs: Registers, s: M.State, r: Request, buf: seq<uint8>)
    requires WellFormed(r) && Supported(RegisterFile(), FunctionCode(r)) && InFile(regs, r) && FitsLine(r)
    requires s.pending == Some(r) && Holds(buf, Exchange(RegisterFile(), regs, s.slaveId, r))
    ensures var e := Exchange(RegisterFile(), regs, s.slaveId, r);
            && e.answer.Some? && e.app == Written(regs, r)
            && AfterExchange(s, e, buf) == M.Complete(s.(exc := NO_ERROR))
    ensures Reads(r) ==> 2 + 2 * r.quantity <= BUFFER
                         && RegsReceived(buf, r.quantity) == Slice(Written(regs, r), r.address, r.quantity)
  {
    RegisterFileHonest();
    FileServes(regs, r);
    RemoteCommand(RegisterFile(), regs, s, r, buf);
    if Reads(r) {
      RegistersRead(regs, s, r, buf);
    }
  }

  /** The bytes a reading command brings are those a direct call gives. */
  lemma {:induction false} BytesArrive<S(!new)>(h: Handlers<S>, app: S, s: M.State, r: Request, buf: seq<uint8>,
      data: seq<uint8>)
    requires WellFormed(r) && Supported(h, FunctionCode(r)) && AllHonest(h) && FitsLine(r) && s.pending == Some(r)
    requires Holds(buf, Exchange(h, app, s.slaveId, r)) && Reads(r) && DirectCode(h, app, r) == 0
    requires data == ReadResult(h, ReadApp(h, app, r), r).data
    ensures 2 + |data| <= BUFFER && buf[2..2 + |data|] == data
  {
    RemoteCommand(h, app, s, r, buf);
  }

  /** Against a file of registers they are those of the registers. */
  lemma {:induction false} BytesRead(regs: Registers, s: M.State, r: Request, buf: seq<uint8>)
    requires WellFormed(r) && Supported(RegisterFile(), FunctionCode(r)) && InFile(regs, r) && FitsLine(r) && Reads(r)
    requires s.pending == Some(r) && Holds(buf, Exchange(RegisterFile(), regs, s.slaveId, r))
    ensures var data := RegBytes(Slice(Written(regs, r), r.address, r.quantity));
            2 + |data| <= BUFFER && buf[2..2 + |data|] == data
  {
    RegisterFileHonest();
    FileServes(regs, r);
    BytesArrive(RegisterFile(), regs, s, r, buf, RegBytes(Slice(Written(regs, r), r.address, r.quantity)));
  }

  lemma {:induction false} RegistersRead(regs: Registers, s: M.State, r: Request, buf: seq<uint8>)
    requires WellFormed(r) && Supported(RegisterFile(), FunctionCode(r)) && InFile(regs, r) && FitsLine(r) && Reads(r)
    requires s.pending == Some(r) && Holds(buf, Exchange(RegisterFile(), regs, s.slaveId, r))
    ensures 2 + 2 * r.quantity <= BUFFER
        && RegsReceived(buf, r.quantity) == Slice(Written(regs, r), r.address, r.quantity)
  {
    BytesRead(regs, s, r, buf);
    ReadBack(buf, Slice(Written(regs, r), r.address, r.quantity), r.quantity);
  }

  lemma {:induction false} ReadBack(buf: seq<uint8>, values: seq<uint16>, q: uint16)
    requires |values| == q as int && 2 + |RegBytes(values)| <= |buf|
        && buf[2..2 + |RegBytes(values)|] == RegBytes(values)
    ensures RegsReceived(buf, q) == values
  {
    RegsOfRegBytes(values);
    assert |RegBytes(values)| == 2 * q;
  }

  /** More registers than the line allows do not come back, and are not written if the request is too long. */
  lemma {:induction false} RegistersTravelIff(regs: Registers, id: uint8, r: Request)
    requires WellFormed(r) && Supported(RegisterFile(), FunctionCode(r)) && InFile(regs, r)
    ensures Buildable(r)
    ensures Exchange(RegisterFile(), regs, id, r).answer.Some? <==> FitsLine(r)
    ensures Exchange(RegisterFile(), regs, id, r).app == if |Encode(r)| <= 60 then Written(regs, r) else regs
  {
    RegisterFileHonest();
    FileServes(regs, r);
    BuildableIff(r);
    AnsweredIffFits(RegisterFile(), regs, id, r);
    AnswerIff(RegisterFile(), regs, id, r);
  }

  /** The smallest such reads and writes: 30 registers read, 28 written. */
  lemma {:induction false} ThirtyRegistersLost(regs: Registers, id: uint8, values: seq<uint16>)
    requires |regs| >= 30 && |values| == 28
    ensures Exchange(RegisterFile(), regs, id, ReadRegs(READ_HOLDING_REGISTERS, 0, 30)) == Exchanged(regs, None)
    ensures Exchange(RegisterFile(), regs, id, WriteRegs(0, values)) == Exchanged(regs, None)
  {
    RegistersTravelIff(regs, id, ReadRegs(READ_HOLDING_REGISTERS, 0, 30));
    RegistersTravelIff(regs, id, WriteRegs(0, values));
  }

  lemma {:induction false} FileRefuses(regs: Registers, r: Request)
    requires WellFormed(r) && (r.WriteRegs? || (r.ReadRegs? && r.fc == READ_HOLDING_REGISTERS)) && !InFile(regs, r)
    ensures DirectCode(RegisterFile(), regs, r) == WRONG_STR_ADDR && Perform(RegisterFile(), regs, r).app == regs
  {
  }

  /** Outside the file nothing is changed, and the master keeps the exception code while it retries. */
  lemma {:induction false} OutOfRangeRefused(regs: Registers, s: M.State, r: Request, buf: seq<uint8>)
    requires WellFormed(r) && (r.WriteRegs? || (r.ReadRegs? && r.fc == READ_HOLDING_REGISTERS)) && !InFile(regs, r)
        && FitsLine(r)
    requires s.pending == Some(r) && Holds(buf, Exchange(RegisterFile(), regs, s.slaveId, r))
    ensures var e := Exchange(RegisterFile(), regs, s.slaveId, r);
            e.answer.Some? && e.app == regs && AfterExchange(s, e, buf) == s.(exc := WRONG_STR_ADDR)
  {
    RegisterFileHonest();
    FileRefuses(regs, r);
    RemoteCommand(RegisterFile(), regs, s, r, buf);
  }
}
