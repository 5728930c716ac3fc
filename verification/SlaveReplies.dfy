/**
 The replies of the slave byte by byte: which requests are in the limits of "MODBUS Application Protocol
 Specification V1.1b", sections 6.1 to 6.6, 6.11, 6.12 and 6.17, which callback serves each function code and
 with what, and what is sent back.
 */
module SlaveReplies {
  import opened Words
  import opened Pdu
  import opened Slave

  /** The application has what it takes to serve a function code. */
  predicate HasCallback<S>(h: Handlers<S>, fc: uint8) {
    match fc
    case 1 => h.readCoils.Some?
    case 2 => h.readInputs.Some?
    case 3 => h.readHolding.Some?
    case 4 => h.readInputRegs.Some?
    case 5 => h.writeCoil.Some?
    case 6 => h.writeReg.Some?
    case 15 => h.writeCoils.Some?
    case 16 => h.writeRegs.Some?
    case 23 => h.readHolding.Some? && h.writeRegs.Some?
    case _ => false
  }

  /** A request in the limits of the protocol: length, quantities, values and byte counts. */
  predicate InLimits(pdu: seq<uint8>) {
    && |pdu| >= 5
    && match pdu[0]
       case 1 => |pdu| == 5 && 1 <= WordAt(pdu, 3) <= 2000
       case 2 => |pdu| == 5 && 1 <= WordAt(pdu, 3) <= 2000
       case 3 => |pdu| == 5 && 1 <= WordAt(pdu, 3) <= 125
       case 4 => |pdu| == 5 && 1 <= WordAt(pdu, 3) <= 125
       case 5 => |pdu| == 5 && (WordAt(pdu, 3) == 0 || WordAt(pdu, 3) == 0xFF00)
       case 6 => |pdu| == 5
       case 15 => |pdu| >= 6 && 1 <= WordAt(pdu, 3) <= 1968 && |pdu| == 6 + pdu[5] as int
                  && pdu[5] == (WordAt(pdu, 3) + 7) / 8
       case 16 => |pdu| >= 6 && 1 <= WordAt(pdu, 3) <= 123 && |pdu| == 6 + pdu[5] as int && pdu[5] == 2 * WordAt(pdu, 3)
       case 23 => |pdu| >= 10 && 1 <= WordAt(pdu, 3) <= 125 && 1 <= WordAt(pdu, 7) <= 121
                  && |pdu| == 10 + pdu[9] as int && pdu[9] == 2 * WordAt(pdu, 7)
       case _ => false
  }

  lemma {:induction false} WordIsRead(pdu: seq<uint8>, at: nat)
    requires at + 1 < |pdu|
    ensures ReadInt(pdu, at) == WordAt(pdu, at)
  {
  }

  lemma {:induction false} ParsedIffInLimits(pdu: seq<uint8>)
    ensures Parse(pdu).Some? <==> InLimits(pdu)
  {
    if |pdu| >= 5 {
      WordIsRead(pdu, 3);
      if |pdu| >= 9 {
        WordIsRead(pdu, 7);
      }
    }
  }

  /**
   What is refused without asking the application: a function it does not serve, with code 1, and a request
   outside the limits, with code 3.
   */
  lemma {:induction false} Refused<S>(h: Handlers<S>, app: S, pdu: seq<uint8>)
    requires pdu != []
    ensures !HasCallback(h, pdu[0]) ==> Serve(h, app, pdu) == Reply([pdu[0] % 128 + 128, 1], app, [])
    ensures HasCallback(h, pdu[0]) && !InLimits(pdu) ==> Serve(h, app, pdu) == Reply([pdu[0] + 128, 3], app, [])
  {
    ParsedIffInLimits(pdu);
  }

  /** An accepted request with its two integers. */
  lemma {:induction false} ParsedFields(pdu: seq<uint8>) returns (r: Request)
    requires InLimits(pdu)
    ensures Parse(pdu) == Some(r) && WellFormed(r) && pdu == Encode(r) && FunctionCode(r) == pdu[0]
    ensures r.address == WordAt(pdu, 1)
  {
    ParsedIffInLimits(pdu);
    r := Parse(pdu).value;
    ParseIffEncoded(pdu, r);
    RequestLayout(r);
  }

  /**
   Functions 1 to 4: the callback for coils, inputs, holding registers or input registers is asked once, and its
   bytes are sent back behind their count: one for each eight coils begun, two for each register.
   */
  lemma {:induction false} ReadServed<S(!new)>(h: Handlers<S>, app: S, pdu: seq<uint8>)
    requires InLimits(pdu) && 1 <= pdu[0] <= 4 && HasCallback(h, pdu[0]) && AllHonest(h)
    ensures var f := match pdu[0] case 1 => h.readCoils case 2 => h.readInputs case 3 => h.readHolding
                     case _ => h.readInputRegs;
            var o := f.value(app, WordAt(pdu, 1), WordAt(pdu, 3));
            && Serve(h, app, pdu).app == o.app
            && Serve(h, app, pdu).calls == [ReadCall(pdu[0], WordAt(pdu, 1), WordAt(pdu, 3))]
            && if o.exc != 0 then Serve(h, app, pdu).pdu == [pdu[0] + 128, o.exc]
               else
                 var n := if pdu[0] <= 2 then (o.count + 7) / 8 else 2 * o.count;
                 |o.data| == n <= 255 && Serve(h, app, pdu).pdu == [pdu[0], n] + o.data
  {
    var r := ParsedFields(pdu);
    RequestLayout(r);
  }

  /** Functions 5 and 6: the two bytes of the value go to the callback, and the request is sent back. */
  lemma {:induction false} SingleServed<S>(h: Handlers<S>, app: S, pdu: seq<uint8>)
    requires InLimits(pdu) && (pdu[0] == 5 || pdu[0] == 6) && HasCallback(h, pdu[0])
    ensures var f := if pdu[0] == 5 then h.writeCoil else h.writeReg;
            var o := f.value(app, WordAt(pdu, 1), pdu[3..5]);
            Serve(h, app, pdu) == Reply(if o.exc != 0 then [pdu[0] + 128, o.exc] else pdu, o.app,
                [SingleCall(pdu[0], WordAt(pdu, 1), pdu[3..5])])
  {
    var r := ParsedFields(pdu);
    RequestLayout(r);
    ReadIntOfIntBytes(pdu, 3, r.value);
    assert pdu[..5] == pdu;
  }

  /** Functions 15 and 16: address, quantity, byte count and bytes go to the callback, five bytes are sent back. */
  lemma {:induction false} MultiServed<S>(h: Handlers<S>, app: S, pdu: seq<uint8>)
    requires InLimits(pdu) && (pdu[0] == 15 || pdu[0] == 16) && HasCallback(h, pdu[0])
    ensures var f := if pdu[0] == 15 then h.writeCoils else h.writeRegs;
            var o := f.value(app, WordAt(pdu, 1), WordAt(pdu, 3), pdu[5], pdu[6..]);
            Serve(h, app, pdu) == Reply(if o.exc != 0 then [pdu[0] + 128, o.exc] else pdu[..5], o.app,
                [MultiCall(pdu[0], WordAt(pdu, 1), WordAt(pdu, 3), pdu[5], pdu[6..])])
  {
    var r := ParsedFields(pdu);
    RequestLayout(r);
    if r.WriteRegs? {
      RegsLayout(r.address, r.values);
    }
  }

  /** What is sent back to function 23: a refused write, a refused read, or the registers read. */
  ghost predicate ReadWriteReply<S>(reply: Reply<S>, w: WriteOut<S>, o: ReadOut<S>, write: Call, read: Call) {
    if w.exc != 0 then reply == Reply([151, w.exc], w.app, [write])
    else if o.exc != 0 then reply == Reply([151, o.exc], o.app, [write, read])
    else |o.data| == 2 * o.count <= 250 && reply == Reply([23, 2 * o.count] + o.data, o.app, [write, read])
  }

  lemma {:induction false} ReadWritePerformed<S(!new)>(h: Handlers<S>, app: S, r: Request, data: seq<uint8>)
    requires WellFormed(r) && r.ReadWrite? && HasCallback(h, 23) && AllHonest(h) && data == RegBytes(r.values)
    ensures var w := h.writeRegs.value(app, r.addressW, |r.values|, |data|, data);
            ReadWriteReply(Perform(h, app, r), w, h.readHolding.value(w.app, r.address, r.quantity),
                MultiCall(16, r.addressW, |r.values|, |data|, data), ReadCall(3, r.address, r.quantity))
  {
  }

  /** Function 23: the write comes first, and the read is asked only if it succeeds, with what it has written. */
  lemma {:induction false} ReadWriteServed<S(!new)>(h: Handlers<S>, app: S, pdu: seq<uint8>)
    requires InLimits(pdu) && pdu[0] == 23 && HasCallback(h, pdu[0]) && AllHonest(h)
    ensures var w := h.writeRegs.value(app, WordAt(pdu, 5), WordAt(pdu, 7), pdu[9], pdu[10..]);
            ReadWriteReply(Serve(h, app, pdu), w, h.readHolding.value(w.app, WordAt(pdu, 1), WordAt(pdu, 3)),
                MultiCall(16, WordAt(pdu, 5), WordAt(pdu, 7), pdu[9], pdu[10..]),
                ReadCall(3, WordAt(pdu, 1), WordAt(pdu, 3)))
  {
    var r := ParsedFields(pdu);
    ReadWriteLayout(r);
    ReadWritePerformed(h, app, r, pdu[10..]);
  }

  // ---------------------------------------------------------------- the buffer around the reply

  /** No message, no reply: nothing is called and nothing is written. */
  lemma {:induction false} NothingToServe<S(!new)>(h: Handlers<S>, app: S, buf: seq<uint8>)
    requires |buf| == 256 && AllContained(h)
    ensures Run(h, app, buf, 0) == Outcome(buf, 0, app, [])
  {
  }

  /** A step without error keeps what is behind its reply, and one that asks no reading callback keeps all. */
  predicate KeepsBehind<S>(s: Served<S>, buf: seq<uint8>) {
    && |s.buf| == |buf|
    && (s.exc == 0 ==> s.ret <= |buf| && s.buf[s.ret..] == buf[s.ret..])
    && ((forall c :: c in s.calls ==> !c.ReadCall?) ==> s.buf == buf)
  }

  lemma {:induction false} AnswerKeeps<S>(bits: bool, buf: seq<uint8>, o: ReadOut<S>, calls: seq<Call>, read: Call)
    requires |buf| == 256 && |o.data| <= 250 && (o.exc == 0 ==> |o.data| == Packed(bits, o.count))
    requires read in calls && read.ReadCall?
    ensures KeepsBehind(Answer(bits, buf, o, calls), buf)
  {
  }

  lemma {:induction false} ReadCaseKeeps<S(!new)>(f: Option<ReadFn<S>>, bits: bool, fc: uint8, app: S, buf: seq<uint8>,
      size: nat)
    requires |buf| == 256 && Contained(f, bits) && Honest(f, bits)
    ensures KeepsBehind(ReadCase(f, bits, fc, app, buf, size), buf)
  {
    var s := ReadCase(f, bits, fc, app, buf, size);
    if s.calls != [] {
      var a, q := ReadInt(buf, 1), ReadInt(buf, 3);
      assert Packed(bits, q) <= 250;
      AnswerKeeps(bits, buf, f.value(app, a, q), s.calls, s.calls[0]);
    }
  }

  lemma {:induction false} ReadWriteCaseKeeps<S(!new)>(h: Handlers<S>, app: S, buf: seq<uint8>, size: nat)
    requires |buf| == 256 && size <= 256 && AllHonest(h)
    ensures KeepsBehind(ReadWriteCase(h.writeRegs, h.readHolding, app, buf, size), buf)
  {
    var s := ReadWriteCase(h.writeRegs, h.readHolding, app, buf, size);
    if |s.calls| == 2 {
      var a, q, aw, qw := ReadInt(buf, 1), ReadInt(buf, 3), ReadInt(buf, 5), ReadInt(buf, 7);
      var n := ExpectedBytes(false, qw);
      var o := h.writeRegs.value(app, aw, qw, n, buf[10..10 + n]);
      AnswerKeeps(false, buf, h.readHolding.value(o.app, a, q), s.calls, s.calls[1]);
    }
  }

  lemma {:induction false} DispatchKeeps<S(!new)>(h: Handlers<S>, app: S, buf: seq<uint8>, size: nat)
    requires |buf| == 256 && 1 <= size <= 256 && AllHonest(h)
    ensures KeepsBehind(Dispatch(h, app, buf, size), buf)
  {
    var fc := buf[0];
    if fc == READ_COILS {
      ReadCaseKeeps(h.readCoils, true, fc, app, buf, size);
    } else if fc == READ_DISCRETE_INPUTS {
      ReadCaseKeeps(h.readInputs, true, fc, app, buf, size);
    } else if fc == READ_HOLDING_REGISTERS {
      ReadCaseKeeps(h.readHolding, false, fc, app, buf, size);
    } else if fc == READ_INPUT_REGISTERS {
      ReadCaseKeeps(h.readInputRegs, false, fc, app, buf, size);
    } else if fc == READ_WRITE_REGISTERS {
      ReadWriteCaseKeeps(h, app, buf, size);
    }
  }

  /**
   Behind a reply the buffer is what it was. Behind an exception it is so if no reading callback was asked; one
   that was may have stored bytes before it failed.
   */
  lemma {:induction false} BytesBehind<S(!new)>(h: Handlers<S>, app: S, buf: seq<uint8>, size: nat)
    requires |buf| == 256 && 1 <= size <= 256 && AllHonest(h)
    ensures var o := Run(h, app, buf, size);
            && o.size <= 256
            && (o.buf[0] == buf[0] || (forall c :: c in o.calls ==> !c.ReadCall?) ==> o.buf[o.size..] == buf[o.size..])
  {
    RunServes(h, app, buf, size);
    var s := Dispatch(h, app, buf, size);
    DispatchKeeps(h, app, buf, size);
    FinishKeeps(s, buf);
  }

  lemma {:induction false} FinishKeeps<S>(s: Served<S>, buf: seq<uint8>)
    requires |buf| == 256 && KeepsBehind(s, buf)
    requires s.buf[0] == buf[0] && (s.exc != 0 && buf[0] >= 128 ==> s.calls == [])
    ensures var o := Finish(s);
            o.size <= 256 &&
            (o.buf[0] == buf[0] || (forall c :: c in o.calls ==> !c.ReadCall?) ==> o.buf[o.size..] == buf[o.size..])
  {
  }
}
