/** The master object: its fields, the functions that issue commands, and the three gateway callbacks. */
module MasterPort {
  import opened Words
  import opened Pdu
  import opened Master

  const BUFFER := 256

  class MasterObj {
    var cmd: uint8
    var slaveId: uint8
    var exceptioncode: uint8
    var retryComm: nat
    var retryCount: nat
    var startAddressR: uint16
    var startAddressW: uint16
    var quantityR: uint16
    var quantityW: uint16
    var dataW: uint16
    /** The caller's memory: one pointer in the source, used for coils as bytes and for registers as words. */
    var pBitsR: array?<uint8>
    var pDataR: array?<uint16>
    var pBitsW: array?<uint8>
    var pDataW: array?<uint16>
    ghost var log: seq<Event>

    /** What each function needs of the memory it was given. */
    ghost predicate Valid()
      reads this
    {
      && cmd in {0, READ_COILS, READ_DISCRETE_INPUTS, READ_HOLDING_REGISTERS, READ_INPUT_REGISTERS, WRITE_SINGLE_COIL,
                 WRITE_SINGLE_REGISTER, WRITE_MULTIPLE_COILS, WRITE_MULTIPLE_REGISTERS, READ_WRITE_REGISTERS}
      && (cmd in {READ_COILS, READ_DISCRETE_INPUTS} ==> pBitsR != null)
      && (cmd in {READ_HOLDING_REGISTERS, READ_INPUT_REGISTERS, READ_WRITE_REGISTERS} ==>
          pDataR != null && quantityR <= pDataR.Length)
      && (cmd == WRITE_MULTIPLE_COILS ==> pBitsW != null && CoilBytes(quantityW) <= pBitsW.Length)
      && (cmd in {WRITE_MULTIPLE_REGISTERS, READ_WRITE_REGISTERS} ==> pDataW != null && quantityW <= pDataW.Length)
    }

    /** The command in the fields, with the data it would send now. */
    ghost function RequestOf(): (r: Request)
      requires Valid() && cmd != 0
      reads this, pBitsW, pDataW
      ensures FunctionCode(r) == cmd
    {
      if cmd == READ_COILS || cmd == READ_DISCRETE_INPUTS then ReadBits(cmd, startAddressR, quantityR)
      else if cmd == READ_HOLDING_REGISTERS || cmd == READ_INPUT_REGISTERS then ReadRegs(cmd, startAddressR, quantityR)
      else if cmd == WRITE_SINGLE_COIL || cmd == WRITE_SINGLE_REGISTER then WriteSingle(cmd, startAddressW, dataW)
      else if cmd == WRITE_MULTIPLE_COILS then WriteCoils(startAddressW, quantityW, pBitsW[..CoilBytes(quantityW)])
      else if cmd == WRITE_MULTIPLE_REGISTERS then WriteRegs(startAddressW, pDataW[..quantityW])
      else ReadWrite(startAddressR, quantityR, startAddressW, pDataW[..quantityW])
    }

    ghost function StateOf(): State
      requires Valid()
      reads this, pBitsW, pDataW
    {
      State(if cmd == 0 then None else Some(RequestOf()), slaveId, retryComm, retryCount, exceptioncode, log)
    }

    /** `ciaaModbus_masterOpen` on a free object: three transmissions by default. */
    constructor ()
      ensures Valid() && Initial(StateOf()) && Inv(StateOf()) && retryComm == 3
    {
      cmd, slaveId, exceptioncode, retryComm, retryCount := 0, 0, 0, 3, 0;
      pBitsR, pDataR, pBitsW, pDataW := null, null, null, null;
      log := [];
    }

    /** The fields every command sets, once it is known to be accepted. */
    method Begin(newCmd: uint8, id: uint8, ghost job: Job)
      requires cmd == 0
      modifies this`cmd, this`slaveId, this`exceptioncode, this`retryCount, this`log
      ensures cmd == newCmd && slaveId == id && exceptioncode == 0 && retryCount == retryComm
      ensures log == old(log) + [Accepted(job)]
    {
      exceptioncode := 0;
      slaveId := id;
      retryCount := retryComm;
      cmd := newCmd;
      log := log + [Accepted(job)];
    }

    /** `ciaaModbus_masterRead` for coils and discrete inputs. */
    method ReadBitsCmd(startAddress: uint16, quantity: uint16, bits: array<uint8>, id: uint8, newCmd: uint8)
        returns (ret: int)
      requires Valid() && (newCmd == READ_COILS || newCmd == READ_DISCRETE_INPUTS)
      modifies this
      ensures Valid() && StateOf() == Issue(old(StateOf()), Job(ReadBits(newCmd, startAddress, quantity), id))
      ensures ret == (if old(cmd) == 0 && id != 0 then 0 else -1) && (ret == 0 ==> pBitsR == bits)
    {
      ret := -1;
      if cmd == 0 && 0 != id {
        startAddressR, quantityR, pBitsR := startAddress, quantity, bits;
        Begin(newCmd, id, Job(ReadBits(newCmd, startAddress, quantity), id));
        ret := 0;
      }
    }

    /** `ciaaModbus_masterRead` for registers. */
    method ReadRegsCmd(startAddress: uint16, quantity: uint16, regs: array<uint16>, id: uint8, newCmd: uint8)
        returns (ret: int)
      requires Valid() && (newCmd == READ_HOLDING_REGISTERS || newCmd == READ_INPUT_REGISTERS)
          && quantity <= regs.Length
      modifies this
      ensures Valid() && StateOf() == Issue(old(StateOf()), Job(ReadRegs(newCmd, startAddress, quantity), id))
      ensures ret == (if old(cmd) == 0 && id != 0 then 0 else -1) && (ret == 0 ==> pDataR == regs)
    {
      ret := -1;
      if cmd == 0 && 0 != id {
        startAddressR, quantityR, pDataR := startAddress, quantity, regs;
        Begin(newCmd, id, Job(ReadRegs(newCmd, startAddress, quantity), id));
        ret := 0;
      }
    }

    /** `ciaaModbus_masterCmd0x05WriteSingleCoil`. */
    method Cmd0x05(startAddress: uint16, value: bool, id: uint8) returns (ret: int)
      requires Valid()
      modifies this
      ensures Valid()
      ensures StateOf() == Issue(old(StateOf()),
          Job(WriteSingle(WRITE_SINGLE_COIL, startAddress, if value then 0xFF00 else 0), id))
      ensures ret == if old(cmd) == 0 && id != 0 then 0 else -1
    {
      ret := -1;
      if cmd == 0 && 0 != id {
        startAddressW := startAddress;
        if value {
          dataW := 0xFF00;
        } else {
          dataW := 0;
        }
        Begin(WRITE_SINGLE_COIL, id, Job(WriteSingle(WRITE_SINGLE_COIL, startAddress, dataW), id));
        ret := 0;
      }
    }

    /** `ciaaModbus_masterCmd0x06WriteSingleRegister`. */
    method Cmd0x06(startAddress: uint16, value: uint16, id: uint8) returns (ret: int)
      requires Valid()
      modifies this
      ensures Valid()
      ensures StateOf() == Issue(old(StateOf()), Job(WriteSingle(WRITE_SINGLE_REGISTER, startAddress, value), id))
      ensures ret == if old(cmd) == 0 && id != 0 then 0 else -1
    {
      ret := -1;
      if cmd == 0 && 0 != id {
        startAddressW, dataW := startAddress, value;
        Begin(WRITE_SINGLE_REGISTER, id, Job(WriteSingle(WRITE_SINGLE_REGISTER, startAddress, value), id));
        ret := 0;
      }
    }

    /** `ciaaModbus_masterCmd0x0FWriteMultipleCoils`: eight coils in each byte of the caller's memory. */
    method Cmd0x0F(startAddress: uint16, quantity: uint16, coils: array<uint8>, id: uint8) returns (ret: int)
      requires Valid() && CoilBytes(quantity) <= coils.Length
      modifies this
      ensures Valid()
      ensures StateOf() == Issue(old(StateOf()),
          Job(WriteCoils(startAddress, quantity, coils[..CoilBytes(quantity)]), id))
      ensures ret == if old(cmd) == 0 && id != 0 then 0 else -1
    {
      ret := -1;
      if cmd == 0 && 0 != id {
        startAddressW, quantityW, pBitsW := startAddress, quantity, coils;
        Begin(WRITE_MULTIPLE_COILS, id, Job(WriteCoils(startAddress, quantity, coils[..CoilBytes(quantity)]), id));
        ret := 0;
      }
    }

    /** `ciaaModbus_masterCmd0x10WriteMultipleRegisters`. */
    method Cmd0x10(startAddress: uint16, quantity: uint16, regs: array<uint16>, id: uint8) returns (ret: int)
      requires Valid() && quantity <= regs.Length
      modifies this
      ensures Valid()
      ensures StateOf() == Issue(old(StateOf()), Job(WriteRegs(startAddress, regs[..quantity]), id))
      ensures ret == if old(cmd) == 0 && id != 0 then 0 else -1
    {
      ret := -1;
      if cmd == 0 && 0 != id {
        startAddressW, quantityW, pDataW := startAddress, quantity, regs;
        Begin(WRITE_MULTIPLE_REGISTERS, id, Job(WriteRegs(startAddress, regs[..quantity]), id));
        ret := 0;
      }
    }

    /** `ciaaModbus_masterCmd0x17ReadWriteMultipleRegisters`; the two memories may be the same. */
    method Cmd0x17(addressR: uint16, qtyR: uint16, regsR: array<uint16>, addressW: uint16, qtyW: uint16,
                   regsW: array<uint16>, id: uint8) returns (ret: int)
      requires Valid() && qtyR <= regsR.Length && qtyW <= regsW.Length
      modifies this
      ensures Valid()
      ensures StateOf() == Issue(old(StateOf()), Job(ReadWrite(addressR, qtyR, addressW, regsW[..qtyW]), id))
      ensures ret == (if old(cmd) == 0 && id != 0 then 0 else -1) && (ret == 0 ==> pDataR == regsR)
    {
      ret := -1;
      if cmd == 0 && 0 != id {
        startAddressR, startAddressW, quantityR, quantityW := addressR, addressW, qtyR, qtyW;
        pDataR, pDataW := regsR, regsW;
        Begin(READ_WRITE_REGISTERS, id, Job(ReadWrite(addressR, qtyR, addressW, regsW[..qtyW]), id));
        ret := 0;
      }
    }

    /** End of communication: callback or event, seen as one completion. */
    method Finish()
      modifies this`cmd, this`log
      ensures cmd == 0 && log == old(log) + [Completed(slaveId, old(cmd), exceptioncode)]
    {
      log := log + [Completed(slaveId, cmd, exceptioncode)];
      cmd := 0;
    }

    /** `ciaaModbus_masterTask`. */
    method Task()
      requires Valid()
      modifies this`cmd, this`retryCount, this`exceptioncode, this`log
      ensures Valid() && StateOf() == Master.Task(old(StateOf()))
    {
      if 0 != cmd {
        if retryCount > 0 {
          retryCount := retryCount - 1;
        } else {
          if exceptioncode == NO_ERROR {
            exceptioncode := SLAVE_NOT_RESPOND;
          }
          Finish();
        }
      }
    }

    /** The bytes the builder copies for a write of coils. */
    ghost function Copied(): seq<uint8>
      requires Valid() && cmd != 0 && (cmd == WRITE_MULTIPLE_COILS ==> quantityW <= pBitsW.Length)
      reads this, pBitsW
    {
      if cmd == WRITE_MULTIPLE_COILS then pBitsW[..quantityW] else []
    }

    /**
     Builds the PDU of the pending command, for any quantity and in any memory that is long enough:
     what is stored, and that all behind it is kept. That the memory has room for one byte per coil,
     and the caller's memory as many bytes as coils, is needed and nothing checks it.
     */
    method Build(pdu: array<uint8>) returns (size: nat)
      requires Valid() && cmd != 0 && pdu != pBitsW && BytesStored(RequestOf()) <= pdu.Length
      requires cmd == WRITE_MULTIPLE_COILS ==> quantityW <= pBitsW.Length
      modifies pdu
      ensures size == ImageSize(RequestOf())
      ensures pdu[..] == Image(RequestOf(), Copied()) + old(pdu[BytesStored(RequestOf())..])
    {
      pdu[0] := cmd;
      if cmd == READ_COILS || cmd == READ_DISCRETE_INPUTS || cmd == READ_HOLDING_REGISTERS
          || cmd == READ_INPUT_REGISTERS {
        BuildHead(pdu, startAddressR, quantityR);
        size := 5;
      } else if cmd == WRITE_SINGLE_COIL || cmd == WRITE_SINGLE_REGISTER {
        BuildHead(pdu, startAddressW, dataW);
        size := 5;
      } else {
        size := BuildMultiple(pdu);
      }
    }

    /** The three functions that write several values. */
    method BuildMultiple(pdu: array<uint8>) returns (size: nat)
      requires Valid() && cmd in {WRITE_MULTIPLE_COILS, WRITE_MULTIPLE_REGISTERS, READ_WRITE_REGISTERS}
      requires pdu != pBitsW && BytesStored(RequestOf()) <= pdu.Length && pdu[0] == cmd
      requires cmd == WRITE_MULTIPLE_COILS ==> quantityW <= pBitsW.Length
      modifies pdu
      ensures size == ImageSize(RequestOf())
      ensures pdu[..] == Image(RequestOf(), Copied()) + old(pdu[BytesStored(RequestOf())..])
    {
      ghost var r := RequestOf();
      if cmd == WRITE_MULTIPLE_COILS {
        size := BuildCoils(pdu, startAddressW, quantityW, pBitsW, r);
      } else if cmd == WRITE_MULTIPLE_REGISTERS {
        size := BuildRegs(pdu, startAddressW, quantityW, pDataW, r);
      } else {
        size := BuildReadWrite(pdu, startAddressR, quantityR, startAddressW, quantityW, pDataW, r);
      }
      assert RequestOf() == r;
    }

    /**
     `ciaaModbus_masterRecvMsg`: builds the request PDU in `pdu`. With no command pending the
     caller's variables keep the values they had, here `idIn` and `sizeIn`.
     */
    method RecvMsg(idIn: uint8, sizeIn: nat, pdu: array<uint8>) returns (id: uint8, size: nat)
      requires Valid() && pdu != pBitsW
      requires cmd != 0 ==> Encodable(RequestOf()) && BytesStored(RequestOf()) <= pdu.Length
      requires cmd == WRITE_MULTIPLE_COILS ==> quantityW <= pBitsW.Length
      modifies this`log, pdu
      ensures Valid() && StateOf() == Master.Recv(old(StateOf()))
      ensures cmd == 0 ==> id == idIn && size == sizeIn && pdu[..] == old(pdu[..])
      ensures cmd != 0 ==>
                && id == slaveId && Encodable(RequestOf()) && size <= pdu.Length && pdu[..size] == Encode(RequestOf())
                && pdu[BytesStored(RequestOf())..] == old(pdu[BytesStored(RequestOf())..])
    {
      id, size := idIn, sizeIn;
      if 0 != cmd {
        ghost var r, coils := RequestOf(), Copied();
        ghost var rest := pdu[BytesStored(r)..];
        id := slaveId;
        size := Build(pdu);
        ImageInBuffer(pdu[..], rest, r, coils);
        assert RequestOf() == r;
        log := log + [Wire(id, Encode(r))];
      }
    }

    /** Commands whose answer brings registers, and commands whose answer brings bits. */
    ghost predicate AsksRegs()
      reads this
    {
      cmd == READ_HOLDING_REGISTERS || cmd == READ_INPUT_REGISTERS || cmd == READ_WRITE_REGISTERS
    }

    ghost predicate AsksBits()
      reads this
    {
      cmd == READ_COILS || cmd == READ_DISCRETE_INPUTS
    }

    /** The exception code an answer gets; data of a right answer are stored in the caller's memory. */
    method Judge(pdu: array<uint8>, size: nat)
      requires Valid() && pdu.Length == BUFFER && size <= BUFFER && pdu != pBitsR
      requires pBitsR != null ==> BitsStored(StateOf(), pdu[..], size) <= pBitsR.Length
      modifies this`exceptioncode, pBitsR, pDataR
      ensures exceptioncode == Verdict(old(StateOf()), pdu[..], size)
      ensures exceptioncode != NO_ERROR && pBitsW != null ==> pBitsW[..] == old(pBitsW[..])
      ensures exceptioncode != NO_ERROR && pDataW != null ==> pDataW[..] == old(pDataW[..])
      ensures pDataR != null ==>
                pDataR[..] == if pdu[0] == cmd && exceptioncode == NO_ERROR && AsksRegs()
                              then RegsOf(pdu[2..2 + 2 * quantityR]) + old(pDataR[quantityR..]) else old(pDataR[..])
      ensures pBitsR != null ==>
                pBitsR[..] == if pdu[0] == cmd && exceptioncode == NO_ERROR && AsksBits()
                              then pdu[2..size] + old(pBitsR[size - 2..]) else old(pBitsR[..])
    {
      if pdu[0] == cmd {
        FieldCheckIsVerdict(pdu[..], size);
        Process(pdu, size);
      } else if pdu[0] == WithErrorFlag(cmd) {
        exceptioncode := pdu[1];
      } else {
        exceptioncode := PDU_RECEIVED_WRONG;
      }
    }

    /** The exception code of an answer with the right function code, read off the fields. */
    ghost function FieldCheck(b: seq<uint8>, size: nat): uint8
      requires |b| >= 5
      reads this
    {
      var ok :=
        if AsksBits() then b[1] == size - 2
        else if AsksRegs() then b[1] == 2 * quantityR && size == 2 + 2 * quantityR
        else if cmd == WRITE_SINGLE_COIL || cmd == WRITE_SINGLE_REGISTER then ReadInt(b, 1) == startAddressW
            && ReadInt(b, 3) == dataW
        else ReadInt(b, 1) == startAddressW && ReadInt(b, 3) == quantityW;
      if cmd == 0 then exceptioncode else if ok then NO_ERROR else PDU_RECEIVED_WRONG
    }

    /** The fields say what the pending request says. */
    lemma {:induction false} FieldCheckIsVerdict(b: seq<uint8>, size: nat)
      requires Valid() && |b| >= 5 && b[0] == cmd
      ensures FieldCheck(b, size) == Verdict(StateOf(), b, size)
    {
    }

    /** An answer with the function code of the request, by function. */
    method Process(pdu: array<uint8>, size: nat)
      requires Valid() && pdu.Length == BUFFER && size <= BUFFER && pdu != pBitsR && pdu[0] == cmd
      requires pBitsR != null ==> BitsStored(StateOf(), pdu[..], size) <= pBitsR.Length
      modifies this`exceptioncode, pBitsR, pDataR
      ensures exceptioncode == old(FieldCheck(pdu[..], size))
      ensures pDataR != null ==>
                pDataR[..] == if exceptioncode == NO_ERROR && AsksRegs()
                              then RegsOf(pdu[2..2 + 2 * quantityR]) + old(pDataR[quantityR..]) else old(pDataR[..])
      ensures pBitsR != null ==>
                pBitsR[..] == if exceptioncode == NO_ERROR && AsksBits()
                              then pdu[2..size] + old(pBitsR[size - 2..]) else old(pBitsR[..])
    {
      if cmd == READ_COILS || cmd == READ_DISCRETE_INPUTS {
        Process0x01(pdu, size);
      } else if cmd == READ_HOLDING_REGISTERS || cmd == READ_INPUT_REGISTERS || cmd == READ_WRITE_REGISTERS {
        Process0x03(pdu, size);
      } else if cmd == WRITE_SINGLE_COIL || cmd == WRITE_SINGLE_REGISTER {
        ProcessEcho(pdu, dataW);
      } else if cmd == WRITE_MULTIPLE_COILS || cmd == WRITE_MULTIPLE_REGISTERS {
        ProcessEcho(pdu, quantityW);
      }
    }

    /** `ciaaModbus_masterProcess0x05_0x06` and `ciaaModbus_masterProcess0x0F_0x10`: the size is not looked at. */
    method ProcessEcho(pdu: array<uint8>, v: uint16)
      requires pdu.Length == BUFFER
      modifies this`exceptioncode
      ensures exceptioncode == if ReadInt(pdu[..], 1) == startAddressW && ReadInt(pdu[..], 3) == v then NO_ERROR
          else PDU_RECEIVED_WRONG
    {
      exceptioncode := if Join(pdu[1], pdu[2]) == startAddressW && Join(pdu[3], pdu[4]) == v
                       then NO_ERROR else PDU_RECEIVED_WRONG;
    }

    /**
     `ciaaModbus_masterSendMsg`: an answer is checked against the pending request, if there is one;
     when it is right its data are in the caller's memory and the command ends.
     */
    method SendMsg(id: uint8, pdu: array<uint8>, size: nat)
      requires Valid() && pdu.Length == BUFFER && size <= BUFFER && pdu != pBitsR
      requires id == slaveId && pBitsR != null ==> BitsStored(StateOf(), pdu[..], size) <= pBitsR.Length
      modifies this`cmd, this`exceptioncode, this`log, pBitsR, pDataR
      ensures Valid() && StateOf() == Master.Answer(old(StateOf()), id, pdu[..], size)
      ensures pDataR != null ==>
                pDataR[..] == if id == slaveId && pdu[0] == old(cmd) && exceptioncode == NO_ERROR && old(AsksRegs())
                              then RegsOf(pdu[2..2 + 2 * quantityR]) + old(pDataR[quantityR..]) else old(pDataR[..])
      ensures pBitsR != null ==>
                pBitsR[..] == if id == slaveId && pdu[0] == old(cmd) && exceptioncode == NO_ERROR && old(AsksBits())
                              then pdu[2..size] + old(pBitsR[size - 2..]) else old(pBitsR[..])
    {
      ghost var s := StateOf();
      if id == slaveId {
        Judge(pdu, size);
        assert exceptioncode != NO_ERROR ==> StateOf() == s.(exc := exceptioncode);
        if NO_ERROR == exceptioncode {
          Finish();
        }
      }
    }

    /** `ciaaModbus_masterProcess0x01_0x02`: copies as many bytes as the reply says it holds. */
    method Process0x01(pdu: array<uint8>, size: nat)
      requires pdu.Length == BUFFER && size <= BUFFER && pBitsR != null && pdu != pBitsR
      requires pdu[1] == size - 2 ==> pdu[1] <= pBitsR.Length
      modifies this`exceptioncode, pBitsR
      ensures exceptioncode == if pdu[1] == size - 2 then NO_ERROR else PDU_RECEIVED_WRONG
      ensures pBitsR[..] == if exceptioncode == NO_ERROR then pdu[2..size] + old(pBitsR[size - 2..])
          else old(pBitsR[..])
    {
      if pdu[1] as int + 2 == size {
        var n := pdu[1];
        for i := 0 to n
          invariant pBitsR[..i] == pdu[2..2 + i] && pBitsR[i..] == old(pBitsR[i..])
        {
          pBitsR[i] := pdu[2 + i];
        }
        assert pBitsR[..] == pBitsR[..n] + pBitsR[n..];
        exceptioncode := NO_ERROR;
      } else {
        exceptioncode := PDU_RECEIVED_WRONG;
      }
    }

    /** `ciaaModbus_masterProcess0x03_0x04_0x17`: the reply must hold exactly the quantity asked for. */
    method Process0x03(pdu: array<uint8>, size: nat)
      requires pdu.Length == BUFFER && size <= BUFFER && pDataR != null && quantityR <= pDataR.Length
      modifies this`exceptioncode, pDataR
      ensures exceptioncode == if pdu[1] == 2 * quantityR && size == 2 + 2 * quantityR then NO_ERROR
          else PDU_RECEIVED_WRONG
      ensures pDataR[..] == if exceptioncode == NO_ERROR
                            then RegsOf(pdu[2..2 + 2 * quantityR]) + old(pDataR[quantityR..]) else old(pDataR[..])
    {
      if pdu[1] == quantityR * 2 && size == 2 + quantityR * 2 {
        ReadRegisters(pdu, pDataR, quantityR);
        exceptioncode := NO_ERROR;
      } else {
        exceptioncode := PDU_RECEIVED_WRONG;
      }
    }
  }

  /** The loop that stores the registers of a reply in the caller's memory. */
  method ReadRegisters(pdu: array<uint8>, regs: array<uint16>, n: nat)
    requires 2 + 2 * n <= pdu.Length && n <= regs.Length
    modifies regs
    ensures regs[..] == RegsOf(pdu[2..2 + 2 * n]) + old(regs[n..])
  {
    ghost var words := RegsOf(pdu[2..2 + 2 * n]);
    for i := 0 to n
      invariant forall j :: 0 <= j < i ==> regs[j] == words[j]
      invariant forall j :: i <= j < regs.Length ==> regs[j] == old(regs[j])
    {
      RegsOfAt(pdu[2..2 + 2 * n], i);
      regs[i] := Join(pdu[2 + i * 2], pdu[2 + i * 2 + 1]);
    }
  }

  // ---------------------------------------------------------------- building a PDU

  /** `ciaaModbus_writeInt`. */
  method WriteInt(pdu: array<uint8>, at: nat, v: uint16)
    requires at + 1 < pdu.Length
    modifies pdu
    ensures pdu[..] == old(pdu[..at]) + IntBytes(v) + old(pdu[at + 2..])
  {
    pdu[at] := v / 256;
    pdu[at + 1] := v % 256;
  }

  /** The two integers behind the function code, common to all requests. */
  method BuildHead(pdu: array<uint8>, a: uint16, q: uint16)
    requires pdu.Length >= 5
    modifies pdu
    ensures pdu[..] == Head(old(pdu[0]), a, q) + old(pdu[5..])
  {
    WriteInt(pdu, 1, a);
    WriteInt(pdu, 3, q);
  }

  /** The loop that writes registers, most significant byte first. */
  method WriteRegisters(pdu: array<uint8>, at: nat, regs: array<uint16>, n: nat)
    requires n <= regs.Length && at + 2 * n <= pdu.Length
    modifies pdu
    ensures pdu[..] == old(pdu[..at]) + RegBytes(regs[..n]) + old(pdu[at + 2 * n..])
  {
    ghost var bytes := RegBytes(regs[..n]);
    for i := 0 to n
      invariant forall j :: 0 <= j < 2 * i ==> pdu[at + j] == bytes[j]
      invariant pdu[..at] == old(pdu[..at]) && pdu[at + 2 * n..] == old(pdu[at + 2 * n..])
    {
      RegBytesAt(regs[..n], i);
      pdu[at + i * 2] := regs[i] / 256;
      pdu[at + i * 2 + 1] := regs[i] % 256;
    }
    assert pdu[at..at + 2 * n] == bytes;
    assert pdu[..] == pdu[..at] + pdu[at..at + 2 * n] + pdu[at + 2 * n..];
  }

  /** The byte count is incremented in the buffer, in eight bits. */
  method StoreCoilCount(pdu: array<uint8>, q: uint16)
    requires 6 <= pdu.Length
    modifies pdu
    ensures pdu[..] == old(pdu[..])[5 := CoilBytes(q) % 0x100]
  {
    pdu[5] := q / 8 % 0x100;
    if q % 8 != 0 {
      pdu[5] := (pdu[5] as int + 1) % 0x100;
    }
  }

  method BuildCoils(pdu: array<uint8>, a: uint16, q: uint16, coils: array<uint8>, ghost r: Request) returns (size: nat)
    requires 6 + q as int <= pdu.Length && q <= coils.Length && pdu != coils && pdu[0] == WRITE_MULTIPLE_COILS
    requires r == WriteCoils(a, q, coils[..CoilBytes(q)])
    modifies pdu
    ensures size == ImageSize(r) && pdu[..] == Image(r, coils[..q]) + old(pdu[BytesStored(r)..])
  {
    BuildHead(pdu, a, q);
    StoreCoilCount(pdu, q);
    ghost var head := pdu[..6];
    assert head == Head(WRITE_MULTIPLE_COILS, a, q) + [CoilBytes(q) % 0x100];
    CopyCoils(pdu, coils, q);
    assert pdu[5] == head[5];
    size := 6 + pdu[5] as int;
  }

  /** Copies one byte per coil, more than the PDU holds. */
  method CopyCoils(pdu: array<uint8>, coils: array<uint8>, q: nat)
    requires q <= coils.Length && 6 + q <= pdu.Length && pdu != coils
    modifies pdu
    ensures pdu[..] == old(pdu[..6]) + coils[..q] + old(pdu[6 + q..])
  {
    for i := 0 to q
      invariant pdu[..6] == old(pdu[..6]) && pdu[6 + q..] == old(pdu[6 + q..])
      invariant forall j :: 0 <= j < i ==> pdu[6 + j] == coils[j]
    {
      pdu[6 + i] := coils[i];
    }
    assert pdu[6..6 + q] == coils[..q];
    assert pdu[..] == pdu[..6] + pdu[6..6 + q] + pdu[6 + q..];
  }

  /** Byte count, cut to eight bits, and registers behind a head of `at` bytes. */
  method BuildTail(pdu: array<uint8>, at: nat, regs: array<uint16>, n: uint16) returns (size: nat)
    requires n <= regs.Length && at + 1 + 2 * n <= pdu.Length
    modifies pdu
    ensures size == at + 1 + 2 * n
    ensures pdu[..] == old(pdu[..at]) + [2 * n % 0x100] + RegBytes(regs[..n]) + old(pdu[at + 1 + 2 * n..])
  {
    pdu[at] := n * 2 % 0x100;
    ghost var head := pdu[..at + 1];
    assert head == old(pdu[..at]) + [2 * n % 0x100];
    WriteRegisters(pdu, at + 1, regs, n);
    size := at + 1 + n * 2;
  }

  method BuildRegs(pdu: array<uint8>, a: uint16, q: uint16, regs: array<uint16>, ghost r: Request) returns (size: nat)
    requires 6 + 2 * q as int <= pdu.Length && q <= regs.Length && pdu[0] == WRITE_MULTIPLE_REGISTERS
    requires r == WriteRegs(a, regs[..q])
    modifies pdu
    ensures size == ImageSize(r) && pdu[..] == Image(r, []) + old(pdu[BytesStored(r)..])
  {
    BuildHead(pdu, a, q);
    assert pdu[..5] == Head(WRITE_MULTIPLE_REGISTERS, a, q);
    size := BuildTail(pdu, 5, regs, q);
  }

  method BuildReadWrite(pdu: array<uint8>, a: uint16, q: uint16, aw: uint16, qw: uint16, regs: array<uint16>,
      ghost r: Request)
    returns (size: nat)
    requires 10 + 2 * qw as int <= pdu.Length && qw <= regs.Length && pdu[0] == READ_WRITE_REGISTERS
    requires r == ReadWrite(a, q, aw, regs[..qw])
    modifies pdu
    ensures size == ImageSize(r) && pdu[..] == Image(r, []) + old(pdu[BytesStored(r)..])
  {
    BuildLongHead(pdu, a, q, aw, qw);
    assert pdu[..9] == Head(READ_WRITE_REGISTERS, a, q) + IntBytes(aw) + IntBytes(qw);
    size := BuildTail(pdu, 9, regs, qw);
  }

  /** The four integers of a read with a write. */
  method BuildLongHead(pdu: array<uint8>, a: uint16, q: uint16, aw: uint16, qw: uint16)
    requires 9 <= pdu.Length
    modifies pdu
    ensures pdu[..9] == Head(old(pdu[0]), a, q) + IntBytes(aw) + IntBytes(qw) && pdu[9..] == old(pdu[9..])
  {
    BuildHead(pdu, a, q);
    WriteInt(pdu, 5, aw);
    WriteInt(pdu, 7, qw);
  }
}
