# Verified model of the CIAA firmware: Modbus stack, circular buffer, weekday, plugin builder

The project models the parts of the CIAA firmware with the most state and proves what they are for.

- **ASCII transport.** `AsciiFrame` is the frame on values: hexadecimal coding, LRC, what a sender
  emits and what a receiver finds in a buffer. `AsciiErrors` says which messages arrive and which
  damage is noticed, `AsciiLine` and `AsciiDelivery` how a port finds a frame in characters that come
  in pieces, `AsciiSilence` what it forgets when nothing comes. `AsciiPort` is the object with its single buffer, decoded and encoded in place. The frame
  follows sections 2.5.2.1, 2.5.2.2 and 6.2.1 of "MODBUS over Serial Line Specification and
  Implementation Guide V1.02".
- **Requests, slave and master.** `Pdu` holds the requests of nine functions and their bytes. `Slave`
  has the dispatcher on the shared buffer, a description of the replies without a buffer, and the
  object; `SlaveReplies` says byte by byte what is accepted, called and sent back. `Master` is the
  life of a command with a log of what the outside sees, `MasterRuns` when a command ends and with
  which code, `MasterPort` the object with its fields. `EndToEnd` takes a command from the master over
  the line to the application and back, `RemoteRuns` from the call to its completion. The requests follow sections 6.1 to 6.6, 6.11, 6.12, 6.17 and 7 of "MODBUS
  Application Protocol Specification V1.1b".
- **Gateway.** `Gateway` has the four client states on values, for any number of clients and servers.
  `GatewaySteps` says what a single step does, in terms of what goes in and what comes out.
  `GatewaySafety` proves what every run keeps, `GatewayDrain` that the gateway comes to rest when no
  message arrives, `GatewayLocal` what holds for slaves of the same device. `GatewayStale` and
  `GatewayRestless` are about clients that leave the size of a message alone when they have none.
  `GatewayPort` is the object with its arrays of records.
- **Circular buffer.** `Bits` and `CircBuf` for one thread, `CircBufParallel` for a producer and a
  consumer that run in parallel.
- **Weekday** compares `DT_Weekday` with counting days, and **PluginBuilder** constructs objects in
  the order of what they are composed of.

Objects with state are classes; each method is proved against a function on values, and the theorems
are about these functions and the runs made of them. `Words` and `Memory` hold machine integers,
big-endian accessors and copy loops.

## What the proofs found

- The frame detector takes its length as `int8_t`, so frames of more than 127 characters, with PDUs of
  more than 60 bytes, are sent but never received, although a PDU may have 252 bytes
  (`AsciiErrors.RoundTrip`, `AsciiErrors.LongFrameNeverDelivered`). End to end this allows 29
  registers to be read and 27 to be written in one command (25 together with a read), and not one more:
  the answer comes if and only if the request is within these limits (`EndToEnd.RegistersTravelIff`,
  `EndToEnd.AnsweredIffFits`).
- One damaged character in a buffered frame is always noticed. On the line it is not when the damage
  looks like a start character: the receiver starts again there, and the rest can be a valid frame of
  another message, even of a frame that is too long to be received itself. `AsciiErrors.DamagedOnLine`
  gives the exact condition, `AsciiErrors.BroadcastFalseStart` a family of frames that meets it.
- The receive function of the transport stores the LRC behind the PDU, so the caller's memory needs
  one byte more than the PDU has (`AsciiPort.Port.RecvMsg`).
- The port counts the characters received on while it sends. If as many as its own frame has are left from
  a damaged reception, the next poll delivers its own request as the answer, and a write then
  completes without one (`AsciiErrors.OwnFrame`, `AsciiDelivery.OwnRequestDelivered`,
  `Master.OwnRequestCompletes`).
- The master leaves the gateway's size variable as it was when it has nothing to send. In every run the
  gateway then takes the reply its client got last for a new request, and forwards it
  (`GatewayStale.RepliesComeBack`). If a slave of the same device answers, this goes on for ever,
  whatever the other clients do (`GatewayRestless.NeverDrains`, with a run that meets its premises in
  `GatewayRestless.SomeRunNeverDrains`). When all servers are such slaves and no module has anything to send,
  the gateway falls silent if and only if every client in use whose module does not report size 0 is
  idle with size 0 (`GatewayRestless.QuietIffNothingHeld`). In between it can be at rest when a main
  task ends: a single client is so after every fourth main task and at no other
  (`GatewayRestless.OneClientRests`). Draining is proved under its exact guard, that no message arrives
  meanwhile (`GatewayDrain.Drains`), and without it for modules that report size 0
  (`GatewayDrain.DrainsSilently`).
- Three kinds of wrong replies complete a pending command without error: an echo of the wrong size
  whose missing bytes are left over in the buffer, coils in another number than asked for, and the error flag
  with exception code 0. `Master.SuccessIff` says that there are no others. Replies with too
  many coils are stored past the caller's memory (`Master.OverrunIff`, `Master.OverrunningAnswer`); a
  slave that keeps its contract never sends one (`EndToEnd.HonestReplyFits`, `Slave.ReplyBounds`).
- A command that fails ends with what the last answer of its slave was worth, whatever earlier answers said, and
  with "slave not respond" only if that slave never answered (`MasterRuns.EndsWhen`).
- A frame with 200 polls of silence in it is lost, one with 199 is delivered (`AsciiSilence.InterruptedIff`).
- A reply that reaches the master with no command pending runs the completion again exactly when its
  function code is 0 and the last code was no error, or when it is 0x80 with exception code 0
  (`Master.IdleReply`). Conservation of completions is proved for runs without such replies.
- To write coils the master copies one byte for each coil instead of one for eight. Of the requests the
  protocol and the slave allow it can build all but those for 251 to 1968 coils in the gateway's
  buffer (`Pdu.BuildableIff`); for 251 coils it stores a byte behind it, though the PDU has 38
  (`Pdu.TooManyCoils`).
- The weekday formula is right exactly from 1 March of year 0 on, where the year it computes with is
  not negative; in January and February of year 0 it is one day ahead. In earlier years truncated
  division makes it right only in some leap years (`Weekday.RightIff`, `Weekday.WeekdayIsDayCount`,
  `Weekday.OneAhead`).
- The guard of `construct_object` looks a string up in a hash whose keys are symbols and never finds
  anything, so what stops the recursion is only the absence of cycles
  (`PluginBuilder.EndsIffNoCycle`); the guard of `build_object` keeps objects unique.
- Comments and code differ in places, and the code is followed: the ASCII transport reports
  size 0 where its comment speaks of less than 5, and the master uses codes 0x10 and 0x11 for a slave
  that does not respond and a wrong reply where the header's text says 5 and 6.

## Model

| member | source | states |
|---|---|---|
| AsciiErrors.RoundTrip | Firmware/modules/modbus/src/ciaaModbus_ascii.c:369-489 | for every id, the receiver returns exactly the id and PDU that were framed if the PDU has 1 to 60 bytes, and nothing for every other size |
| AsciiErrors.LongFrameNeverDelivered | Firmware/modules/modbus/src/ciaaModbus_ascii.c:159-186 | a buffer that starts with the frame of a PDU of more than 60 bytes never yields a message, whatever follows: the length is truncated to eight bits |
| AsciiErrors.DamagedFrameRejected | Firmware/modules/modbus/src/ciaaModbus_ascii.c:109-247 | any one character of any frame (start, digit, LRC, CR, LF) replaced by any other value: nothing is delivered |
| AsciiErrors.DamagedOnLine | Firmware/modules/modbus/src/ciaaModbus_ascii.c:343-430 | with the restart at the last start character, a damaged frame of any length delivers something if and only if the damage is a start character in place of the second digit of a byte up to which the bytes add up to 0 modulo 256, and three bytes at least and a PDU of 60 bytes at most are left behind it |
| AsciiErrors.BroadcastFalseStart | Firmware/modules/modbus/src/ciaaModbus_ascii.c:343-430 | every broadcast frame with 2 to 61 PDU bytes: that damage at its second digit delivers the PDU's tail to the id that is the PDU's first byte |
| AsciiErrors.FramesArePrefixFree | Firmware/modules/modbus/src/ciaaModbus_ascii.c:432-489 | no frame is the beginning of another one; equal frames carry the same id and PDU |
| AsciiErrors.ProperPrefixNotDelivered | Firmware/modules/modbus/src/ciaaModbus_ascii.c:159-186 | no proper prefix of a frame is taken for a complete message |
| AsciiFrame.ReceiveIffFrame | Firmware/modules/modbus/src/ciaaModbus_ascii.c:369-430 | a buffer yields a message if and only if it begins with the frame of that message, the PDU is not empty and the frame lies within the truncated length: soundness and completeness of the receiver |
| AsciiFrame.UnhexOfHex | Firmware/modules/modbus/src/ciaaModbus_ascii.c:464-472 | encoded bytes are hexadecimal digits and decode to the same bytes, for any length |
| AsciiFrame.HexOfUnhex | Firmware/modules/modbus/src/ciaaModbus_ascii.c:189-247 | digits that decode are the encoding of what they decode to, so lower-case digits are none |
| AsciiFrame.LrcIffSumZero | Firmware/modules/modbus/src/ciaaModbus_ascii.c:109-148 | the LRC at the end is right if and only if all bytes, LRC included, add up to 0 modulo 256 |
| AsciiFrame.FrameLayout | Firmware/modules/modbus/src/ciaaModbus_ascii.c:432-489 | a frame character by character: colon, for id, each PDU byte and LRC the two digits of `0123456789ABCDEF`, high one first, then CR and LF |
| AsciiFrame.LrcExample | Firmware/modules/modbus/src/ciaaModbus_ascii.c:109-148 | the LRC of slave 0x11, function 3, address 0x006B, quantity 3 is 0x7E |
| AsciiLine.ResyncAnyChunking | Firmware/modules/modbus/src/ciaaModbus_ascii.c:293-367 | while nothing is dropped for overflow or silence, after any sequence of reads the port holds the received characters from the last start character on, or all of them if there is none |
| AsciiLine.ChunkingIrrelevant | Firmware/modules/modbus/src/ciaaModbus_ascii.c:293-367 | two ways to cut the same characters into reads leave the same contents, with a start character at the beginning or nowhere |
| AsciiLine.ReceiveEmptiesIff | Firmware/modules/modbus/src/ciaaModbus_ascii.c:369-430 | a receive empties the port if and only if CR and LF stand at position 7 or later within the truncated length and the first character is a colon, sound message or not; the countdown is kept |
| AsciiDelivery.DeliveredOnce | Firmware/modules/modbus/src/ciaaModbus_ascii.c:293-430 | a frame cut in any way, with silences short of the timeout and a receive after each read, delivers nothing before its last character, then exactly its message, once (nothing at all if the PDU is not of 1 to 60 bytes) |
| AsciiDelivery.DeliveredAfterNoise | Firmware/modules/modbus/src/ciaaModbus_ascii.c:293-430 | the same from every state of the port, with any characters in it, any countdown and any noise in the read that brings the start of the frame |
| AsciiDelivery.DamagedDelivery | Firmware/modules/modbus/src/ciaaModbus_ascii.c:293-430 | a frame with one damaged character, cut and polled in any way: nothing before the last character, and then one message or none, one exactly under the condition of `DamagedOnLine` |
| AsciiSilence.ReadBrings | Firmware/modules/modbus/src/ciaaModbus_ascii.c:301-367 | a read that brings something leaves, with the countdown at 0 or 512 characters held, only what it brought, otherwise that behind what was there, from the last start character on; the countdown is 200 again |
| AsciiSilence.EmptyReads | Firmware/modules/modbus/src/ciaaModbus_ascii.c:301-304 | reads that bring nothing: the characters stay for as many of them as the countdown says, and with one more, or a full buffer, all are gone |
| AsciiSilence.SilenceEmpties | Firmware/modules/modbus/src/ciaaModbus_ascii.c:301-304 | 201 reads in a row that bring nothing empty every port, 200 do not empty one that has just received |
| AsciiSilence.DeliveredIffInTime | Firmware/modules/modbus/src/ciaaModbus_ascii.c:293-430 | a frame that comes in any number of reads, with any silence in it, into a port that holds its beginning or nothing: its message is delivered, once, if and only if the PDU has 1 to 60 bytes and no read finds the countdown run out on a part of it, and nothing is delivered otherwise |
| AsciiSilence.InterruptedIff | Firmware/modules/modbus/src/ciaaModbus_ascii.c:293-430 | a frame cut in two at any place is delivered if and only if fewer than 200 reads between its parts bring nothing |
| AsciiErrors.OwnFrame | Firmware/modules/modbus/src/ciaaModbus_ascii.c:432-489 | what the receiver finds in the first `n` characters of a buffer that begins with a frame, whatever is behind it: that message if the frame lies within `n` cut to eight bits, and nothing otherwise |
| AsciiDelivery.OwnRequestDelivered | Firmware/modules/modbus/src/ciaaModbus_ascii.c:369-489 | a port that has just sent, with `n` characters of an earlier reception still counted and not yet timed out, delivers its own request at the next poll if and only if the frame lies within `n` |
| AsciiPort.CalcLRC | Firmware/modules/modbus/src/ciaaModbus_ascii.c:109-124 | the eight-bit accumulating loop computes the negated sum of the bytes modulo 256 |
| AsciiPort.Ascii2Bin | Firmware/modules/modbus/src/ciaaModbus_ascii.c:189-247 | the in-place decoder returns the byte count, or -1 exactly when some pair is not two hexadecimal digits; every stored byte is the value of its original pair, up to and including the first wrong one, and the rest of the buffer is kept |
| AsciiPort.DecodedIs | Firmware/modules/modbus/src/ciaaModbus_ascii.c:189-247 | on a complete message the decoder succeeds if and only if the digit count is even and all digits are hexadecimal, and its bytes are then the decoding done out of place |
| AsciiPort.EncodeInPlace | Firmware/modules/modbus/src/ciaaModbus_ascii.c:464-472 | the backward loop leaves the encoding of the original bytes and nothing behind it changes: no byte is overwritten before it is read |
| AsciiPort.Port.constructor | Firmware/modules/modbus/src/ciaaModbus_ascii.c:259-291 | an opened port holds nothing and waits for nothing |
| AsciiPort.Port.Task | Firmware/modules/modbus/src/ciaaModbus_ascii.c:293-367 | countdown, drop on silence or overflow, append, and move to the front take the port to the state `AsciiLine` gives for the chunk read |
| AsciiPort.Port.CheckCompleteMsg | Firmware/modules/modbus/src/ciaaModbus_ascii.c:159-186 | the forward search finds the first CR LF within the truncated length, -1 if there is none or the first character is not the start character |
| AsciiPort.Port.RecvMsg | Firmware/modules/modbus/src/ciaaModbus_ascii.c:369-430 | id and PDU of the message in the buffer with the LRC stored behind the PDU, or size 0 with the caller's id and memory untouched; the port's contents are consumed exactly when a complete message was found |
| AsciiPort.Port.SendMsg | Firmware/modules/modbus/src/ciaaModbus_ascii.c:432-489 | the frame of the PDU is written if the PDU has at most 252 bytes and nothing otherwise; what the shared buffer holds afterwards, with the receive counters kept |
| Words.ReadIntOfIntBytes | Firmware/modules/modbus/inc/ciaaModbus.h:628-645 | a word read from a position is `v` if and only if the two bytes there are those written for `v` |
| Words.RegsOfRegBytes | Firmware/modules/modbus/inc/ciaaModbus.h:628-645 | registers written to bytes and read back are the same registers |
| Words.RegBytesOfRegsOf | Firmware/modules/modbus/inc/ciaaModbus.h:628-645 | an even number of bytes read as registers and written back are the same bytes |
| Words.ErrorFlagBit | Firmware/modules/modbus/src/ciaaModbus_slave.c:544-552 | the value used for an exception reply, `b % 0x80 + 0x80`, is `b | 0x80` |
| Pdu.ParseIffEncoded | Firmware/modules/modbus/src/ciaaModbus_slave.c:183-533 | the checks of the slave accept a PDU as a request if and only if the request is within the protocol limits and the PDU is the one the master builds for it: no other bytes are accepted, trailing ones included |
| Pdu.RequestLayout | Firmware/modules/modbus/src/ciaaModbus_master.c:864-1007 | every request PDU byte by byte: function code 1 to 6, 15, 16 or 23, address, quantity or value, byte count and registers, most significant byte first |
| Pdu.BuildableIff | Firmware/modules/modbus/src/ciaaModbus_master.c:882-1005 | every request within the protocol limits has at most 252 bytes, and the master can build it in 256 bytes of memory if and only if it is not one for more than 250 coils |
| Pdu.TooManyCoils | Firmware/modules/modbus/src/ciaaModbus_master.c:924-944 | 251 coils: a legal request with a PDU of 38 bytes, for which the builder stores 257 bytes, the last one behind a buffer of 256 |
| Pdu.ImageIsEncoded | Firmware/modules/modbus/src/ciaaModbus_master.c:882-1005 | of all bytes the builder stores, those within the length it reports are the PDU of the request |
| Slave.RunServes | Firmware/modules/modbus/src/ciaaModbus_slave.c:165-555 | for all nine functions, unknown ones and all sizes, the dispatcher working over the request in its buffer gives the reply, the change of the application's data and the callback calls that `Serve` gives for the message without a buffer |
| Slave.ReplyBounds | Firmware/modules/modbus/src/ciaaModbus_slave.c:179-554 | every reply to a non-empty message has 2 to 252 bytes and starts with the request's function code, or has two bytes, that code modulo 0x80 plus 0x80 and a nonzero exception code |
| Slave.LeftoverIrrelevant | Firmware/modules/modbus/src/ciaaModbus_slave.c:165-555 | two buffers that agree on the first `size` bytes give the same function byte, exception byte, reply size, application data and callback calls with the same arguments, for every size; an empty message gets an empty reply and calls nothing |
| SlaveReplies.ParsedIffInLimits | Firmware/modules/modbus/src/ciaaModbus_slave.c:183-533 | which requests are accepted, in plain byte arithmetic: the lengths, quantities, values and byte counts of the protocol for each function |
| SlaveReplies.Refused | Firmware/modules/modbus/src/ciaaModbus_slave.c:544-552 | a function without its callback gets the code with the error flag and exception 1, a request outside the limits exception 3; no callback is called and nothing changes |
| SlaveReplies.ReadServed | Firmware/modules/modbus/src/ciaaModbus_slave.c:183-335 | functions 1 to 4: the callback for coils, inputs, holding or input registers is called once with address and quantity; the reply holds its bytes behind their count, one for eight coils begun or two for each register |
| SlaveReplies.SingleServed | Firmware/modules/modbus/src/ciaaModbus_slave.c:337-400 | functions 5 and 6: the callback gets address and the two value bytes, and the request is sent back |
| SlaveReplies.MultiServed | Firmware/modules/modbus/src/ciaaModbus_slave.c:402-478 | functions 15 and 16: the callback gets address, quantity, byte count and bytes, and five bytes are sent back |
| SlaveReplies.ReadWriteServed | Firmware/modules/modbus/src/ciaaModbus_slave.c:480-533 | function 23: the write first, and the read only after its success and on the data it left |
| SlaveReplies.NothingToServe | Firmware/modules/modbus/src/ciaaModbus_slave.c:165-182 | with no message nothing is called and nothing written |
| SlaveReplies.BytesBehind | Firmware/modules/modbus/src/ciaaModbus_slave.c:165-555 | what lies behind a reply in the buffer is kept, behind an exception as well unless a reading callback was asked |
| Slave.SlaveObj.ReadFunction | Firmware/modules/modbus/src/ciaaModbus_slave.c:183-335 | the four reading functions on the object's buffer, with the callback's bytes stored in place |
| Slave.SlaveObj.SingleFunction | Firmware/modules/modbus/src/ciaaModbus_slave.c:337-400 | the two single writes: size check, callback on the bytes in the buffer, buffer kept as echo |
| Slave.SlaveObj.MultiFunction | Firmware/modules/modbus/src/ciaaModbus_slave.c:402-478 | the two multiple writes: quantity, byte count and size checks, callback with the bytes in the buffer, echo of the first five |
| Slave.SlaveObj.ReadWriteFunction | Firmware/modules/modbus/src/ciaaModbus_slave.c:480-533 | write first, read only when the write succeeded, and the reply over the request |
| Slave.SlaveObj.Task | Firmware/modules/modbus/src/ciaaModbus_slave.c:165-555 | the task changes buffer, size, application data and calls as `Run` says, which `Slave.RunServes` explains |
| Slave.SlaveObj.RecvMsg | Firmware/modules/modbus/src/ciaaModbus_slave.c:558-574 | the caller gets the slave's id, its size and exactly that many bytes; the rest of the caller's buffer is kept |
| Slave.SlaveObj.SendMsg | Firmware/modules/modbus/src/ciaaModbus_slave.c:576-584 | the slave points to the caller's buffer and works in it |
| Master.LogFollowsGrammar | Firmware/modules/modbus/src/ciaaModbus_master.c:826-1091 | in every run, with replies at any time other than those of `IdleReply`, each accepted command puts its own request PDU on the wire at most `retryComm` times and is completed once, with no error or with an error code after exactly that many transmissions |
| Master.CompletionConserved | Firmware/modules/modbus/src/ciaaModbus_master.c:269-335 | in every such run accepted commands are completions plus one if a command is pending |
| Master.UnansweredCompletes | Firmware/modules/modbus/src/ciaaModbus_master.c:826-862 | a command that is never answered is sent exactly as often as retries are left, unchanged, and then completes with the code an answer left before, or 0x10 if there is none |
| Master.BlockingReturns | Firmware/modules/modbus/src/ciaaModbus_master.c:269-335 | in every run, after a completion and any number of polls, what a blocking command returns is the code of that completion cut to `int8_t`: 0 exactly after a success, and -1, as for a refused command, exactly for code 0xFF |
| MasterRuns.AcceptedThenSent | Firmware/modules/modbus/src/ciaaModbus_master.c:269-335 | a command is accepted if and only if none is pending and it is not for slave 0; it is on the wire with the next poll, or completed with 0x10 if no transmission is allowed; otherwise nothing changes |
| MasterRuns.WhilePending | Firmware/modules/modbus/src/ciaaModbus_master.c:826-1091 | in every run, as long as a command is pending: it is the one accepted, one retry is gone for each poll, and its exception code is what the last answer of the slave that was asked is worth, 0 without one |
| MasterRuns.EndsWhen | Firmware/modules/modbus/src/ciaaModbus_master.c:826-1091 | in every run a command ends exactly with the first answer of the slave asked that is worth 0, or with the poll after the last transmission; the code logged is 0 in the first case, and in the second what the last answer was worth, or 0x10 without one |
| MasterRuns.VerdictIsCodeOf | Firmware/modules/modbus/src/ciaaModbus_master.c:1059-1072 | what an answer is worth: 0 for those `SuccessIff` names, the second byte behind the function code modulo 0x80 plus 0x80, and 0x11 for all others |
| Master.IdleReply | Firmware/modules/modbus/src/ciaaModbus_master.c:1009-1091 | with no command pending, a reply leaves the log as it is, and in step with the grammar, if and only if it is not one from the last slave with function code 0 after a command without error, or with code 0x80 and exception code 0; what it does to the exception code |
| Master.SuccessIff | Firmware/modules/modbus/src/ciaaModbus_master.c:1009-1091 | a reply to a pending command completes it without error if and only if it comes from the slave asked and is a right reply, an echo of the wrong size with the missing bytes in the buffer, coils in a wrong but consistent number, or the error flag with exception code 0; any other leaves it pending |
| Master.OwnRequestCompletes | Firmware/modules/modbus/src/ciaaModbus_master.c:199-243 | for each writing command: its own request, taken for the answer with any size, completes it |
| Master.ShortEchoCompletes | Firmware/modules/modbus/src/ciaaModbus_master.c:199-243 | for each writing command: two bytes over the request left in the buffer complete it |
| Master.EmptyBitsComplete | Firmware/modules/modbus/src/ciaaModbus_master.c:121-149 | for each command that asks for coils or inputs: a reply without any completes it |
| Master.ErrorFlagCompletes | Firmware/modules/modbus/src/ciaaModbus_master.c:1059-1072 | for each command: the error flag with exception code 0 completes it |
| Master.OverrunIff | Firmware/modules/modbus/src/ciaaModbus_master.c:121-149 | a reply stores more bytes than the coils asked for take if and only if its count is consistent with its size and larger; it counts as success |
| Master.OverrunningAnswer | Firmware/modules/modbus/src/ciaaModbus_master.c:121-149 | such a reply for every command that asks for less than 250 bytes of coils |
| MasterPort.MasterObj.constructor | Firmware/modules/modbus/src/ciaaModbus_master.c:339-396 | an opened master has no command pending, an empty log and three transmissions per command |
| MasterPort.MasterObj.ReadBitsCmd | Firmware/modules/modbus/src/ciaaModbus_master.c:398-440 | functions 0x01 and 0x02: accepted exactly when no command is pending and the id is not broadcast, and refused with -1 and nothing changed otherwise |
| MasterPort.MasterObj.ReadRegsCmd | Firmware/modules/modbus/src/ciaaModbus_master.c:442-484 | functions 0x03 and 0x04, the same with registers |
| MasterPort.MasterObj.Cmd0x05 | Firmware/modules/modbus/src/ciaaModbus_master.c:486-554 | a single coil is requested as 0xFF00 or 0, accepted or refused as above |
| MasterPort.MasterObj.Cmd0x06 | Firmware/modules/modbus/src/ciaaModbus_master.c:556-617 | a single register, accepted or refused as above |
| MasterPort.MasterObj.Cmd0x0F | Firmware/modules/modbus/src/ciaaModbus_master.c:619-684 | any number of coils, accepted or refused as above; the request holds the caller's coil bytes |
| MasterPort.MasterObj.Cmd0x10 | Firmware/modules/modbus/src/ciaaModbus_master.c:686-751 | any number of registers, accepted or refused as above; the request holds the caller's registers |
| MasterPort.MasterObj.Cmd0x17 | Firmware/modules/modbus/src/ciaaModbus_master.c:753-824 | both parts of a read-write request, accepted or refused as above, with the caller's memory for the registers read |
| MasterPort.MasterObj.Task | Firmware/modules/modbus/src/ciaaModbus_master.c:826-862 | counts a retry down, or completes with the exception code left, or with "slave not respond" if there is none |
| MasterPort.MasterObj.Build | Firmware/modules/modbus/src/ciaaModbus_master.c:882-1005 | for any quantity and in any memory long enough: exactly the bytes `Pdu.Image` gives are stored, all behind them are kept, and the length reported is that of the PDU |
| MasterPort.MasterObj.RecvMsg | Firmware/modules/modbus/src/ciaaModbus_master.c:864-1007 | with a command pending the gateway gets its PDU, slave id and size, and what lies behind the bytes stored is kept; with none its id, size and buffer keep their values |
| MasterPort.MasterObj.Judge | Firmware/modules/modbus/src/ciaaModbus_master.c:1025-1072 | which exception code a reply gets, and that the caller's memory changes only for a right reply, to exactly the reply's data |
| MasterPort.MasterObj.SendMsg | Firmware/modules/modbus/src/ciaaModbus_master.c:1009-1091 | a reply from the pending slave is judged; without error the command completes with the data already in the caller's memory, otherwise it stays pending with the code |
| MasterPort.MasterObj.Process0x01 | Firmware/modules/modbus/src/ciaaModbus_master.c:121-149 | the byte count must match the size; the bytes are then copied, and only then |
| MasterPort.MasterObj.Process0x03 | Firmware/modules/modbus/src/ciaaModbus_master.c:161-187 | byte count and size must match the registers asked for; these are then stored in order, and only then |
| MasterPort.MasterObj.ProcessEcho | Firmware/modules/modbus/src/ciaaModbus_master.c:199-243 | the reply must repeat the address and the value or quantity of the request |
| EndToEnd.ExchangeServes | Firmware/modules/modbus/src/ciaaModbus_ascii.c:369-489 | a request the master can build, within the line's limits, is served once and its reply arrives as the slave made it |
| EndToEnd.LongRequestLost | Firmware/modules/modbus/src/ciaaModbus_ascii.c:159-186 | a request PDU of more than 60 bytes does not reach the slave |
| EndToEnd.LongReplyLost | Firmware/modules/modbus/src/ciaaModbus_ascii.c:159-186 | with a reply PDU of more than 60 bytes the application has been called and no answer comes |
| EndToEnd.AnswerIff | Firmware/modules/modbus/src/ciaaModbus_ascii.c:369-489 | for any application that keeps its contract, an answer comes if and only if request and reply have at most 60 bytes, and the application is called if and only if the request has |
| EndToEnd.AnsweredIffFits | Firmware/modules/modbus/src/ciaaModbus_ascii.c:369-489 | a request that the application serves in full is answered if and only if it is within limits known before the call, for each of the nine functions |
| EndToEnd.RemoteIsDirect | Firmware/modules/modbus/src/ciaaModbus_master.c:1009-1091 | for any application, the master's verdict on the slave's reply is the exception code of a direct call, "wrong PDU" when it gives fewer registers than asked, and no error otherwise, with the direct call's data in the buffer |
| EndToEnd.HonestReplyFits | Firmware/modules/modbus/src/ciaaModbus_master.c:121-149 | a slave whose callbacks keep their contract never makes the master store more bytes than the coils asked for take |
| EndToEnd.RemoteCommand | Firmware/modules/modbus/src/ciaaModbus_master.c:864-1091 | a whole command over the line: application changed as by one direct call; completed without error exactly when that call succeeds with the count asked for, pending with its code otherwise |
| EndToEnd.RegistersTravel | Firmware/modules/modbus/src/ciaaModbus_master.c:864-1091 | functions 0x03, 0x10 and 0x17 against a register file: the slave's registers become those sent, the command ends with no error and the master reads the slave's registers, after the write for 0x17; up to 29 read, 27 written, 25 written with a read |
| EndToEnd.RegistersTravelIff | Firmware/modules/modbus/src/ciaaModbus_ascii.c:159-186 | for addresses in the register file the answer comes if and only if at most 29 registers are read and 27, or 25 with a read, are written; the registers are written even without an answer if the request arrives |
| EndToEnd.ThirtyRegistersLost | Firmware/modules/modbus/src/ciaaModbus_ascii.c:159-186 | a read of 30 registers and a write of 28 get no answer, and nothing is changed |
| EndToEnd.OutOfRangeRefused | Firmware/modules/modbus/src/ciaaModbus_slave.c:544-552 | outside the register file nothing changes and the master keeps the slave's exception code |
| RemoteRuns.RefusedCompletes | Firmware/modules/modbus/src/ciaaModbus_master.c:826-1091 | a command that the application refuses with the same code every time, from the call on: accepted, sent as often as transmissions are allowed, completed with that code |
| RemoteRuns.ServedCompletes | Firmware/modules/modbus/src/ciaaModbus_master.c:826-1091 | a command that the application serves in full: accepted, sent once, completed with code 0 |
| RemoteRuns.OutOfRangeCompletes | Firmware/modules/modbus/src/ciaaModbus_master.c:826-1091 | a read or write outside the register file is completed with code 2 after all its transmissions, and the file is what it was |
| GatewaySafety.ServersSerialize | Firmware/modules/modbus/src/ciaaModbus_gateway.c:244-411 | in every run, with any number of clients and servers, a server's log alternates between a request of a client and the reply to, or timeout of, that client, and the server is busy if and only if one client, and only one, waits for it |
| GatewaySafety.MessagesConserved | Firmware/modules/modbus/src/ciaaModbus_gateway.c:205-295 | in every run each message of a client is dropped, or forwarded once with its own bytes and id and then answered or timed out, before the next one arrives; it goes to a server with its id or with id 0 |
| GatewaySafety.RunKeeps | Firmware/modules/modbus/src/ciaaModbus_gateway.c:205-456 | the invariant behind both holds in every reachable state, for any interleaving of client steps and additions |
| GatewaySteps.ArrivesAsHanded | Firmware/modules/modbus/src/ciaaModbus_gateway.c:213-230 | the bytes and the id a module hands over are those of the message that arrives; behind them the buffer is kept |
| GatewaySteps.IdleOtherwise | Firmware/modules/modbus/src/ciaaModbus_gateway.c:213-230 | a module that reports size 0 starts nothing; one that leaves the size alone starts a message with what the client holds if the size is not 0 |
| GatewaySteps.RoutedToFirst | Firmware/modules/modbus/src/ciaaModbus_gateway.c:244-295 | a message goes to the first server in use with its id, if there is none to the first in use with id 0, and if there is none either it is dropped; no other record changes |
| GatewaySteps.DroppedIff | Firmware/modules/modbus/src/ciaaModbus_gateway.c:244-295 | a step drops a message if and only if its client is routing one whose id no server in use has, and none has id 0 |
| GatewaySteps.DroppedOnRuns | Firmware/modules/modbus/src/ciaaModbus_gateway.c:244-295 | the same in every run, for the message the log says the client holds |
| GatewaySteps.SentWhenFree | Firmware/modules/modbus/src/ciaaModbus_gateway.c:308-338 | a free server gets the id and bytes of the client, and the countdown is the timeout in periods of 5 ms; a busy one is waited for |
| GatewaySteps.RepliesAsHanded | Firmware/modules/modbus/src/ciaaModbus_gateway.c:353-388 | the bytes a transport brings are those of the reply its client gets and keeps |
| GatewaySteps.UnansweredPoll | Firmware/modules/modbus/src/ciaaModbus_gateway.c:389-408 | a poll without two bytes takes one off the countdown, or at 0 ends the wait with the server free |
| GatewaySteps.WaitedFor | Firmware/modules/modbus/src/ciaaModbus_gateway.c:308-411 | a transport that does not answer is polled as often as the timeout has periods, with the client still waiting |
| GatewaySteps.GivenUpInTime | Firmware/modules/modbus/src/ciaaModbus_gateway.c:308-411 | with one poll more the client gives up and the server is free |
| GatewaySteps.OthersKeep | Firmware/modules/modbus/src/ciaaModbus_gateway.c:205-456 | a step changes no other client, no server but that of the message, and the application only through a slave of this device |
| GatewaySteps.GoesOnIff | Firmware/modules/modbus/src/ciaaModbus_gateway.c:205-456 | a client goes on in the same main task exactly when its message was taken up, routed, sent or replied to |
| GatewaySteps.BurstIs | Firmware/modules/modbus/src/ciaaModbus_gateway.c:680-704 | the steps of a client in one main task are those up to the first that does not bring its message on, that one included, and as many at most as the bound says |
| GatewayDrain.MainTaskWorks | Firmware/modules/modbus/src/ciaaModbus_gateway.c:308-456 | every main task in which no message arrives and that finds a client not idle lowers the measure of remaining work |
| GatewayDrain.Drains | Firmware/modules/modbus/src/ciaaModbus_gateway.c:680-704 | after as many main tasks as the measure says, with no message arriving until then, all clients are idle and all servers free |
| GatewayDrain.SilentClients | Firmware/modules/modbus/src/ciaaModbus_gateway.c:205-230 | clients whose modules report size 0 let no message arrive, in any number of main tasks from any state |
| GatewayDrain.DrainsSilently | Firmware/modules/modbus/src/ciaaModbus_gateway.c:680-704 | with such modules the gateway is at rest after as many main tasks as the measure says, from any state that satisfies the invariant |
| GatewayDrain.WorkBound | Firmware/modules/modbus/src/ciaaModbus_gateway.c:308-410 | the measure is at most the number of clients times the largest timeout in ticks plus three |
| GatewayDrain.MainTaskIsSteps | Firmware/modules/modbus/src/ciaaModbus_gateway.c:680-704 | a main task is a run of at most as many steps for each client as its bound says, so that everything proved of runs holds for it |
| GatewayStale.RepliesComeBack | Firmware/modules/modbus/src/ciaaModbus_gateway.c:205-230 | in every run, whatever the modules of the other clients do: an idle client whose own module never reports size 0 and now has nothing takes up a message if and only if its last one was answered or dropped, or timed out with one byte received; after a reply that message is the reply |
| GatewayRestless.NeverDrains | Firmware/modules/modbus/src/ciaaModbus_gateway.c:205-411 | in every run, whatever the other clients and their modules do: once a slave of this device has answered a client whose module has nothing more to send but leaves the size alone, main tasks take up messages without end |
| GatewayRestless.EveryTwoTasks | Firmware/modules/modbus/src/ciaaModbus_gateway.c:205-411 | when the modules of all clients are such and have nothing to send, every two main tasks take up at least one message |
| GatewayRestless.SomeRunNeverDrains | Firmware/modules/modbus/src/ciaaModbus_gateway.c:205-411 | a run of six steps that meets all premises of `NeverDrains`, with the burst bound of the firmware |
| GatewayRestless.QuietIffNothingHeld | Firmware/modules/modbus/src/ciaaModbus_gateway.c:205-411 | with slaves of this device only and no module with anything to send, some leaving the size alone and some reporting 0, at any moment of any run: no message is taken up from then on if and only if every client in use whose module does not report 0 is idle with size 0 |
| GatewayRestless.OneClientRests | Firmware/modules/modbus/src/ciaaModbus_gateway.c:680-704 | a single such client is at rest after every fourth main task and after no other |
| GatewayLocal.ServedOnce | Firmware/modules/modbus/src/ciaaModbus_gateway.c:308-410 | in every run the log of a local slave's server consists of request, one run of the slave task on exactly those bytes, and the reply of that run: no timeout, no second run |
| GatewayLocal.AnsweredAtOnce | Firmware/modules/modbus/src/ciaaModbus_gateway.c:353-388 | the first poll of a waiting client runs the slave and delivers the reply the slave module specifies for the request, with the id of that slave, and frees client and server |
| GatewayPort.GatewayObj.constructor | Firmware/modules/modbus/src/ciaaModbus_gateway.c:459-548 | after initialisation all records are free and the invariant holds |
| GatewayPort.GatewayObj.ClientStateIdle | Firmware/modules/modbus/src/ciaaModbus_gateway.c:205-230 | updates the client record as the transition on values, all other records kept |
| GatewayPort.GatewayObj.ClientStateRouting | Firmware/modules/modbus/src/ciaaModbus_gateway.c:244-295 | both search loops find the first server in use with the id, else the first with id 0, and the client record changes accordingly |
| GatewayPort.GatewayObj.ClientStateSendMsgToServer | Firmware/modules/modbus/src/ciaaModbus_gateway.c:308-338 | a free server is taken, the message handed over and the timeout loaded; with a busy server nothing changes |
| GatewayPort.GatewayObj.ClientStateWaitingServerResponse | Firmware/modules/modbus/src/ciaaModbus_gateway.c:353-411 | poll, reply or countdown, and release of the server, as the transition on values |
| GatewayPort.GatewayObj.ClientProcess | Firmware/modules/modbus/src/ciaaModbus_gateway.c:421-456 | dispatch on the client's state; keeps all indices valid |
| GatewayPort.GatewayObj.MainTask | Firmware/modules/modbus/src/ciaaModbus_gateway.c:680-704 | the loop over the clients with its bounded burst is the main task on values |
| GatewayPort.GatewayObj.AddSlave | Firmware/modules/modbus/src/ciaaModbus_gateway.c:551-583 | returns 0 if and only if the handle is not negative and a server record is free, and then the first of them is in use with handle and id; otherwise -1 with all records kept; keeps the invariant at any time |
| GatewayPort.GatewayObj.AddMaster | Firmware/modules/modbus/src/ciaaModbus_gateway.c:587-618 | returns 0 if and only if the handle is not negative and a client record is free, and then the first of them is in use; otherwise -1 with all records kept; keeps the invariant at any time |
| GatewayPort.GatewayObj.AddTransport | Firmware/modules/modbus/src/ciaaModbus_gateway.c:621-677 | a slave transport becomes the first free client, a master transport the first free server with id 0, and 0 is returned; -1 for other types, negative handles and full tables, with all records kept; keeps the invariant at any time |
| Bits.IsPowerOfTwoIff | Firmware/modules/libs/inc/ciaaLibs_Maths.h:72 | the bit expression holds exactly for the powers of two |
| Bits.AndMask | Firmware/modules/libs/inc/ciaaLibs_CircBuf.h:87-158 | masking with 2^k - 1 is the remainder modulo 2^k |
| Bits.WrapThenMask | Firmware/modules/libs/inc/ciaaLibs_CircBuf.h:87-158 | the same for a value that first wrapped around at 32 bits, negative ones included |
| CircBuf.MaskedExpressions | Firmware/modules/libs/inc/ciaaLibs_CircBuf.h:87-195 | space, count, advance and full, as computed with wrapping unsigned values and masks, are their mathematical values modulo the number of bytes |
| CircBuf.Distances | Firmware/modules/libs/inc/ciaaLibs_CircBuf.h:87-195 | space and count add up to the capacity, empty and full are count 0 and space 0, and the contiguous parts never exceed the whole |
| CircBuf.CircBuf.Init | Firmware/modules/libs/src/ciaaLibs_CircBuf.c:106-123 | succeeds exactly for a power of two above 7 with memory, and then the queue is empty; otherwise the object is unchanged |
| CircBuf.CircBuf.Put | Firmware/modules/libs/src/ciaaLibs_CircBuf.c:131-166 | appends all bytes if they fit and none otherwise, also across the end of the memory |
| CircBuf.CircBuf.Get | Firmware/modules/libs/src/ciaaLibs_CircBuf.c:168-204 | removes the first min(n, count) bytes in order into the caller's memory, whose rest is kept, also across the end of the memory |
| CircBuf.CircBuf.SpaceLeft | Firmware/modules/libs/inc/ciaaLibs_CircBuf.h:87-100 | space plus the bytes stored is the capacity |
| CircBufParallel.NoAccessOutside | Firmware/modules/libs/src/ciaaLibs_CircBuf.c:131-204 | actions run to their end if and only if each is the next one of its thread: in no interleaving is an access outside the ring or the data, whatever head and tail were seen |
| CircBufParallel.ConsumedIsPrefix | Firmware/modules/libs/src/ciaaLibs_CircBuf.c:131-204 | every interleaving of the memory accesses of one Put at a time and one Get at a time runs to its end, and what was read is a prefix of what was accepted |
| CircBufParallel.NoUnreadByteOverwritten | Firmware/modules/libs/src/ciaaLibs_CircBuf.c:131-204 | no memory access in any interleaving changes a byte that was accepted and not yet read |
| CircBufParallel.RefinesQueue | Firmware/modules/libs/src/ciaaLibs_CircBuf.c:131-204 | every step of every interleaving is a step of a bounded queue: the store of `tail` appends the whole data, the store of `head` removes what was read, a Put is refused only with too little space seen, and all other steps leave the queue as it is |
| CircBufParallel.RunKeeps | Firmware/modules/libs/src/ciaaLibs_CircBuf.c:131-204 | the invariant of both sides with their snapshots, in every reachable state |
| Weekday.RightIff | Firmware/modules/plc/src/PLC_Lib.c:76-111 | for every date of every year, negative ones included, the formula is the number of days counted one by one modulo 7, plus 1, if and only if its year is not negative, or is a leap year with a sum not negative or divisible by 7 |
| Weekday.WeekdayIsDayCount | Firmware/modules/plc/src/PLC_Lib.c:76-111 | for every date from year 0 on it is so if and only if the year of the formula, one less in January and February, is not negative, that is from 1 March of year 0 on |
| Weekday.WeekdayOfNextDay | Firmware/modules/plc/src/PLC_Lib.c:76-111 | from then on the next day, over month, year and leap boundaries, has the next value, with 7 followed by 1 |
| Weekday.DayNumberOfNextDay | Firmware/modules/plc/src/PLC_Lib.c:76-111 | the day count used as reference grows by one from each valid date to the next, in all years |
| Weekday.Anchor | Firmware/modules/plc/src/PLC_Lib.c:76-111 | 1970-01-01 has value 5 |
| Weekday.OneAhead | Firmware/modules/plc/src/PLC_Lib.c:76-111 | in January and February of year 0 the formula gives the value of the next day |
| Weekday.YearZeroFails | Firmware/modules/plc/src/PLC_Lib.c:76-111 | 29 February and 1 March of year 0 have the same value, because the division truncates toward zero |
| PluginBuilder.EndsIffNoCycle | Firmware/externals/ceedling/lib/plugin_builder.rb:31-40 | the recursion from an object ends if and only if neither it nor anything it is composed of is composed of itself, whatever has been built before |
| PluginBuilder.PluginEndsIffAcyclic | Firmware/externals/ceedling/lib/plugin_builder.rb:7-23 | the construction of a whole plugin ends if and only if no name of the map is composed of itself, directly or not |
| PluginBuilder.ConstructBuilds | Firmware/externals/ceedling/lib/plugin_builder.rb:31-51 | when it ends, exactly the object and everything reachable from it has been added, each once and after all it is composed of |
| PluginBuilder.Builder.BuildObject | Firmware/externals/ceedling/lib/plugin_builder.rb:42-51 | an object is made and stored under its symbol unless that is there already |
| PluginBuilder.Builder.ConstructObject | Firmware/externals/ceedling/lib/plugin_builder.rb:31-40 | the recursion over the mutated hash terminates without a cycle and builds what the function on values builds, in the same order |
| PluginBuilder.Builder.ConstructPlugin | Firmware/externals/ceedling/lib/plugin_builder.rb:7-23 | for every acyclic map each key and each name reachable from one is made exactly once, every name after all in its own `compose` list, and nothing else is made; without a map an error is raised |

## Left out

- `ciaaPOSIX_read`, `write`, `open`, `ioctl` and `memcpy` on devices: a read is a chunk no longer than asked for, a write appends to a ghost sequence.
- OSEK resources, events and tasks: additions and opening are atomic, and the wait of a blocking command and its callback are one completion event.
- Handle tables and the loops of the open functions that look for a free object: every object is taken on its own.
- `ciaaModbus_transport.c` is a switch that forwards to the ASCII layer; RTU and TCP are empty there. lwIP glue and `echo.c` are not part of this model.
- `circBufNew` and `circBufRel`: memory allocation. The ring starts from an initialised object with given memory.
- Words.ToInt8: conversion to `int8_t` is modelled as wrap-around, which C leaves to the implementation.
- AsciiPort.Port.Task: a read that fails is modelled as one that brings no characters, which the source treats alike.
- Slave.RunServes: callbacks are functions that return at most the requested count, store exactly that many values and do not touch the request buffer, as the header asks of them.
- MasterPort.MasterObj.Cmd0x0F: requires the caller's memory to hold the coils; that building the request reads and stores one byte per coil is a condition of `MasterPort.MasterObj.Build`.
- MasterPort.MasterObj.Build: requires memory for the bytes it stores and, for coils, as many bytes to read as coils; what is overwritten or read beyond that is not modelled, only when it happens (`Pdu.BuildableIff`).
- MasterPort.MasterObj.RecvMsg: the same, and requires a request that has a PDU, with at most 2000 coils, 125 registers, or 123 together with a read.
- MasterPort.MasterObj.ReadBitsCmd: returns what the source returns with a callback; a blocking command waits, and `Master.BlockingReturns` says what it returns. The same holds for the six other command functions.
- MasterPort.MasterObj.SendMsg: requires room in the caller's memory for as many coil bytes as the reply itself says; what is overwritten beyond it is not modelled, only when it happens (`Master.OverrunIff`).
- MasterPort.MasterObj.Process0x01: the same.
- MasterPort.MasterObj.Judge: the same; and the caller's single read pointer is two fields here, one for coils and one for registers, and signed registers are 16-bit patterns.
- Master.LogFollowsGrammar: runs have no replies of the kind `Master.IdleReply` excludes, and only commands the master can build.
- MasterRuns.EndsWhen: the same runs, and answers lie within the buffers they come in.
- GatewayRestless.NeverDrains: is about a client served by slaves of the same device; with a transport it depends on what the line brings.
- GatewaySafety.ServersSerialize: no fairness is claimed, as a client may take the server again in the same burst, and a late reply is not matched to its request after a timeout.
- GatewayLocal.ServedOnce: every local slave has its own object; two servers with one slave object are not modelled.
- GatewayPort.GatewayObj.MainTask: messages have at most 256 bytes, the size of the client's buffer, and timeouts do not wrap around at 32 bits.
- CircBufParallel.RefinesQueue: memory is sequentially consistent; reordering by a compiler or by hardware is not modelled.
- CircBuf.CircBuf.Init: `size_t` has 32 bits.
- Weekday.RightIff: requires a valid date; integers are unbounded, as 32-bit arithmetic cannot overflow on 16-bit arguments.
- PluginBuilder.Builder.ConstructPlugin: YAML text, loading of a class file, instantiation by name and the system objects are not modelled; an instance is its name.
- PLC register unions and instruction tables, and the rest of ceedling (text processing, paths, reports): declarations and plumbing with easy claims.
