/**
 The Modbus master: one command at a time, put on the wire again until it is answered or its
 retries are used up, and completed exactly once. First the life of a command as a state machine on
 values with a log of what the outside sees, then the object that implements it.
 */
module Master {
  import opened Words
  import opened Pdu

  // ---------------------------------------------------------------- state and events

  datatype Job = Job(request: Request, slaveId: uint8)

  datatype Event =
    | Accepted(job: Job)
    | Wire(id: uint8, pdu: seq<uint8>)
    | Completed(id: uint8, fc: uint8, code: uint8)

  /** `slaveId` and `exc` keep their values after a command has ended. */
  datatype State = State(pending: Option<Request>, slaveId: uint8, retryComm: nat, retryCount: nat, exc: uint8,
      log: seq<Event>)

  function Cmd(s: State): uint8 {
    if s.pending.Some? then FunctionCode(s.pending.value) else 0
  }

  /** The beginning common to all command functions: refused while a command is pending or for slave 0. */
  function Issue(s: State, job: Job): State {
    if s.pending.None? && job.slaveId != 0
    then State(Some(job.request), job.slaveId, s.retryComm, s.retryComm, NO_ERROR, s.log + [Accepted(job)])
    else s
  }

  function Complete(s: State): State {
    s.(pending := None, log := s.log + [Completed(s.slaveId, Cmd(s), s.exc)])
  }

  /** `ciaaModbus_masterTask`. */
  function Task(s: State): State {
    if s.pending.None? then s
    else if s.retryCount > 0 then s.(retryCount := s.retryCount - 1)
    else Complete(if s.exc == NO_ERROR then s.(exc := SLAVE_NOT_RESPOND) else s)
  }

  /** `ciaaModbus_masterRecvMsg`: hands out the request of the pending command. */
  function Recv(s: State): State
    requires s.pending.Some? ==> Encodable(s.pending.value)
  {
    if s.pending.None? then s else s.(log := s.log + [Wire(s.slaveId, Encode(s.pending.value))])
  }

  /** The `masterProcess` functions: is this the answer to the request? */
  function Check(r: Request, buf: seq<uint8>, size: nat): uint8
    requires |buf| >= 5
  {
    var ok := match r
      case ReadBits(_, _, _) => buf[1] == size - 2
      case ReadRegs(_, _, q) => buf[1] == 2 * q && size == 2 + 2 * q
      case ReadWrite(_, q, _, _) => buf[1] == 2 * q && size == 2 + 2 * q
      case WriteSingle(_, a, v) => ReadInt(buf, 1) == a && ReadInt(buf, 3) == v
      case WriteCoils(a, q, _) => ReadInt(buf, 1) == a && ReadInt(buf, 3) == q
      case WriteRegs(a, values) => ReadInt(buf, 1) == a && ReadInt(buf, 3) == |values|;
    if ok then NO_ERROR else PDU_RECEIVED_WRONG
  }

  /** The exception code after an answer from the slave that was asked. */
  function Verdict(s: State, buf: seq<uint8>, size: nat): uint8
    requires |buf| >= 5
  {
    if buf[0] == Cmd(s) then (if s.pending.Some? then Check(s.pending.value, buf, size) else s.exc)
    else if buf[0] == WithErrorFlag(Cmd(s)) then buf[1]
    else PDU_RECEIVED_WRONG
  }

  /** `ciaaModbus_masterSendMsg`: an answer is given to the master. */
  function Answer(s: State, id: uint8, buf: seq<uint8>, size: nat): State
    requires |buf| >= 5
  {
    if id != s.slaveId then s
    else
      var t := s.(exc := Verdict(s, buf, size));
      if t.exc == NO_ERROR then Complete(t) else t
  }

  // ---------------------------------------------------------------- whole runs

  /** One idle step of the gateway is the task followed by the receive function. */
  datatype Action = Command(job: Job) | Poll | Reply(id: uint8, buf: seq<uint8>, size: nat)

  /**
   An answer that completes a command nobody issued: nothing is pending, and it comes from the last
   slave with function code 0 after a success, or with code 0x80 and exception code 0.
   */
  predicate Spurious(s: State, id: uint8, buf: seq<uint8>)
    requires |buf| >= 5
  {
    s.pending.None? && id == s.slaveId && ((buf[0] == 0 && s.exc == NO_ERROR) || (buf[0] == 0x80 && buf[1] == 0))
  }

  /** Commands can be built in the gateway's buffer, and no answer is spurious. */
  predicate Enabled(s: State, a: Action) {
    match a
    case Command(job) => Buildable(job.request)
    case Poll => s.pending.Some? ==> Buildable(s.pending.value)
    case Reply(id, buf, _) => |buf| >= 5 && !Spurious(s, id, buf)
  }

  function Step(s: State, a: Action): State
    requires Enabled(s, a)
  {
    match a
    case Command(job) => Issue(s, job)
    case Poll => Recv(Task(s))
    case Reply(id, buf, size) => Answer(s, id, buf, size)
  }

  predicate Initial(s: State) {
    s.pending.None? && s.log == []
  }

  /** The states a master can get into, starting after `ciaaModbus_masterOpen`. */
  ghost predicate IsRun(states: seq<State>, actions: seq<Action>) {
    && |states| == |actions| + 1 && Initial(states[0])
    && forall i :: 0 <= i < |actions| ==> Enabled(states[i], actions[i]) && states[i + 1] == Step(states[i], actions[i])
  }

  // ---------------------------------------------------------------- the grammar of the log

  datatype Phase = Free | Busy(job: Job, sent: nat)

  /**
   What a log may look like, event by event, with `retryComm` transmissions allowed: a command is accepted, its
   request is put on the wire unchanged at most that often, and it is completed: with code 0,
   or with another code after exactly that many transmissions. `None` for any other log.
   */
  function After(log: seq<Event>, retryComm: nat): Option<Phase> {
    if log == [] then Some(Free) else Follow(After(log[..|log| - 1], retryComm), log[|log| - 1], retryComm)
  }

  function Follow(before: Option<Phase>, e: Event, retryComm: nat): Option<Phase> {
    match before
    case None => None
    case Some(Free) =>
      (match e
       case Accepted(job) => if Buildable(job.request) then Some(Busy(job, 0)) else None
       case _ => None)
    case Some(Busy(job, sent)) =>
      match e
      case Wire(id, pdu) =>
        if id == job.slaveId && Buildable(job.request) && pdu == Encode(job.request) && sent < retryComm
        then Some(Busy(job, sent + 1)) else None
      case Completed(id, fc, code) =>
        if id == job.slaveId && fc == FunctionCode(job.request) && (code == NO_ERROR || sent == retryComm)
        then Some(Free) else None
      case _ => None
  }

  predicate Inv(s: State) {
    && (s.pending.Some? ==> s.retryCount <= s.retryComm)
    && (s.pending.Some? ==> Buildable(s.pending.value))
    && After(s.log, s.retryComm) == Some(
         if s.pending.None? then Free else Busy(Job(s.pending.value, s.slaveId), s.retryComm - s.retryCount))
  }

  lemma {:induction false} AfterAppend(log: seq<Event>, e: Event, retryComm: nat)
    ensures After(log + [e], retryComm) == Follow(After(log, retryComm), e, retryComm)
  {
    assert (log + [e])[..|log|] == log;
  }

  lemma {:induction false} IssueKeeps(s: State, job: Job)
    requires Inv(s) && Buildable(job.request)
    ensures Inv(Issue(s, job))
  {
    AfterAppend(s.log, Accepted(job), s.retryComm);
  }

  /** `t` is `s` or differs from it in the exception code only. */
  lemma {:induction false} CompleteKeeps(s: State, t: State)
    requires Inv(s) && s.pending.Some? && t == s.(exc := t.exc) && (t.exc == NO_ERROR || s.retryCount == 0)
    ensures Inv(Complete(t))
  {
    AfterAppend(s.log, Completed(t.slaveId, Cmd(t), t.exc), s.retryComm);
  }

  lemma {:induction false} WireKeeps(s: State)
    requires Inv(s) && s.pending.Some? && s.retryCount > 0
    ensures Inv(s.(retryCount := s.retryCount - 1, log := s.log + [Wire(s.slaveId, Encode(s.pending.value))]))
  {
    AfterAppend(s.log, Wire(s.slaveId, Encode(s.pending.value)), s.retryComm);
  }

  lemma {:induction false} PollKeeps(s: State)
    requires Inv(s)
    ensures Inv(Recv(Task(s)))
  {
    if s.pending.None? {
    } else if s.retryCount > 0 {
      WireKeeps(s);
    } else {
      CompleteKeeps(s, if s.exc == NO_ERROR then s.(exc := SLAVE_NOT_RESPOND) else s);
    }
  }

  lemma {:induction false} StepKeeps(s: State, a: Action)
    requires Inv(s) && Enabled(s, a)
    ensures Inv(Step(s, a)) && Step(s, a).retryComm == s.retryComm
  {
    match a
    case Command(job) => IssueKeeps(s, job);
    case Poll => PollKeeps(s);
    case Reply(id, buf, size) =>
      var t := Answer(s, id, buf, size);
      if s.pending.Some? && t.log != s.log {
        CompleteKeeps(s, s.(exc := NO_ERROR));
      }
  }

  /** In every run the log follows the grammar, in step with the state. */
  lemma {:induction false} LogFollowsGrammar(states: seq<State>, actions: seq<Action>, n: nat)
    requires IsRun(states, actions) && n < |states|
    ensures Inv(states[n]) && states[n].retryComm == states[0].retryComm
  {
    if n == 0 {
    } else {
      LogFollowsGrammar(states, actions, n - 1);
      StepKeeps(states[n - 1], actions[n - 1]);
    }
  }

  // ---------------------------------------------------------------- consequences

  function CountAccepted(log: seq<Event>): nat {
    if log == [] then 0 else CountAccepted(log[..|log| - 1]) + if log[|log| - 1].Accepted? then 1 else 0
  }

  function CountCompleted(log: seq<Event>): nat {
    if log == [] then 0 else CountCompleted(log[..|log| - 1]) + if log[|log| - 1].Completed? then 1 else 0
  }

  lemma {:induction false} GrammarConserves(log: seq<Event>, retryComm: nat)
    requires After(log, retryComm).Some?
    ensures CountAccepted(log) == CountCompleted(log) + if After(log, retryComm) == Some(Free) then 0 else 1
  {
    if log == [] {
    } else {
      GrammarConserves(log[..|log| - 1], retryComm);
    }
  }

  /** Every accepted command is completed once or still pending. */
  lemma {:induction false} CompletionConserved(states: seq<State>, actions: seq<Action>, n: nat)
    requires IsRun(states, actions) && n < |states|
    ensures CountAccepted(states[n].log) == CountCompleted(states[n].log) + if states[n].pending.Some? then 1 else 0
  {
    LogFollowsGrammar(states, actions, n);
    GrammarConserves(states[n].log, states[n].retryComm);
  }

  /**
   What a blocking command returns when it goes on after its completion, `n` steps into the run: the code
   of that completion, cut to `int8_t`, as long as nothing but polls has happened since. It is 0
   exactly after a success; and code 0xFF looks like a command that was refused.
   */
  lemma {:induction false} BlockingReturns(states: seq<State>, actions: seq<Action>, n: nat, m: nat, e: Event)
    requires IsRun(states, actions) && n < m <= |actions| && e.Completed? && states[n + 1].log == states[n].log + [e]
    requires forall j :: n < j < m ==> actions[j].Poll?
    ensures states[m].pending.None? && states[m].exc == e.code
    ensures (ToInt8(states[m].exc) == 0 <==> e.code == NO_ERROR) && (ToInt8(states[m].exc) == -1 <==> e.code == 0xFF)
    decreases m
  {
    if m == n + 1 {
      CompletedCode(states[n], actions[n], e);
    } else {
      BlockingReturns(states, actions, n, m - 1, e);
      assert actions[m - 1] == Poll;
    }
  }

  /** A step that completes a command leaves the code of the completion in the state. */
  lemma {:induction false} CompletedCode(s: State, a: Action, e: Event)
    requires Enabled(s, a) && e.Completed? && Step(s, a).log == s.log + [e]
    ensures Step(s, a).pending.None? && Step(s, a).exc == e.code
  {
    var t := Step(s, a);
    assert t.log[|s.log|] == e;
  }

  /** `n` polls in a row, with no reply between them. */
  function Polls(s: State, n: nat): (t: State)
    requires Enabled(s, Poll)
    ensures Enabled(t, Poll)
  {
    if n == 0 then s else Step(Polls(s, n - 1), Poll)
  }

  function Repeat(e: Event, n: nat): (r: seq<Event>)
    ensures |r| == n && forall i :: 0 <= i < n ==> r[i] == e
  {
    if n == 0 then [] else Repeat(e, n - 1) + [e]
  }

  lemma {:induction false} UnansweredPoll(s: State)
    requires Enabled(s, Poll) && s.pending.Some? && s.retryCount > 0
    ensures Step(s, Poll) == s.(retryCount := s.retryCount - 1,
        log := s.log + [Wire(s.slaveId, Encode(s.pending.value))])
  {
  }

  /** While retries are left, each poll puts the same request on the wire. */
  lemma {:induction false} UnansweredRetries(s: State, n: nat)
    requires Enabled(s, Poll) && s.pending.Some? && n <= s.retryCount
    ensures Polls(s, n) == s.(retryCount := s.retryCount - n,
                              log := s.log + Repeat(Wire(s.slaveId, Encode(s.pending.value)), n))
  {
    var w := Wire(s.slaveId, Encode(s.pending.value));
    if n == 0 {
      assert s.log + Repeat(w, 0) == s.log;
    } else {
      UnansweredRetries(s, n - 1);
      UnansweredPoll(Polls(s, n - 1));
      assert s.log + Repeat(w, n - 1) + [w] == s.log + Repeat(w, n);
    }
  }

  /**
   A command nobody answers any more is sent once for each retry left, then completed with an error: the code
   an answer left before, and "slave not respond" if there is none.
   */
  lemma {:induction false} UnansweredCompletes(s: State)
    requires Enabled(s, Poll) && s.pending.Some?
    ensures var t := Polls(s, s.retryCount + 1);
            var code := if s.exc != 0 then s.exc else 0x10;
            && t.pending.None? && t.exc == code
            && t.log == s.log + Repeat(Wire(s.slaveId, Encode(s.pending.value)), s.retryCount)
                        + [Completed(s.slaveId, FunctionCode(s.pending.value), code)]
  {
    UnansweredRetries(s, s.retryCount);
  }

  /**
   The guard on replies is exact: an answer that arrives while nothing is pending leaves the log as
   it is unless it is spurious, and after a spurious one the log follows the grammar no more. From the last
   slave it still sets the exception code.
   */
  lemma {:induction false} IdleReply(s: State, id: uint8, buf: seq<uint8>, size: nat)
    requires Inv(s) && s.pending.None? && |buf| >= 5
    ensures Answer(s, id, buf, size).log == s.log <==> !Spurious(s, id, buf)
    ensures Inv(Answer(s, id, buf, size)) <==> !Spurious(s, id, buf)
    ensures Answer(s, id, buf, size) == s.(log := Answer(s, id, buf, size).log,
        exc := if id != s.slaveId || buf[0] == 0 then s.exc else if buf[0] == 0x80 then buf[1] else 0x11)
  {
    var t := Answer(s, id, buf, size);
    if t.log != s.log {
      assert |t.log| == |s.log| + 1 && t.log[..|s.log|] == s.log;
    }
  }

  // ---------------------------------------------------------------- which answers complete a command

  /** The reply, as a PDU, that the protocol lets the slave send to a request it has served. */
  predicate RightReply(r: Request, reply: seq<uint8>)
    requires Encodable(r)
  {
    if r.ReadBits? then |reply| == 2 + CoilBytes(r.quantity) && reply[0] == r.fc && reply[1] == CoilBytes(r.quantity)
    else if r.ReadRegs? || r.ReadWrite? then
      |reply| == 2 + 2 * r.quantity && reply[0] == FunctionCode(r) && reply[1] == 2 * r.quantity
    else reply == Encode(r)[..5]
  }

  /** An echo of the wrong size: what the first `size` bytes lack, the buffer holds behind them. */
  predicate EchoOfWrongSize(r: Request, buf: seq<uint8>, size: nat)
    requires Encodable(r) && |buf| >= 5
  {
    (r.WriteSingle? || r.WriteCoils? || r.WriteRegs?) && size != 5 && buf[..5] == Encode(r)[..5]
  }

  /** Coils or inputs, consistent in themselves, but not as many bytes as were asked for. */
  predicate WrongBitCount(r: Request, buf: seq<uint8>, size: nat)
    requires |buf| >= 5
  {
    r.ReadBits? && buf[0] == r.fc && size == 2 + buf[1] as int && buf[1] != CoilBytes(r.quantity)
  }

  predicate ErrorFlagWithoutError(r: Request, buf: seq<uint8>)
    requires |buf| >= 5
  {
    buf[0] == FunctionCode(r) % 0x80 + 0x80 && buf[1] == 0
  }

  /**
   An answer to a pending command completes it without error if and only if it comes from the slave
   that was asked and is a right reply, or one of the three kinds of answers the checks let through.
   Any other answer leaves the command pending.
   */
  lemma {:induction false} SuccessIff(s: State, r: Request, id: uint8, buf: seq<uint8>, size: nat)
    requires s.pending == Some(r) && Encodable(r) && 5 <= |buf| && size <= |buf|
    ensures Answer(s, id, buf, size) == Complete(s.(exc := NO_ERROR)) <==>
            id == s.slaveId && (RightReply(r, buf[..size]) || EchoOfWrongSize(r, buf, size)
                                || WrongBitCount(r, buf, size) || ErrorFlagWithoutError(r, buf))
    ensures Answer(s, id, buf, size) == Complete(s.(exc := NO_ERROR)) || Answer(s, id, buf, size).pending == s.pending
  {
    if id == s.slaveId {
      VerdictIff(s, r, buf, size);
    }
  }

  lemma {:induction false} VerdictIff(s: State, r: Request, buf: seq<uint8>, size: nat)
    requires s.pending == Some(r) && Encodable(r) && 5 <= |buf| && size <= |buf|
    ensures Verdict(s, buf, size) == NO_ERROR <==>
            RightReply(r, buf[..size]) || EchoOfWrongSize(r, buf, size)
            || WrongBitCount(r, buf, size) || ErrorFlagWithoutError(r, buf)
  {
    if r.WriteSingle? || r.WriteCoils? || r.WriteRegs? {
      EchoIff(s, r, buf, size);
    } else if size >= 2 {
      assert buf[..size][0] == buf[0] && buf[..size][1] == buf[1];
    }
  }

  /** A write is answered without error exactly by its own first five bytes, whatever the size. */
  lemma {:induction false} EchoIff(s: State, r: Request, buf: seq<uint8>, size: nat)
    requires s.pending == Some(r) && Encodable(r) && (r.WriteSingle? || r.WriteCoils? || r.WriteRegs?) && 5 <= |buf|
    ensures Verdict(s, buf, size) == NO_ERROR <==> buf[..5] == Encode(r)[..5] || ErrorFlagWithoutError(r, buf)
    ensures size <= |buf| ==>
        (buf[..5] == Encode(r)[..5] <==> RightReply(r, buf[..size]) || EchoOfWrongSize(r, buf, size))
  {
    var e := Encode(r);
    var v := if r.WriteSingle? then r.value else if r.WriteCoils? then r.quantity else |r.values|;
    assert e[..5] == Head(FunctionCode(r), r.address, v);
    HeadIs(buf, FunctionCode(r), r.address, v);
  }

  /** Five bytes are a head if and only if they read as its fields. */
  lemma {:induction false} HeadIs(buf: seq<uint8>, fc: uint8, a: uint16, v: uint16)
    requires |buf| >= 5
    ensures buf[..5] == Head(fc, a, v) <==> buf[0] == fc && ReadInt(buf, 1) == a && ReadInt(buf, 3) == v
  {
    ReadIntOfIntBytes(buf, 1, a);
    ReadIntOfIntBytes(buf, 3, v);
    assert buf[..5] == [buf[0]] + buf[1..3] + buf[3..5];
  }

  /** A write is completed by its own request, with any size: what a port that hears itself delivers. */
  lemma {:induction false} OwnRequestCompletes(s: State, r: Request, tail: seq<uint8>, size: nat)
    requires s.pending == Some(r) && Encodable(r) && (r.WriteSingle? || r.WriteCoils? || r.WriteRegs?)
    ensures Answer(s, s.slaveId, Encode(r) + tail, size) == Complete(s.(exc := NO_ERROR))
  {
    assert (Encode(r) + tail)[..5] == Encode(r)[..5];
    EchoIff(s, r, Encode(r) + tail, size);
  }

  /** First kind: two bytes, all else left over from the request in the same buffer. */
  lemma {:induction false} ShortEchoCompletes(s: State, r: Request, tail: seq<uint8>)
    requires s.pending == Some(r) && Encodable(r) && (r.WriteSingle? || r.WriteCoils? || r.WriteRegs?)
    ensures Answer(s, s.slaveId, Encode(r) + tail, 2) == Complete(s.(exc := NO_ERROR))
    ensures !RightReply(r, (Encode(r) + tail)[..2])
  {
    OwnRequestCompletes(s, r, tail, 2);
  }

  /** Second kind: a slave that sends no coils at all. */
  lemma {:induction false} EmptyBitsComplete(s: State, r: Request, tail: seq<uint8>)
    requires s.pending == Some(r) && Encodable(r) && r.ReadBits? && r.quantity >= 1 && |tail| >= 3
    ensures Answer(s, s.slaveId, [r.fc, 0] + tail, 2) == Complete(s.(exc := NO_ERROR))
    ensures !RightReply(r, ([r.fc, 0] + tail)[..2])
  {
    VerdictIff(s, r, [r.fc, 0] + tail, 2);
  }

  /** Third kind: the error flag with exception code 0. */
  lemma {:induction false} ErrorFlagCompletes(s: State, r: Request, tail: seq<uint8>)
    requires s.pending == Some(r) && Encodable(r) && |tail| >= 3
    ensures Answer(s, s.slaveId, [FunctionCode(r) % 0x80 + 0x80, 0] + tail, 2) == Complete(s.(exc := NO_ERROR))
    ensures !RightReply(r, ([FunctionCode(r) % 0x80 + 0x80, 0] + tail)[..2])
  {
    var buf := [FunctionCode(r) % 0x80 + 0x80, 0] + tail;
    assert buf[..2][0] == FunctionCode(r) % 0x80 + 0x80 && ErrorFlagWithoutError(r, buf);
    VerdictIff(s, r, buf, 2);
  }

  // ---------------------------------------------------------------- what an answer stores

  /** How many bytes of coils or inputs an answer stores in the caller's memory: as many as it says itself. */
  function BitsStored(s: State, buf: seq<uint8>, size: nat): nat
    requires |buf| >= 5
  {
    if s.pending.Some? && s.pending.value.ReadBits? && buf[0] == s.pending.value.fc && size == 2 + buf[1] as int
        then buf[1] else 0
  }

  /**
   An answer stores more than the memory for the coils asked for has room for if and only if it is
   of the kind with a wrong count, and the count is too large.
   */
  lemma {:induction false} OverrunIff(s: State, r: Request, buf: seq<uint8>, size: nat)
    requires s.pending == Some(r) && Encodable(r) && r.ReadBits? && 5 <= |buf| && size <= |buf|
    ensures BitsStored(s, buf, size) > CoilBytes(r.quantity) <==>
        WrongBitCount(r, buf, size) && size > 2 + CoilBytes(r.quantity)
    ensures BitsStored(s, buf, size) > CoilBytes(r.quantity) ==> Verdict(s, buf, size) == NO_ERROR
  {
  }

  /** Such an answer exists for every command that asks for fewer than 250 bytes of coils. */
  lemma {:induction false} OverrunningAnswer(s: State, r: Request) returns (buf: seq<uint8>)
    requires s.pending == Some(r) && Encodable(r) && r.ReadBits? && CoilBytes(r.quantity) < 250
    ensures |buf| == 252 && BitsStored(s, buf, |buf|) == 250 > CoilBytes(r.quantity)
    ensures Answer(s, s.slaveId, buf, |buf|) == Complete(s.(exc := NO_ERROR))
  {
    buf := [r.fc, 250] + seq(250, _ => 0);
    VerdictIff(s, r, buf, 252);
  }
}
