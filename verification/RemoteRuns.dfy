/**
 A command of the master over the ASCII line from the call to its completion: one round for each
 transmission, a poll of the master and the exchange that follows it.
 */
module RemoteRuns {
  import opened Words
  import opened Pdu
  import opened Slave
  import opened EndToEnd
  import M = Master

  /** The application's data after `n` transmissions of the same request. */
  function AppAfter<S>(h: Handlers<S>, app: S, id: uint8, r: Request, n: nat): S
    requires Buildable(r)
  {
    if n == 0 then app else Exchange(h, AppAfter(h, app, id, r, n - 1), id, r).app
  }

  /** Each buffer holds the answer to its transmission. */
  ghost predicate HoldAll<S>(h: Handlers<S>, app: S, id: uint8, r: Request, bufs: seq<seq<uint8>>)
    requires Buildable(r)
  {
    forall i :: 0 <= i < |bufs| ==> Holds(bufs[i], Exchange(h, AppAfter(h, app, id, r, i), id, r))
  }

  /** One transmission: a poll of the master, and the answer that comes for it. */
  function AfterRound<S>(s: M.State, r: Request, e: Exchanged<S>, buf: seq<uint8>): (t: M.State)
    requires Buildable(r) && Holds(buf, e) && (s.pending == None || s.pending == Some(r))
    ensures t.pending == None || t.pending == Some(r)
  {
    AfterExchange(M.Step(s, M.Poll), e, buf)
  }

  /** The master after `n` transmissions. */
  ghost function Rounds<S>(h: Handlers<S>, app: S, s: M.State, r: Request, bufs: seq<seq<uint8>>, n: nat): (t: M.State)
    requires Buildable(r) && HoldAll(h, app, s.slaveId, r, bufs) && n <= |bufs|
    requires s.pending == Some(r)
    ensures t.pending == None || t.pending == Some(r)
  {
    if n == 0 then s
    else
      AfterRound(Rounds(h, app, s, r, bufs, n - 1), r,
          Exchange(h, AppAfter(h, app, s.slaveId, r, n - 1), s.slaveId, r), bufs[n - 1])
  }

  /** The application refuses the request with `code` every time. */
  ghost predicate Refuses<S>(h: Handlers<S>, app: S, id: uint8, r: Request, code: uint8, n: nat)
    requires WellFormed(r) && Buildable(r) && Supported(h, FunctionCode(r))
  {
    forall i :: 0 <= i < n ==> DirectCode(h, AppAfter(h, app, id, r, i), r) == code
  }

  /** A round that is refused: the request is sent once more, and the master keeps the code. */
  lemma {:induction false} RefusedRound<S(!new)>(h: Handlers<S>, app: S, s: M.State, r: Request, buf: seq<uint8>)
    requires WellFormed(r) && Buildable(r) && Supported(h, FunctionCode(r)) && AllHonest(h) && FitsLine(r)
    requires s.pending == Some(r) && s.retryCount > 0 && DirectCode(h, app, r) != 0
        && Holds(buf, Exchange(h, app, s.slaveId, r))
    ensures AfterRound(s, r, Exchange(h, app, s.slaveId, r), buf) ==
            s.(retryCount := s.retryCount - 1, exc := DirectCode(h, app, r),
               log := s.log + [M.Wire(s.slaveId, Encode(r))])
  {
    RemoteCommand(h, app, M.Step(s, M.Poll), r, buf);
  }

  /** The master after `n` refused transmissions. */
  ghost function Tried(s: M.State, r: Request, code: uint8, n: nat): M.State
    requires Buildable(r) && n <= s.retryCount
  {
    s.(retryCount := s.retryCount - n, exc := if n == 0 then s.exc else code,
       log := s.log + M.Repeat(M.Wire(s.slaveId, Encode(r)), n))
  }

  lemma {:induction false} TriedOnce(s: M.State, r: Request, code: uint8, n: nat)
    requires Buildable(r) && 1 <= n <= s.retryCount
    ensures var t := Tried(s, r, code, n - 1);
            Tried(s, r, code, n) ==
            t.(retryCount := t.retryCount - 1, exc := code, log := t.log + [M.Wire(s.slaveId, Encode(r))])
  {
    var w := M.Wire(s.slaveId, Encode(r));
    assert s.log + M.Repeat(w, n - 1) + [w] == s.log + M.Repeat(w, n);
  }

  lemma {:induction false} RefusedRounds<S(!new)>(h: Handlers<S>, app: S, s: M.State, r: Request,
      bufs: seq<seq<uint8>>, code: uint8, n: nat)
    requires WellFormed(r) && Buildable(r) && Supported(h, FunctionCode(r)) && AllHonest(h) && FitsLine(r)
    requires HoldAll(h, app, s.slaveId, r, bufs) && n <= |bufs| && n <= s.retryCount
    requires s.pending == Some(r) && code != 0 && Refuses(h, app, s.slaveId, r, code, n)
    ensures Rounds(h, app, s, r, bufs, n) == Tried(s, r, code, n)
  {
    if n == 0 {
      assert s.log + M.Repeat(M.Wire(s.slaveId, Encode(r)), 0) == s.log;
    } else {
      RefusedRounds(h, app, s, r, bufs, code, n - 1);
      RefusedRound(h, AppAfter(h, app, s.slaveId, r, n - 1), Tried(s, r, code, n - 1), r, bufs[n - 1]);
      TriedOnce(s, r, code, n);
    }
  }

  /**
   A command that the application refuses with the same code every time, from the call to its end: it is
   accepted, sent as often as transmissions are allowed, and completed with that code.
   */
  lemma {:induction false} RefusedCompletes<S(!new)>(h: Handlers<S>, app: S, s: M.State, job: M.Job,
      bufs: seq<seq<uint8>>, code: uint8)
    requires WellFormed(job.request) && Buildable(job.request) && Supported(h, FunctionCode(job.request))
        && AllHonest(h) && FitsLine(job.request)
    requires s.pending.None? && job.slaveId != 0 && |bufs| == s.retryComm >= 1
    requires HoldAll(h, app, job.slaveId, job.request, bufs)
    requires code != 0 && Refuses(h, app, job.slaveId, job.request, code, s.retryComm)
    ensures var asked := M.Step(s, M.Command(job));
            && asked.pending == Some(job.request) && asked.slaveId == job.slaveId
            && M.Step(Rounds(h, app, asked, job.request, bufs, s.retryComm), M.Poll).log ==
               s.log + [M.Accepted(job)] + M.Repeat(M.Wire(job.slaveId, Encode(job.request)), s.retryComm)
               + [M.Completed(job.slaveId, FunctionCode(job.request), code)]
  {
    var asked := M.Step(s, M.Command(job));
    RefusedRounds(h, app, asked, job.request, bufs, code, s.retryComm);
  }

  /** A round that is served in full ends the command. */
  lemma {:induction false} ServedRound<S(!new)>(h: Handlers<S>, app: S, s: M.State, r: Request, buf: seq<uint8>)
    requires WellFormed(r) && Buildable(r) && Supported(h, FunctionCode(r)) && AllHonest(h) && FitsLine(r)
        && ServedInFull(h, app, r)
    requires s.pending == Some(r) && s.retryCount > 0 && Holds(buf, Exchange(h, app, s.slaveId, r))
    ensures var t := AfterRound(s, r, Exchange(h, app, s.slaveId, r), buf);
            t.pending == None && t.log == s.log + [M.Wire(s.slaveId, Encode(r)),
                                                   M.Completed(s.slaveId, FunctionCode(r), 0)]
  {
    RemoteCommand(h, app, M.Step(s, M.Poll), r, buf);
  }

  /** A command that the application serves in full: accepted, sent once, completed with code 0. */
  lemma {:induction false} ServedCompletes<S(!new)>(h: Handlers<S>, app: S, s: M.State, job: M.Job, buf: seq<uint8>)
    requires WellFormed(job.request) && Buildable(job.request) && Supported(h, FunctionCode(job.request))
        && AllHonest(h) && FitsLine(job.request) && ServedInFull(h, app, job.request)
    requires s.pending.None? && job.slaveId != 0 && s.retryComm >= 1
    requires Holds(buf, Exchange(h, app, job.slaveId, job.request))
    ensures var asked := M.Step(s, M.Command(job));
            && asked.pending == Some(job.request) && asked.slaveId == job.slaveId
            && var t := AfterRound(asked, job.request, Exchange(h, app, job.slaveId, job.request), buf);
               t.pending == None && t.log == s.log + [M.Accepted(job), M.Wire(job.slaveId, Encode(job.request)),
                                                      M.Completed(job.slaveId, FunctionCode(job.request), 0)]
  {
    ServedRound(h, app, M.Step(s, M.Command(job)), job.request, buf);
  }

  lemma {:induction false} FileRefusesOnce(regs: Registers, id: uint8, r: Request)
    requires WellFormed(r) && (r.WriteRegs? || (r.ReadRegs? && r.fc == READ_HOLDING_REGISTERS)) && !InFile(regs, r)
        && FitsLine(r) && Buildable(r)
    ensures Exchange(RegisterFile(), regs, id, r).app == regs
  {
    RegisterFileHonest();
    FileRefuses(regs, r);
    ExchangeServes(RegisterFile(), regs, id, r);
  }

  lemma {:induction false} FileKept(regs: Registers, id: uint8, r: Request, n: nat)
    requires WellFormed(r) && (r.WriteRegs? || (r.ReadRegs? && r.fc == READ_HOLDING_REGISTERS)) && !InFile(regs, r)
        && FitsLine(r) && Buildable(r)
    ensures AppAfter(RegisterFile(), regs, id, r, n) == regs
  {
    if n == 0 {
    } else {
      FileKept(regs, id, r, n - 1);
      FileRefusesOnce(regs, id, r);
    }
  }

  /** Functions 0x03 and 0x10 outside a file of registers end with code 2, and the file is what it was. */
  lemma {:induction false} OutOfRangeCompletes(regs: Registers, s: M.State, job: M.Job, bufs: seq<seq<uint8>>)
    requires WellFormed(job.request) && FitsLine(job.request) && Buildable(job.request) && !InFile(regs, job.request)
        && (job.request.WriteRegs? || (job.request.ReadRegs? && job.request.fc == READ_HOLDING_REGISTERS))
    requires s.pending.None? && job.slaveId != 0 && |bufs| == s.retryComm >= 1
    requires HoldAll(RegisterFile(), regs, job.slaveId, job.request, bufs)
    ensures AppAfter(RegisterFile(), regs, job.slaveId, job.request, s.retryComm) == regs
    ensures var asked := M.Step(s, M.Command(job));
            && asked.pending == Some(job.request) && asked.slaveId == job.slaveId
            && M.Step(Rounds(RegisterFile(), regs, asked, job.request, bufs, s.retryComm), M.Poll).log ==
               s.log + [M.Accepted(job)] + M.Repeat(M.Wire(job.slaveId, Encode(job.request)), s.retryComm)
               + [M.Completed(job.slaveId, FunctionCode(job.request), 2)]
  {
    RegisterFileHonest();
    FileKept(regs, job.slaveId, job.request, s.retryComm);
    forall i | 0 <= i < s.retryComm
      ensures DirectCode(RegisterFile(), AppAfter(RegisterFile(), regs, job.slaveId, job.request, i), job.request) == 2
    {
      FileKept(regs, job.slaveId, job.request, i);
      FileRefuses(regs, job.request);
    }
    RefusedCompletes(RegisterFile(), regs, s, job, bufs, 2);
  }
}
