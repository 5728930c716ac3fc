/**
 The life of one command of the master in a whole run, told without its step functions: what an answer is
 worth, when the command ends, and with which code.
 */
module MasterRuns {
  import opened Words
  import opened Pdu
  import opened Master

  /**
   What an answer of the slave that was asked is worth: 0 for one that ends the command, else the exception
   code behind the error flag, else "received wrong".
   */
  function CodeOf(r: Request, buf: seq<uint8>, size: nat): uint8
    requires Encodable(r) && 5 <= |buf| && size <= |buf|
  {
    if RightReply(r, buf[..size]) || EchoOfWrongSize(r, buf, size) || WrongBitCount(r, buf, size) then 0
    else if buf[0] == FunctionCode(r) % 0x80 + 0x80 then buf[1]
    else 0x11
  }

  lemma {:induction false} VerdictIsCodeOf(s: State, r: Request, buf: seq<uint8>, size: nat)
    requires s.pending == Some(r) && Encodable(r) && 5 <= |buf| && size <= |buf|
    ensures Verdict(s, buf, size) == CodeOf(r, buf, size)
  {
    VerdictIff(s, r, buf, size);
  }

  /** An answer is a buffer with the PDU at its start. */
  ghost predicate Sized(actions: seq<Action>) {
    forall i :: 0 <= i < |actions| && actions[i].Reply? ==> 5 <= |actions[i].buf| && actions[i].size <= |actions[i].buf|
  }

  predicate From(a: Action, id: uint8) {
    a.Reply? && a.id == id
  }

  /** The last answer of slave `id` among the actions from `a` on and before `n`, -1 if there is none. */
  function LastAnswer(actions: seq<Action>, id: uint8, a: nat, n: nat): (k: int)
    requires a <= n <= |actions|
    ensures k == -1 || (a <= k < n && From(actions[k], id))
    ensures forall j :: a <= j < n && k < j ==> !From(actions[j], id)
  {
    if n == a then -1 else if From(actions[n - 1], id) then n - 1 else LastAnswer(actions, id, a, n - 1)
  }

  /** What the last answer of the slave that was asked is worth, 0 if it has not answered. */
  ghost function CodeHeard(actions: seq<Action>, job: Job, a: nat, n: nat): uint8
    requires Sized(actions) && Encodable(job.request) && a <= n <= |actions|
  {
    var k := LastAnswer(actions, job.slaveId, a, n);
    if k == -1 then 0 else CodeOf(job.request, actions[k].buf, actions[k].size)
  }

  function PollsIn(actions: seq<Action>, a: nat, n: nat): nat
    requires a <= n <= |actions|
  {
    if n == a then 0 else PollsIn(actions, a, n - 1) + if actions[n - 1].Poll? then 1 else 0
  }

  /** Action `a` asks for `job` while nothing is pending, and something has been pending ever since, up to state `n`. */
  ghost predicate PendingSince(states: seq<State>, actions: seq<Action>, job: Job, a: nat, n: nat) {
    && |states| == |actions| + 1 && a < n < |states|
    && actions[a] == Command(job) && states[a].pending.None? && job.slaveId != 0
    && forall k :: a < k <= n ==> states[k].pending.Some?
  }

  /**
   A command is accepted if and only if none is pending and it is not for slave 0, and then it is on the wire
   with the next poll, if any transmission is allowed at all; otherwise nothing changes. Polls without a
   pending command change nothing.
   */
  lemma {:induction false} AcceptedThenSent(s: State, job: Job)
    requires Buildable(job.request)
    ensures s.pending.None? ==> Step(s, Poll) == s
    ensures var t := Step(s, Command(job));
            if s.pending.Some? || job.slaveId == 0 then t == s
            else
              && t.pending == Some(job.request) && t.retryCount == t.retryComm == s.retryComm
              && t.log == s.log + [Accepted(job)]
              && Step(t, Poll).log == s.log + [Accepted(job)] +
                 if s.retryComm > 0 then [Wire(job.slaveId, Encode(job.request))]
                 else [Completed(job.slaveId, FunctionCode(job.request), 0x10)]
  {
    if s.pending.None? && job.slaveId != 0 {
      assert Step(s, Command(job)).pending == Some(job.request);
    }
  }

  /** The state of a command that is `job`, with `code` heard so far and `polls` polls gone. */
  predicate Carries(s: State, job: Job, retryComm: nat, code: uint8, polls: nat) {
    && s.pending == Some(job.request) && s.slaveId == job.slaveId && s.exc == code
    && s.retryComm == retryComm && s.retryCount == retryComm - polls
  }

  lemma {:induction false} CarriesStep(s: State, a: Action, job: Job, retryComm: nat, code: uint8, polls: nat)
    requires Carries(s, job, retryComm, code, polls) && Buildable(job.request) && Enabled(s, a)
    requires a.Reply? ==> 5 <= |a.buf| && a.size <= |a.buf|
    requires Step(s, a).pending.Some?
    ensures Carries(Step(s, a), job, retryComm,
                if From(a, job.slaveId) then CodeOf(job.request, a.buf, a.size) else code,
                if a.Poll? then polls + 1 else polls)
  {
    if From(a, job.slaveId) {
      VerdictIsCodeOf(s, job.request, a.buf, a.size);
    }
  }

  /**
   While a command is pending it is the one that was accepted; it has been sent once for each poll; and its
   exception code is what the last answer of the slave that was asked is worth.
   */
  lemma {:induction false} WhilePending(states: seq<State>, actions: seq<Action>, job: Job, a: nat, n: nat)
    requires IsRun(states, actions) && Sized(actions) && PendingSince(states, actions, job, a, n)
    ensures Buildable(job.request)
    ensures Carries(states[n], job, states[a].retryComm, CodeHeard(actions, job, a + 1, n), PollsIn(actions, a + 1, n))
    decreases n
  {
    assert Enabled(states[a], actions[a]) && states[a + 1] == Step(states[a], actions[a]);
    if n == a + 1 {
    } else {
      WhilePending(states, actions, job, a, n - 1);
      assert Enabled(states[n - 1], actions[n - 1]) && states[n] == Step(states[n - 1], actions[n - 1]);
      CarriesStep(states[n - 1], actions[n - 1], job, states[a].retryComm, CodeHeard(actions, job, a + 1, n - 1),
          PollsIn(actions, a + 1, n - 1));
    }
  }

  /** Action `n` is an answer of the slave that was asked and worth 0. */
  ghost predicate EndsWell(actions: seq<Action>, job: Job, n: nat)
    requires Sized(actions) && Encodable(job.request) && n < |actions|
  {
    From(actions[n], job.slaveId) && CodeOf(job.request, actions[n].buf, actions[n].size) == 0
  }

  lemma {:induction false} EndStep(s: State, a: Action, job: Job, retryComm: nat, code: uint8, polls: nat)
    requires Carries(s, job, retryComm, code, polls) && Buildable(job.request) && Enabled(s, a)
    requires a.Reply? ==> 5 <= |a.buf| && a.size <= |a.buf|
    ensures var well := From(a, job.slaveId) && CodeOf(job.request, a.buf, a.size) == 0;
            var ended := if well then 0 else if code != 0 then code else 0x10;
            && (Step(s, a).pending.None? <==> well || (a.Poll? && polls == retryComm))
            && (Step(s, a).pending.None? ==>
                Step(s, a).log == s.log + [Completed(job.slaveId, FunctionCode(job.request), ended)])
  {
    if From(a, job.slaveId) {
      VerdictIsCodeOf(s, job.request, a.buf, a.size);
    }
  }

  /**
   When a command ends, and how: with the first answer of the slave that was asked that is worth 0, or with
   the poll after as many polls as transmissions are allowed. In the second case the code it is completed
   with is what the last answer of that slave is worth, and "slave not respond" if there was none.
   */
  lemma {:induction false} EndsWhen(states: seq<State>, actions: seq<Action>, job: Job, a: nat, n: nat)
    requires IsRun(states, actions) && Sized(actions) && PendingSince(states, actions, job, a, n) && n < |actions|
    ensures Buildable(job.request)
    ensures states[n + 1].pending.None? <==>
        EndsWell(actions, job, n) || (actions[n].Poll? && PollsIn(actions, a + 1, n) == states[a].retryComm)
    ensures states[n + 1].pending.None? ==>
        var heard := CodeHeard(actions, job, a + 1, n);
        states[n + 1].log == states[n].log + [Completed(job.slaveId, FunctionCode(job.request),
            if EndsWell(actions, job, n) then 0 else if heard != 0 then heard else 0x10)]
  {
    WhilePending(states, actions, job, a, n);
    EndStep(states[n], actions[n], job, states[a].retryComm, CodeHeard(actions, job, a + 1, n),
        PollsIn(actions, a + 1, n));
  }
}
