/**
 Requests to slaves of this device: each is served by exactly one run of the slave task, with the
 bytes of the request, and answered at the first poll, so that it never times out. Slave objects
 are distinct, one for each server.
 */
module GatewayLocal {
  import opened Words
  import opened Gateway
  import opened GatewaySafety
  import Slave

  /** Slaves answer every request with two bytes at least. */
  ghost predicate AnswersAll<S(!new)>(e: Env<S>) {
    forall app, h, b, n :: n >= 1 ==> e.slave(app, h, b, n).size >= 2
  }

  /** The slaves of the environment are those of the slave module, with callbacks that keep their contract. */
  ghost predicate RunsSlaves<S(!new)>(e: Env<S>, handlers: nat -> Slave.Handlers<S>) {
    && (forall h :: Slave.AllHonest(handlers(h)))
    && forall app, h, b: Buffer, n: Size ::
         var o := Slave.Run(handlers(h), app, b, n);
         |o.buf| == BUFFER && o.size <= BUFFER && e.slave(app, h, b, n) == SlaveRun(o.app, o.buf, o.size)
  }

  lemma {:induction false} SlavesAnswer<S(!new)>(e: Env<S>, handlers: nat -> Slave.Handlers<S>)
    requires RunsSlaves(e, handlers)
    ensures AnswersAll(e)
  {
    forall app, h, b: Buffer, n: Size | n >= 1 ensures e.slave(app, h, b, n).size >= 2 {
      Slave.RunServes(handlers(h), app, b, n);
      Slave.ReplyBounds(handlers(h), app, b[..n]);
    }
  }

  // ---------------------------------------------------------------- the log of one slave

  predicate AtSlave(e: Event, s: nat) {
    OnLink(e, s) || (e.Ran? && e.server == s)
  }

  /** Requests, runs, replies and timeouts of server `s`, in order. */
  function WithRuns(log: seq<Event>, s: nat): (p: seq<Event>)
    ensures forall i :: 0 <= i < |p| ==> AtSlave(p[i], s)
  {
    if log == [] then []
    else WithRuns(log[..|log| - 1], s) + if AtSlave(log[|log| - 1], s) then [log[|log| - 1]] else []
  }

  /** Request, one run on its bytes, reply with the bytes of the run, for the same client. */
  predicate InTriple(p: seq<Event>, i: nat)
    requires i < |p|
  {
    if i % 3 == 0 then p[i].Request?
    else if i % 3 == 1 then p[i].Ran? && p[i].client == p[i - 1].client && p[i - 1].Request?
        && p[i].request == p[i - 1].pdu
    else p[i].Reply? && p[i].client == p[i - 1].client && p[i - 1].Ran? && p[i].pdu == p[i - 1].reply
  }

  predicate Triples(p: seq<Event>) {
    forall i :: 0 <= i < |p| ==> InTriple(p, i)
  }

  lemma {:induction false} TriplesAppend(p: seq<Event>, e: Event)
    requires Triples(p) && InTriple(p + [e], |p|)
    ensures Triples(p + [e])
  {
    forall i | 0 <= i < |p + [e]| ensures InTriple(p + [e], i) {
      if i < |p| {
        assert InTriple(p, i);
      }
    }
  }

  // ---------------------------------------------------------------- the invariant

  /** Between two steps a slave has nothing half done: it is free, or its request has not been run. */
  predicate SlaveOk<S>(g: State<S>, s: nat)
    requires s < |g.servers|
  {
    var p, sv := WithRuns(g.log, s), g.servers[s];
    && (!sv.inUse ==> p == [])
    && (sv.inUse && sv.kind.LocalSlave? ==>
          && Triples(p) && |p| % 3 != 2
          && (|p| % 3 == 1 <==> sv.busy)
          && (forall c ::
              0 <= c < |g.clients| && WaitsOn(g.clients[c], s) ==> RequestOpen(p, c, g.clients[c], sv.kind.pending)))
  }

  /** The last event is the request of `c` with the first `n` bytes of its buffer. */
  predicate RequestOpen(p: seq<Event>, c: nat, cl: Client, n: Size) {
    && |p| % 3 == 1 && n >= 1
    && var e := p[|p| - 1]; e.Request? && e.client == c && e.pdu == Take(cl.buffer, n)
  }

  /** A message that is on its way is not empty. */
  predicate NotEmpty(cl: Client) {
    cl.state.Routing? || cl.state.Sending? ==> cl.size >= 1
  }

  predicate LocalInv<S>(g: State<S>) {
    && Inv(g)
    && (forall c :: 0 <= c < |g.clients| ==> NotEmpty(g.clients[c]))
    && (forall s :: 0 <= s < |g.servers| ==> SlaveOk(g, s))
  }

  lemma {:induction false} GrowRuns(log: seq<Event>, e: Event)
    ensures forall s: nat {:trigger WithRuns(log + [e], s)} ::
              WithRuns(log + [e], s) == if AtSlave(e, s) then WithRuns(log, s) + [e] else WithRuns(log, s)
  {
    assert (log + [e])[..|log|] == log;
  }

  /** Nothing that concerns slave `s` has changed. */
  lemma {:induction false} SlaveUntouched<S>(g: State<S>, h: State<S>, s: nat)
    requires SameShape(g, h) && s < |g.servers| && SlaveOk(g, s) && h.servers[s] == g.servers[s]
    requires WithRuns(h.log, s) == WithRuns(g.log, s)
    requires forall c ::
        0 <= c < |g.clients| && WaitsOn(h.clients[c], s) ==>
        WaitsOn(g.clients[c], s) && h.clients[c].buffer == g.clients[c].buffer
    ensures SlaveOk(h, s)
  {
  }

  // ---------------------------------------------------------------- steps

  /** A step of one client that no server takes part in. */
  lemma {:induction false} ClientMovedLocal<S>(g: State<S>, h: State<S>, c: nat)
    requires LocalInv(g) && Inv(h) && SameShape(g, h) && c < |g.clients|
    requires h.servers == g.servers && h.clients == g.clients[c := h.clients[c]]
    requires !h.clients[c].state.Waiting? && NotEmpty(h.clients[c])
    requires forall s: nat {:trigger WithRuns(h.log, s)} :: WithRuns(h.log, s) == WithRuns(g.log, s)
    ensures LocalInv(h)
  {
    forall s | 0 <= s < |h.servers| ensures SlaveOk(h, s) {
      SlaveUntouched(g, h, s);
    }
  }

  lemma {:induction false} IdleLocal<S>(e: Env<S>, g: State<S>, c: nat)
    requires LocalInv(g) && c < |g.clients| && g.clients[c].inUse && g.clients[c].state.Idle?
    ensures LocalInv(IdleStep(e, g, c).g)
  {
    var h := IdleStep(e, g, c).g;
    IdleKeeps(e, g, c);
    if h.log != g.log {
      GrowRuns(g.log, h.log[|g.log|]);
    }
    ClientMovedLocal(g, h, c);
  }

  lemma {:induction false} RoutingLocal<S>(e: Env<S>, g: State<S>, c: nat)
    requires LocalInv(g) && c < |g.clients| && g.clients[c].inUse && g.clients[c].state.Routing?
    ensures LocalInv(RoutingStep(g, c).g)
  {
    var h := RoutingStep(g, c).g;
    RoutingKeeps(e, g, c);
    assert NotEmpty(g.clients[c]);
    if h.log != g.log {
      GrowRuns(g.log, h.log[|g.log|]);
    }
    ClientMovedLocal(g, h, c);
  }

  /** The server that a message is handed to. */
  lemma {:induction false} RequestMade<S>(g: State<S>, h: State<S>, c: nat, s: nat, ev: Event)
    requires SameShape(g, h) && c < |g.clients| && s < |g.servers| && SlaveOk(g, s) && !g.servers[s].busy
        && g.servers[s].inUse
    requires forall d :: 0 <= d < |g.clients| ==> (WaitsOn(h.clients[d], s) <==> d == c)
    requires ev.Request? && ev.client == c && ev.pdu == Take(h.clients[c].buffer, g.clients[c].size)
        && g.clients[c].size >= 1
    requires h.servers[s] == Accept(g.servers[s], c, g.clients[c].size)
        && WithRuns(h.log, s) == WithRuns(g.log, s) + [ev]
    ensures SlaveOk(h, s)
  {
    if g.servers[s].kind.LocalSlave? {
      TriplesAppend(WithRuns(g.log, s), ev);
    }
  }

  lemma {:induction false} SendingLocal<S>(e: Env<S>, g: State<S>, c: nat)
    requires LocalInv(g) && WF(g) && c < |g.clients| && g.clients[c].inUse && g.clients[c].state.Sending?
    ensures LocalInv(SendingStep(e, g, c).g)
  {
    var h := SendingStep(e, g, c).g;
    var s := g.clients[c].indexServer;
    SendingKeeps(e, g, c);
    assert ClientOk(g, c) && NotEmpty(g.clients[c]);
    if !g.servers[s].busy {
      var ev := h.log[|g.log|];
      GrowRuns(g.log, ev);
      FreeServerUnwatched(g, s);
      RequestMade(g, h, c, s, ev);
      forall t | 0 <= t < |h.servers| && t != s ensures SlaveOk(h, t) {
        SlaveUntouched(g, h, t);
      }
    }
  }

  /** A poll of a slave, and the reply it brings, in one step of the gateway. */
  lemma {:induction false} SlaveStep<S(!new)>(e: Env<S>, g: State<S>, c: nat)
    requires LocalInv(g) && WF(g) && AnswersAll(e) && c < |g.clients| && g.clients[c].inUse
        && g.clients[c].state.Waiting?
    requires g.servers[g.clients[c].indexServer].kind.LocalSlave?
    ensures var s := g.clients[c].indexServer; var sv := g.servers[s];
            var run := e.slave(g.app, sv.kind.handler, g.clients[c].buffer, sv.kind.pending);
            var reply := Take(run.buf, run.size);
            var h := WaitingStep(e, g, c).g;
            && sv.inUse && h.clients[c].state.Idle? && h.clients[c].inUse && h.clients[c].id == sv.id
                && h.clients[c].size == run.size >= 2
            && !h.servers[s].busy && h.servers[s].inUse && h.servers[s].id == sv.id && h.servers[s].kind.LocalSlave?
                && h.app == run.app
            && h.log == g.log + [Ran(s, c, Take(g.clients[c].buffer, sv.kind.pending), reply)] + [Reply(s, c, reply)]
            && (forall d :: 0 <= d < |g.clients| && d != c ==> h.clients[d] == g.clients[d])
            && (forall t :: 0 <= t < |g.servers| && t != s ==> h.servers[t] == g.servers[t])
  {
    assert ClientOk(g, c);
    assert SlaveOk(g, g.clients[c].indexServer);
    PollKeeps(e, g, c);
    var s := g.clients[c].indexServer;
    var sv := g.servers[s];
    var run := e.slave(g.app, sv.kind.handler, g.clients[c].buffer, sv.kind.pending);
    assert run.size >= 2;
    assert Take(Put(run.buf, Take(run.buf, run.size)), run.size) == Take(run.buf, run.size);
  }

  lemma {:induction false} WaitingAtSlave<S(!new)>(e: Env<S>, g: State<S>, c: nat)
    requires LocalInv(g) && WF(g) && AnswersAll(e) && c < |g.clients| && g.clients[c].inUse
        && g.clients[c].state.Waiting?
    requires g.servers[g.clients[c].indexServer].kind.LocalSlave?
    ensures LocalInv(WaitingStep(e, g, c).g)
  {
    var s := g.clients[c].indexServer;
    var h := WaitingStep(e, g, c).g;
    SlaveStep(e, g, c);
    WaitingKeeps(e, g, c);
    var ran, reply := h.log[|g.log|], h.log[|g.log| + 1];
    GrowRuns(g.log, ran);
    GrowRuns(g.log + [ran], reply);
    FreeServerUnwatched(h, s);
    assert SlaveOk(g, s) && WaitsOn(g.clients[c], s);
    TripleClosed(WithRuns(g.log, s), c, g.clients[c], g.servers[s].kind.pending, ran, reply);
    assert SlaveOk(h, s);
    forall t | 0 <= t < |h.servers| ensures SlaveOk(h, t) {
      if t != s {
        SlaveUntouched(g, h, t);
      }
    }
  }

  lemma {:induction false} TripleClosed(p: seq<Event>, c: nat, cl: Client, n: Size, ran: Event, reply: Event)
    requires Triples(p) && RequestOpen(p, c, cl, n)
    requires ran.Ran? && ran.client == c && ran.request == Take(cl.buffer, n)
    requires reply.Reply? && reply.client == c && reply.pdu == ran.reply
    ensures Triples(p + [ran] + [reply]) && |p + [ran] + [reply]| % 3 == 0
  {
    TriplesAppend(p, ran);
    TriplesAppend(p + [ran], reply);
  }

  lemma {:induction false} WaitingAtTransport<S>(e: Env<S>, g: State<S>, c: nat)
    requires LocalInv(g) && WF(g) && c < |g.clients| && g.clients[c].inUse && g.clients[c].state.Waiting?
    requires g.servers[g.clients[c].indexServer].kind.Transport?
    ensures LocalInv(WaitingStep(e, g, c).g)
  {
    var s := g.clients[c].indexServer;
    var h := WaitingStep(e, g, c).g;
    assert ClientOk(g, c);
    WaitingKeeps(e, g, c);
    if h.log != g.log {
      GrowRuns(g.log, h.log[|g.log|]);
    }
    forall t | 0 <= t < |h.servers| ensures SlaveOk(h, t) {
      assert SlaveOk(g, t);
      if t != s {
        SlaveUntouched(g, h, t);
      }
    }
  }

  lemma {:induction false} ProcessLocal<S(!new)>(e: Env<S>, g: State<S>, c: nat)
    requires LocalInv(g) && WF(g) && AnswersAll(e) && c < |g.clients|
    ensures LocalInv(Process(e, g, c).g)
  {
    if g.clients[c].inUse {
      match g.clients[c].state
      case Idle => IdleLocal(e, g, c);
      case Routing => RoutingLocal(e, g, c);
      case Sending => SendingLocal(e, g, c);
      case Waiting =>
        if g.servers[g.clients[c].indexServer].kind.LocalSlave? {
          WaitingAtSlave(e, g, c);
        } else {
          WaitingAtTransport(e, g, c);
        }
    }
  }

  lemma {:induction false} AddServerLocal<S>(g: State<S>, kind: Kind, id: uint8)
    requires LocalInv(g)
    ensures LocalInv(AddServer(g, kind, id))
  {
    var h := AddServer(g, kind, id);
    AddServerKeeps(g, kind, id);
    forall s | 0 <= s < |h.servers| ensures SlaveOk(h, s) {
      assert SlaveOk(g, s);
      if h.servers[s] != g.servers[s] {
        FreeServerUnwatched(h, s);
      }
    }
  }

  lemma {:induction false} AddClientLocal<S>(g: State<S>)
    requires LocalInv(g)
    ensures LocalInv(AddClient(g))
  {
    var h := AddClient(g);
    AddClientKeeps(g);
    forall s | 0 <= s < |h.servers| ensures SlaveOk(h, s) {
      SlaveUntouched(g, h, s);
    }
  }

  lemma {:induction false} RunLocal<S(!new)>(e: Env<S>, states: seq<State<S>>, actions: seq<Action>, n: nat)
    requires IsRun(e, states, actions) && AnswersAll(e) && n < |states|
    ensures LocalInv(states[n])
  {
    if n == 0 {
      InitialInv(states[0]);
    } else {
      RunLocal(e, states, actions, n - 1);
      match actions[n - 1]
      case Processing(c) => ProcessLocal(e, states[n - 1], c);
      case AddingServer(kind, id) => AddServerLocal(states[n - 1], kind, id);
      case AddingClient => AddClientLocal(states[n - 1]);
    }
  }

  // ---------------------------------------------------------------- main results

  /**
   In every run, for every slave of this device: each request is followed by exactly one run of
   the slave task on its bytes and by the reply with the bytes of that run, to the same client.
   No request times out and none is run twice.
   */
  lemma {:induction false} ServedOnce<S(!new)>(e: Env<S>, handlers: nat -> Slave.Handlers<S>, states: seq<State<S>>,
      actions: seq<Action>, n: nat, s: nat)
    requires IsRun(e, states, actions) && RunsSlaves(e, handlers) && n < |states| && s < |states[n].servers|
    requires states[n].servers[s].inUse && states[n].servers[s].kind.LocalSlave?
    ensures Triples(WithRuns(states[n].log, s))
  {
    SlavesAnswer(e, handlers);
    RunLocal(e, states, actions, n);
    assert SlaveOk(states[n], s);
  }

  /** The last event between a waiting client and its slave is its request, still in its buffer. */
  lemma {:induction false} WaitingRequest<S>(g: State<S>, c: nat)
    requires LocalInv(g) && c < |g.clients| && g.clients[c].state.Waiting?
    requires 0 <= g.clients[c].indexServer < |g.servers| && g.servers[g.clients[c].indexServer].kind.LocalSlave?
    ensures var s := g.clients[c].indexServer; var sent := OfServer(g.log, s);
            var n := g.servers[s].kind.pending;
            n >= 1 && sent != [] && var e := sent[|sent| - 1];
                e.Request? && e.client == c && e.pdu == Take(g.clients[c].buffer, n)
  {
    var s := g.clients[c].indexServer;
    assert ClientOk(g, c) && SlaveOk(g, s) && WaitsOn(g.clients[c], s);
    LastOnLink(g.log, s);
  }

  /**
   The first poll of a waiting client ends its request: the reply is the one the slave's protocol
   gives for the bytes of the request, and the application's data are those after serving it.
   */
  lemma {:induction false} AnsweredAtOnce<S(!new)>(e: Env<S>, handlers: nat -> Slave.Handlers<S>,
      states: seq<State<S>>, actions: seq<Action>, n: nat, c: nat)
    requires IsRun(e, states, actions) && RunsSlaves(e, handlers) && n < |states|
    requires c < |states[n].clients| && states[n].clients[c].state.Waiting?
    requires 0 <= states[n].clients[c].indexServer < |states[n].servers|
    requires states[n].servers[states[n].clients[c].indexServer].kind.LocalSlave?
    ensures var g := states[n]; var s := g.clients[c].indexServer; var sent := OfServer(g.log, s);
            WF(g) && sent != [] && sent[|sent| - 1].Request? && sent[|sent| - 1].client == c
                && sent[|sent| - 1].pdu != []
    ensures var g := states[n]; var s := g.clients[c].indexServer; var sent := OfServer(g.log, s);
            var request := sent[|sent| - 1].pdu; var h := Process(e, g, c).g;
            var served := Slave.Serve(handlers(g.servers[s].kind.handler), g.app, request);
            && h.log == g.log + [Ran(s, c, request, served.pdu)] + [Reply(s, c, served.pdu)]
            && h.app == served.app && h.clients[c].state.Idle? && !h.servers[s].busy
            && h.clients[c].id == g.servers[s].id && h.clients[c].size == |served.pdu|
  {
    SlavesAnswer(e, handlers);
    RunLocal(e, states, actions, n);
    InvWF(states[n]);
    WaitingRequest(states[n], c);
    PollServes(e, handlers, states[n], c);
  }

  lemma {:induction false} PollServes<S(!new)>(e: Env<S>, handlers: nat -> Slave.Handlers<S>, g: State<S>, c: nat)
    requires LocalInv(g) && WF(g) && RunsSlaves(e, handlers) && AnswersAll(e) && c < |g.clients|
        && g.clients[c].state.Waiting?
    requires 0 <= g.clients[c].indexServer < |g.servers| && g.servers[g.clients[c].indexServer].kind.LocalSlave?
    ensures var s := g.clients[c].indexServer; var sv := g.servers[s]; var h := Process(e, g, c).g;
            var request := Take(g.clients[c].buffer, sv.kind.pending);
            request != [] && var served := Slave.Serve(handlers(sv.kind.handler), g.app, request);
            && h.log == g.log + [Ran(s, c, request, served.pdu)] + [Reply(s, c, served.pdu)]
            && h.app == served.app && h.clients[c].state.Idle? && !h.servers[s].busy
            && h.clients[c].id == sv.id && h.clients[c].size == |served.pdu|
  {
    assert ClientOk(g, c) && SlaveOk(g, g.clients[c].indexServer) && WaitsOn(g.clients[c], g.clients[c].indexServer);
    SlaveStep(e, g, c);
    var sv := g.servers[g.clients[c].indexServer];
    Slave.RunServes(handlers(sv.kind.handler), g.app, g.clients[c].buffer, sv.kind.pending);
  }

  /** If the last event of a slave is a request, it is the last on its link too. */
  lemma {:induction false} LastOnLink(log: seq<Event>, s: nat)
    requires WithRuns(log, s) != [] && OnLink(WithRuns(log, s)[|WithRuns(log, s)| - 1], s)
    ensures OfServer(log, s) != []
    ensures OfServer(log, s)[|OfServer(log, s)| - 1] == WithRuns(log, s)[|WithRuns(log, s)| - 1]
  {
    if AtSlave(log[|log| - 1], s) {
    } else {
      LastOnLink(log[..|log| - 1], s);
    }
  }
}
