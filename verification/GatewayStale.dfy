/**
 A client whose module leaves the size alone when it has nothing to send, as the master does. The
 gateway then takes the size of the last message for that of a new one, in every run: what a reply,
 or a message nobody serves, has left in the buffer of the client is sent as the next request.
 */
module GatewayStale {
  import opened Words
  import opened Gateway
  import opened GatewaySafety

  /** A module that hands out a message or leaves everything as it is: it never reports size 0. */
  ghost predicate LeavesSize<S(!new)>(e: Env<S>, c: nat) {
    forall n :: e.idle(c, n).Untouched? || (e.idle(c, n).Got? && e.idle(c, n).size >= 1)
  }

  /** The last event of client `c`. */
  function Last(log: seq<Event>, c: nat): Option<Event> {
    if log == [] then None
    else if log[|log| - 1].client == c then Some(log[|log| - 1])
    else Last(log[..|log| - 1], c)
  }

  /** What an idle client still holds, by its last event. A slave has left its own identification. */
  predicate Remains(cl: Client, servers: seq<Server>, last: Option<Event>) {
    match last
    case None => cl.size == 0
    case Some(Reply(s, _, pdu)) =>
      && cl.size >= 2 && Take(cl.buffer, cl.size) == pdu
      && s < |servers| && servers[s].inUse && (servers[s].kind.LocalSlave? ==> cl.id == servers[s].id)
    case Some(Dropped(_)) => cl.size >= 1
    case Some(Timeout(_, _)) => cl.size <= 1
    case _ => false
  }

  /** Idle clients hold what remains; messages on their way are not empty. */
  predicate HoldsOk(cl: Client, servers: seq<Server>, last: Option<Event>) {
    match cl.state
    case Idle => Remains(cl, servers, last)
    case Routing => cl.size >= 1
    case Sending => cl.size >= 1
    case Waiting => true
  }

  predicate StaleInv<S>(g: State<S>, c: nat) {
    Inv(g) && c < |g.clients| && HoldsOk(g.clients[c], g.servers, Last(g.log, c))
  }

  lemma {:induction false} GrowLast(log: seq<Event>, e: Event)
    ensures forall c: nat {:trigger Last(log + [e], c)} :: Last(log + [e], c) == if e.client == c then Some(e)
        else Last(log, c)
  {
    assert (log + [e])[..|log|] == log;
  }

  // ---------------------------------------------------------------- steps

  lemma {:induction false} IdleStale<S(!new)>(e: Env<S>, g: State<S>, c: nat)
    requires StaleInv(g, c) && LeavesSize(e, c) && g.clients[c].inUse && g.clients[c].state.Idle?
    ensures StaleInv(IdleStep(e, g, c).g, c)
  {
    var h := IdleStep(e, g, c).g;
    IdleKeeps(e, g, c);
    var polled := e.idle(c, g.idlePolls);
    assert polled.Untouched? || (polled.Got? && polled.size >= 1);
    if h.log != g.log {
      GrowLast(g.log, h.log[|g.log|]);
    }
  }

  lemma {:induction false} RoutingStale<S>(e: Env<S>, g: State<S>, c: nat)
    requires StaleInv(g, c) && g.clients[c].inUse && g.clients[c].state.Routing?
    ensures StaleInv(RoutingStep(g, c).g, c)
  {
    var h := RoutingStep(g, c).g;
    RoutingKeeps(e, g, c);
    if h.log != g.log {
      GrowLast(g.log, h.log[|g.log|]);
    }
  }

  lemma {:induction false} SendingStale<S>(e: Env<S>, g: State<S>, c: nat)
    requires StaleInv(g, c) && WF(g) && g.clients[c].inUse && g.clients[c].state.Sending?
    ensures StaleInv(SendingStep(e, g, c).g, c)
  {
    var h := SendingStep(e, g, c).g;
    SendingKeeps(e, g, c);
    if h.log != g.log {
      GrowLast(g.log, h.log[|g.log|]);
    }
  }

  /** A poll leaves every server what it is; a slave of this device leaves its identification. */
  lemma {:induction false} PolledServers<S>(e: Env<S>, g: State<S>, c: nat)
    requires Inv(g) && WF(g) && c < |g.clients| && g.clients[c].state.Waiting?
    ensures var h := Poll(e, g, c); var s := g.clients[c].indexServer;
            && g.servers[s].inUse && (g.servers[s].kind.LocalSlave? ==> h.clients[c].id == g.servers[s].id)
            && forall t :: 0 <= t < |g.servers| ==>
                 h.servers[t].inUse == g.servers[t].inUse && h.servers[t].id == g.servers[t].id
                 && (h.servers[t].kind.LocalSlave? <==> g.servers[t].kind.LocalSlave?)
  {
    assert ClientOk(g, c);
  }

  /** What the poll leaves in the waiting client, and what ends its request, go together. */
  lemma {:induction false} WaitingHolds<S>(e: Env<S>, g: State<S>, c: nat)
    requires Inv(g) && WF(g) && c < |g.clients| && g.clients[c].inUse && g.clients[c].state.Waiting?
    ensures var h := WaitingStep(e, g, c).g; HoldsOk(h.clients[c], h.servers, Last(h.log, c))
  {
    var p, h := Poll(e, g, c), WaitingStep(e, g, c).g;
    PolledServers(e, g, c);
    if h.log != p.log {
      GrowLast(p.log, h.log[|p.log|]);
    }
  }

  /** A step of client `d` leaves the logs of the others, and what the servers are. */
  lemma {:induction false} OthersLast<S>(e: Env<S>, g: State<S>, d: nat)
    requires Inv(g) && WF(g) && d < |g.clients|
    ensures var h := Process(e, g, d).g;
            && (forall c: nat {:trigger Last(h.log, c)} :: c != d ==> Last(h.log, c) == Last(g.log, c))
            && (forall c :: 0 <= c < |g.clients| && c != d ==> h.clients[c] == g.clients[c])
            && forall t :: 0 <= t < |g.servers| ==>
                 h.servers[t].inUse == g.servers[t].inUse && h.servers[t].id == g.servers[t].id
                 && (h.servers[t].kind.LocalSlave? <==> g.servers[t].kind.LocalSlave?)
  {
    var h := Process(e, g, d).g;
    if g.clients[d].inUse && g.clients[d].state.Waiting? {
      WaitingLast(e, g, d);
    } else if h.log != g.log {
      GrowLast(g.log, h.log[|g.log|]);
    }
  }

  lemma {:induction false} WaitingLast<S>(e: Env<S>, g: State<S>, d: nat)
    requires Inv(g) && WF(g) && d < |g.clients| && g.clients[d].state.Waiting?
    ensures var h := WaitingStep(e, g, d).g;
            && (forall c: nat {:trigger Last(h.log, c)} :: c != d ==> Last(h.log, c) == Last(g.log, c))
            && (forall c :: 0 <= c < |g.clients| && c != d ==> h.clients[c] == g.clients[c])
  {
    var p, h := Poll(e, g, d), WaitingStep(e, g, d).g;
    PollKeeps(e, g, d);
    if p.log != g.log {
      GrowLast(g.log, p.log[|g.log|]);
    }
    if h.log != p.log {
      GrowLast(p.log, h.log[|p.log|]);
    }
  }

  lemma {:induction false} OwnStale<S(!new)>(e: Env<S>, g: State<S>, c: nat)
    requires StaleInv(g, c) && WF(g) && LeavesSize(e, c)
    ensures StaleInv(Process(e, g, c).g, c)
  {
    if g.clients[c].inUse {
      match g.clients[c].state
      case Idle => IdleStale(e, g, c);
      case Routing => RoutingStale(e, g, c);
      case Sending => SendingStale(e, g, c);
      case Waiting =>
        WaitingHolds(e, g, c);
        WaitingKeeps(e, g, c);
    }
  }

  lemma {:induction false} StepStale<S(!new)>(e: Env<S>, g: State<S>, a: Action, c: nat)
    requires StaleInv(g, c) && LeavesSize(e, c) && Enabled(g, a)
    ensures StaleInv(Step(e, g, a), c)
  {
    match a
    case AddingServer(kind, id) => AddServerKeeps(g, kind, id);
    case AddingClient => AddClientKeeps(g);
    case Processing(d) =>
      if d == c {
        OwnStale(e, g, c);
      } else {
        ProcessKeeps(e, g, d);
        OthersLast(e, g, d);
      }
  }

  lemma {:induction false} RunStale<S(!new)>(e: Env<S>, states: seq<State<S>>, actions: seq<Action>, n: nat, c: nat)
    requires IsRun(e, states, actions) && LeavesSize(e, c) && n < |states| && c < |states[n].clients|
    ensures StaleInv(states[n], c)
  {
    if n == 0 {
      InitialInv(states[0]);
    } else {
      assert |states[n].clients| == |states[n - 1].clients|;
      RunStale(e, states, actions, n - 1, c);
      StepStale(e, states[n - 1], actions[n - 1], c);
    }
  }

  // ---------------------------------------------------------------- main result

  /**
   In every run, whatever the other modules do, an idle client in use with such a module that has nothing
   takes up a message all the same if and only if its last message was answered or dropped, or timed out with one byte
   received. After a reply, the message it takes up is that reply.
   */
  lemma {:induction false} RepliesComeBack<S(!new)>(e: Env<S>, states: seq<State<S>>, actions: seq<Action>, n: nat,
      c: nat)
    requires IsRun(e, states, actions) && LeavesSize(e, c) && n < |states|
    requires c < |states[n].clients| && states[n].clients[c].inUse && states[n].clients[c].state.Idle?
    requires e.idle(c, states[n].idlePolls).Untouched?
    ensures var g := states[n]; var last := Last(g.log, c);
            && WF(g)
            && (Process(e, g, c).g.clients[c].state.Routing? <==>
                last.Some? && (last.value.Reply? || last.value.Dropped?
                    || (last.value.Timeout? && g.clients[c].size == 1)))
            && (last.Some? && last.value.Reply? ==>
                Process(e, g, c).g.log == g.log + [Arrived(c, g.clients[c].id, last.value.pdu)])
  {
    var g := states[n];
    RunStale(e, states, actions, n, c);
    InvWF(g);
  }
}
