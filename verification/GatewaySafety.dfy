/**
 What every run of the gateway keeps, with any number of clients and servers: a server exchanges
 messages with one client at a time, and every message that arrives is dropped or forwarded once.
 */
module GatewaySafety {
  import opened Words
  import opened Gateway

  // ---------------------------------------------------------------- the log of one server

  predicate OnLink(e: Event, s: nat) {
    (e.Request? || e.Reply? || e.Timeout?) && e.server == s
  }

  /** Requests, replies and timeouts of server `s`, in order. */
  function OfServer(log: seq<Event>, s: nat): (p: seq<Event>)
    ensures forall i :: 0 <= i < |p| ==> OnLink(p[i], s)
  {
    if log == [] then []
    else OfServer(log[..|log| - 1], s) + if OnLink(log[|log| - 1], s) then [log[|log| - 1]] else []
  }

  /** Request of a client, then its reply or its timeout, then the next request. */
  predicate Alternates(p: seq<Event>) {
    forall i :: 0 <= i < |p| ==> InTurn(p, i)
  }

  predicate InTurn(p: seq<Event>, i: nat)
    requires i < |p|
  {
    if i % 2 == 0 then p[i].Request? else (p[i].Reply? || p[i].Timeout?) && p[i].client == p[i - 1].client
  }

  predicate WaitsOn(cl: Client, s: nat) {
    cl.state.Waiting? && cl.indexServer == s
  }

  /** The client whose request has no end yet is the one that waits, and the server is busy just then. */
  predicate LinkOk<S>(g: State<S>, s: nat)
    requires s < |g.servers|
  {
    var p := OfServer(g.log, s);
    && Alternates(p)
    && (g.servers[s].busy <==> |p| % 2 == 1)
    && (forall c :: 0 <= c < |g.clients| ==> (WaitsOn(g.clients[c], s) <==> |p| % 2 == 1 && p[|p| - 1].client == c))
    && (|p| % 2 == 1 ==> p[|p| - 1].client < |g.clients|)
  }

  // ---------------------------------------------------------------- the log of one client

  datatype ClientPhase = Quiet | Holding(id: uint8, pdu: seq<uint8>) | AtServer(server: nat)

  /**
   What a client's log may look like: a message arrives; it is dropped, or forwarded as it arrived
   to one server; and that server's reply or the timeout comes next. `None` for any other log.
   */
  function After(log: seq<Event>, c: nat): Option<ClientPhase> {
    if log == [] then Some(Quiet)
    else
      var e := log[|log| - 1];
      var before := After(log[..|log| - 1], c);
      if before.None? || e.client != c then before
      else match before.value
        case Quiet => if e.Arrived? then Some(Holding(e.id, e.pdu)) else None
        case Holding(id, pdu) =>
          if e.Dropped? then Some(Quiet)
          else if e.Request? && e.id == id && e.pdu == pdu then Some(AtServer(e.server))
          else None
        case AtServer(s) =>
          if (e.Reply? || e.Timeout?) && e.server == s then Some(Quiet)
          else if e.Ran? && e.server == s then before
          else None
  }

  function PhaseOf(cl: Client): ClientPhase {
    match cl.state
    case Idle => Quiet
    case Routing => Holding(cl.id, Take(cl.buffer, cl.size))
    case Sending => Holding(cl.id, Take(cl.buffer, cl.size))
    case Waiting => AtServer(if cl.indexServer < 0 then 0 else cl.indexServer)
  }

  /** A server in use that takes messages for `id`: its own, or any if its identification is 0. */
  predicate Serves(sv: Server, id: uint8) {
    sv.inUse && (sv.id == id || sv.id == 0)
  }

  predicate ClientOk<S>(g: State<S>, c: nat)
    requires c < |g.clients|
  {
    var cl := g.clients[c];
    && After(g.log, c) == Some(PhaseOf(cl))
    && (!cl.inUse ==> cl.state.Idle?)
    && (cl.state.Sending? ==> 0 <= cl.indexServer < |g.servers| && Serves(g.servers[cl.indexServer], cl.id))
    && (cl.state.Waiting? ==>
        0 <= cl.indexServer < |g.servers| && g.servers[cl.indexServer].inUse && OwnerOk(g.servers[cl.indexServer], c))
  }

  /** A slave works on the buffer of the client that waits for it. */
  predicate OwnerOk(sv: Server, c: nat) {
    sv.kind.LocalSlave? ==> sv.kind.owner == c
  }

  /** Every forwarded message went to a server that takes it. */
  predicate RoutedWell<S>(g: State<S>) {
    forall i :: 0 <= i < |g.log| && g.log[i].Request? ==>
      g.log[i].server < |g.servers| && Serves(g.servers[g.log[i].server], g.log[i].id)
  }

  predicate Inv<S>(g: State<S>) {
    && (forall s :: 0 <= s < |g.servers| ==> LinkOk(g, s))
    && (forall c :: 0 <= c < |g.clients| ==> ClientOk(g, c))
    && RoutedWell(g)
  }

  lemma {:induction false} InvWF<S>(g: State<S>)
    requires Inv(g)
    ensures WF(g)
  {
    forall c | 0 <= c < |g.clients| ensures ClientWF(g.clients[c], g.servers, |g.clients|) {
      assert ClientOk(g, c);
    }
  }

  // ---------------------------------------------------------------- logs that grow by one event

  lemma {:induction false} Grow(log: seq<Event>, e: Event)
    ensures forall s: nat :: OfServer(log + [e], s) == if OnLink(e, s) then OfServer(log, s) + [e] else OfServer(log, s)
    ensures forall c: nat {:trigger After(log + [e], c)} :: e.client != c ==> After(log + [e], c) == After(log, c)
  {
    assert (log + [e])[..|log|] == log;
  }

  /** Log and shape as before, and nothing the links depend on has changed. */
  ghost predicate LinksSame<S>(g: State<S>, h: State<S>) {
    && SameShape(g, h)
    && (forall s :: 0 <= s < |g.servers| ==> h.servers[s].busy == g.servers[s].busy)
    && (forall c, s: nat :: 0 <= c < |g.clients| ==> (WaitsOn(h.clients[c], s) <==> WaitsOn(g.clients[c], s)))
    && (forall s: nat :: OfServer(h.log, s) == OfServer(g.log, s))
  }

  lemma {:induction false} LinksKept<S>(g: State<S>, h: State<S>)
    requires LinksSame(g, h) && forall s :: 0 <= s < |g.servers| ==> LinkOk(g, s)
    ensures forall s :: 0 <= s < |h.servers| ==> LinkOk(h, s)
  {
    forall s | 0 <= s < |h.servers| ensures LinkOk(h, s) {
      assert LinkOk(g, s);
    }
  }

  /** Client `c` alone has changed, in step with its log; servers have kept what clients rely on. */
  ghost predicate OnlyClient<S>(g: State<S>, h: State<S>, c: nat) {
    && SameShape(g, h) && c < |g.clients|
    && (forall d :: 0 <= d < |g.clients| && d != c ==> h.clients[d] == g.clients[d])
    && (forall d: nat :: d != c ==> After(h.log, d) == After(g.log, d))
    && (forall s ::
        0 <= s < |g.servers| ==> h.servers[s].inUse == g.servers[s].inUse && h.servers[s].id == g.servers[s].id)
    && (forall d, s :: 0 <= d < |g.clients| && d != c && 0 <= s < |g.servers| && WaitsOn(g.clients[d], s) ==>
          (OwnerOk(g.servers[s], d) ==> OwnerOk(h.servers[s], d)))
  }

  lemma {:induction false} OthersKept<S>(g: State<S>, h: State<S>, c: nat)
    requires OnlyClient(g, h, c) && ClientOk(h, c) && forall d :: 0 <= d < |g.clients| ==> ClientOk(g, d)
    ensures forall d :: 0 <= d < |h.clients| ==> ClientOk(h, d)
  {
    forall d | 0 <= d < |h.clients| ensures ClientOk(h, d) {
      if d != c {
        assert ClientOk(g, d);
      }
    }
  }

  lemma {:induction false} RoutesKept<S>(g: State<S>, h: State<S>)
    requires RoutedWell(g) && SameShape(g, h) && g.log <= h.log
    requires forall s ::
        0 <= s < |g.servers| ==> h.servers[s].inUse == g.servers[s].inUse && h.servers[s].id == g.servers[s].id
    requires forall i :: |g.log| <= i < |h.log| && h.log[i].Request? ==>
               h.log[i].server < |h.servers| && Serves(h.servers[h.log[i].server], h.log[i].id)
    ensures RoutedWell(h)
  {
    forall i | 0 <= i < |h.log| && h.log[i].Request?
      ensures h.log[i].server < |h.servers| && Serves(h.servers[h.log[i].server], h.log[i].id)
    {
      if i < |g.log| {
        assert h.log[i] == g.log[i];
      }
    }
  }

  // ---------------------------------------------------------------- the four steps

  lemma {:induction false} IdleKeeps<S>(e: Env<S>, g: State<S>, c: nat)
    requires Inv(g) && c < |g.clients| && g.clients[c].inUse && g.clients[c].state.Idle?
    ensures Inv(IdleStep(e, g, c).g)
  {
    var h := IdleStep(e, g, c).g;
    assert ClientOk(g, c);
    if h.log == g.log {
      ClientMoved(g, h, c);
    } else {
      var ev := h.log[|g.log|];
      Grow(g.log, ev);
      assert h.log[..|g.log|] == g.log;
      ClientMoved(g, h, c);
    }
  }

  /** A step of one client that no server takes part in. */
  lemma {:induction false} ClientMoved<S>(g: State<S>, h: State<S>, c: nat)
    requires Inv(g) && SameShape(g, h) && c < |g.clients| && h.servers == g.servers
        && h.clients == g.clients[c := h.clients[c]]
    requires !g.clients[c].state.Waiting? && !h.clients[c].state.Waiting? && ClientOk(h, c)
    requires forall s: nat :: OfServer(h.log, s) == OfServer(g.log, s)
    requires forall d: nat {:trigger After(h.log, d)} :: d != c ==> After(h.log, d) == After(g.log, d)
    requires g.log <= h.log && forall i :: |g.log| <= i < |h.log| ==> !h.log[i].Request?
    ensures Inv(h)
  {
    LinksKept(g, h);
    OthersKept(g, h, c);
    RoutesKept(g, h);
  }

  lemma {:induction false} RoutingKeeps<S>(e: Env<S>, g: State<S>, c: nat)
    requires Inv(g) && c < |g.clients| && g.clients[c].inUse && g.clients[c].state.Routing?
    ensures Inv(RoutingStep(g, c).g)
  {
    var h := RoutingStep(g, c).g;
    assert ClientOk(g, c);
    if h.log == g.log {
      ClientMoved(g, h, c);
    } else {
      Grow(g.log, h.log[|g.log|]);
      assert h.log[..|g.log|] == g.log;
      ClientMoved(g, h, c);
    }
  }

  /** The one link that changes when a request is sent or ended. */
  lemma {:induction false} LinkChanged<S>(g: State<S>, h: State<S>, c: nat, s: nat, e: Event)
    requires SameShape(g, h) && c < |g.clients| && s < |g.servers| && OnLink(e, s) && e.client == c
    requires forall t :: 0 <= t < |g.servers| ==> LinkOk(g, t)
    requires forall t: nat :: OfServer(h.log, t) == if OnLink(e, t) then OfServer(g.log, t) + [e]
        else OfServer(g.log, t)
    requires forall d :: 0 <= d < |g.clients| && d != c ==> h.clients[d] == g.clients[d]
    requires forall t :: 0 <= t < |g.servers| && t != s ==> h.servers[t] == g.servers[t]
    requires if e.Request? then !g.servers[s].busy && h.servers[s].busy && g.clients[c].state.Sending?
        && WaitsOn(h.clients[c], s)
             else WaitsOn(g.clients[c], s) && !h.servers[s].busy && h.clients[c].state.Idle?
    ensures forall t :: 0 <= t < |h.servers| ==> LinkOk(h, t)
  {
    forall t | 0 <= t < |h.servers| ensures LinkOk(h, t) {
      assert LinkOk(g, t);
      if t == s {
        LinkAppended(g, h, c, s, e);
      } else {
        LinkUntouched(g, h, c, t);
      }
    }
  }

  /** The other links, none of which `c` is or was waiting on. */
  lemma {:induction false} LinkUntouched<S>(g: State<S>, h: State<S>, c: nat, t: nat)
    requires SameShape(g, h) && c < |g.clients| && t < |g.servers| && LinkOk(g, t) && h.servers[t] == g.servers[t]
    requires OfServer(h.log, t) == OfServer(g.log, t)
    requires forall d :: 0 <= d < |g.clients| && d != c ==> h.clients[d] == g.clients[d]
    requires !WaitsOn(g.clients[c], t) && !WaitsOn(h.clients[c], t)
    ensures LinkOk(h, t)
  {
  }

  lemma {:induction false} LinkAppended<S>(g: State<S>, h: State<S>, c: nat, s: nat, e: Event)
    requires SameShape(g, h) && c < |g.clients| && s < |g.servers| && OnLink(e, s) && e.client == c && LinkOk(g, s)
    requires OfServer(h.log, s) == OfServer(g.log, s) + [e]
    requires forall d :: 0 <= d < |g.clients| && d != c ==> h.clients[d] == g.clients[d]
    requires if e.Request? then !g.servers[s].busy && h.servers[s].busy && WaitsOn(h.clients[c], s)
             else WaitsOn(g.clients[c], s) && !h.servers[s].busy && h.clients[c].state.Idle?
    ensures LinkOk(h, s)
  {
    AlternatesAppend(OfServer(g.log, s), e);
  }

  lemma {:induction false} AlternatesAppend(p: seq<Event>, e: Event)
    requires Alternates(p)
    requires if e.Request? then |p| % 2 == 0
             else (e.Reply? || e.Timeout?) && |p| % 2 == 1 && e.client == p[|p| - 1].client
    ensures Alternates(p + [e])
  {
    var q := p + [e];
    forall i | 0 <= i < |q| ensures InTurn(q, i) {
      if i < |p| {
        assert InTurn(p, i);
      }
    }
  }

  lemma {:induction false} BusyHasWaiter<S>(g: State<S>, s: nat)
    requires s < |g.servers| && LinkOk(g, s)
    ensures g.servers[s].busy <==> exists c :: 0 <= c < |g.clients| && WaitsOn(g.clients[c], s)
  {
    var p := OfServer(g.log, s);
    if g.servers[s].busy {
      assert WaitsOn(g.clients[p[|p| - 1].client], s);
    }
  }

  lemma {:induction false} SendingKeeps<S>(e: Env<S>, g: State<S>, c: nat)
    requires Inv(g) && WF(g) && c < |g.clients| && g.clients[c].inUse && g.clients[c].state.Sending?
    ensures Inv(SendingStep(e, g, c).g)
  {
    var h := SendingStep(e, g, c).g;
    var s := g.clients[c].indexServer;
    assert ClientOk(g, c);
    if !g.servers[s].busy {
      var ev := h.log[|g.log|];
      Grow(g.log, ev);
      assert h.log[..|g.log|] == g.log;
      LinkChanged(g, h, c, s, ev);
      FreeServerUnwatched(g, s);
      OthersKept(g, h, c);
      RoutesKept(g, h);
    }
  }

  lemma {:induction false} FreeServerUnwatched<S>(g: State<S>, s: nat)
    requires Inv(g) && s < |g.servers| && !g.servers[s].busy
    ensures forall d :: 0 <= d < |g.clients| ==> !WaitsOn(g.clients[d], s)
  {
    assert LinkOk(g, s);
  }

  /** A server has one client waiting for it at most. */
  lemma {:induction false} OneWaits<S>(g: State<S>, s: nat, c: nat, d: nat)
    requires Inv(g) && s < |g.servers| && c < |g.clients| && d < |g.clients|
    requires WaitsOn(g.clients[c], s) && WaitsOn(g.clients[d], s)
    ensures c == d
  {
    assert LinkOk(g, s);
  }

  /** The poll changes the waiting client, its server's private part and the log of slave runs only. */
  lemma {:induction false} PollKeeps<S>(e: Env<S>, g: State<S>, c: nat)
    requires Inv(g) && WF(g) && c < |g.clients| && g.clients[c].state.Waiting?
    ensures Inv(Poll(e, g, c))
    ensures var h := Poll(e, g, c); var s := g.clients[c].indexServer;
            && h.clients[c].inUse == g.clients[c].inUse && h.clients[c].timeout == g.clients[c].timeout
            && (forall d :: 0 <= d < |g.clients| && d != c ==> h.clients[d] == g.clients[d])
            && (forall t :: 0 <= t < |g.servers| && t != s ==> h.servers[t] == g.servers[t])
            && h.servers[s] == g.servers[s].(kind := h.servers[s].kind)
  {
    var h := Poll(e, g, c);
    assert ClientOk(g, c);
    if h.log != g.log {
      Grow(g.log, h.log[|g.log|]);
      assert h.log[..|g.log|] == g.log;
    }
    forall d, s | 0 <= d < |g.clients| && d != c && 0 <= s < |g.servers| && WaitsOn(g.clients[d], s)
      ensures h.servers[s] == g.servers[s]
    {
      if s == g.clients[c].indexServer {
        OneWaits(g, s, c, d);
      }
    }
    LinksKept(g, h);
    OthersKept(g, h, c);
    RoutesKept(g, h);
  }

  lemma {:induction false} WaitingKeeps<S>(e: Env<S>, g: State<S>, c: nat)
    requires Inv(g) && WF(g) && c < |g.clients| && g.clients[c].inUse && g.clients[c].state.Waiting?
    ensures Inv(WaitingStep(e, g, c).g)
  {
    PollKeeps(e, g, c);
    var p := Poll(e, g, c);
    if p.clients[c].size >= 2 || p.clients[c].timeout == 0 {
      var s := p.clients[c].indexServer;
      ReleaseKeeps(p, c, if p.clients[c].size >= 2 then Reply(s, c, Take(p.clients[c].buffer, p.clients[c].size))
          else Timeout(s, c));
    } else {
      var h := WaitingStep(e, g, c).g;
      assert ClientOk(p, c);
      LinksKept(p, h);
      OthersKept(p, h, c);
    }
  }

  lemma {:induction false} ReleaseKeeps<S>(g: State<S>, c: nat, ev: Event)
    requires Inv(g) && c < |g.clients| && g.clients[c].state.Waiting?
    requires ClientOk(g, c) && OnLink(ev, g.clients[c].indexServer) && !ev.Request? && ev.client == c
    ensures var f := Release(g, c); Inv(f.(log := f.log + [ev]))
  {
    var f := Release(g, c);
    var h := f.(log := f.log + [ev]);
    var s := g.clients[c].indexServer;
    Grow(g.log, ev);
    assert h.log[..|g.log|] == g.log;
    LinkChanged(g, h, c, s, ev);
    OthersKept(g, h, c);
    RoutesKept(g, h);
  }

  lemma {:induction false} ProcessKeeps<S>(e: Env<S>, g: State<S>, c: nat)
    requires Inv(g) && WF(g) && c < |g.clients|
    ensures Inv(Process(e, g, c).g)
  {
    if g.clients[c].inUse {
      match g.clients[c].state
      case Idle => IdleKeeps(e, g, c);
      case Routing => RoutingKeeps(e, g, c);
      case Sending => SendingKeeps(e, g, c);
      case Waiting => WaitingKeeps(e, g, c);
    }
  }

  // ---------------------------------------------------------------- additions

  lemma {:induction false} AddServerKeeps<S>(g: State<S>, kind: Kind, id: uint8)
    requires Inv(g)
    ensures Inv(AddServer(g, kind, id))
  {
    var s := FreeServer(g.servers, 0);
    var h := AddServer(g, kind, id);
    if s < |g.servers| {
      forall c | 0 <= c < |g.clients| ensures !WaitsOn(g.clients[c], s) && ClientOk(h, c) {
        assert ClientOk(g, c);
      }
      BusyHasWaiter(g, s);
      LinksKept(g, h);
    }
  }

  lemma {:induction false} AddClientKeeps<S>(g: State<S>)
    requires Inv(g)
    ensures Inv(AddClient(g))
  {
    var c := FreeClient(g.clients, 0);
    var h := AddClient(g);
    if c < |g.clients| {
      assert ClientOk(g, c);
      LinksKept(g, h);
      OthersKept(g, h, c);
    }
  }

  // ---------------------------------------------------------------- all runs

  lemma {:induction false} InitialInv<S>(g: State<S>)
    requires Initial(g)
    ensures Inv(g)
  {
  }

  lemma {:induction false} RunKeeps<S>(e: Env<S>, states: seq<State<S>>, actions: seq<Action>, n: nat)
    requires IsRun(e, states, actions) && n < |states|
    ensures Inv(states[n])
  {
    if n == 0 {
      InitialInv(states[0]);
    } else {
      RunKeeps(e, states, actions, n - 1);
      match actions[n - 1]
      case Processing(c) => ProcessKeeps(e, states[n - 1], c);
      case AddingServer(kind, id) => AddServerKeeps(states[n - 1], kind, id);
      case AddingClient => AddClientKeeps(states[n - 1]);
    }
  }

  /**
   In every run, for every server: its requests, replies and timeouts alternate strictly, each
   request being ended for the client that made it; and it is busy exactly when one client, and
   no other, waits for it.
   */
  lemma {:induction false} ServersSerialize<S>(e: Env<S>, states: seq<State<S>>, actions: seq<Action>, n: nat, s: nat)
    requires IsRun(e, states, actions) && n < |states| && s < |states[n].servers|
    ensures var g := states[n];
            && Alternates(OfServer(g.log, s))
            && (g.servers[s].busy <==> exists c :: 0 <= c < |g.clients| && WaitsOn(g.clients[c], s))
            && (forall c, d | 0 <= c < |g.clients| && 0 <= d < |g.clients| ::
                  WaitsOn(g.clients[c], s) && WaitsOn(g.clients[d], s) ==> c == d)
  {
    RunKeeps(e, states, actions, n);
    assert LinkOk(states[n], s);
    BusyHasWaiter(states[n], s);
  }

  /**
   In every run, for every client: its log follows the grammar of `After`, in step with its state;
   and every message it forwarded went, unchanged, to a server in use with its identification or 0.
   */
  lemma {:induction false} MessagesConserved<S>(e: Env<S>, states: seq<State<S>>, actions: seq<Action>, n: nat, c: nat)
    requires IsRun(e, states, actions) && n < |states| && c < |states[n].clients|
    ensures After(states[n].log, c) == Some(PhaseOf(states[n].clients[c]))
    ensures RoutedWell(states[n])
  {
    RunKeeps(e, states, actions, n);
    assert ClientOk(states[n], c);
  }
}
