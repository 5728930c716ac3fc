/**
 What one step of a client does, said in terms of what goes in and what comes out: the bytes a module
 hands over, the server a message goes to, the reply a client gets, and how long it is waited for.
 */
module GatewaySteps {
  import opened Words
  import opened Gateway
  import opened GatewaySafety

  // ---------------------------------------------------------------- a message arrives

  lemma {:induction false} FrontOfPut(b: Buffer, p: Payload, n: Size)
    ensures Put(b, p)[..n] == (p + b[|p|..])[..n]
    ensures n <= |p| ==> Put(b, p)[..n] == p[..n]
  {
  }

  /**
   An idle client in use whose module hands over a message takes up exactly its bytes, for the id that came with
   it; behind the bytes handed over it holds what it held.
   */
  lemma {:induction false} ArrivesAsHanded<S>(e: Env<S>, g: State<S>, c: nat, id: uint8, stored: Payload, size: Size)
    requires WF(g) && c < |g.clients| && g.clients[c].inUse && g.clients[c].state.Idle?
    requires e.idle(c, g.idlePolls) == Got(id, stored, size) && size >= 1
    ensures var h, pdu := Process(e, g, c).g, (stored + g.clients[c].buffer[|stored|..])[..size];
            && h.log == g.log + [Arrived(c, id, pdu)] && (size <= |stored| ==> pdu == stored[..size])
            && h.clients[c].state.Routing? && h.clients[c].id == id && h.clients[c].size == size
            && h.clients[c].buffer[..size] == pdu && h.servers == g.servers
  {
    FrontOfPut(g.clients[c].buffer, stored, size);
  }

  /** One whose module reports size 0 does nothing; one byte is enough for a message, whoever left it. */
  lemma {:induction false} IdleOtherwise<S>(e: Env<S>, g: State<S>, c: nat)
    requires WF(g) && c < |g.clients| && g.clients[c].inUse && g.clients[c].state.Idle?
    ensures var polled, h := e.idle(c, g.idlePolls), Process(e, g, c).g;
            var size := if polled.Untouched? then g.clients[c].size else if polled.Nothing? then 0 else polled.size;
            && h.servers == g.servers && h.idlePolls == g.idlePolls + 1
            && (h.clients[c].state.Routing? <==> size > 0)
            && (size == 0 ==> h.clients[c].state.Idle? && h.clients[c].size == 0 && h.log == g.log)
            && (polled.Untouched? && size > 0 ==>
                  h.log == g.log + [Arrived(c, g.clients[c].id, g.clients[c].buffer[..size])])
  {
  }

  // ---------------------------------------------------------------- it is routed

  predicate HasId(sv: Server, id: uint8) {
    sv.inUse && sv.id == id
  }

  /** Server `s` is the first of those in use with the given identification. */
  predicate FirstWith(servers: seq<Server>, id: uint8, s: nat) {
    s < |servers| && HasId(servers[s], id) && forall t :: 0 <= t < s ==> !HasId(servers[t], id)
  }

  predicate NoneWith(servers: seq<Server>, id: uint8) {
    forall s :: 0 <= s < |servers| ==> !HasId(servers[s], id)
  }

  lemma {:induction false} FoundFirst(servers: seq<Server>, id: uint8)
    ensures FindServer(servers, id, 0) == -1 <==> NoneWith(servers, id)
    ensures forall s: nat {:trigger FirstWith(servers, id, s)} ::
              FirstWith(servers, id, s) ==> FindServer(servers, id, 0) == s
    ensures FindServer(servers, id, 0) != -1 ==> FirstWith(servers, id, FindServer(servers, id, 0))
  {
    var r := FindServer(servers, id, 0);
    forall s: nat | FirstWith(servers, id, s) ensures r == s {
      assert HasId(servers[s], id);
    }
  }

  /**
   A message goes to the first server in use that has its id; if there is none, to the first with
   identification 0; and if there is none of these either, it is dropped. Nothing else changes.
   */
  lemma {:induction false} RoutedToFirst<S>(e: Env<S>, g: State<S>, c: nat)
    requires WF(g) && c < |g.clients| && g.clients[c].inUse && g.clients[c].state.Routing?
    ensures var h := Process(e, g, c).g; var cl, now, id := g.clients[c], h.clients[c], g.clients[c].id;
            && (forall s: nat {:trigger FirstWith(g.servers, id, s)} ::
                  FirstWith(g.servers, id, s) ==> now == cl.(state := Sending, indexServer := s) && h.log == g.log)
            && (forall s: nat {:trigger FirstWith(g.servers, 0, s)} ::
                  NoneWith(g.servers, id) && FirstWith(g.servers, 0, s) ==>
                    now == cl.(state := Sending, indexServer := s) && h.log == g.log)
            && (NoneWith(g.servers, id) && NoneWith(g.servers, 0) ==>
                  now == cl.(state := Idle) && h.log == g.log + [Dropped(c)])
            && h.servers == g.servers && forall d :: 0 <= d < |g.clients| && d != c ==> h.clients[d] == g.clients[d]
  {
    FoundFirst(g.servers, g.clients[c].id);
    FoundFirst(g.servers, 0);
  }

  /** A step drops a message if and only if its client is routing one that no server in use takes. */
  lemma {:induction false} DroppedIff<S>(e: Env<S>, g: State<S>, c: nat, d: nat)
    requires WF(g) && c < |g.clients|
    ensures Process(e, g, c).g.log == g.log + [Dropped(d)] <==>
            d == c && g.clients[c].inUse && g.clients[c].state.Routing?
            && NoneWith(g.servers, g.clients[c].id) && NoneWith(g.servers, 0)
  {
    var h := Process(e, g, c).g;
    FoundFirst(g.servers, g.clients[c].id);
    FoundFirst(g.servers, 0);
    if h.log == g.log + [Dropped(d)] {
      assert h.log[|g.log|] == Dropped(d);
    }
  }

  /**
   In every run a message is dropped at a step if and only if it is the last one of its client, has just been
   taken up, and no server in use has its id or id 0.
   */
  lemma {:induction false} DroppedOnRuns<S>(e: Env<S>, states: seq<State<S>>, actions: seq<Action>, n: nat, c: nat)
    requires IsRun(e, states, actions) && n < |actions| && c < |states[n].clients|
    ensures states[n + 1].log == states[n].log + [Dropped(c)] <==>
            && actions[n] == Processing(c) && states[n].clients[c].inUse && states[n].clients[c].state.Routing?
            && exists id, pdu :: After(states[n].log, c) == Some(Holding(id, pdu))
                 && NoneWith(states[n].servers, id) && NoneWith(states[n].servers, 0)
  {
    var g := states[n];
    RunKeeps(e, states, actions, n);
    assert ClientOk(g, c);
    assert g.clients[c].state.Routing? ==>
        After(g.log, c) == Some(Holding(g.clients[c].id, Take(g.clients[c].buffer, g.clients[c].size)));
    match actions[n]
    case Processing(d) => DroppedIff(e, g, d, c);
    case AddingServer(_, _) => assert states[n + 1].log == g.log;
    case AddingClient => assert states[n + 1].log == g.log;
  }

  // ---------------------------------------------------------------- it is sent

  /** A message is handed to its server when that is free, with the client's own bytes; else nothing happens. */
  lemma {:induction false} SentWhenFree<S>(e: Env<S>, g: State<S>, c: nat)
    requires WF(g) && c < |g.clients| && g.clients[c].inUse && g.clients[c].state.Sending?
    ensures var h := Process(e, g, c).g; var cl := g.clients[c]; var s := cl.indexServer;
            && (g.servers[s].busy ==> h == g)
            && (!g.servers[s].busy ==>
                  && h.log == g.log + [Request(s, c, cl.id, cl.buffer[..cl.size])]
                  && h.clients[c] == cl.(state := Waiting, timeout := e.timeoutOf(c) / 5)
                  && h.servers[s].busy && h.servers[s].inUse == g.servers[s].inUse && h.servers[s].id == g.servers[s].id
                  && (g.servers[s].kind.Transport? ==> h.servers[s].kind.Transport?) && h.replyPolls == g.replyPolls)
  {
  }

  // ---------------------------------------------------------------- it is answered

  /** A client waiting for a transport that brings a reply gets exactly the bytes of that reply. */
  lemma {:induction false} RepliesAsHanded<S>(e: Env<S>, g: State<S>, c: nat, id: uint8, stored: Payload, size: Size)
    requires WF(g) && c < |g.clients| && g.clients[c].inUse && g.clients[c].state.Waiting?
    requires g.servers[g.clients[c].indexServer].kind.Transport?
    requires e.reply(g.replyPolls) == Got(id, stored, size) && size >= 2
    ensures var h, pdu := Process(e, g, c).g, (stored + g.clients[c].buffer[|stored|..])[..size];
            var s := g.clients[c].indexServer;
            && h.log == g.log + [Reply(s, c, pdu)] && (size <= |stored| ==> pdu == stored[..size])
            && h.clients[c].state.Idle? && h.clients[c].id == id && h.clients[c].size == size
            && h.clients[c].buffer[..size] == pdu && h.servers == g.servers[s := g.servers[s].(busy := false)]
            && h.replyPolls == g.replyPolls + 1
  {
    FrontOfPut(g.clients[c].buffer, stored, size);
  }

  /** What counts as no reply: nothing new in the size, or less than two bytes. */
  predicate NoReply(cl: Client, r: Recv) {
    match r
    case Untouched => cl.size < 2
    case Nothing => true
    case Got(_, _, size) => size < 2
  }

  /** Without a reply the countdown goes down by one; at 0 the client gives up and its server is free. */
  lemma {:induction false} UnansweredPoll<S>(e: Env<S>, g: State<S>, c: nat)
    requires WF(g) && c < |g.clients| && g.clients[c].inUse && g.clients[c].state.Waiting?
    requires g.servers[g.clients[c].indexServer].kind.Transport? && NoReply(g.clients[c], e.reply(g.replyPolls))
    ensures var h := Process(e, g, c).g; var cl, now, s := g.clients[c], h.clients[c], g.clients[c].indexServer;
            && now.size < 2 && now.inUse && now.indexServer == s && h.replyPolls == g.replyPolls + 1
            && if cl.timeout > 0
               then now.state.Waiting? && now.timeout == cl.timeout - 1 && h.log == g.log && h.servers == g.servers
               else now.state.Idle? && h.log == g.log + [Timeout(s, c)]
                    && h.servers == g.servers[s := g.servers[s].(busy := false)]
  {
  }

  /** The state after `n` steps of client `c`, with none of others between. */
  function OwnSteps<S>(e: Env<S>, g: State<S>, c: nat, n: nat): (h: State<S>)
    requires WF(g) && c < |g.clients|
    ensures WF(h) && SameShape(g, h)
    decreases n
  {
    if n == 0 then g
    else
      ProcessWF(e, g, c);
      OwnSteps(e, Process(e, g, c).g, c, n - 1)
  }

  /** No reply comes at any of the next `n` polls. */
  ghost predicate SilentFor<S>(e: Env<S>, from: nat, n: nat) {
    forall k :: from <= k < from + n ==> e.reply(k).Nothing?
  }

  /** `h` is `g` after `n` polls of client `c` that brought nothing. */
  predicate WaitedOn<S>(g: State<S>, h: State<S>, c: nat, n: nat)
    requires c < |g.clients| && 0 <= g.clients[c].indexServer < |g.servers|
  {
    && SameShape(g, h) && h.clients[c].inUse && h.clients[c].state.Waiting?
    && h.clients[c].indexServer == g.clients[c].indexServer && h.clients[c].timeout == g.clients[c].timeout - n
    && h.log == g.log && h.servers == g.servers && h.replyPolls == g.replyPolls + n
  }

  /** While nothing comes, the client waits on with its countdown. */
  lemma {:induction false} WaitsOnWhileSilent<S>(e: Env<S>, g: State<S>, c: nat, n: nat) returns (h: State<S>)
    requires WF(g) && c < |g.clients| && g.clients[c].inUse && g.clients[c].state.Waiting?
    requires g.servers[g.clients[c].indexServer].kind.Transport? && n <= g.clients[c].timeout
    requires SilentFor(e, g.replyPolls, n)
    ensures h == OwnSteps(e, g, c, n) && WF(h) && WaitedOn(g, h, c, n)
    decreases n
  {
    if n == 0 {
      h := g;
    } else {
      UnansweredPoll(e, g, c);
      ProcessWF(e, g, c);
      h := WaitsOnWhileSilent(e, Process(e, g, c).g, c, n - 1);
    }
  }

  /** One poll more than the countdown says, and it gives up. */
  lemma {:induction false} GivesUp<S>(e: Env<S>, g: State<S>, c: nat, n: nat) returns (h: State<S>)
    requires WF(g) && c < |g.clients| && g.clients[c].inUse && g.clients[c].state.Waiting?
    requires g.servers[g.clients[c].indexServer].kind.Transport? && n == g.clients[c].timeout
    requires SilentFor(e, g.replyPolls, n + 1)
    ensures var s := g.clients[c].indexServer;
            && h == OwnSteps(e, g, c, n + 1) && SameShape(g, h) && h.clients[c].state.Idle? && !h.servers[s].busy
            && h.log == g.log + [Timeout(s, c)]
    decreases n
  {
    UnansweredPoll(e, g, c);
    ProcessWF(e, g, c);
    h := Process(e, g, c).g;
    if n > 0 {
      h := GivesUp(e, h, c, n - 1);
    }
  }

  /**
   A request to a transport that does not answer is waited for during as many polls as its client's timeout has
   periods of 5 ms.
   */
  lemma {:induction false} WaitedFor<S>(e: Env<S>, g: State<S>, c: nat, n: nat) returns (h: State<S>)
    requires WF(g) && c < |g.clients| && g.clients[c].inUse && g.clients[c].state.Sending?
    requires !g.servers[g.clients[c].indexServer].busy && g.servers[g.clients[c].indexServer].kind.Transport?
    requires n <= e.timeoutOf(c) / 5 && SilentFor(e, g.replyPolls, n)
    ensures h == OwnSteps(e, g, c, n + 1) && WF(h) && SameShape(g, h)
    ensures var cl := g.clients[c]; var s := cl.indexServer;
            && h.clients[c].inUse && h.clients[c].state.Waiting? && h.clients[c].indexServer == s
            && h.clients[c].timeout == e.timeoutOf(c) / 5 - n && h.replyPolls == g.replyPolls + n
            && h.log == g.log + [Request(s, c, cl.id, cl.buffer[..cl.size])]
            && h.servers[s].kind.Transport?
  {
    SentWhenFree(e, g, c);
    ProcessWF(e, g, c);
    h := WaitsOnWhileSilent(e, Process(e, g, c).g, c, n);
  }

  /** With one poll more it is given up. */
  lemma {:induction false} GivenUpInTime<S>(e: Env<S>, g: State<S>, c: nat) returns (h: State<S>)
    requires WF(g) && c < |g.clients| && g.clients[c].inUse && g.clients[c].state.Sending?
    requires !g.servers[g.clients[c].indexServer].busy && g.servers[g.clients[c].indexServer].kind.Transport?
    requires SilentFor(e, g.replyPolls, e.timeoutOf(c) / 5 + 1)
    ensures var cl := g.clients[c]; var s := cl.indexServer;
            && h == OwnSteps(e, g, c, e.timeoutOf(c) / 5 + 2) && SameShape(g, h)
            && h.clients[c].state.Idle? && !h.servers[s].busy
            && h.log == g.log + [Request(s, c, cl.id, cl.buffer[..cl.size])] + [Timeout(s, c)]
  {
    SentWhenFree(e, g, c);
    ProcessWF(e, g, c);
    h := GivesUp(e, Process(e, g, c).g, c, e.timeoutOf(c) / 5);
  }

  // ---------------------------------------------------------------- the others

  /** The client has handed its message to a slave of this device. */
  predicate AtLocalSlave<S>(g: State<S>, c: nat)
    requires WF(g) && c < |g.clients|
  {
    g.clients[c].inUse && g.clients[c].state.Waiting? && g.servers[g.clients[c].indexServer].kind.LocalSlave?
  }

  /** A step is about one client and the server its message is for; a client not in use does nothing. */
  lemma {:induction false} OthersKeep<S>(e: Env<S>, g: State<S>, c: nat)
    requires WF(g) && c < |g.clients|
    ensures var h := Process(e, g, c).g;
            && (!g.clients[c].inUse ==> h == g)
            && (!AtLocalSlave(g, c) ==> h.app == g.app)
            && (!AtLocalSlave(g, c) ==> forall d :: 0 <= d < |g.clients| && d != c ==> h.clients[d] == g.clients[d])
            && (g.clients[c].state.Idle? || g.clients[c].state.Routing? ==> h.servers == g.servers)
            && forall s :: 0 <= s < |g.servers| && s != g.clients[c].indexServer ==> h.servers[s] == g.servers[s]
  {
  }

  // ---------------------------------------------------------------- the burst of a main task

  /** The step brought the client's message one state further: taken up, routed, sent, or replied to. */
  predicate Advanced<S>(g: State<S>, h: State<S>, c: nat)
    requires c < |g.clients| && c < |h.clients|
  {
    match g.clients[c].state
    case Idle => h.clients[c].state.Routing?
    case Routing => h.clients[c].state.Sending?
    case Sending => h.clients[c].state.Waiting?
    case Waiting => h.clients[c].state.Idle? && h.log != [] && h.log[|h.log| - 1].Reply?
  }

  /** A client goes on in the same main task exactly after such a step. */
  lemma {:induction false} GoesOnIff<S>(e: Env<S>, g: State<S>, c: nat)
    requires WF(g) && c < |g.clients|
    ensures Process(e, g, c).more <==> g.clients[c].inUse && Advanced(g, Process(e, g, c).g, c)
  {
  }

  /** The first `n` steps of a client advance its message, each of them. */
  predicate AdvancesFor<S>(e: Env<S>, g: State<S>, c: nat, n: nat)
    requires WF(g) && c < |g.clients|
    decreases n
  {
    n > 0 ==>
      var h := Process(e, g, c).g;
      ProcessWF(e, g, c);
      g.clients[c].inUse && Advanced(g, h, c) && AdvancesFor(e, h, c, n - 1)
  }

  /**
   The steps of a client in one main task, at most `n`: those up to the first that does not advance its message,
   that one included.
   */
  lemma {:induction false} BurstIs<S>(e: Env<S>, g: State<S>, c: nat, n: nat, k: nat)
    requires WF(g) && c < |g.clients| && k < n
    requires AdvancesFor(e, g, c, k) && (k + 1 == n || !AdvancesFor(e, g, c, k + 1))
    ensures Burst(e, g, c, n) == OwnSteps(e, g, c, k + 1)
    decreases n
  {
    var h := Process(e, g, c).g;
    GoesOnIff(e, g, c);
    ProcessWF(e, g, c);
    assert OwnSteps(e, g, c, k + 1) == OwnSteps(e, h, c, k);
    if k > 0 {
      BurstIs(e, h, c, n - 1, k - 1);
    }
  }
}
