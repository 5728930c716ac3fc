/**
 The Modbus gateway on values: clients that receive requests, servers that answer them, and the
 four states a client goes through for each message. What the modules behind clients and servers
 return is an environment, asked once per call. A server may be a slave of this device; it then
 works in place on the buffer of the client that sent the request.
 */
module Gateway {
  import opened Words

  /** Milliseconds between two main tasks. */
  const TIME_BASE := 5
  /** Bound on consecutive steps of one client. */
  const LIMIT_CALLS := 5
  const BUFFER := 256

  type Buffer = b: seq<uint8> | |b| == BUFFER witness seq(BUFFER, _ => 0)
  type Payload = p: seq<uint8> | |p| <= BUFFER
  type Size = n: nat | n <= BUFFER

  /**
   What a `recvMsg` does to the caller's id, buffer and size: nothing at all, the size set to zero,
   or a message stored. A module may store more bytes than belong to the message.
   */
  datatype Recv = Untouched | Nothing | Got(id: uint8, stored: Payload, size: Size)

  datatype Phase = Idle | Routing | Sending | Waiting

  datatype Client = Client(inUse: bool, state: Phase, id: uint8, buffer: Buffer, size: Size, timeout: nat,
      indexServer: int)

  /** A transport, or a slave with its handle, the client whose buffer it points to, and its size. */
  datatype Kind = Transport | LocalSlave(handler: nat, owner: nat, pending: Size)

  datatype Server = Server(inUse: bool, kind: Kind, id: uint8, busy: bool)

  datatype Event =
    | Arrived(client: nat, id: uint8, pdu: seq<uint8>)
    | Dropped(client: nat)
    | Request(server: nat, client: nat, id: uint8, pdu: seq<uint8>)
    | Ran(server: nat, client: nat, request: seq<uint8>, reply: seq<uint8>)
    | Reply(server: nat, client: nat, pdu: seq<uint8>)
    | Timeout(server: nat, client: nat)

  datatype SlaveRun<S> = SlaveRun(app: S, buf: Buffer, size: Size)

  /**
   Answers of the clients' modules by client and number of call, of the transports' by number of call,
   slaves, and timeouts in milliseconds.
   */
  datatype Env<!S> = Env(idle: (nat, nat) -> Recv, reply: nat -> Recv, slave: (S, nat, Buffer, Size) -> SlaveRun<S>,
      timeoutOf: nat -> nat)

  datatype State<S> = State(clients: seq<Client>, servers: seq<Server>, app: S, idlePolls: nat, replyPolls: nat,
      log: seq<Event>)

  /** Indices used by a step are indices of clients and servers. */
  predicate WF<S>(g: State<S>) {
    forall c :: 0 <= c < |g.clients| ==> ClientWF(g.clients[c], g.servers, |g.clients|)
  }

  predicate ClientWF(cl: Client, servers: seq<Server>, n: nat) {
    cl.state.Sending? || cl.state.Waiting? ==>
      && 0 <= cl.indexServer < |servers|
      && (cl.state.Waiting? && servers[cl.indexServer].kind.LocalSlave? ==> servers[cl.indexServer].kind.owner < n)
  }

  predicate SameShape<S>(g: State<S>, h: State<S>) {
    |g.clients| == |h.clients| && |g.servers| == |h.servers|
  }

  datatype Stepped<S> = Stepped(g: State<S>, more: bool)

  function Take(b: Buffer, n: Size): seq<uint8> {
    b[..n]
  }

  function Put(b: Buffer, p: Payload): Buffer {
    p + b[|p|..]
  }

  function Store(cl: Client, r: Recv): Client {
    match r
    case Untouched => cl
    case Nothing => cl.(size := 0)
    case Got(id, stored, size) => cl.(id := id, buffer := Put(cl.buffer, stored), size := size)
  }

  // ---------------------------------------------------------------- the four states

  /** `ciaaModbus_gatewayClientStateIdle`. */
  function IdleStep<S>(e: Env<S>, g: State<S>, c: nat): Stepped<S>
    requires c < |g.clients|
  {
    var cl := Store(g.clients[c], e.idle(c, g.idlePolls));
    var h := g.(idlePolls := g.idlePolls + 1);
    if cl.size >= 1
    then Stepped(h.(clients := h.clients[c := cl.(state := Routing)],
        log := h.log + [Arrived(c, cl.id, Take(cl.buffer, cl.size))]), true)
    else Stepped(h.(clients := h.clients[c := cl]), false)
  }

  /** First server in use, from `i` on, with the given identification; -1 if there is none. */
  function FindServer(servers: seq<Server>, id: uint8, i: nat): (r: int)
    requires i <= |servers|
    ensures r == -1 || (i <= r < |servers| && servers[r].inUse && servers[r].id == id)
    ensures forall j :: i <= j < (if r == -1 then |servers| else r) ==> !(servers[j].inUse && servers[j].id == id)
    decreases |servers| - i
  {
    if i == |servers| then -1
    else if servers[i].inUse && servers[i].id == id then i
    else FindServer(servers, id, i + 1)
  }

  /** The server of a message: one with its identification, else one with identification 0. */
  function Route(servers: seq<Server>, id: uint8): int {
    if FindServer(servers, id, 0) != -1 then FindServer(servers, id, 0) else FindServer(servers, 0, 0)
  }

  /** `ciaaModbus_gatewayClientStateRouting`. */
  function RoutingStep<S>(g: State<S>, c: nat): Stepped<S>
    requires c < |g.clients|
  {
    var cl := g.clients[c];
    var s := Route(g.servers, cl.id);
    if s == -1 then Stepped(g.(clients := g.clients[c := cl.(state := Idle)], log := g.log + [Dropped(c)]), false)
    else Stepped(g.(clients := g.clients[c := cl.(indexServer := s, state := Sending)]), true)
  }

  /** `ciaaModbus_gatewayClientStateSendMsgToServer`. */
  function SendingStep<S>(e: Env<S>, g: State<S>, c: nat): Stepped<S>
    requires c < |g.clients| && 0 <= g.clients[c].indexServer < |g.servers|
  {
    var cl := g.clients[c];
    var s := cl.indexServer;
    if g.servers[s].busy then Stepped(g, false)
    else
      var sv := Accept(g.servers[s], c, cl.size);
      Stepped(g.(clients := g.clients[c := cl.(timeout := e.timeoutOf(c) / TIME_BASE, state := Waiting)],
                 servers := g.servers[s := sv],
                 log := g.log + [Request(s, c, cl.id, Take(cl.buffer, cl.size))]), true)
  }

  /** A server that was handed a message: a slave keeps a pointer to the client's buffer. */
  function Accept(sv: Server, c: nat, size: Size): Server {
    match sv.kind
    case Transport => sv.(busy := true)
    case LocalSlave(h, _, _) => sv.(busy := true, kind := LocalSlave(h, c, size))
  }

  /** Task and receive of the server a client is waiting for. */
  function Poll<S>(e: Env<S>, g: State<S>, c: nat): (r: State<S>)
    requires c < |g.clients| && 0 <= g.clients[c].indexServer < |g.servers|
    requires g.servers[g.clients[c].indexServer].kind.LocalSlave? ==>
        g.servers[g.clients[c].indexServer].kind.owner < |g.clients|
    ensures SameShape(g, r) && r.clients[c].state == g.clients[c].state
        && r.clients[c].indexServer == g.clients[c].indexServer
  {
    var s := g.clients[c].indexServer;
    var sv := g.servers[s];
    match sv.kind
    case Transport =>
      g.(clients := g.clients[c := Store(g.clients[c], e.reply(g.replyPolls))], replyPolls := g.replyPolls + 1)
    case LocalSlave(h, owner, pending) =>
      var b := g.clients[owner].buffer;
      var run := e.slave(g.app, h, b, pending);
      var worked := g.clients[owner := g.clients[owner].(buffer := run.buf)];
      var cl := worked[c].(id := sv.id, buffer := Put(worked[c].buffer, Take(run.buf, run.size)), size := run.size);
      g.(clients := worked[c := cl], servers := g.servers[s := sv.(kind := LocalSlave(h, owner, run.size))],
          app := run.app,
         log := g.log + [Ran(s, c, Take(b, pending), Take(run.buf, run.size))])
  }

  /** The client is idle again and its server free. */
  function Release<S>(g: State<S>, c: nat): State<S>
    requires c < |g.clients| && 0 <= g.clients[c].indexServer < |g.servers|
  {
    var s := g.clients[c].indexServer;
    g.(clients := g.clients[c := g.clients[c].(state := Idle)], servers := g.servers[s := g.servers[s].(busy := false)])
  }

  /** `ciaaModbus_gatewayClientStateWaitingServerResponse`. */
  function WaitingStep<S>(e: Env<S>, g: State<S>, c: nat): Stepped<S>
    requires c < |g.clients| && 0 <= g.clients[c].indexServer < |g.servers|
    requires g.servers[g.clients[c].indexServer].kind.LocalSlave? ==>
        g.servers[g.clients[c].indexServer].kind.owner < |g.clients|
  {
    var h := Poll(e, g, c);
    var cl := h.clients[c];
    var s := cl.indexServer;
    if cl.size >= 2 then
      var f := Release(h, c);
      Stepped(f.(log := f.log + [Reply(s, c, Take(cl.buffer, cl.size))]), true)
    else if cl.timeout != 0 then Stepped(h.(clients := h.clients[c := cl.(timeout := cl.timeout - 1)]), false)
    else
      var f := Release(h, c);
      Stepped(f.(log := f.log + [Timeout(s, c)]), false)
  }

  /** `ciaaModbus_gatewayClientProcess`. */
  function Process<S>(e: Env<S>, g: State<S>, c: nat): (r: Stepped<S>)
    requires WF(g) && c < |g.clients|
    ensures SameShape(g, r.g)
  {
    if !g.clients[c].inUse then Stepped(g, false)
    else match g.clients[c].state
      case Idle => IdleStep(e, g, c)
      case Routing => RoutingStep(g, c)
      case Sending => SendingStep(e, g, c)
      case Waiting => WaitingStep(e, g, c)
  }

  lemma {:induction false} SendingWF<S>(e: Env<S>, g: State<S>, c: nat)
    requires WF(g) && c < |g.clients| && g.clients[c].state.Sending?
    ensures WF(SendingStep(e, g, c).g)
  {
    var h := SendingStep(e, g, c).g;
    var s := g.clients[c].indexServer;
    forall d | 0 <= d < |h.clients| ensures ClientWF(h.clients[d], h.servers, |h.clients|) {
      assert ClientWF(g.clients[d], g.servers, |g.clients|);
    }
  }

  lemma {:induction false} WaitingWF<S>(e: Env<S>, g: State<S>, c: nat)
    requires WF(g) && c < |g.clients| && g.clients[c].state.Waiting?
    ensures WF(WaitingStep(e, g, c).g)
  {
    var p, h := Poll(e, g, c), WaitingStep(e, g, c).g;
    forall d | 0 <= d < |h.clients| ensures ClientWF(h.clients[d], h.servers, |h.clients|) {
      assert ClientWF(g.clients[d], g.servers, |g.clients|);
      assert ClientWF(p.clients[d], p.servers, |p.clients|);
    }
  }

  lemma {:induction false} ProcessWF<S>(e: Env<S>, g: State<S>, c: nat)
    requires WF(g) && c < |g.clients|
    ensures WF(Process(e, g, c).g)
  {
    if g.clients[c].inUse && g.clients[c].state.Sending? {
      SendingWF(e, g, c);
    } else if g.clients[c].inUse && g.clients[c].state.Waiting? {
      WaitingWF(e, g, c);
    }
  }

  // ---------------------------------------------------------------- the main task

  /** The loop for one client: steps until nothing is left to do, at most `n` of them. */
  function Burst<S>(e: Env<S>, g: State<S>, c: nat, n: nat): (r: State<S>)
    requires WF(g) && c < |g.clients| && n >= 1
    ensures WF(r) && SameShape(g, r)
    decreases n
  {
    ProcessWF(e, g, c);
    var p := Process(e, g, c);
    if p.more && n > 1 then Burst(e, p.g, c, n - 1) else p.g
  }

  /** The loop over the clients from client `c` on, with at most `k` steps for each. */
  function MainFrom<S>(e: Env<S>, g: State<S>, c: nat, k: nat): (r: State<S>)
    requires WF(g) && c <= |g.clients| && k >= 1
    ensures WF(r) && SameShape(g, r)
    decreases |g.clients| - c
  {
    if c == |g.clients| then g else MainFrom(e, Burst(e, g, c, k), c + 1, k)
  }

  /** `ciaaModbus_gatewayMainTask`, where `k` is `LIMIT_CALLS`. */
  function MainTask<S>(e: Env<S>, g: State<S>, k: nat): (r: State<S>)
    requires WF(g) && k >= 1
    ensures WF(r) && SameShape(g, r)
  {
    MainFrom(e, g, 0, k)
  }

  // ---------------------------------------------------------------- adding clients and servers

  function FreeServer(servers: seq<Server>, i: nat): (r: nat)
    requires i <= |servers|
    ensures i <= r <= |servers| && (r < |servers| ==> !servers[r].inUse) && forall j :: i <= j < r ==> servers[j].inUse
    decreases |servers| - i
  {
    if i == |servers| || !servers[i].inUse then i else FreeServer(servers, i + 1)
  }

  function FreeClient(clients: seq<Client>, i: nat): (r: nat)
    requires i <= |clients|
    ensures i <= r <= |clients| && (r < |clients| ==> !clients[r].inUse) && forall j :: i <= j < r ==> clients[j].inUse
    decreases |clients| - i
  {
    if i == |clients| || !clients[i].inUse then i else FreeClient(clients, i + 1)
  }

  /** A slave or a transport becomes the first server that is not in use; nothing happens if all are. */
  function AddServer<S>(g: State<S>, kind: Kind, id: uint8): State<S> {
    var s := FreeServer(g.servers, 0);
    if s == |g.servers| then g else g.(servers := g.servers[s := Server(true, kind, id, false)])
  }

  /** `after` is `before` with `record` in the place of the first server not in use. */
  ghost predicate ServerTaken(before: seq<Server>, after: seq<Server>, record: Server) {
    exists s: nat :: s < |before| && !before[s].inUse && after == before[s := record]
                     && forall j :: 0 <= j < s ==> before[j].inUse
  }

  /** `after` is `before` with the first client not in use taken into use. */
  ghost predicate ClientTaken(before: seq<Client>, after: seq<Client>) {
    exists c: nat :: c < |before| && !before[c].inUse && after == before[c := before[c].(inUse := true)]
                     && forall j :: 0 <= j < c ==> before[j].inUse
  }

  /** A master or a transport becomes the first client that is not in use. */
  function AddClient<S>(g: State<S>): State<S> {
    var c := FreeClient(g.clients, 0);
    if c == |g.clients| then g else g.(clients := g.clients[c := g.clients[c].(inUse := true)])
  }

  // ---------------------------------------------------------------- runs

  datatype Action = Processing(client: nat) | AddingServer(kind: Kind, id: uint8) | AddingClient

  predicate Enabled<S>(g: State<S>, a: Action) {
    WF(g) && (a.Processing? ==> a.client < |g.clients|)
  }

  function Step<S>(e: Env<S>, g: State<S>, a: Action): State<S>
    requires Enabled(g, a)
  {
    match a
    case Processing(c) => Process(e, g, c).g
    case AddingServer(kind, id) => AddServer(g, kind, id)
    case AddingClient => AddClient(g)
  }

  /** After `gatewayInit` and `gatewayOpen`. */
  predicate Initial<S>(g: State<S>) {
    && (forall c :: 0 <= c < |g.clients| ==> !g.clients[c].inUse && g.clients[c].state.Idle? && g.clients[c].size == 0)
    && (forall s :: 0 <= s < |g.servers| ==> !g.servers[s].inUse && !g.servers[s].busy)
    && g.log == []
  }

  /** Main tasks interleaved with additions, one step of one client at a time, in any order. */
  ghost predicate IsRun<S>(e: Env<S>, states: seq<State<S>>, actions: seq<Action>) {
    && |states| == |actions| + 1 && Initial(states[0])
    && forall i ::
        0 <= i < |actions| ==> Enabled(states[i], actions[i]) && states[i + 1] == Step(e, states[i], actions[i])
  }
}
