/**
 How long stale sizes keep the gateway busy. When no module has anything to send any more, but leaves
 the sizes as they are, a client that holds a message for a slave of this device sends what it holds
 for ever: the gateway never drains. For a single client it is known when it is idle in between.
 */
module GatewayRestless {
  import opened Words
  import opened Gateway
  import opened GatewaySafety
  import opened GatewayDrain
  import opened GatewayLocal
  import opened GatewayStale

  /** From now on the module of client `c` has nothing to send, and leaves the size alone. */
  ghost predicate Leaves<S(!new)>(e: Env<S>, g: State<S>, c: nat) {
    forall n :: n >= g.idlePolls ==> e.idle(c, n).Untouched?
  }

  /** The same of all clients. */
  ghost predicate Exhausted<S(!new)>(e: Env<S>, g: State<S>) {
    forall c, n :: n >= g.idlePolls ==> e.idle(c, n).Untouched?
  }

  // ---------------------------------------------------------------- which servers answer

  /** What no step changes of the servers. */
  predicate SameServers(a: seq<Server>, b: seq<Server>) {
    && |a| == |b|
    && forall s ::
        0 <= s < |a| ==>
        b[s].inUse == a[s].inUse && b[s].id == a[s].id && (b[s].kind.LocalSlave? <==> a[s].kind.LocalSlave?)
  }

  lemma {:induction false} SameFind(a: seq<Server>, b: seq<Server>, id: uint8, i: nat)
    requires SameServers(a, b) && i <= |a|
    ensures FindServer(b, id, i) == FindServer(a, id, i)
    decreases |a| - i
  {
    if i == |a| {
    } else {
      SameFind(a, b, id, i + 1);
    }
  }

  /** Server `s` is a slave of this device, and so is the one that messages with its identification are sent to. */
  predicate Local(servers: seq<Server>, s: int) {
    && 0 <= s < |servers| && servers[s].kind.LocalSlave?
    && var t := FindServer(servers, servers[s].id, 0); t != -1 && servers[t].kind.LocalSlave?
  }

  /** Messages for `id` go to such a slave, or to nobody. */
  predicate LocalId(servers: seq<Server>, id: uint8) {
    Route(servers, id) == -1 || Local(servers, Route(servers, id))
  }

  lemma {:induction false} SameLocal(a: seq<Server>, b: seq<Server>)
    requires SameServers(a, b)
    ensures forall s {:trigger Local(b, s)} :: Local(b, s) <==> Local(a, s)
    ensures forall id {:trigger Route(b, id)} {:trigger LocalId(b, id)} ::
        Route(b, id) == Route(a, id) && (LocalId(b, id) <==> LocalId(a, id))
  {
    forall id: uint8 ensures FindServer(b, id, 0) == FindServer(a, id, 0) {
      SameFind(a, b, id, 0);
    }
  }

  // ---------------------------------------------------------------- clients that go on

  /** A client with a message, for a slave of this device or nobody, or with what is left of one. */
  predicate Hooked<S>(g: State<S>, c: nat) {
    && c < |g.clients| && g.clients[c].inUse
    && match g.clients[c].state
       case Idle => g.clients[c].size >= 1 && LocalId(g.servers, g.clients[c].id)
       case Routing => g.clients[c].size >= 1 && LocalId(g.servers, g.clients[c].id)
       case Sending => g.clients[c].size >= 1 && Local(g.servers, g.clients[c].indexServer)
       case Waiting => Local(g.servers, g.clients[c].indexServer)
  }

  /** Its next step but one, at the latest, takes up a message. */
  predicate Ready<S>(g: State<S>, c: nat) {
    Hooked(g, c) && (g.clients[c].state.Idle? || g.clients[c].state.Waiting?)
  }

  /** What all lemmas below assume of a state, and every step keeps. */
  ghost predicate Sound<S(!new)>(e: Env<S>, g: State<S>) {
    LocalInv(g) && WF(g) && AnswersAll(e)
  }

  ghost predicate Going<S(!new)>(e: Env<S>, g: State<S>) {
    Sound(e, g) && Exhausted(e, g)
  }

  lemma {:induction false} StepServers<S(!new)>(e: Env<S>, g: State<S>, c: nat)
    requires Sound(e, g) && c < |g.clients|
    ensures var h := Process(e, g, c).g;
            && Sound(e, h) && g.idlePolls <= h.idlePolls && SameServers(g.servers, h.servers)
            && forall d :: 0 <= d < |g.clients| && d != c ==> h.clients[d] == g.clients[d]
  {
    ProcessLocal(e, g, c);
    ProcessWF(e, g, c);
    if g.clients[c].inUse && g.clients[c].state.Waiting? {
      PollKeeps(e, g, c);
    }
  }

  /** Client `d` is what it was, and so are the servers as far as routing goes. */
  predicate Spared<S>(g: State<S>, h: State<S>, d: nat) {
    && SameShape(g, h) && d < |g.clients| && h.clients[d] == g.clients[d] && SameServers(g.servers, h.servers)
    && g.idlePolls <= h.idlePolls
  }

  lemma {:induction false} SparedTwice<S>(g: State<S>, b: State<S>, h: State<S>, d: nat)
    requires Spared(g, b, d) && Spared(b, h, d)
    ensures Spared(g, h, d)
  {
  }

  lemma {:induction false} SparedHooked<S>(g: State<S>, h: State<S>, d: nat)
    requires Spared(g, h, d)
    ensures (Hooked(h, d) <==> Hooked(g, d)) && (Ready(h, d) <==> Ready(g, d))
  {
    SameLocal(g.servers, h.servers);
  }

  /** A hooked client moves on and stays hooked, unless its server is busy. */
  lemma {:induction false} HookedStep<S(!new)>(e: Env<S>, g: State<S>, c: nat)
    requires Sound(e, g) && Leaves(e, g, c) && Hooked(g, c)
    ensures var p, cl := Process(e, g, c), g.clients[c]; var after := p.g.clients[c].state;
            && Hooked(p.g, c)
            && match cl.state
               case Idle => after.Routing? && p.more
               case Routing => if Route(g.servers, cl.id) == -1 then after.Idle? && !p.more
                   else after.Sending? && p.more
               case Sending => if g.servers[cl.indexServer].busy then p.g == g && !p.more else after.Waiting? && p.more
               case Waiting => after.Idle? && p.more
  {
    var h := Process(e, g, c).g;
    StepServers(e, g, c);
    SameLocal(g.servers, h.servers);
    assert e.idle(c, g.idlePolls).Untouched?;
    if g.clients[c].state.Waiting? {
      SlaveStep(e, g, c);
      HookedReply(g.servers, g.clients[c].indexServer);
    }
  }

  /** A reply leaves the identification of the slave behind, whose messages go to a slave of this device. */
  lemma {:induction false} HookedReply(servers: seq<Server>, s: int)
    requires Local(servers, s)
    ensures LocalId(servers, servers[s].id) && Route(servers, servers[s].id) != -1
  {
    var t := FindServer(servers, servers[s].id, 0);
    assert servers[t].id == servers[s].id;
  }

  // ---------------------------------------------------------------- bursts

  lemma {:induction false} BurstOthers<S(!new)>(e: Env<S>, g: State<S>, c: nat, k: nat, d: nat)
    requires Sound(e, g) && c < |g.clients| && k >= 1 && d < |g.clients| && d != c
    ensures Sound(e, Burst(e, g, c, k)) && Spared(g, Burst(e, g, c, k), d)
    decreases k
  {
    StepServers(e, g, c);
    var p := Process(e, g, c);
    if p.more && k > 1 {
      BurstOthers(e, p.g, c, k - 1, d);
    }
  }

  /** Steps until the next message is taken up. */
  function Ahead(state: Phase): nat {
    match state
    case Idle => 1
    case Waiting => 2
    case Sending => 3
    case Routing => 4
  }

  predicate Blocked<S>(g: State<S>, c: nat)
    requires c < |g.clients|
  {
    g.clients[c].state.Sending? && 0 <= g.clients[c].indexServer < |g.servers|
        && g.servers[g.clients[c].indexServer].busy
  }

  /** One step of a hooked client: a message is taken up, or it comes nearer, or the turn ends. */
  lemma {:induction false} StepAhead<S(!new)>(e: Env<S>, g: State<S>, c: nat)
    requires Going(e, g) && Hooked(g, c)
    ensures var p := Process(e, g, c); (Going(e, p.g) <==> Going(e, g)) && (Hooked(p.g, c) <==> Hooked(g, c))
    ensures var p, state := Process(e, g, c), g.clients[c].state;
            if state.Idle? then Arrivals(p.g.log) > Arrivals(g.log)
            else Arrivals(p.g.log) == Arrivals(g.log)
                 && (if p.more then Ahead(p.g.clients[c].state) == Ahead(state) - 1
                     else !state.Waiting? && (p.g.clients[c].state.Idle? || Blocked(p.g, c)))
  {
    StepServers(e, g, c);
    HookedStep(e, g, c);
    ProcessArrivals(e, g, c);
  }

  lemma {:induction false} BurstIs<S>(e: Env<S>, g: State<S>, c: nat, k: nat)
    requires WF(g) && c < |g.clients| && k >= 1
    ensures var p := Process(e, g, c);
            && WF(p.g) && SameShape(g, p.g) && Arrivals(p.g.log) <= Arrivals(Burst(e, g, c, k).log)
            && Burst(e, g, c, k) == if p.more && k > 1 then Burst(e, p.g, c, k - 1) else p.g
  {
    ProcessWF(e, g, c);
    BurstArrivals(e, g, c, k);
  }

  lemma {:induction false} BurstHooked<S(!new)>(e: Env<S>, g: State<S>, c: nat, k: nat)
    requires Sound(e, g) && Leaves(e, g, c) && Hooked(g, c) && k >= 1
    ensures var h := Burst(e, g, c, k); Sound(e, h) && Hooked(h, c) && g.idlePolls <= h.idlePolls
    decreases k
  {
    BurstIs(e, g, c, k);
    StepServers(e, g, c);
    HookedStep(e, g, c);
    var p := Process(e, g, c);
    if p.more && k > 1 {
      BurstHooked(e, p.g, c, k - 1);
    }
  }

  /** In its turn a hooked client takes up a message, drops one, or ends before a busy server. */
  lemma {:induction false} BurstArrives<S(!new)>(e: Env<S>, g: State<S>, c: nat, k: nat)
    requires Going(e, g) && Hooked(g, c) && k >= Ahead(g.clients[c].state)
    ensures var h := Burst(e, g, c, k); Arrivals(h.log) > Arrivals(g.log) || h.clients[c].state.Idle? || Blocked(h, c)
    ensures Ready(g, c) ==> Arrivals(Burst(e, g, c, k).log) > Arrivals(g.log)
    decreases Ahead(g.clients[c].state)
  {
    BurstIs(e, g, c, k);
    StepAhead(e, g, c);
    var p := Process(e, g, c);
    if p.more && !g.clients[c].state.Idle? {
      BurstArrives(e, p.g, c, k - 1);
    }
  }

  /** A blocked client has someone ready before its server. */
  lemma {:induction false} BlockedByReady<S(!new)>(e: Env<S>, g: State<S>, c: nat) returns (d: nat)
    requires Going(e, g) && Hooked(g, c) && Blocked(g, c)
    ensures Ready(g, d)
  {
    var s := g.clients[c].indexServer;
    assert LinkOk(g, s);
    BusyHasWaiter(g, s);
    d :| 0 <= d < |g.clients| && WaitsOn(g.clients[d], s);
    assert ClientOk(g, d);
  }

  // ---------------------------------------------------------------- main tasks

  /** The turns of the clients from `i` on leave the clients before them as they are. */
  lemma {:induction false} EarlierKept<S(!new)>(e: Env<S>, g: State<S>, i: nat, k: nat, d: nat)
    requires Sound(e, g) && d < i <= |g.clients| && k >= 1
    ensures Sound(e, MainFrom(e, g, i, k)) && Spared(g, MainFrom(e, g, i, k), d)
    decreases |g.clients| - i
  {
    if i == |g.clients| {
    } else {
      var b := Burst(e, g, i, k);
      BurstOthers(e, g, i, k, d);
      EarlierKept(e, b, i + 1, k, d);
      SparedTwice(g, b, MainFrom(e, g, i, k), d);
    }
  }

  /** The state in which client `c` has its turn. */
  function Before<S>(e: Env<S>, g: State<S>, i: nat, c: nat, k: nat): (m: State<S>)
    requires WF(g) && i <= c <= |g.clients| && k >= 1
    ensures WF(m) && SameShape(g, m)
    decreases c - i
  {
    if i == c then g else Before(e, Burst(e, g, i, k), i + 1, c, k)
  }

  lemma {:induction false} TurnsBefore<S>(e: Env<S>, g: State<S>, i: nat, c: nat, k: nat)
    requires WF(g) && i <= c <= |g.clients| && k >= 1
    ensures MainFrom(e, g, i, k) == MainFrom(e, Before(e, g, i, c, k), c, k)
    ensures Arrivals(g.log) <= Arrivals(Before(e, g, i, c, k).log)
    decreases c - i
  {
    if i == c {
    } else {
      MainIs(e, g, i, k);
      TurnArrivals(e, g, i, k);
      TurnsBefore(e, Burst(e, g, i, k), i + 1, c, k);
    }
  }

  /** The turns before leave the client as it is. */
  lemma {:induction false} BeforeSpares<S(!new)>(e: Env<S>, g: State<S>, i: nat, c: nat, k: nat)
    requires Sound(e, g) && i <= c < |g.clients| && k >= 1
    ensures Sound(e, Before(e, g, i, c, k)) && Spared(g, Before(e, g, i, c, k), c)
    decreases c - i
  {
    if i == c {
    } else {
      var b := Burst(e, g, i, k);
      BurstOthers(e, g, i, k, c);
      BeforeSpares(e, b, i + 1, c, k);
      SparedTwice(g, b, Before(e, g, i, c, k), c);
    }
  }

  /** A client that is ready before its turn takes up a message. */
  lemma {:induction false} ReadyArrives<S(!new)>(e: Env<S>, g: State<S>, i: nat, k: nat, d: nat)
    requires Going(e, g) && Ready(g, d) && i <= d && k >= 2
    ensures Arrivals(MainFrom(e, g, i, k).log) > Arrivals(g.log)
  {
    var m := Before(e, g, i, d, k);
    TurnsBefore(e, g, i, d, k);
    BeforeSpares(e, g, i, d, k);
    SparedHooked(g, m, d);
    BurstArrives(e, m, d, k);
    TurnArrivals(e, m, d, k);
  }

  ghost predicate SomeReady<S>(g: State<S>) {
    exists d: nat :: Ready(g, d)
  }

  /** Either someone ready has its turn still to come, or it is ready at the end. */
  lemma {:induction false} ReadyRemains<S(!new)>(e: Env<S>, g: State<S>, i: nat, k: nat, d: nat)
    requires Going(e, g) && Ready(g, d) && i <= |g.clients| && k >= 2
    ensures Arrivals(MainFrom(e, g, i, k).log) > Arrivals(g.log) || SomeReady(MainFrom(e, g, i, k))
  {
    if i <= d {
      ReadyArrives(e, g, i, k, d);
    } else {
      EarlierKept(e, g, i, k, d);
      SparedHooked(g, MainFrom(e, g, i, k), d);
    }
  }

  /** The turn of a hooked client and of those behind it. */
  lemma {:induction false} TurnOfHooked<S(!new)>(e: Env<S>, g: State<S>, c: nat, k: nat) returns (r: State<S>)
    requires Going(e, g) && Hooked(g, c) && k >= 4
    ensures r == MainFrom(e, g, c, k) && Going(e, r) && Hooked(r, c)
    ensures Arrivals(r.log) > Arrivals(g.log) || SomeReady(r)
  {
    r := MainFrom(e, g, c, k);
    var h := Burst(e, g, c, k);
    BurstHooked(e, g, c, k);
    BurstArrives(e, g, c, k);
    TurnArrivals(e, g, c, k);
    MainIs(e, g, c, k);
    EarlierKept(e, h, c + 1, k, c);
    SparedHooked(h, r, c);
    if Arrivals(h.log) == Arrivals(g.log) {
      var d := c;
      if Blocked(h, c) {
        d := BlockedByReady(e, h, c);
      }
      ReadyRemains(e, h, c + 1, k, d);
    }
  }

  lemma {:induction false} MainHooked<S(!new)>(e: Env<S>, g: State<S>, c: nat, k: nat) returns (h: State<S>)
    requires Going(e, g) && Hooked(g, c) && k >= 4
    ensures h == MainTask(e, g, k) && Going(e, h) && Hooked(h, c)
    ensures Arrivals(h.log) > Arrivals(g.log) || SomeReady(h)
  {
    var m := Before(e, g, 0, c, k);
    TurnsBefore(e, g, 0, c, k);
    BeforeSpares(e, g, 0, c, k);
    SparedHooked(g, m, c);
    h := TurnOfHooked(e, m, c, k);
  }

  /** Two main tasks in a row with a hooked client: a message is taken up. */
  lemma {:induction false} TwoMainTasks<S(!new)>(e: Env<S>, g: State<S>, c: nat, k: nat) returns (h: State<S>)
    requires Going(e, g) && Hooked(g, c) && k >= 4
    ensures h == MainTask(e, MainTask(e, g, k), k) && Going(e, h) && Hooked(h, c)
    ensures Arrivals(h.log) > Arrivals(g.log)
  {
    var m := MainHooked(e, g, c, k);
    h := MainHooked(e, m, c, k);
    MainArrivals(e, g, 0, k);
    MainArrivals(e, m, 0, k);
    if d :| Ready(m, d) {
      ReadyArrives(e, m, 0, k, d);
    }
  }

  lemma {:induction false} TwoMore<S>(e: Env<S>, g: State<S>, n: nat, k: nat)
    requires WF(g) && n >= 2 && k >= 1
    ensures MainTasks(e, g, n, k) == MainTasks(e, MainTask(e, MainTask(e, g, k), k), n - 2, k)
  {
    assert MainTasks(e, g, n, k) == MainTasks(e, MainTask(e, g, k), n - 1, k);
  }

  /** In `2 * n` main tasks at least `n` messages are taken up. */
  lemma {:induction false} HookedForEver<S(!new)>(e: Env<S>, g: State<S>, c: nat, n: nat, k: nat)
    requires Going(e, g) && Hooked(g, c) && k >= 4
    ensures Arrivals(MainTasks(e, g, 2 * n, k).log) >= Arrivals(g.log) + n
    decreases n
  {
    if n == 0 {
    } else {
      var h := TwoMainTasks(e, g, c, k);
      TwoMore(e, g, 2 * n, k);
      HookedForEver(e, h, c, n - 1, k);
    }
  }

  // ---------------------------------------------------------------- one such client among others

  /** A hooked client whose module leaves the size alone stays hooked, whatever the other clients do. */
  lemma {:induction false} TaskKeepsHooked<S(!new)>(e: Env<S>, g: State<S>, c: nat, k: nat) returns (h: State<S>)
    requires Sound(e, g) && Leaves(e, g, c) && Hooked(g, c) && k >= 1
    ensures h == MainTask(e, g, k) && Sound(e, h) && Leaves(e, h, c) && Hooked(h, c)
  {
    h := MainTask(e, g, k);
    var m := Before(e, g, 0, c, k);
    TurnsBefore(e, g, 0, c, k);
    BeforeSpares(e, g, 0, c, k);
    SparedHooked(g, m, c);
    var b := Burst(e, m, c, k);
    BurstHooked(e, m, c, k);
    MainIs(e, m, c, k);
    EarlierKept(e, b, c + 1, k, c);
    SparedHooked(b, h, c);
  }

  lemma {:induction false} TasksKeepHooked<S(!new)>(e: Env<S>, g: State<S>, c: nat, n: nat, k: nat)
      returns (h: State<S>)
    requires Sound(e, g) && Leaves(e, g, c) && Hooked(g, c) && k >= 1
    ensures h == MainTasks(e, g, n, k) && Sound(e, h) && Leaves(e, h, c) && Hooked(h, c)
    decreases n
  {
    if n == 0 {
      h := g;
    } else {
      var m := TaskKeepsHooked(e, g, c, k);
      h := TasksKeepHooked(e, m, c, n - 1, k);
    }
  }

  /** When it is idle it takes up what it holds in its next turn. */
  lemma {:induction false} IdleArrives<S(!new)>(e: Env<S>, g: State<S>, c: nat, k: nat)
    requires Sound(e, g) && Leaves(e, g, c) && Hooked(g, c) && g.clients[c].state.Idle? && k >= 1
    ensures Arrivals(MainTask(e, g, k).log) > Arrivals(g.log)
  {
    var m := Before(e, g, 0, c, k);
    TurnsBefore(e, g, 0, c, k);
    BeforeSpares(e, g, 0, c, k);
    SparedHooked(g, m, c);
    HookedStep(e, m, c);
    ProcessArrivals(e, m, c);
    BurstArrivals(e, m, c, k);
    TurnArrivals(e, m, c, k);
  }

  lemma {:induction false} TasksSplit<S>(e: Env<S>, g: State<S>, a: nat, b: nat, k: nat)
    requires WF(g) && k >= 1
    ensures MainTasks(e, g, a + b, k) == MainTasks(e, MainTasks(e, g, a, k), b, k)
    decreases a
  {
    if a == 0 {
    } else {
      OneMoreTask(e, g, a, k);
      OneMoreTask(e, g, a + b, k);
      TasksSplit(e, MainTask(e, g, k), a - 1, b, k);
    }
  }

  lemma {:induction false} OneMoreTask<S>(e: Env<S>, g: State<S>, n: nat, k: nat)
    requires WF(g) && n >= 1 && k >= 1
    ensures MainTasks(e, g, n, k) == MainTasks(e, MainTask(e, g, k), n - 1, k)
  {
  }

  /** Without an arrival the gateway would drain, and then the client's next turn would bring one. */
  lemma {:induction false} ArrivesAgain<S(!new)>(e: Env<S>, g: State<S>, c: nat, k: nat) returns (h: State<S>)
    requires Sound(e, g) && Leaves(e, g, c) && Hooked(g, c) && k >= 1
    ensures h == MainTasks(e, g, Work(e, g) + 1, k) && Sound(e, h) && Leaves(e, h, c) && Hooked(h, c)
    ensures Arrivals(h.log) > Arrivals(g.log)
  {
    var n := Work(e, g);
    var m := TasksKeepHooked(e, g, c, n, k);
    TasksArrivals(e, g, n, k);
    h := TaskKeepsHooked(e, m, c, k);
    TasksSplit(e, g, n, 1, k);
    assert MainTasks(e, m, 1, k) == h by { assert MainTasks(e, MainTask(e, m, k), 0, k) == h; }
    MainArrivals(e, m, 0, k);
    if Arrivals(m.log) == Arrivals(g.log) {
      Drains(e, g, n, k);
      IdleArrives(e, m, c, k);
    }
  }

  lemma {:induction false} ArrivesForEver<S(!new)>(e: Env<S>, g: State<S>, c: nat, m: nat, k: nat) returns (tasks: nat)
    requires Sound(e, g) && Leaves(e, g, c) && Hooked(g, c) && k >= 1
    ensures Arrivals(MainTasks(e, g, tasks, k).log) >= Arrivals(g.log) + m
    decreases m
  {
    if m == 0 {
      tasks := 0;
    } else {
      var h := ArrivesAgain(e, g, c, k);
      var more := ArrivesForEver(e, h, c, m - 1, k);
      TasksSplit(e, g, Work(e, g) + 1, more, k);
      tasks := Work(e, g) + 1 + more;
    }
  }

  // ---------------------------------------------------------------- whole runs

  /** In every run, a client a slave of this device has just answered is hooked. */
  lemma {:induction false} AnsweredIsHooked<S(!new)>(e: Env<S>, states: seq<State<S>>, actions: seq<Action>, n: nat,
      c: nat)
    requires IsRun(e, states, actions) && AnswersAll(e) && LeavesSize(e, c) && n < |states|
    requires c < |states[n].clients| && states[n].clients[c].inUse && states[n].clients[c].state.Idle?
    requires Last(states[n].log, c).Some? && Last(states[n].log, c).value.Reply?
    requires Local(states[n].servers, Last(states[n].log, c).value.server)
    ensures Sound(e, states[n]) && Hooked(states[n], c)
  {
    RunLocal(e, states, actions, n);
    RunStale(e, states, actions, n, c);
    InvWF(states[n]);
    HookedReply(states[n].servers, Last(states[n].log, c).value.server);
  }

  /**
   In every run, whatever the other clients and their modules do: once a slave of this device has
   answered client `c`, and the module of `c` has nothing to send any more but leaves the size alone,
   main tasks take up messages without end. The gateway never drains.
   */
  lemma {:induction false} NeverDrains<S(!new)>(e: Env<S>, states: seq<State<S>>, actions: seq<Action>, n: nat, c: nat,
      m: nat, k: nat)
    returns (tasks: nat)
    requires IsRun(e, states, actions) && AnswersAll(e) && LeavesSize(e, c) && n < |states|
        && Leaves(e, states[n], c) && k >= 1
    requires c < |states[n].clients| && states[n].clients[c].inUse && states[n].clients[c].state.Idle?
    requires Last(states[n].log, c).Some? && Last(states[n].log, c).value.Reply?
    requires Local(states[n].servers, Last(states[n].log, c).value.server)
    ensures WF(states[n]) && Arrivals(MainTasks(e, states[n], tasks, k).log) >= Arrivals(states[n].log) + m
  {
    AnsweredIsHooked(e, states, actions, n, c);
    tasks := ArrivesForEver(e, states[n], c, m, k);
  }

  /**
   When all modules are of this kind and have nothing to send, at least one message is taken up in every two
   main tasks.
   */
  lemma {:induction false} EveryTwoTasks<S(!new)>(e: Env<S>, states: seq<State<S>>, actions: seq<Action>, n: nat,
      c: nat, m: nat, k: nat)
    requires IsRun(e, states, actions) && AnswersAll(e) && LeavesSize(e, c) && n < |states|
        && Exhausted(e, states[n]) && k >= 4
    requires c < |states[n].clients| && states[n].clients[c].inUse && states[n].clients[c].state.Idle?
    requires Last(states[n].log, c).Some? && Last(states[n].log, c).value.Reply?
    requires Local(states[n].servers, Last(states[n].log, c).value.server)
    ensures WF(states[n]) && Arrivals(MainTasks(e, states[n], 2 * m, k).log) >= Arrivals(states[n].log) + m
  {
    AnsweredIsHooked(e, states, actions, n, c);
    HookedForEver(e, states[n], c, m, k);
  }

  // ---------------------------------------------------------------- such a run

  /** One message for the slave with identification 1, and nothing after it; a slave that answers with two bytes. */
  function OneMessage(): Env<int> {
    Env((c: nat, n: nat) => if n == 0 then Got(1, [0x10, 0, 0, 0, 1], 5) else Untouched, (n: nat) => Nothing,
        (app: int, h: nat, b: Buffer, n: Size) => SlaveRun(app, b, if n >= 1 then 2 else 0), (c: nat) => 0)
  }

  function Zeros(): Buffer {
    seq(BUFFER, _ => 0)
  }

  /** A slave and a client are added to a gateway with room for one of each. */
  lemma {:induction false} SetUp(e: Env<int>) returns (g0: State<int>, g1: State<int>, g2: State<int>)
    ensures Initial(g0) && Enabled(g0, AddingServer(LocalSlave(0, 0, 0), 1)) && Enabled(g1, AddingClient) && WF(g2)
    ensures g1 == Step(e, g0, AddingServer(LocalSlave(0, 0, 0), 1)) && g2 == Step(e, g1, AddingClient)
    ensures g2 == State([Client(true, Idle, 0, Zeros(), 0, 0, -1)], [Server(true, LocalSlave(0, 0, 0), 1, false)], 0,
        0, 0, [])
  {
    var client, server := Client(false, Idle, 0, Zeros(), 0, 0, -1), Server(true, LocalSlave(0, 0, 0), 1, false);
    g0 := State([client], [Server(false, Transport, 0, false)], 0, 0, 0, []);
    g1 := g0.(servers := [server]);
    g2 := g1.(clients := [client.(inUse := true)]);
    assert FreeServer(g0.servers, 0) == 0 && FreeClient(g1.clients, 0) == 0;
  }

  /** The message arrives and is routed. */
  lemma {:induction false} TakenUp(e: Env<int>, g: State<int>) returns (g3: State<int>, g4: State<int>)
    requires e == OneMessage() && WF(g)
    requires g == State([Client(true, Idle, 0, Zeros(), 0, 0, -1)], [Server(true, LocalSlave(0, 0, 0), 1, false)], 0,
        0, 0, [])
    ensures WF(g3) && g3 == Process(e, g, 0).g && WF(g4) && g4 == Process(e, g3, 0).g && |g4.clients| == 1
    ensures g4.clients[0].inUse && g4.clients[0].state.Sending? && g4.clients[0].indexServer == 0
        && g4.clients[0].size == 5
    ensures g4.servers == [Server(true, LocalSlave(0, 0, 0), 1, false)] && g4.idlePolls == 1
  {
    ProcessWF(e, g, 0);
    g3 := Process(e, g, 0).g;
    assert e.idle(0, 0) == Got(1, [0x10, 0, 0, 0, 1], 5);
    assert g3.clients[0].state.Routing? && g3.clients[0].id == 1 && FindServer(g3.servers, 1, 0) == 0;
    ProcessWF(e, g3, 0);
    g4 := Process(e, g3, 0).g;
  }

  /** It is handed to the slave and answered. */
  lemma {:induction false} Answered(e: Env<int>, g: State<int>) returns (g5: State<int>, g6: State<int>)
    requires e == OneMessage() && WF(g) && |g.clients| == 1 && g.idlePolls == 1
    requires g.clients[0].inUse && g.clients[0].state.Sending? && g.clients[0].indexServer == 0
        && g.clients[0].size == 5
    requires g.servers == [Server(true, LocalSlave(0, 0, 0), 1, false)]
    ensures WF(g5) && g5 == Process(e, g, 0).g && g6 == Process(e, g5, 0).g
    ensures |g6.clients| == 1 && |g6.servers| == 1 && g6.clients[0].inUse && g6.clients[0].state.Idle?
        && g6.idlePolls == 1
    ensures g6.servers[0].inUse && g6.servers[0].id == 1 && g6.servers[0].kind.LocalSlave?
    ensures g6.log != [] && g6.log[|g6.log| - 1].Reply? && g6.log[|g6.log| - 1].client == 0
        && g6.log[|g6.log| - 1].server == 0
  {
    ProcessWF(e, g, 0);
    g5 := Process(e, g, 0).g;
    assert g5.clients[0].state.Waiting? && g5.servers == [Server(true, LocalSlave(0, 0, 5), 1, true)];
    g6 := Process(e, g5, 0).g;
  }

  lemma {:induction false} SixSteps(e: Env<int>) returns (states: seq<State<int>>, actions: seq<Action>)
    requires e == OneMessage()
    ensures IsRun(e, states, actions) && |actions| == 6 && |states[6].clients| == 1 && |states[6].servers| == 1
    ensures var g := states[6]; var cl, sv := g.clients[0], g.servers[0];
            && cl.inUse && cl.state.Idle? && sv.inUse && sv.id == 1 && sv.kind.LocalSlave?
            && g.idlePolls == 1 && g.log != [] && g.log[|g.log| - 1].Reply?
            && g.log[|g.log| - 1].client == 0 && g.log[|g.log| - 1].server == 0
  {
    var g0, g1, g2 := SetUp(e);
    var g3, g4 := TakenUp(e, g2);
    var g5, g6 := Answered(e, g4);
    var a := Processing(0);
    states, actions := [g0, g1, g2, g3, g4, g5, g6], [AddingServer(LocalSlave(0, 0, 0), 1), AddingClient, a, a, a, a];
    forall i | 0 <= i < 6 ensures Enabled(states[i], actions[i]) && states[i + 1] == Step(e, states[i], actions[i]) {
      SixStep(e, states, actions, i);
    }
  }

  lemma {:induction false} SixStep(e: Env<int>, g: seq<State<int>>, a: seq<Action>, i: nat)
    requires |g| == 7 && |a| == 6 && i < 6
    requires Enabled(g[0], a[0]) && g[1] == Step(e, g[0], a[0]) && Enabled(g[1], a[1]) && g[2] == Step(e, g[1], a[1])
    requires Enabled(g[2], a[2]) && g[3] == Step(e, g[2], a[2]) && Enabled(g[3], a[3]) && g[4] == Step(e, g[3], a[3])
    requires Enabled(g[4], a[4]) && g[5] == Step(e, g[4], a[4]) && Enabled(g[5], a[5]) && g[6] == Step(e, g[5], a[5])
    ensures Enabled(g[i], a[i]) && g[i + 1] == Step(e, g[i], a[i])
  {
  }

  /** A run that meets all the premises of `NeverDrains`, with the burst bound of the firmware. */
  lemma {:induction false} SomeRunNeverDrains(m: nat)
    returns (e: Env<int>, states: seq<State<int>>, actions: seq<Action>, tasks: nat)
    ensures IsRun(e, states, actions) && |actions| == 6 && WF(states[6])
    ensures Arrivals(MainTasks(e, states[6], tasks, LIMIT_CALLS).log) >= Arrivals(states[6].log) + m
  {
    e := OneMessage();
    states, actions := SixSteps(e);
    var g := states[6];
    assert FindServer(g.servers, 1, 0) == 0;
    assert Last(g.log, 0) == Some(g.log[|g.log| - 1]);
    tasks := NeverDrains(e, states, actions, 6, 0, m, LIMIT_CALLS);
  }

  // ---------------------------------------------------------------- exactly when it is over

  predicate AllLocal(servers: seq<Server>) {
    forall s :: 0 <= s < |servers| && servers[s].inUse ==> servers[s].kind.LocalSlave?
  }

  /** From now on the module of client `c` reports size 0 at every poll. */
  ghost predicate Reports<S(!new)>(e: Env<S>, g: State<S>, c: nat) {
    forall n :: n >= g.idlePolls ==> e.idle(c, n).Nothing? || (e.idle(c, n).Got? && e.idle(c, n).size == 0)
  }

  /** No module has anything to send, and each either leaves the size alone or reports 0. */
  ghost predicate NothingToSend<S(!new)>(e: Env<S>, g: State<S>) {
    forall c: nat :: Leaves(e, g, c) || Reports(e, g, c)
  }

  /** A client that can do nothing more: its module reports 0, or it is idle and holds nothing. */
  ghost predicate Empty<S(!new)>(e: Env<S>, g: State<S>, c: nat)
    requires c < |g.clients|
  {
    g.clients[c].inUse ==> Reports(e, g, c) || (g.clients[c].state.Idle? && g.clients[c].size == 0)
  }

  ghost predicate NothingHeld<S(!new)>(e: Env<S>, g: State<S>) {
    forall c :: 0 <= c < |g.clients| ==> Empty(e, g, c)
  }

  lemma {:induction false} HeldIsHooked<S>(g: State<S>, c: nat)
    requires LocalInv(g) && AllLocal(g.servers) && c < |g.clients| && g.clients[c].inUse
    requires !g.clients[c].state.Idle? || g.clients[c].size >= 1
    ensures Hooked(g, c)
  {
    assert ClientOk(g, c) && NotEmpty(g.clients[c]);
  }

  /** What the next polls of all modules are is known, and no client holds anything that would count. */
  ghost predicate Silent<S(!new)>(e: Env<S>, g: State<S>) {
    Sound(e, g) && NothingToSend(e, g) && NothingHeld(e, g)
  }

  lemma {:induction false} LaterToo<S(!new)>(e: Env<S>, g: State<S>, h: State<S>)
    requires NothingToSend(e, g) && g.idlePolls <= h.idlePolls
    ensures NothingToSend(e, h) && forall c: nat :: Reports(e, g, c) ==> Reports(e, h, c)
  {
    forall c: nat ensures Leaves(e, h, c) || Reports(e, h, c) {
      assert Leaves(e, g, c) || Reports(e, g, c);
    }
  }

  lemma {:induction false} EmptyStep<S(!new)>(e: Env<S>, g: State<S>, c: nat)
    requires Silent(e, g) && c < |g.clients|
    ensures var h := Process(e, g, c).g; Silent(e, h) && Arrivals(h.log) == Arrivals(g.log)
  {
    var h := Process(e, g, c).g;
    StepServers(e, g, c);
    ProcessArrivals(e, g, c);
    LaterToo(e, g, h);
    assert Empty(e, g, c) && (Leaves(e, g, c) || Reports(e, g, c));
    var polled := e.idle(c, g.idlePolls);
    assert polled.Untouched? || polled.Nothing? || (polled.Got? && polled.size == 0);
    forall d | 0 <= d < |h.clients| ensures Empty(e, h, d) {
      assert Empty(e, g, d);
    }
  }

  lemma {:induction false} EmptyBurst<S(!new)>(e: Env<S>, g: State<S>, c: nat, k: nat)
    requires Silent(e, g) && c < |g.clients| && k >= 1
    ensures var h := Burst(e, g, c, k); Silent(e, h) && Arrivals(h.log) == Arrivals(g.log)
    decreases k
  {
    EmptyStep(e, g, c);
    BurstIs(e, g, c, k);
    var p := Process(e, g, c);
    if p.more && k > 1 {
      EmptyBurst(e, p.g, c, k - 1);
    }
  }

  lemma {:induction false} EmptyMain<S(!new)>(e: Env<S>, g: State<S>, c: nat, k: nat) returns (h: State<S>)
    requires Silent(e, g) && c <= |g.clients| && k >= 1
    ensures h == MainFrom(e, g, c, k) && Silent(e, h) && Arrivals(h.log) == Arrivals(g.log)
    decreases |g.clients| - c
  {
    if c == |g.clients| {
      h := g;
    } else {
      EmptyBurst(e, g, c, k);
      MainIs(e, g, c, k);
      h := EmptyMain(e, Burst(e, g, c, k), c + 1, k);
    }
  }

  lemma {:induction false} EmptyForEver<S(!new)>(e: Env<S>, g: State<S>, n: nat, k: nat)
    requires Silent(e, g) && k >= 1
    ensures Arrivals(MainTasks(e, g, n, k).log) == Arrivals(g.log)
    decreases n
  {
    if n == 0 {
    } else {
      var h := EmptyMain(e, g, 0, k);
      OneMoreTask(e, g, n, k);
      EmptyForEver(e, h, n - 1, k);
    }
  }

  /**
   The exact condition, for a gateway whose servers are all slaves of this device, at any moment of any run,
   with any mixture of modules that have nothing to send: no message is taken up from then on if and
   only if every client in use whose module does not report 0 is idle with size 0.
   */
  lemma {:induction false} QuietIffNothingHeld<S(!new)>(e: Env<S>, states: seq<State<S>>, actions: seq<Action>, n: nat,
      k: nat)
    requires IsRun(e, states, actions) && AnswersAll(e) && n < |states| && NothingToSend(e, states[n]) && k >= 1
    requires AllLocal(states[n].servers)
    ensures WF(states[n])
    ensures (forall m :: Arrivals(MainTasks(e, states[n], m, k).log) == Arrivals(states[n].log)) <==>
        NothingHeld(e, states[n])
  {
    var g := states[n];
    RunLocal(e, states, actions, n);
    InvWF(g);
    if NothingHeld(e, g) {
      forall m ensures Arrivals(MainTasks(e, g, m, k).log) == Arrivals(g.log) {
        EmptyForEver(e, g, m, k);
      }
    } else {
      var c :| 0 <= c < |g.clients| && !Empty(e, g, c);
      assert Leaves(e, g, c);
      HeldIsHooked(g, c);
      var h := ArrivesAgain(e, g, c, k);
    }
  }

  // ---------------------------------------------------------------- one client

  function Position(state: Phase): nat {
    match state
    case Idle => 0
    case Routing => 1
    case Sending => 2
    case Waiting => 3
  }

  /** A single client that holds a message for a slave of this device. */
  predicate Alone<S>(g: State<S>) {
    && |g.clients| == 1 && Hooked(g, 0)
    && (g.clients[0].state.Idle? || g.clients[0].state.Routing? ==> Route(g.servers, g.clients[0].id) != -1)
  }

  /** Its server is never busy with another client. */
  lemma {:induction false} NeverBlocked<S>(g: State<S>)
    requires Inv(g) && Alone(g) && g.clients[0].state.Sending?
    ensures !g.servers[g.clients[0].indexServer].busy
  {
    assert LinkOk(g, g.clients[0].indexServer);
    BusyHasWaiter(g, g.clients[0].indexServer);
  }

  lemma {:induction false} AloneMoves<S(!new)>(e: Env<S>, g: State<S>)
    requires Going(e, g) && Alone(g)
    ensures var p := Process(e, g, 0);
        p.more && Position(p.g.clients[0].state) == (Position(g.clients[0].state) + 1) % 4
  {
    HookedStep(e, g, 0);
    if g.clients[0].state.Sending? {
      NeverBlocked(g);
    }
  }

  lemma {:induction false} AloneStays<S(!new)>(e: Env<S>, g: State<S>)
    requires Going(e, g) && Alone(g)
    ensures Alone(Process(e, g, 0).g)
  {
    StepServers(e, g, 0);
    HookedStep(e, g, 0);
    SameLocal(g.servers, Process(e, g, 0).g.servers);
    assert e.idle(0, g.idlePolls).Untouched?;
    if g.clients[0].state.Waiting? {
      SlaveStep(e, g, 0);
      HookedReply(g.servers, g.clients[0].indexServer);
    }
  }

  lemma {:induction false} AloneStep<S(!new)>(e: Env<S>, g: State<S>)
    requires Going(e, g) && Alone(g)
    ensures var p := Process(e, g, 0);
            Going(e, p.g) && Alone(p.g) && p.more
                && Position(p.g.clients[0].state) == (Position(g.clients[0].state) + 1) % 4
  {
    StepServers(e, g, 0);
    AloneMoves(e, g);
    AloneStays(e, g);
  }

  /** The position after `k` steps round the four states. */
  function Onward(a: nat, k: nat): nat
    decreases k
  {
    if k == 0 then a else Onward((a + 1) % 4, k - 1)
  }

  lemma {:induction false} OnwardIs(a: nat, k: nat)
    requires a < 4
    ensures Onward(a, k) == (a + k) % 4
    decreases k
  {
    if k == 0 {
    } else {
      OnwardIs((a + 1) % 4, k - 1);
    }
  }

  lemma {:induction false} AloneBurst<S(!new)>(e: Env<S>, g: State<S>, k: nat)
    requires Going(e, g) && Alone(g) && k >= 1
    ensures (Going(e, Burst(e, g, 0, k)) <==> Going(e, g)) && (Alone(Burst(e, g, 0, k)) <==> Alone(g))
    ensures Position(Burst(e, g, 0, k).clients[0].state) == Onward(Position(g.clients[0].state), k)
    decreases k
  {
    AloneStep(e, g);
    if k > 1 {
      AloneBurst(e, Process(e, g, 0).g, k - 1);
    }
  }

  lemma {:induction false} OnlyTurn<S>(e: Env<S>, g: State<S>, k: nat)
    requires WF(g) && |g.clients| == 1 && k >= 1
    ensures MainTask(e, g, k) == Burst(e, g, 0, k)
  {
    assert MainFrom(e, Burst(e, g, 0, k), 1, k) == Burst(e, g, 0, k);
  }

  lemma {:induction false} FiveIsOne(a: nat, k: nat)
    requires a < 4 && k % 4 == 1
    ensures Onward(a, k) == (a + 1) % 4
  {
    OnwardIs(a, k);
  }

  lemma {:induction false} AloneTask<S(!new)>(e: Env<S>, g: State<S>, k: nat)
    requires Going(e, g) && Alone(g) && k % 4 == 1
    ensures (Going(e, MainTask(e, g, k)) <==> Going(e, g)) && (Alone(MainTask(e, g, k)) <==> Alone(g))
    ensures Position(MainTask(e, g, k).clients[0].state) == (Position(g.clients[0].state) + 1) % 4
  {
    OnlyTurn(e, g, k);
    AloneBurst(e, g, k);
    FiveIsOne(Position(g.clients[0].state), k);
  }

  lemma {:induction false} AloneAtRest<S>(g: State<S>)
    requires Inv(g) && Alone(g)
    ensures AtRest(g) <==> Position(g.clients[0].state) == 0
  {
    if g.clients[0].state.Idle? {
      IdleIsAtRest(g);
    }
  }

  lemma {:induction false} AloneTasks<S(!new)>(e: Env<S>, g: State<S>, n: nat, k: nat)
    requires Going(e, g) && Alone(g) && k % 4 == 1
    ensures AtRest(MainTasks(e, g, n, k)) <==> Onward(Position(g.clients[0].state), n) == 0
    decreases n
  {
    if n == 0 {
      AloneAtRest(g);
    } else {
      AloneTask(e, g, k);
      OneMoreTask(e, g, n, k);
      AloneTasks(e, MainTask(e, g, k), n - 1, k);
    }
  }

  /**
   A single client goes once round its four states in four steps, so with bursts of five steps it is
   one state further after each main task: at rest after every fourth one and never in between.
   */
  lemma {:induction false} OneClientRests<S(!new)>(e: Env<S>, g: State<S>, n: nat, k: nat)
    requires Going(e, g) && Alone(g) && k % 4 == 1
    ensures AtRest(MainTasks(e, g, n, k)) <==> (Position(g.clients[0].state) + n) % 4 == 0
  {
    AloneTasks(e, g, n, k);
    OnwardIs(Position(g.clients[0].state), n);
  }
}
