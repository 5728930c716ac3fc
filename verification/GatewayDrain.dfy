/**
 As long as no new message arrives the gateway comes to rest: a measure of what is left to do goes
 down with every main task until all clients are idle and all servers free.
 */
module GatewayDrain {
  import opened Words
  import opened Gateway
  import opened GatewaySafety

  // ---------------------------------------------------------------- arrivals

  /** How many messages have arrived. */
  function Arrivals(log: seq<Event>): nat {
    if log == [] then 0 else Arrivals(log[..|log| - 1]) + if log[|log| - 1].Arrived? then 1 else 0
  }

  /** A step logs an arrival exactly when it takes an idle client in use to a message. */
  lemma {:induction false} ProcessArrivals<S>(e: Env<S>, g: State<S>, c: nat)
    requires WF(g) && c < |g.clients|
    ensures var h := Process(e, g, c).g;
            Arrivals(h.log) == Arrivals(g.log) + if g.clients[c].state.Idle? && !h.clients[c].state.Idle? then 1 else 0
  {
    var h := Process(e, g, c).g;
    if g.clients[c].inUse && g.clients[c].state.Waiting? {
      WaitingArrivals(e, g, c);
    } else if h.log != g.log {
      assert |h.log| == |g.log| + 1 && h.log[..|g.log|] == g.log;
    }
  }

  lemma {:induction false} WaitingArrivals<S>(e: Env<S>, g: State<S>, c: nat)
    requires WF(g) && c < |g.clients| && g.clients[c].state.Waiting?
    ensures Arrivals(WaitingStep(e, g, c).g.log) == Arrivals(g.log)
  {
    var p, h := Poll(e, g, c), WaitingStep(e, g, c).g;
    if p.log != g.log {
      assert p.log[..|g.log|] == g.log;
    }
    if h.log != p.log {
      assert h.log[..|p.log|] == p.log;
    }
  }

  lemma {:induction false} BurstArrivals<S>(e: Env<S>, g: State<S>, c: nat, n: nat)
    requires WF(g) && c < |g.clients| && n >= 1
    ensures Arrivals(g.log) <= Arrivals(Process(e, g, c).g.log) <= Arrivals(Burst(e, g, c, n).log)
    decreases n
  {
    ProcessWF(e, g, c);
    ProcessArrivals(e, g, c);
    var p := Process(e, g, c);
    if p.more && n > 1 {
      BurstArrivals(e, p.g, c, n - 1);
    }
  }

  lemma {:induction false} MainIs<S>(e: Env<S>, g: State<S>, c: nat, k: nat)
    requires WF(g) && c < |g.clients| && k >= 1
    ensures MainFrom(e, g, c, k) == MainFrom(e, Burst(e, g, c, k), c + 1, k)
  {
  }

  lemma {:induction false} MainArrivals<S>(e: Env<S>, g: State<S>, c: nat, k: nat)
    requires WF(g) && c <= |g.clients| && k >= 1
    ensures Arrivals(g.log) <= Arrivals(MainFrom(e, g, c, k).log)
    decreases |g.clients| - c
  {
    if c == |g.clients| {
    } else {
      MainIs(e, g, c, k);
      BurstArrivals(e, g, c, k);
      MainArrivals(e, Burst(e, g, c, k), c + 1, k);
    }
  }

  lemma {:induction false} TurnArrivals<S>(e: Env<S>, g: State<S>, c: nat, k: nat)
    requires WF(g) && c < |g.clients| && k >= 1
    ensures Arrivals(g.log) <= Arrivals(Burst(e, g, c, k).log) <= Arrivals(MainFrom(e, g, c, k).log)
  {
    MainIs(e, g, c, k);
    BurstArrivals(e, g, c, k);
    MainArrivals(e, Burst(e, g, c, k), c + 1, k);
  }

  function MainTasks<S>(e: Env<S>, g: State<S>, n: nat, k: nat): (r: State<S>)
    requires WF(g) && k >= 1
    ensures WF(r) && SameShape(g, r)
    decreases n
  {
    if n == 0 then g else MainTasks(e, MainTask(e, g, k), n - 1, k)
  }

  lemma {:induction false} TasksArrivals<S>(e: Env<S>, g: State<S>, n: nat, k: nat)
    requires WF(g) && k >= 1
    ensures Arrivals(g.log) <= Arrivals(MainTasks(e, g, n, k).log)
    decreases n
  {
    if n == 0 {
    } else {
      MainArrivals(e, g, 0, k);
      TasksArrivals(e, MainTask(e, g, k), n - 1, k);
    }
  }

  // ---------------------------------------------------------------- main tasks keep the invariant

  lemma {:induction false} BurstKeeps<S>(e: Env<S>, g: State<S>, c: nat, n: nat)
    requires Inv(g) && WF(g) && c < |g.clients| && n >= 1
    ensures Inv(Burst(e, g, c, n))
    decreases n
  {
    ProcessKeeps(e, g, c);
    ProcessWF(e, g, c);
    var p := Process(e, g, c);
    if p.more && n > 1 {
      BurstKeeps(e, p.g, c, n - 1);
    }
  }

  lemma {:induction false} MainKeeps<S>(e: Env<S>, g: State<S>, c: nat, k: nat)
    requires Inv(g) && WF(g) && c <= |g.clients| && k >= 1
    ensures Inv(MainFrom(e, g, c, k))
    decreases |g.clients| - c
  {
    if c == |g.clients| {
    } else {
      BurstKeeps(e, g, c, k);
      MainKeeps(e, Burst(e, g, c, k), c + 1, k);
    }
  }

  /** Steps of single clients, one after the other; `None` if one of them is not possible. */
  function Steps<S>(e: Env<S>, g: State<S>, actions: seq<Action>): Option<State<S>>
    decreases |actions|
  {
    if actions == [] then Some(g)
    else if !Enabled(g, actions[0]) then None
    else Steps(e, Step(e, g, actions[0]), actions[1..])
  }

  lemma {:induction false} FirstStep<S>(e: Env<S>, g: State<S>, c: nat, rest: seq<Action>)
    requires WF(g) && c < |g.clients|
    ensures Steps(e, g, [Processing(c)] + rest) == Steps(e, Process(e, g, c).g, rest)
  {
    assert ([Processing(c)] + rest)[1..] == rest;
  }

  /** How many steps the turn of client `c` takes: those of its burst. */
  function BurstLength<S>(e: Env<S>, g: State<S>, c: nat, n: nat): (r: nat)
    requires WF(g) && c < |g.clients| && n >= 1
    ensures 1 <= r <= n
    decreases n
  {
    ProcessWF(e, g, c);
    var p := Process(e, g, c);
    if p.more && n > 1 then 1 + BurstLength(e, p.g, c, n - 1) else 1
  }

  function Times(a: Action, n: nat): (r: seq<Action>)
    ensures |r| == n && forall x :: x in r ==> x == a
  {
    if n == 0 then [] else [a] + Times(a, n - 1)
  }

  /** The steps of the turns from client `c` on. */
  function TurnSteps<S>(e: Env<S>, g: State<S>, c: nat, k: nat): seq<Action>
    requires WF(g) && c <= |g.clients| && k >= 1
    decreases |g.clients| - c
  {
    if c == |g.clients| then []
    else Times(Processing(c), BurstLength(e, g, c, k)) + TurnSteps(e, Burst(e, g, c, k), c + 1, k)
  }

  lemma {:induction false} BurstIsSteps<S>(e: Env<S>, g: State<S>, c: nat, n: nat, rest: seq<Action>)
    requires WF(g) && c < |g.clients| && n >= 1
    ensures Steps(e, g, Times(Processing(c), BurstLength(e, g, c, n)) + rest) == Steps(e, Burst(e, g, c, n), rest)
    decreases n
  {
    ProcessWF(e, g, c);
    var p := Process(e, g, c);
    var more := if p.more && n > 1 then BurstLength(e, p.g, c, n - 1) else 0;
    TimesFirst(Processing(c), more, rest);
    FirstStep(e, g, c, Times(Processing(c), more) + rest);
    if more > 0 {
      BurstIsSteps(e, p.g, c, n - 1, rest);
    } else {
      assert Times(Processing(c), 0) + rest == rest;
    }
  }

  lemma {:induction false} TimesFirst(a: Action, n: nat, rest: seq<Action>)
    ensures Times(a, n + 1) + rest == [a] + (Times(a, n) + rest)
  {
  }

  lemma {:induction false} TurnsAreSteps<S>(e: Env<S>, g: State<S>, c: nat, k: nat)
    requires WF(g) && c <= |g.clients| && k >= 1
    ensures Steps(e, g, TurnSteps(e, g, c, k)) == Some(MainFrom(e, g, c, k))
    decreases |g.clients| - c
  {
    if c == |g.clients| {
    } else {
      BurstIsSteps(e, g, c, k, TurnSteps(e, Burst(e, g, c, k), c + 1, k));
      TurnsAreSteps(e, Burst(e, g, c, k), c + 1, k);
    }
  }

  /** `k` steps for each of `m` clients. */
  function StepLimit(k: nat, m: nat): nat {
    if m == 0 then 0 else k + StepLimit(k, m - 1)
  }

  lemma {:induction false} TurnsBounded<S>(e: Env<S>, g: State<S>, c: nat, k: nat)
    requires WF(g) && c <= |g.clients| && k >= 1
    ensures |TurnSteps(e, g, c, k)| <= StepLimit(k, |g.clients| - c)
    ensures forall a :: a in TurnSteps(e, g, c, k) ==> a.Processing?
    decreases |g.clients| - c
  {
    if c == |g.clients| {
    } else {
      TurnsBounded(e, Burst(e, g, c, k), c + 1, k);
    }
  }

  /** A main task is a run of at most `k` steps for each client: what holds in all runs holds around it. */
  lemma {:induction false} MainTaskIsSteps<S>(e: Env<S>, g: State<S>, k: nat) returns (actions: seq<Action>)
    requires WF(g) && k >= 1
    ensures |actions| <= k * |g.clients| && forall a :: a in actions ==> a.Processing?
    ensures Steps(e, g, actions) == Some(MainTask(e, g, k))
  {
    actions := TurnSteps(e, g, 0, k);
    TurnsBounded(e, g, 0, k);
    TurnsAreSteps(e, g, 0, k);
    StepLimitIs(k, |g.clients|);
  }

  lemma {:induction false} StepLimitIs(k: nat, m: nat)
    ensures StepLimit(k, m) == k * m
  {
    if m == 0 {
    } else {
      StepLimitIs(k, m - 1);
      assert k * m == k + k * (m - 1);
    }
  }

  // ---------------------------------------------------------------- the measure

  /** Steps client `c` has before it at most: `t` is the timeout it would load. */
  function Left(cl: Client, t: nat): nat {
    match cl.state
    case Idle => 0
    case Waiting => cl.timeout + 1
    case Sending => t + 2
    case Routing => t + 3
  }

  function LoadOf<S>(e: Env<S>, c: nat): nat {
    e.timeoutOf(c) / TIME_BASE
  }

  /** Sum over the first `n` clients. */
  function Measure<S>(e: Env<S>, clients: seq<Client>, n: nat): nat
    requires n <= |clients|
  {
    if n == 0 then 0 else Measure(e, clients, n - 1) + Left(clients[n - 1], LoadOf(e, n - 1))
  }

  function Work<S>(e: Env<S>, g: State<S>): nat {
    Measure(e, g.clients, |g.clients|)
  }

  lemma {:induction false} MeasureOfOne<S>(e: Env<S>, a: seq<Client>, b: seq<Client>, n: nat, c: nat)
    requires n <= |a| == |b| && c < |a| && forall d ::
        0 <= d < |a| && d != c ==> Left(b[d], LoadOf(e, d)) == Left(a[d], LoadOf(e, d))
    ensures Measure(e, b, n) - Measure(e, a, n) ==
            if c < n then Left(b[c], LoadOf(e, c)) - Left(a[c], LoadOf(e, c)) else 0
  {
    if n == 0 {
    } else {
      MeasureOfOne(e, a, b, n - 1, c);
    }
  }

  // ---------------------------------------------------------------- one step

  /** What a step of client `c` leaves as it was for the others. */
  predicate OthersSame<S>(g: State<S>, h: State<S>, c: nat) {
    && SameShape(g, h) && c < |g.clients|
    && forall d :: 0 <= d < |g.clients| && d != c ==> h.clients[d] == g.clients[d]
  }

  /** Nothing left for client `c` right now: it is idle, or waits for its turn at a busy server. */
  predicate Stuck<S>(g: State<S>, c: nat)
    requires c < |g.clients|
  {
    g.clients[c].state.Idle? || (g.clients[c].state.Sending? && 0 <= g.clients[c].indexServer < |g.servers|
        && g.servers[g.clients[c].indexServer].busy)
  }

  /** A stuck client stays as it is and its burst ends; any other moves on. */
  lemma {:induction false} ProcessWork<S>(e: Env<S>, g: State<S>, c: nat)
    requires Inv(g) && WF(g) && c < |g.clients| && Arrivals(Process(e, g, c).g.log) == Arrivals(g.log)
    ensures var p := Process(e, g, c); var t := LoadOf(e, c);
            && OthersSame(g, p.g, c)
            && (Stuck(g, c) ==> p.g.clients[c].state == g.clients[c].state && p.g.servers == g.servers && !p.more
                                && p.g.clients[c].indexServer == g.clients[c].indexServer)
            && (!Stuck(g, c) ==> Left(p.g.clients[c], t) < Left(g.clients[c], t))
  {
    assert ClientOk(g, c);
    if g.clients[c].state.Waiting? {
      PollKeeps(e, g, c);
    }
    ProcessArrivals(e, g, c);
  }

  lemma {:induction false} BurstWork<S>(e: Env<S>, g: State<S>, c: nat, n: nat)
    requires Inv(g) && WF(g) && c < |g.clients| && n >= 1 && Arrivals(Burst(e, g, c, n).log) == Arrivals(g.log)
    ensures var h := Burst(e, g, c, n); var t := LoadOf(e, c);
            && OthersSame(g, h, c)
            && (Stuck(g, c) ==> h.clients[c].state == g.clients[c].state && h.servers == g.servers)
            && (Stuck(g, c) ==> Left(h.clients[c], t) == Left(g.clients[c], t))
            && (!Stuck(g, c) ==> Left(h.clients[c], t) < Left(g.clients[c], t))
    decreases n
  {
    BurstArrivals(e, g, c, n);
    ProcessWork(e, g, c);
    ProcessKeeps(e, g, c);
    ProcessWF(e, g, c);
    var p := Process(e, g, c);
    if p.more && n > 1 {
      BurstWork(e, p.g, c, n - 1);
    }
  }

  // ---------------------------------------------------------------- one main task

  /** From client `i` on there is one that moves on when its turn comes. */
  predicate Ripe<S>(g: State<S>, i: nat, j: nat) {
    && i <= j < |g.clients|
    && (g.clients[j].state.Routing? || g.clients[j].state.Waiting?
        || (g.clients[j].state.Sending? && !Stuck(g, j) && forall k :: i <= k < j ==> g.clients[k].state.Idle?))
  }

  ghost predicate SomeRipe<S>(g: State<S>, i: nat) {
    exists j :: Ripe(g, i, j)
  }

  /** The turn of client `i`: less work if it is not stuck, and those that are ripe after it stay so if it is. */
  lemma {:induction false} TurnWork<S>(e: Env<S>, g: State<S>, i: nat, k: nat)
    requires Inv(g) && WF(g) && i < |g.clients| && k >= 1 && Arrivals(Burst(e, g, i, k).log) == Arrivals(g.log)
    ensures Inv(Burst(e, g, i, k))
    ensures var h := Burst(e, g, i, k);
            if Stuck(g, i) then Work(e, h) == Work(e, g) && (SomeRipe(g, i) ==> SomeRipe(h, i + 1))
            else Work(e, h) < Work(e, g)
  {
    var h := Burst(e, g, i, k);
    BurstKeeps(e, g, i, k);
    BurstWork(e, g, i, k);
    MeasureOfOne(e, g.clients, h.clients, |g.clients|, i);
    if j :| Ripe(g, i, j) && Stuck(g, i) {
      assert Ripe(h, i + 1, j);
    }
  }

  /** A turn within a main task in which no message arrives, and what is left of that task. */
  lemma {:induction false} TurnInTask<S>(e: Env<S>, g: State<S>, i: nat, k: nat)
    requires Inv(g) && WF(g) && i < |g.clients| && k >= 1 && Arrivals(MainFrom(e, g, i, k).log) == Arrivals(g.log)
    ensures var h := Burst(e, g, i, k);
            && Inv(h) && MainFrom(e, g, i, k) == MainFrom(e, h, i + 1, k)
                && Arrivals(MainFrom(e, h, i + 1, k).log) == Arrivals(h.log)
            && if Stuck(g, i) then Work(e, h) == Work(e, g) && (SomeRipe(g, i) ==> SomeRipe(h, i + 1))
                else Work(e, h) < Work(e, g)
  {
    MainIs(e, g, i, k);
    TurnArrivals(e, g, i, k);
    TurnWork(e, g, i, k);
  }

  lemma {:induction false} MainWork<S>(e: Env<S>, g: State<S>, i: nat, k: nat) returns (r: State<S>)
    requires Inv(g) && WF(g) && i <= |g.clients| && k >= 1 && Arrivals(MainFrom(e, g, i, k).log) == Arrivals(g.log)
    ensures r == MainFrom(e, g, i, k) && Work(e, r) <= Work(e, g)
    ensures SomeRipe(g, i) ==> Work(e, r) < Work(e, g)
    decreases |g.clients| - i
  {
    if i == |g.clients| {
      r := g;
    } else {
      TurnInTask(e, g, i, k);
      r := MainWork(e, Burst(e, g, i, k), i + 1, k);
    }
  }

  /** If a client is not idle, one is ripe: a busy server has a client that waits for it. */
  lemma {:induction false} SomeoneRipe<S>(g: State<S>, c: nat) returns (j: nat)
    requires Inv(g) && WF(g) && c < |g.clients| && !g.clients[c].state.Idle?
    ensures Ripe(g, 0, j)
  {
    if d :| 0 <= d < |g.clients| && (g.clients[d].state.Routing? || g.clients[d].state.Waiting?) {
      j := d;
    } else {
      j := FirstActive(g, c);
      assert ClientOk(g, j);
      var s := g.clients[j].indexServer;
      assert LinkOk(g, s);
      BusyHasWaiter(g, s);
    }
  }

  lemma {:induction false} FirstActive<S>(g: State<S>, c: nat) returns (j: nat)
    requires c < |g.clients| && !g.clients[c].state.Idle?
    ensures j <= c && !g.clients[j].state.Idle? && forall k :: 0 <= k < j ==> g.clients[k].state.Idle?
  {
    j := 0;
    while g.clients[j].state.Idle?
      invariant j <= c && forall k :: 0 <= k < j ==> g.clients[k].state.Idle?
      decreases c - j
    {
      j := j + 1;
    }
  }

  /** While a client is not idle, a main task in which no message arrives leaves strictly less to do. */
  lemma {:induction false} MainTaskWorks<S>(e: Env<S>, g: State<S>, c: nat, k: nat)
    requires Inv(g) && WF(g) && c < |g.clients| && !g.clients[c].state.Idle? && k >= 1
    requires Arrivals(MainTask(e, g, k).log) == Arrivals(g.log)
    ensures Work(e, MainTask(e, g, k)) < Work(e, g)
  {
    var r := MainWork(e, g, 0, k);
    var j := SomeoneRipe(g, c);
  }

  predicate AtRest<S>(g: State<S>) {
    (forall c :: 0 <= c < |g.clients| ==> g.clients[c].state.Idle?)
        && (forall s :: 0 <= s < |g.servers| ==> !g.servers[s].busy)
  }

  lemma {:induction false} IdleIsAtRest<S>(g: State<S>)
    requires Inv(g) && forall c :: 0 <= c < |g.clients| ==> g.clients[c].state.Idle?
    ensures AtRest(g)
  {
    forall s | 0 <= s < |g.servers| ensures !g.servers[s].busy {
      assert LinkOk(g, s);
      BusyHasWaiter(g, s);
    }
  }

  lemma {:induction false} NoWorkIsIdle<S>(e: Env<S>, clients: seq<Client>, n: nat, c: nat)
    requires n <= |clients| && c < n
    ensures Left(clients[c], LoadOf(e, c)) <= Measure(e, clients, n)
  {
    if c == n - 1 {
    } else {
      NoWorkIsIdle(e, clients, n - 1, c);
    }
  }

  lemma {:induction false} RestIsNoWork<S>(e: Env<S>, g: State<S>, n: nat)
    requires n <= |g.clients| && forall c :: 0 <= c < |g.clients| ==> g.clients[c].state.Idle?
    ensures Measure(e, g.clients, n) == 0
  {
    if n == 0 {
    } else {
      RestIsNoWork(e, g, n - 1);
    }
  }

  /** If no message arrives in `n` main tasks, none arrives in the first and none in the others. */
  lemma {:induction false} FirstTask<S>(e: Env<S>, g: State<S>, n: nat, k: nat)
    requires WF(g) && k >= 1 && n > 0 && Arrivals(MainTasks(e, g, n, k).log) == Arrivals(g.log)
    ensures Arrivals(MainTask(e, g, k).log) == Arrivals(g.log)
    ensures Arrivals(MainTasks(e, MainTask(e, g, k), n - 1, k).log) == Arrivals(g.log)
    ensures MainTasks(e, g, n, k) == MainTasks(e, MainTask(e, g, k), n - 1, k)
  {
    MainArrivals(e, g, 0, k);
    TasksArrivals(e, MainTask(e, g, k), n - 1, k);
  }

  /** Without work left the gateway is at rest. */
  lemma {:induction false} NoWorkIsAtRest<S>(e: Env<S>, g: State<S>)
    requires Inv(g) && Work(e, g) == 0
    ensures AtRest(g)
  {
    forall c | 0 <= c < |g.clients| ensures g.clients[c].state.Idle? {
      NoWorkIsIdle(e, g.clients, |g.clients|, c);
    }
    IdleIsAtRest(g);
  }

  /** A main task in which no message arrives leaves at least one step less, if there are any. */
  lemma {:induction false} WorkShrinks<S>(e: Env<S>, g: State<S>, k: nat)
    requires Inv(g) && WF(g) && k >= 1 && Arrivals(MainTask(e, g, k).log) == Arrivals(g.log)
    ensures Inv(MainTask(e, g, k)) && (Work(e, MainTask(e, g, k)) < Work(e, g) || Work(e, MainTask(e, g, k)) == 0)
  {
    MainKeeps(e, g, 0, k);
    if c :| 0 <= c < |g.clients| && !g.clients[c].state.Idle? {
      MainTaskWorks(e, g, c, k);
    } else {
      RestIsNoWork(e, g, |g.clients|);
      var r := MainWork(e, g, 0, k);
    }
  }

  /**
   The gateway drains: after as many main tasks as there is work it is at rest, if no message has
   arrived until then.
   */
  lemma {:induction false} Drains<S>(e: Env<S>, g: State<S>, n: nat, k: nat)
    requires Inv(g) && WF(g) && k >= 1 && n >= Work(e, g) && Arrivals(MainTasks(e, g, n, k).log) == Arrivals(g.log)
    ensures AtRest(MainTasks(e, g, n, k))
    decreases n
  {
    if n == 0 {
      NoWorkIsAtRest(e, g);
    } else {
      var h := MainTask(e, g, k);
      FirstTask(e, g, n, k);
      WorkShrinks(e, g, k);
      Drains(e, h, n - 1, k);
    }
  }

  /** No state has more work than its number of clients times the longest timeout plus three. */
  lemma {:induction false} WorkBound<S>(e: Env<S>, clients: seq<Client>, n: nat, t: nat)
    requires n <= |clients|
    requires forall c :: 0 <= c < n ==> LoadOf(e, c) <= t && clients[c].timeout <= t
    ensures Measure(e, clients, n) <= n * (t + 3)
  {
    if n == 0 {
    } else {
      WorkBound(e, clients, n - 1, t);
      assert n * (t + 3) == (n - 1) * (t + 3) + (t + 3);
    }
  }

  // ---------------------------------------------------------------- modules that report size 0

  /** Clients' modules report that nothing was received, as the gateway's documentation asks them to. */
  ghost predicate ReportsNothing<S(!new)>(e: Env<S>) {
    forall c, n :: e.idle(c, n).Nothing? || (e.idle(c, n).Got? && e.idle(c, n).size == 0)
  }

  /** Then no message arrives, from any state on, and the gateway drains. */
  lemma {:induction false} SilentClients<S(!new)>(e: Env<S>, g: State<S>, n: nat, k: nat)
    requires WF(g) && ReportsNothing(e) && k >= 1
    ensures Arrivals(MainTasks(e, g, n, k).log) == Arrivals(g.log)
    decreases n
  {
    if n == 0 {
    } else {
      SilentMain(e, g, 0, k);
      SilentClients(e, MainTask(e, g, k), n - 1, k);
    }
  }

  lemma {:induction false} SilentMain<S(!new)>(e: Env<S>, g: State<S>, c: nat, k: nat)
    requires WF(g) && ReportsNothing(e) && c <= |g.clients| && k >= 1
    ensures Arrivals(MainFrom(e, g, c, k).log) == Arrivals(g.log)
    decreases |g.clients| - c
  {
    if c == |g.clients| {
    } else {
      SilentBurst(e, g, c, k);
      SilentMain(e, Burst(e, g, c, k), c + 1, k);
    }
  }

  lemma {:induction false} SilentBurst<S(!new)>(e: Env<S>, g: State<S>, c: nat, n: nat)
    requires WF(g) && ReportsNothing(e) && c < |g.clients| && n >= 1
    ensures Arrivals(Burst(e, g, c, n).log) == Arrivals(g.log)
    decreases n
  {
    ProcessWF(e, g, c);
    ProcessArrivals(e, g, c);
    var p := Process(e, g, c);
    if g.clients[c].inUse && g.clients[c].state.Idle? {
      assert e.idle(c, g.idlePolls).Nothing? || (e.idle(c, g.idlePolls).Got? && e.idle(c, g.idlePolls).size == 0);
    }
    if p.more && n > 1 {
      SilentBurst(e, p.g, c, n - 1);
    }
  }

  /** With such modules the gateway drains in any case. */
  lemma {:induction false} DrainsSilently<S(!new)>(e: Env<S>, g: State<S>, n: nat, k: nat)
    requires Inv(g) && WF(g) && k >= 1 && ReportsNothing(e) && n >= Work(e, g)
    ensures AtRest(MainTasks(e, g, n, k))
  {
    SilentClients(e, g, n, k);
    Drains(e, g, n, k);
  }
}
