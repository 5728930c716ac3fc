/** The gateway object: arrays of client and server records, updated in place by the client state functions. */
module GatewayPort {
  import opened Words
  import opened Gateway
  import opened GatewaySafety

  class GatewayObj<S(!new)> {
    const env: Env<S>
    const client: array<Client>
    const server: array<Server>
    /** Data of the application behind the slaves of this device. */
    var app: S
    /** Number of `recvMsg` calls made so far to clients and to transport servers. */
    var idlePolls: nat
    var replyPolls: nat
    ghost var log: seq<Event>

    ghost function StateOf(): State<S>
      reads this, client, server
    {
      State(client[..], server[..], app, idlePolls, replyPolls, log)
    }

    ghost predicate Valid()
      reads this, client, server
    {
      WF(StateOf())
    }

    /** `ciaaModbus_gatewayInit` and `ciaaModbus_gatewayOpen`, for any number of clients and servers. */
    constructor (env: Env<S>, clients: nat, servers: nat, app: S)
      ensures this.env == env && client.Length == clients && server.Length == servers && this.app == app
      ensures fresh(client) && fresh(server)
      ensures Initial(StateOf()) && Inv(StateOf()) && Valid()
    {
      this.env := env;
      this.app := app;
      idlePolls, replyPolls := 0, 0;
      log := [];
      client := new Client[clients](_ => Client(false, Idle, 0, seq(BUFFER, _ => 0), 0, 0, -1));
      server := new Server[servers](_ => Server(false, Transport, 0, false));
      new;
      InitialInv(StateOf());
    }

    /** What a `recvMsg` stores through the pointers it is given. */
    method Receive(c: nat, r: Recv)
      requires c < client.Length
      modifies client
      ensures client[..] == old(client[..])[c := Store(old(client[c]), r)]
    {
      match r
      case Untouched =>
      case Nothing => client[c] := client[c].(size := 0);
      case Got(id, stored, size) => client[c] := client[c].(id := id, buffer := Put(client[c].buffer, stored),
          size := size);
    }

    method ClientStateIdle(c: nat) returns (ret: bool)
      requires c < client.Length
      modifies this`idlePolls, this`log, client
      ensures var p := IdleStep(env, old(StateOf()), c); StateOf() == p.g && ret == p.more
    {
      ret := false;
      Receive(c, env.idle(c, idlePolls));
      idlePolls := idlePolls + 1;
      if client[c].size >= 1 {
        client[c] := client[c].(state := Routing);
        log := log + [Arrived(c, client[c].id, Take(client[c].buffer, client[c].size))];
        ret := true;
      }
    }

    /** One of the two search loops of the routing state. */
    method Search(id: uint8) returns (s: int)
      ensures s == FindServer(server[..], id, 0)
    {
      s := -1;
      var i := 0;
      while i < server.Length && s == -1
        invariant 0 <= i <= server.Length
        invariant s == -1 ==> FindServer(server[..], id, 0) == FindServer(server[..], id, i)
        invariant s != -1 ==> FindServer(server[..], id, 0) == s
      {
        if server[i].inUse && server[i].id == id {
          s := i;
        }
        i := i + 1;
      }
    }

    method ClientStateRouting(c: nat) returns (ret: bool)
      requires c < client.Length
      modifies this`log, client
      ensures var p := RoutingStep(old(StateOf()), c); StateOf() == p.g && ret == p.more
    {
      var s := Search(client[c].id);
      if s == -1 {
        s := Search(0);
      }
      ret := s != -1;
      if ret {
        client[c] := client[c].(indexServer := s);
        client[c] := client[c].(state := Sending);
      } else {
        client[c] := client[c].(state := Idle);
        log := log + [Dropped(c)];
      }
    }

    method ClientStateSendMsgToServer(c: nat) returns (ret: bool)
      requires c < client.Length && 0 <= client[c].indexServer < server.Length
      modifies this`log, client, server
      ensures var p := SendingStep(env, old(StateOf()), c); StateOf() == p.g && ret == p.more
    {
      ret := false;
      var s := client[c].indexServer;
      if !server[s].busy {
        server[s] := server[s].(busy := true);
        if server[s].kind.LocalSlave? {
          server[s] := server[s].(kind := LocalSlave(server[s].kind.handler, c, client[c].size));
        }
        log := log + [Request(s, c, client[c].id, Take(client[c].buffer, client[c].size))];
        client[c] := client[c].(timeout := env.timeoutOf(c) / TIME_BASE);
        client[c] := client[c].(state := Waiting);
        ret := true;
      }
    }

    /** Task and `recvMsg` of the server; a slave works on the buffer of the client it points to. */
    method PollServer(c: nat)
      requires c < client.Length && 0 <= client[c].indexServer < server.Length
      requires server[client[c].indexServer].kind.LocalSlave? ==>
          server[client[c].indexServer].kind.owner < client.Length
      modifies this`app, this`replyPolls, this`log, client, server
      ensures StateOf() == Poll(env, old(StateOf()), c)
    {
      var s := client[c].indexServer;
      match server[s].kind
      case Transport =>
        Receive(c, env.reply(replyPolls));
        replyPolls := replyPolls + 1;
      case LocalSlave(h, owner, pending) =>
        var b := client[owner].buffer;
        var run := env.slave(app, h, b, pending);
        app := run.app;
        client[owner] := client[owner].(buffer := run.buf);
        server[s] := server[s].(kind := LocalSlave(h, owner, run.size));
        log := log + [Ran(s, c, Take(b, pending), Take(run.buf, run.size))];
        Receive(c, Got(server[s].id, Take(run.buf, run.size), run.size));
    }

    method ClientStateWaitingServerResponse(c: nat) returns (ret: bool)
      requires c < client.Length && 0 <= client[c].indexServer < server.Length
      requires server[client[c].indexServer].kind.LocalSlave? ==>
          server[client[c].indexServer].kind.owner < client.Length
      modifies this`app, this`replyPolls, this`log, client, server
      ensures var p := WaitingStep(env, old(StateOf()), c); StateOf() == p.g && ret == p.more
    {
      PollServer(c);
      var s := client[c].indexServer;
      if client[c].size >= 2 {
        log := log + [Reply(s, c, Take(client[c].buffer, client[c].size))];
        server[s] := server[s].(busy := false);
        client[c] := client[c].(state := Idle);
        ret := true;
      } else {
        if 0 != client[c].timeout {
          client[c] := client[c].(timeout := client[c].timeout - 1);
        } else {
          server[s] := server[s].(busy := false);
          client[c] := client[c].(state := Idle);
          log := log + [Timeout(s, c)];
        }
        ret := false;
      }
    }

    method ClientProcess(c: nat) returns (ret: bool)
      requires Valid() && c < client.Length
      modifies this`app, this`idlePolls, this`replyPolls, this`log, client, server
      ensures Valid()
      ensures var p := Process(env, old(StateOf()), c); StateOf() == p.g && ret == p.more
    {
      ProcessWF(env, StateOf(), c);
      assert ClientWF(StateOf().clients[c], StateOf().servers, client.Length);
      ret := false;
      if client[c].inUse {
        match client[c].state
        case Idle => ret := ClientStateIdle(c);
        case Routing => ret := ClientStateRouting(c);
        case Sending => ret := ClientStateSendMsgToServer(c);
        case Waiting => ret := ClientStateWaitingServerResponse(c);
      }
    }

    /** The do-while loop of the main task for one client. */
    method ProcessBurst(c: nat)
      requires Valid() && c < client.Length
      modifies this`app, this`idlePolls, this`replyPolls, this`log, client, server
      ensures Valid() && StateOf() == Burst(env, old(StateOf()), c, LIMIT_CALLS)
    {
      ghost var g := StateOf();
      var ret := ClientProcess(c);
      var countCall := 1;
      while ret && countCall < LIMIT_CALLS
        invariant Valid() && 1 <= countCall <= LIMIT_CALLS
        invariant Burst(env, g, c, LIMIT_CALLS) ==
                  if ret && countCall < LIMIT_CALLS then Burst(env, StateOf(), c, LIMIT_CALLS - countCall)
                      else StateOf()
        decreases LIMIT_CALLS - countCall
      {
        ret := ClientProcess(c);
        countCall := countCall + 1;
      }
    }

    /** `ciaaModbus_gatewayMainTask`. */
    method MainTask()
      requires Valid()
      modifies this`app, this`idlePolls, this`replyPolls, this`log, client, server
      ensures Valid() && StateOf() == Gateway.MainTask(env, old(StateOf()), LIMIT_CALLS)
    {
      ghost var g := StateOf();
      for c := 0 to client.Length
        invariant Valid() && Gateway.MainTask(env, g, LIMIT_CALLS) == MainFrom(env, StateOf(), c, LIMIT_CALLS)
      {
        ProcessBurst(c);
      }
    }

    // -------------------------------------------------------------- additions

    method AddServerRecord(kind: Kind, id: uint8) returns (ret: int)
      modifies server
      ensures StateOf() == AddServer(old(StateOf()), kind, id)
      ensures ret == if exists s :: 0 <= s < server.Length && !old(server[s].inUse) then 0 else -1
      ensures if ret == 0 then ServerTaken(old(server[..]), server[..], Server(true, kind, id, false))
              else server[..] == old(server[..])
    {
      ret := -1;
      var i := 0;
      while i < server.Length && ret != 0
        invariant 0 <= i <= server.Length && (ret == -1 || ret == 0)
        invariant ret == -1 ==>
            server[..] == old(server[..]) && FreeServer(old(server[..]), 0) == FreeServer(old(server[..]), i)
                                && forall j :: 0 <= j < i ==> old(server[j].inUse)
        invariant ret == 0 ==> 0 < i && FreeServer(old(server[..]), 0) == i - 1 && !old(server[i - 1].inUse)
                               && server[..] == old(server[..])[i - 1 := Server(true, kind, id, false)]
      {
        if !server[i].inUse {
          server[i] := Server(true, kind, id, false);
          ret := 0;
        }
        i := i + 1;
      }
    }

    method AddClientRecord() returns (ret: int)
      modifies client
      ensures StateOf() == AddClient(old(StateOf()))
      ensures ret == if exists c :: 0 <= c < client.Length && !old(client[c].inUse) then 0 else -1
      ensures if ret == 0 then ClientTaken(old(client[..]), client[..]) else client[..] == old(client[..])
    {
      ret := -1;
      var i := 0;
      while i < client.Length && ret != 0
        invariant 0 <= i <= client.Length && (ret == -1 || ret == 0)
        invariant ret == -1 ==>
            client[..] == old(client[..]) && FreeClient(old(client[..]), 0) == FreeClient(old(client[..]), i)
                                && forall j :: 0 <= j < i ==> old(client[j].inUse)
        invariant ret == 0 ==> 0 < i && FreeClient(old(client[..]), 0) == i - 1 && !old(client[i - 1].inUse)
                               && client[..] == old(client[..])[i - 1 := old(client[i - 1]).(inUse := true)]
      {
        if !client[i].inUse {
          client[i] := client[i].(inUse := true);
          ret := 0;
        }
        i := i + 1;
      }
    }

    /** `ciaaModbus_gatewayAddSlave`; a negative handle is refused. */
    method AddSlave(hModbusSlave: int, id: uint8) returns (ret: int)
      requires Valid() && Inv(StateOf())
      modifies server
      ensures Valid() && Inv(StateOf())
      ensures StateOf() == if hModbusSlave < 0 then old(StateOf())
                           else AddServer(old(StateOf()), LocalSlave(hModbusSlave, 0, 0), id)
      ensures ret == if hModbusSlave >= 0 && exists s :: 0 <= s < server.Length && !old(server[s].inUse) then 0 else -1
      ensures if ret == 0
              then ServerTaken(old(server[..]), server[..], Server(true, LocalSlave(hModbusSlave, 0, 0), id, false))
              else server[..] == old(server[..])
    {
      ret := -1;
      if 0 <= hModbusSlave {
        AddServerKeeps(StateOf(), LocalSlave(hModbusSlave, 0, 0), id);
        ret := AddServerRecord(LocalSlave(hModbusSlave, 0, 0), id);
        InvWF(StateOf());
      }
    }

    /** `ciaaModbus_gatewayAddMaster`. */
    method AddMaster(hModbusMaster: int) returns (ret: int)
      requires Valid() && Inv(StateOf())
      modifies client
      ensures Valid() && Inv(StateOf())
      ensures StateOf() == if hModbusMaster < 0 then old(StateOf()) else AddClient(old(StateOf()))
      ensures ret == if hModbusMaster >= 0 && exists c :: 0 <= c < client.Length && !old(client[c].inUse) then 0 else -1
      ensures if ret == 0 then ClientTaken(old(client[..]), client[..]) else client[..] == old(client[..])
    {
      ret := -1;
      if 0 <= hModbusMaster {
        AddClientKeeps(StateOf());
        ret := AddClientRecord();
        InvWF(StateOf());
      }
    }

    /** `ciaaModbus_gatewayAddTransport`: a slave transport (0) is a client, a master transport (1) a server. */
    method AddTransport(hModbusTransport: int, transportType: int) returns (ret: int)
      requires Valid() && Inv(StateOf())
      modifies client, server
      ensures Valid() && Inv(StateOf())
      ensures StateOf() == if hModbusTransport < 0 then old(StateOf())
                           else if transportType == 0 then AddClient(old(StateOf()))
                           else if transportType == 1 then AddServer(old(StateOf()), Transport, 0)
                           else old(StateOf())
      ensures hModbusTransport < 0 || (transportType != 0 && transportType != 1) ==> ret == -1
      ensures hModbusTransport >= 0 && transportType == 0 ==>
                ret == if exists c :: 0 <= c < client.Length && !old(client[c].inUse) then 0 else -1
      ensures hModbusTransport >= 0 && transportType == 1 ==>
                ret == if exists s :: 0 <= s < server.Length && !old(server[s].inUse) then 0 else -1
      ensures if ret == 0 && transportType == 0 then ClientTaken(old(client[..]), client[..])
              else client[..] == old(client[..])
      ensures if ret == 0 && transportType == 1
              then ServerTaken(old(server[..]), server[..], Server(true, Transport, 0, false))
              else server[..] == old(server[..])
    {
      ret := -1;
      if 0 <= hModbusTransport {
        if transportType == 0 {
          AddClientKeeps(StateOf());
          ret := AddClientRecord();
          InvWF(StateOf());
        } else if transportType == 1 {
          AddServerKeeps(StateOf(), Transport, 0);
          ret := AddServerRecord(Transport, 0);
          InvWF(StateOf());
        }
      }
    }
  }
}
