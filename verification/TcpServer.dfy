/** TcpServer and TcpConnection as objects, and the parts of their event loop that they use. */
module TcpServers {
  import opened PollerMachine
  import opened Pollers
  import Machine = TcpMachine
  import Safety = TcpSafety
  import opened ConnectionNames

  /** The event loop as connections see it: the calls handed to its poller, and its queued connectDestroyed calls. */
  class Loop {
    ghost var ops: seq<Op>
    var pendingFunctors: seq<TcpConnection>

    constructor ()
      ensures ops == [] && pendingFunctors == []
    {
      ops, pendingFunctors := [], [];
    }

    method UpdateChannel(channel: Channel)
      modifies this`ops
      ensures ops == old(ops) + [Update(channel.Value(), channel.events)]
    {
      ops := ops + [Update(channel.Value(), channel.events)];
    }

    method RemoveChannel(channel: Channel)
      modifies this`ops
      ensures ops == old(ops) + [Remove(channel.Value())]
    {
      ops := ops + [Remove(channel.Value())];
    }

    method QueueInLoop(conn: TcpConnection)
      modifies this`pendingFunctors
      ensures pendingFunctors == old(pendingFunctors) + [conn]
    {
      pendingFunctors := pendingFunctors + [conn];
    }
  }

  lemma ReplaceLast<T>(s: seq<T>, x: T, y: T)
    ensures (s + [x])[|s| := y] == s + [y]
  {
  }

  class TcpConnection {
    const name: string
    const channel: Channel
    var state: Machine.Phase
    // How often the connection callback has reported it up and down, and it has been erased and removed.
    ghost var ups: nat
    ghost var downs: nat
    ghost var erased: nat
    ghost var removed: nat
    ghost const id: nat

    ghost function Model(): Machine.Conn
      reads this, channel
    {
      Machine.Conn(name, channel.fd, state, channel.events, ups, downs, erased, removed)
    }

    constructor (name: string, sockfd: nat, ghost id: nat)
      ensures this.id == channel.id == id && fresh(channel)
      ensures Model() == Machine.Conn(name, sockfd, Machine.Connecting, NONE_EVENT, 0, 0, 0, 0)
    {
      this.name, this.id := name, id;
      channel := new Channel(sockfd, id);
      state := Machine.Connecting;
      ups, downs, erased, removed := 0, 0, 0, 0;
    }

    method ConnectEstablished(loop: Loop)
      requires state == Machine.Connecting
      modifies this, channel`events, loop`ops
      ensures var c := old(Model());
              && Model() == c.(phase := Machine.Connected, events := c.events | READ_EVENT, ups := c.ups + 1)
              && loop.ops == old(loop.ops) + [Update(channel.Value(), c.events | READ_EVENT)]
    {
      state := Machine.Connected;
      channel.EnableReading();
      loop.UpdateChannel(channel);
      ups := ups + 1;
    }

    method ConnectDestroyed(loop: Loop)
      requires state == Machine.Connected || channel.events == NONE_EVENT
      modifies this, channel`events, loop`ops
      ensures var c := old(Model());
              var down := if c.phase == Machine.Connected then Machine.Down(c) else c;
              && Model() == down.(removed := down.removed + 1)
              && loop.ops == old(loop.ops)
                             + (if c.phase == Machine.Connected then [Update(channel.Value(), NONE_EVENT)] else [])
                             + [Remove(channel.Value())]
    {
      if state == Machine.Connected {
        state := Machine.Disconnected;
        channel.DisableAll();
        loop.UpdateChannel(channel);
        downs := downs + 1;
      }
      loop.RemoveChannel(channel);
      removed := removed + 1;
    }

    /** The first half of handleClose. */
    method TurnDown(loop: Loop)
      modifies this, channel`events, loop`ops
      ensures Model() == Machine.Down(old(Model()))
      ensures loop.ops == old(loop.ops) + [Update(channel.Value(), NONE_EVENT)]
    {
      state := Machine.Disconnected;
      channel.DisableAll();
      loop.UpdateChannel(channel);
      downs := downs + 1;
    }

    method HandleClose(server: TcpServer)
      requires server.Valid() && server.Holds(this)
      requires Machine.HandleClose(server.Model(), id).ok
      modifies this, channel`events, server`connections, server`ids, server`queue, server`conns, server.loop
      ensures server.Valid()
      ensures server.Model() == Machine.HandleClose(old(server.Model()), id)
      ensures state == Machine.Disconnected
    {
      server.Disconnect(this);
      server.RemoveConnection(this);
    }

    /** When read(2) returns n. */
    method HandleRead(server: TcpServer, n: int)
      requires server.Valid() && server.Holds(this)
      requires Machine.HandleRead(server.Model(), id, n).ok
      modifies this, channel`events, server`connections, server`ids, server`queue, server`conns, server.loop
      ensures server.Valid()
      ensures server.Model() == Machine.HandleRead(old(server.Model()), id, n)
      ensures state == if n == 0 then Machine.Disconnected else old(state)
    {
      if n == 0 {
        HandleClose(server);
      }
    }

    /** The channel's handleEvent, with this connection's callbacks; read(2), if it is called, returns n. */
    method HandleEvent(server: TcpServer, n: int)
      requires server.Valid() && server.Holds(this)
      requires Machine.HandleEvent(server.Model(), id, channel.revents, n).ok
      modifies this, channel`events, server`connections, server`ids, server`queue, server`conns, server.loop
      ensures server.Valid()
      ensures server.Model() == Machine.HandleEvent(old(server.Model()), id, old(channel.revents), n)
      ensures var revents := old(channel.revents);
              var endOfFile := n == 0 && (revents & Machine.POLLIN != 0 || revents & Machine.POLLPRI != 0
                                          || revents & Machine.POLLRDHUP != 0);
              var hangUp := revents & Machine.POLLHUP != 0 && revents & Machine.POLLIN == 0;
              state == if endOfFile || hangUp then Machine.Disconnected else old(state)
    {
      if Machine.HangsUp(channel.revents) {
        HandleClose(server);
      }
      if Machine.Reads(channel.revents) {
        HandleRead(server, n);
      }
    }
  }

  // ---------------------------------------------------------------- connections and their numbers

  ghost predicate IsNumbered(c: TcpConnection, accepted: seq<TcpConnection>) {
    c.id < |accepted| && accepted[c.id] == c
  }

  ghost predicate MapOf(connections: map<string, TcpConnection>, ids: map<string, nat>, accepted: seq<TcpConnection>) {
    && (forall name :: name in connections <==> name in ids)
    && (forall name | name in connections ::
          IsNumbered(connections[name], accepted) && ids[name] == connections[name].id)
  }

  ghost predicate QueueOf(pending: seq<TcpConnection>, queue: seq<nat>, accepted: seq<TcpConnection>) {
    && |pending| == |queue|
    && (forall k | 0 <= k < |queue| :: IsNumbered(pending[k], accepted) && queue[k] == pending[k].id)
  }

  lemma MoreAccepted(connections: map<string, TcpConnection>, ids: map<string, nat>, pending: seq<TcpConnection>,
                     queue: seq<nat>, accepted: seq<TcpConnection>, c: TcpConnection)
    requires MapOf(connections, ids, accepted) && QueueOf(pending, queue, accepted)
    ensures MapOf(connections, ids, accepted + [c]) && QueueOf(pending, queue, accepted + [c])
  {
  }

  // ---------------------------------------------------------------- the destructor's loop

  /** Each entry has been listed or is still there, and nothing else has been listed. */
  ghost predicate Covered(entries: map<string, nat>, order: seq<nat>, rest: map<string, nat>) {
    && (forall k | 0 <= k < |order| :: order[k] in entries.Values)
    && (forall name | name in entries :: entries[name] in order || name in rest)
    && (forall name | name in rest :: name in entries)
  }

  lemma CoveredOneMore(entries: map<string, nat>, order: seq<nat>, rest: map<string, nat>, key: string)
    requires Covered(entries, order, rest) && key in rest
    ensures key in entries && Covered(entries, order + [entries[key]], rest - {key})
  {
    var more := order + [entries[key]];
    assert entries[key] in entries.Values;
    assert forall k | 0 <= k < |order| :: more[k] == order[k];
    assert more[|order|] == entries[key];
    forall name | name in entries ensures entries[name] in more || name in rest - {key} {
      assert entries[name] in order ==> entries[name] in more;
    }
  }

  /** So far the loop has been through connections of the map, each once; the rest of the map is as it was. */
  ghost predicate Progress(s: Machine.State, order: seq<nat>) {
    Safety.ListsUp(s, order) && Covered(s.connections, order, Machine.DestroyEach(s, order).connections)
  }

  lemma TeardownStarts(s: Machine.State)
    ensures Progress(s, []) && Machine.DestroyEach(s, []) == s
  {
  }

  lemma EntryIsUp(s: Machine.State, order: seq<nat>, key: string)
    requires Safety.Inv(s) && Safety.ListsUp(s, order) && key in Machine.DestroyEach(s, order).connections
    ensures var t := Machine.DestroyEach(s, order);
            var id := t.connections[key];
            && id < |t.conns| && t.conns[id].name == key && t.conns[id].phase == Machine.Connected
            && id !in order && id < |s.conns| && s.conns[id] == t.conns[id]
            && key in s.connections && s.connections[key] == id
  {
    Safety.DestroyEachKeepsInv(s, order);
    var t := Machine.DestroyEach(s, order);
    hide Machine.DestroyEach, Machine.OpsInv, Machine.DistinctFds;
    assert Safety.MapHoldsUp(t);
    Safety.LifeAt(s, t.connections[key]);
  }

  lemma DestroyEachMore(s: Machine.State, order: seq<nat>, id: nat)
    requires id < |Machine.DestroyEach(s, order).conns|
    ensures Machine.DestroyEach(s, order + [id]) == Machine.DestroyOne(Machine.DestroyEach(s, order), id)
  {
    assert (order + [id])[..|order|] == order;
  }

  lemma DestroyOneErases(t: Machine.State, id: nat)
    requires id < |t.conns|
    ensures Machine.DestroyOne(t, id).connections == t.connections - {t.conns[id].name}
  {
  }

  lemma TeardownTurn(s: Machine.State, order: seq<nat>, key: string)
    requires Safety.Inv(s) && Progress(s, order) && key in Machine.DestroyEach(s, order).connections
    ensures var t := Machine.DestroyEach(s, order);
            var id := t.connections[key];
            && id < |t.conns| && t.conns[id].name == key && t.conns[id].phase == Machine.Connected
            && Machine.DestroyEach(s, order + [id]) == Machine.DestroyOne(t, id)
            && Progress(s, order + [id])
  {
    EntryIsUp(s, order, key);
    var t := Machine.DestroyEach(s, order);
    var id := t.connections[key];
    DestroyEachMore(s, order, id);
    DestroyOneErases(t, id);
    hide Machine.DestroyEach, Machine.DestroyOne, Safety.Inv;
    ListsOneMore(s, order, id);
    CoveredOneMore(s.connections, order, t.connections, key);
    hide Safety.ListsUp, Covered;
  }

  lemma ListsOneMore(s: Machine.State, order: seq<nat>, id: nat)
    requires Safety.ListsUp(s, order) && id !in order
    requires id < |s.conns| && s.conns[id].phase == Machine.Connected
    ensures Safety.ListsUp(s, order + [id])
  {
  }

  lemma TeardownEnds(s: Machine.State, order: seq<nat>)
    requires Safety.Inv(s) && s.serving && Progress(s, order) && Machine.DestroyEach(s, order).connections == map[]
    ensures Machine.Enabled(s, Machine.Teardown(order))
    ensures Machine.Step(s, Machine.Teardown(order)) == Machine.DestroyEach(s, order).(serving := false)
  {
  }

  class TcpServer {
    const name: string
    const hostport: string
    const loop: Loop
    var nextConnId: nat
    var connections: map<string, TcpConnection>
    // Every connection accepted so far, in order, whose channel is whose, and all their objects.
    ghost var accepted: seq<TcpConnection>
    ghost var owners: map<Channel, int>
    ghost var repr: set<object>
    // What they stand for.
    ghost var serving: bool
    ghost var conns: seq<Machine.Conn>
    ghost var ids: map<string, nat>
    ghost var queue: seq<nat>

    ghost function Model(): Machine.State
      reads this, loop
    {
      Machine.State(name, hostport, serving, nextConnId, conns, ids, queue, loop.ops, true)
    }

    ghost predicate Holds(c: TcpConnection)
      reads this`accepted
    {
      IsNumbered(c, accepted)
    }

    /** The objects of the connections, each its own. */
    ghost predicate Shape()
      reads this`accepted, this`owners, this`repr
    {
      && this !in repr && loop !in repr
      && (forall i | 0 <= i < |accepted| ::
            var c := accepted[i];
            && c.id == c.channel.id == i && c in repr && c.channel in repr
            && c.channel in owners && owners[c.channel] == i)
    }

    ghost predicate ConnsOkExcept(id: int)
      reads this`accepted, this`owners, this`repr, this`conns, repr
    {
      && Shape() && |conns| == |accepted|
      && (forall i | 0 <= i < |accepted| && i != id :: accepted[i].Model() == conns[i])
    }

    ghost predicate MapOk()
      reads this`accepted, this`connections, this`ids
    {
      MapOf(connections, ids, accepted)
    }

    ghost predicate QueueOk()
      reads this`accepted, this`queue, loop`pendingFunctors
    {
      QueueOf(loop.pendingFunctors, queue, accepted)
    }

    ghost predicate Valid()
      reads this, loop, repr
    {
      ConnsOkExcept(-1) && MapOk() && QueueOk()
    }

    constructor (loop: Loop, hostport: string, name: string)
      requires loop.ops == [] && loop.pendingFunctors == []
      ensures Valid() && fresh(repr) && this.loop == loop
      ensures Model() == Machine.Init(name, hostport)
    {
      this.loop, this.hostport, this.name := loop, hostport, name;
      nextConnId, connections := 1, map[];
      accepted, owners, repr := [], map[], {};
      serving, conns, ids, queue := true, [], map[], [];
    }

    /** A connection that alone has changed is noted as it is now. */
    ghost method Refresh(conn: TcpConnection)
      requires Holds(conn) && ConnsOkExcept(conn.id)
      modifies this`conns
      ensures ConnsOkExcept(-1) && conns == old(conns)[conn.id := conn.Model()]
    {
      conns := conns[conn.id := conn.Model()];
    }

    /** connections_.erase; n is the number of entries erased. */
    method Erase(key: string) returns (n: nat)
      requires MapOk()
      modifies this`connections, this`ids
      ensures MapOk() && n == (if key in old(connections) then 1 else 0)
      ensures connections == old(connections) - {key} && ids == old(ids) - {key}
    {
      n := if key in connections then 1 else 0;
      connections, ids := connections - {key}, ids - {key};
    }

    /** queueInLoop, of the connection's connectDestroyed. */
    method QueueDestroyed(conn: TcpConnection)
      requires QueueOk() && Holds(conn)
      modifies this`queue, loop`pendingFunctors
      ensures QueueOk() && queue == old(queue) + [conn.id]
    {
      loop.QueueInLoop(conn);
      queue := queue + [conn.id];
    }

    ghost method NoteErased(conn: TcpConnection)
      requires ConnsOkExcept(-1) && Holds(conn)
      modifies this`conns, conn`erased
      ensures ConnsOkExcept(-1)
      ensures var c := old(conns)[conn.id]; conns == old(conns)[conn.id := c.(erased := c.erased + 1)]
    {
      conn.erased := conn.erased + 1;
      Refresh(conn);
    }

    /** The first half of handleClose, noted. */
    method Disconnect(conn: TcpConnection)
      requires Valid() && Holds(conn)
      modifies this`conns, conn, conn.channel`events, loop`ops
      ensures Valid() && Model() == Machine.Disconnect(old(Model()), conn.id)
      ensures conn.state == Machine.Disconnected
    {
      conn.TurnDown(loop);
      Refresh(conn);
    }

    method Queue(conn: TcpConnection)
      requires QueueOk() && ConnsOkExcept(-1) && Holds(conn)
      modifies this`queue, this`conns, loop`pendingFunctors, conn`erased
      ensures QueueOk() && ConnsOkExcept(-1) && queue == old(queue) + [conn.id]
      ensures var c := old(conns)[conn.id]; conns == old(conns)[conn.id := c.(erased := c.erased + 1)]
    {
      NoteErased(conn);
      QueueDestroyed(conn);
    }

    lemma HeldMatches(conn: TcpConnection)
      requires Valid() && Holds(conn)
      ensures conn.id < |conns| && conns[conn.id] == conn.Model() && (conn.name in connections <==> conn.name in ids)
      ensures this !in repr && loop !in repr
    {
    }

    method RemoveConnection(conn: TcpConnection)
      requires Valid() && Holds(conn) && conn.name in connections
      modifies this`connections, this`ids, this`queue, this`conns, loop`pendingFunctors, conn`erased
      ensures Valid()
      ensures Model() == Machine.RemoveConnection(old(Model()), conn.id)
    {
      hide ConnsOkExcept, MapOk, QueueOk;
      HeldMatches(conn);
      var n := Erase(conn.name);
      Queue(conn);
    }

    /** Makes room for a new connection among the accepted ones. */
    ghost method Enlist(conn: TcpConnection)
      requires Valid() && conn.id == conn.channel.id == |accepted| && conn !in repr && conn.channel !in repr
      requires conn.channel !in owners
      modifies this`accepted, this`owners, this`repr, this`conns
      ensures Valid() && Holds(conn) && accepted == old(accepted) + [conn]
      ensures repr == old(repr) + {conn, conn.channel} && conns == old(conns) + [conn.Model()]
    {
      MoreAccepted(connections, ids, loop.pendingFunctors, queue, accepted, conn);
      hide MapOf, QueueOf;
      accepted, repr := accepted + [conn], repr + {conn, conn.channel};
      owners, conns := owners[conn.channel := conn.id], conns + [conn.Model()];
    }

    method Create(connName: string, sockfd: nat) returns (conn: TcpConnection)
      requires Valid()
      modifies this`accepted, this`owners, this`repr, this`conns
      ensures Valid() && fresh(repr - old(repr)) && this !in repr && loop !in repr
      ensures fresh(conn) && fresh(conn.channel) && Holds(conn) && accepted == old(accepted) + [conn]
      ensures conn.Model() == Machine.Conn(connName, sockfd, Machine.Connecting, NONE_EVENT, 0, 0, 0, 0)
      ensures conns == old(conns) + [conn.Model()] && conn.channel.id == conn.id
    {
      conn := new TcpConnection(connName, sockfd, |accepted|);
      Enlist(conn);
    }

    /** connections_[key] = conn. */
    method Insert(key: string, conn: TcpConnection)
      requires MapOk() && Holds(conn)
      modifies this`connections, this`ids
      ensures MapOk() && ids == old(ids)[key := conn.id]
      ensures connections == old(connections)[key := conn]
    {
      connections, ids := connections[key := conn], ids[key := conn.id];
    }

    method Establish(conn: TcpConnection)
      requires Valid() && Holds(conn) && conn.state == Machine.Connecting && conn.channel.events == NONE_EVENT
      modifies this`conns, conn, conn.channel`events, loop`ops
      ensures Valid()
      ensures var c := old(conns)[conn.id];
              && conns == old(conns)[conn.id := c.(phase := Machine.Connected, events := READ_EVENT, ups := c.ups + 1)]
              && loop.ops == old(loop.ops) + [Update(conn.channel.Value(), READ_EVENT)]
    {
      conn.ConnectEstablished(loop);
      Refresh(conn);
    }

    /** A connection object, entered in the map. */
    method Enroll(connName: string, sockfd: nat) returns (conn: TcpConnection)
      requires Valid()
      modifies this`accepted, this`owners, this`repr, this`conns, this`connections, this`ids
      ensures Valid() && fresh(repr - old(repr))
      ensures fresh(conn) && fresh(conn.channel) && Holds(conn) && accepted == old(accepted) + [conn]
      ensures conn.id == |old(conns)| && ids == old(ids)[connName := conn.id]
      ensures conn.state == Machine.Connecting && conn.channel.events == NONE_EVENT
      ensures conn.channel.Value() == Chan(conn.id, sockfd)
      ensures conns == old(conns) + [Machine.Conn(connName, sockfd, Machine.Connecting, NONE_EVENT, 0, 0, 0, 0)]
    {
      conn := Create(connName, sockfd);
      hide ConnsOkExcept, MapOk, QueueOk;
      Insert(connName, conn);
    }

    method NewConnection(sockfd: nat) returns (conn: TcpConnection)
      requires Valid()
      modifies this, loop`ops
      ensures Valid() && fresh(repr - old(repr)) && Holds(conn) && accepted == old(accepted) + [conn]
      ensures Model() == Machine.NewConnection(old(Model()), sockfd)
    {
      ghost var before := conns;
      assert this !in repr && loop !in repr;
      hide ConnsOkExcept, MapOk, QueueOk, Name;
      var connName := Name(name, hostport, nextConnId);
      nextConnId := nextConnId + 1;
      conn := Enroll(connName, sockfd);
      Establish(conn);
      ReplaceLast(before, Machine.Conn(connName, sockfd, Machine.Connecting, NONE_EVENT, 0, 0, 0, 0), conns[conn.id]);
    }

    /** connectDestroyed, noted. */
    method Finish(conn: TcpConnection)
      requires ConnsOkExcept(-1) && Holds(conn)
      requires Machine.ConnectDestroyed(Model(), conn.id).ok
      modifies this`conns, conn, conn.channel`events, loop`ops
      ensures ConnsOkExcept(-1)
      ensures Model() == Machine.ConnectDestroyed(old(Model()), conn.id)
    {
      conn.ConnectDestroyed(loop);
      Refresh(conn);
    }

    method PopFunctor() returns (conn: TcpConnection)
      requires QueueOk() && loop.pendingFunctors != []
      modifies this`queue, loop`pendingFunctors
      ensures QueueOk() && Holds(conn)
      ensures old(queue) == [conn.id] + queue && conn == old(loop.pendingFunctors[0])
    {
      conn := loop.pendingFunctors[0];
      loop.pendingFunctors, queue := loop.pendingFunctors[1..], queue[1..];
    }

    /** The loop runs its first functor: connectDestroyed of the connection it holds. */
    method RunFunctor()
      requires Valid() && loop.pendingFunctors != []
      requires Machine.ConnectDestroyed(Model(), loop.pendingFunctors[0].id).ok
      modifies this`queue, this`conns, loop, loop.pendingFunctors[0], loop.pendingFunctors[0].channel`events
      ensures Valid()
      ensures old(queue) != []
      ensures Model() == Machine.ConnectDestroyed(old(Model()).(functors := old(queue)[1..]), old(queue)[0])
    {
      assert this !in repr && loop !in repr;
      hide ConnsOkExcept, MapOk, QueueOk;
      var conn := PopFunctor();
      Finish(conn);
    }

    lemma EntryMatches(key: string)
      requires Valid() && key in connections
      ensures key in ids && ids[key] == connections[key].id && ids[key] < |conns|
      ensures connections[key].Model() == conns[ids[key]] && Holds(connections[key])
      ensures connections[key] in repr && connections[key].channel in repr && this !in repr && loop !in repr
    {
    }

    /** One turn of the destructor's loop: the entry lets go of its connection, which is then destroyed. */
    method DestroyEntry(key: string)
      requires Valid() && key in connections && connections[key].name == key
      requires connections[key].state == Machine.Connected
      modifies this`connections, this`ids, this`conns, loop`ops, connections[key], connections[key].channel`events
      ensures Valid() && key in old(ids) && old(ids[key]) < |old(conns)|
      ensures Model() == Machine.DestroyOne(old(Model()), old(ids[key]))
      ensures connections == old(connections) - {key}
    {
      hide ConnsOkExcept, MapOk, QueueOk, Machine.ConnectDestroyed, Machine.DestroyOne;
      var conn := connections[key];
      EntryMatches(key);
      Machine.DestroyOneIs(Model(), conn.id);
      var n := Erase(key);
      Finish(conn);
    }

    lemma MapEmptyTogether()
      requires MapOk()
      ensures connections == map[] <==> ids == map[]
    {
    }

    /** A turn of the loop over the map that started in state `s` and has been through `order`. */
    method DestroyTurn(ghost s: Machine.State, ghost order: seq<nat>) returns (ghost more: seq<nat>)
      requires Valid() && connections != map[]
      requires Safety.Inv(s) && Progress(s, order) && Model() == Machine.DestroyEach(s, order)
      modifies this`connections, this`ids, this`conns, loop`ops, repr
      ensures Valid() && |connections| < |old(connections)|
      ensures Progress(s, more) && Model() == Machine.DestroyEach(s, more)
    {
      hide Safety.Inv, Machine.DestroyEach, Machine.DestroyOne, Progress;
      var key :| key in connections;
      EntryMatches(key);
      TeardownTurn(s, order, key);
      more := order + [ids[key]];
      hide ConnsOkExcept, MapOk, QueueOk;
      DestroyEntry(key);
    }

    method DestroyTurns() returns (ghost order: seq<nat>)
      requires Valid() && Safety.Inv(Model())
      modifies this`connections, this`ids, this`conns, loop`ops, repr
      ensures Valid() && connections == map[]
      ensures Progress(old(Model()), order) && Model() == Machine.DestroyEach(old(Model()), order)
    {
      ghost var s := Model();
      order := [];
      assert this !in repr && loop !in repr;
      TeardownStarts(s);
      hide Safety.Inv, Machine.DestroyEach, Progress, ConnsOkExcept, QueueOk, MapOk;
      while connections != map[]
        invariant Valid() && Progress(s, order) && Model() == Machine.DestroyEach(s, order)
        decreases |connections|
      {
        order := DestroyTurn(s, order);
      }
    }

    /** The destructor, for a server whose state is one the steps keep; `order` is how the loop went through the map. */
    method Destroy() returns (ghost order: seq<nat>)
      requires Valid() && serving && Safety.Inv(Model())
      modifies this`connections, this`ids, this`conns, this`serving, loop`ops, repr
      ensures Valid() && connections == map[]
      ensures Machine.Enabled(old(Model()), Machine.Teardown(order))
      ensures Model() == Machine.Step(old(Model()), Machine.Teardown(order))
    {
      ghost var s := Model();
      assert this !in repr && loop !in repr;
      hide Safety.Inv, Machine.DestroyEach, Machine.Step, Machine.Enabled, Progress, ConnsOkExcept, QueueOk, MapOk;
      order := DestroyTurns();
      MapEmptyTogether();
      TeardownEnds(s, order);
      serving := false;
    }
  }
}
