/**
 The life of TCP connections: TcpServer's map, each TcpConnection's state and channel, the loop's queue of
 connectDestroyed calls, and every call made to the poller.
 */
module TcpMachine {
  import opened PollerMachine
  import opened ConnectionNames

  const POLLIN: Mask := 0x1
  const POLLPRI: Mask := 0x2
  const POLLERR: Mask := 0x8
  const POLLHUP: Mask := 0x10
  const POLLNVAL: Mask := 0x20
  const POLLRDHUP: Mask := 0x2000

  /** kConnecting ends within newConnection, and nothing assigns kDisconnecting. */
  datatype Phase = Connecting | Connected | Disconnected

  /**
   A connection: its channel's events, and how often the connection callback has reported it up and down, its name
   has been erased from the server's map, and its channel has been removed from the poller.
   */
  datatype Conn = Conn(
    name: string,
    fd: nat,
    phase: Phase,
    events: Mask,
    ups: nat,
    downs: nat,
    erased: nat,
    removed: nat)

  /** `connections` and `functors` hold owning pointers; `ok` tells whether every assert so far has held. */
  datatype State = State(
    server: string,
    hostport: string,
    serving: bool,
    nextConnId: nat,
    conns: seq<Conn>,
    connections: map<string, nat>,
    functors: seq<nat>,
    ops: seq<Op>,
    ok: bool)

  datatype Event =
    | Accept(fd: nat)
    | Dispatch(id: nat, revents: Mask, n: int)
    | RunFunctor
    | Teardown(order: seq<nat>)

  function Init(server: string, hostport: string): State {
    State(server, hostport, true, 1, [], map[], [], [], true)
  }

  // ---------------------------------------------------------------- the code's operations

  /** newConnection, with connectEstablished. */
  function NewConnection(s: State, fd: nat): State {
    var name := Name(s.server, s.hostport, s.nextConnId);
    s.(nextConnId := s.nextConnId + 1,
       conns := s.conns + [Conn(name, fd, Connected, READ_EVENT, 1, 0, 0, 0)],
       connections := s.connections[name := |s.conns|],
       ops := s.ops + [Update(Chan(|s.conns|, fd), READ_EVENT)])
  }

  /** A connection turned down: state, channel and callback. */
  function Down(c: Conn): Conn {
    c.(phase := Disconnected, events := NONE_EVENT, downs := c.downs + 1)
  }

  function Disconnect(s: State, id: nat): State
    requires id < |s.conns|
  {
    s.(conns := s.conns[id := Down(s.conns[id])], ops := s.ops + [Update(Chan(id, s.conns[id].fd), NONE_EVENT)])
  }

  /** removeConnection. */
  function RemoveConnection(s: State, id: nat): State
    requires id < |s.conns|
  {
    var c := s.conns[id];
    if c.name !in s.connections then s.(ok := false)
    else
      s.(connections := s.connections - {c.name},
         conns := s.conns[id := c.(erased := c.erased + 1)],
         functors := s.functors + [id])
  }

  function HandleClose(s: State, id: nat): State
    requires id < |s.conns|
  {
    if s.conns[id].phase != Connected then s.(ok := false) else RemoveConnection(Disconnect(s, id), id)
  }

  /** handleRead, when read(2) returns n. */
  function HandleRead(s: State, id: nat, n: int): State
    requires id < |s.conns|
  {
    if n == 0 then HandleClose(s, id) else s
  }

  predicate HangsUp(revents: Mask) {
    revents & POLLHUP != 0 && revents & POLLIN == 0
  }

  predicate Reads(revents: Mask) {
    revents & (POLLIN | POLLPRI | POLLRDHUP) != 0
  }

  /** handleEventWithGuard; errors are logged, and no write callback is set. */
  function HandleEvent(s: State, id: nat, revents: Mask, n: int): State
    requires id < |s.conns|
  {
    var t := if HangsUp(revents) then HandleClose(s, id) else s;
    if t.ok && Reads(revents) then HandleRead(t, id, n) else t
  }

  function ConnectDestroyed(s: State, id: nat): State
    requires id < |s.conns|
  {
    var t := if s.conns[id].phase == Connected then Disconnect(s, id) else s;
    var c := t.conns[id];
    if c.events != NONE_EVENT then t.(ok := false)
    else t.(conns := t.conns[id := c.(removed := c.removed + 1)], ops := t.ops + [Remove(Chan(id, c.fd))])
  }

  function DestroyOne(s: State, id: nat): State
    requires id < |s.conns|
  {
    ConnectDestroyed(s.(connections := s.connections - {s.conns[id].name}), id)
  }

  lemma DestroyOneIs(s: State, id: nat)
    requires id < |s.conns| && s.conns[id].phase == Connected
    ensures var t := s.(connections := s.connections - {s.conns[id].name});
            DestroyOne(s, id) == ConnectDestroyed(t, id) && (s.ok ==> DestroyOne(s, id).ok)
  {
  }

  /** The destructor's loop over the map: each entry lets go of its connection before the connection is destroyed. */
  function DestroyEach(s: State, order: seq<nat>): State {
    if order == [] then s
    else
      var t := DestroyEach(s, order[..|order| - 1]);
      var id := order[|order| - 1];
      if id < |t.conns| then DestroyOne(t, id) else t
  }

  // ---------------------------------------------------------------- runs

  /** Something still holds the connection: the server's map, or a functor waiting to run. */
  ghost predicate Owned(s: State, id: nat) {
    (exists name :: name in s.connections && s.connections[name] == id) || id in s.functors
  }

  /** The poller has the connection's channel. */
  predicate Registered(s: State, id: nat) {
    id < |s.conns| && s.conns[id].removed == 0
  }

  /** The system hands out a descriptor no live connection has; sockets close with their connection. */
  ghost predicate FreshFd(s: State, fd: nat) {
    forall id: nat | id < |s.conns| && Owned(s, id) :: s.conns[id].fd != fd
  }

  /** The entries of the map, each once. */
  ghost predicate Lists(order: seq<nat>, connections: map<string, nat>) {
    && (forall i, j | 0 <= i < j < |order| :: order[i] != order[j])
    && (forall i | 0 <= i < |order| :: order[i] in connections.Values)
    && (forall name | name in connections :: connections[name] in order)
  }

  /** poll and epoll report what was asked for, and errors, hang-ups and bad descriptors unasked. */
  predicate Deliverable(revents: Mask, events: Mask) {
    revents & (events | POLLERR | POLLHUP | POLLNVAL) == revents
  }

  /**
   A failed assert ends the run. A dispatch is one step, and functors and the destruction of the server come between
   dispatches, so no channel is removed while `eventHandling_` is set.
   */
  ghost predicate Enabled(s: State, e: Event) {
    s.ok
    && match e
       case Accept(fd) => s.serving && FreshFd(s, fd)
       case Dispatch(id, revents, _) =>
         && Registered(s, id) && s.conns[id].events != NONE_EVENT
         && Deliverable(revents, s.conns[id].events)
       case RunFunctor => s.functors != [] && s.functors[0] < |s.conns|
       case Teardown(order) => s.serving && Lists(order, s.connections)
  }

  ghost function Step(s: State, e: Event): State {
    if !Enabled(s, e) then s
    else
      match e
      case Accept(fd) => NewConnection(s, fd)
      case Dispatch(id, revents, n) => HandleEvent(s, id, revents, n)
      case RunFunctor => ConnectDestroyed(s.(functors := s.functors[1..]), s.functors[0])
      case Teardown(order) => DestroyEach(s, order).(serving := false, connections := map[])
  }

  ghost function Run(s: State, trace: seq<Event>): State {
    if trace == [] then s else Step(Run(s, trace[..|trace| - 1]), trace[|trace| - 1])
  }

  /** A hang-up without data that also reads end-of-file closes twice. */
  predicate ClosesTwice(revents: Mask, n: int) {
    HangsUp(revents) && Reads(revents) && n == 0
  }

  predicate Benign(trace: seq<Event>) {
    forall e | e in trace :: e.Dispatch? ==> !ClosesTwice(e.revents, e.n)
  }

  // ---------------------------------------------------------------- the poller's view

  /** How far the channel of connection `c.id` has come. */
  function StageOf(conns: seq<Conn>, c: Chan): Stage {
    if c.id < |conns| && conns[c.id].fd == c.fd then
      if conns[c.id].removed != 0 then Gone
      else if conns[c.id].events == NONE_EVENT then Disabled
      else Live(conns[c.id].events)
    else Fresh
  }

  /** The calls made to the poller are proper, and have brought each channel as far as its connection says. */
  ghost predicate OpsInv(ops: seq<Op>, conns: seq<Conn>) {
    Proper(ops) && forall c :: StageAfter(ops, c) == StageOf(conns, c)
  }

  ghost predicate DistinctFds(conns: seq<Conn>) {
    forall i, j | 0 <= i < j < |conns| && conns[i].removed == 0 && conns[j].removed == 0 ::
      conns[i].fd != conns[j].fd
  }

  lemma WatchKeepsOps(ops: seq<Op>, conns: seq<Conn>, c: Conn)
    requires OpsInv(ops, conns) && c.removed == 0 && c.events != NONE_EVENT
    requires forall i | 0 <= i < |conns| && conns[i].removed == 0 :: conns[i].fd != c.fd
    ensures OpsInv(ops + [Update(Chan(|conns|, c.fd), c.events)], conns + [c])
  {
    var op := Update(Chan(|conns|, c.fd), c.events);
    Appended(ops, op);
    assert StageAfter(ops, op.c) == StageOf(conns, op.c) == Fresh;
    forall d: Chan | d.fd == c.fd ensures !InUse(StageAfter(ops, d)) {
      assert StageAfter(ops, d) == StageOf(conns, d);
    }
    assert Allowed(ops, op);
    StageChanges(ops, conns, op, conns + [c]);
  }

  /** A call that moves its channel to the stage its connection has afterwards, all others being as they were. */
  lemma StageChanges(ops: seq<Op>, conns: seq<Conn>, op: Op, after: seq<Conn>)
    requires OpsInv(ops, conns) && Allowed(ops, op)
    requires NextStage(StageOf(conns, op.c), op) == StageOf(after, op.c)
    requires forall d | d != op.c :: StageOf(after, d) == StageOf(conns, d)
    ensures OpsInv(ops + [op], after)
  {
    hide StageOf, NextStage, Allowed, StageAfter;
    Appended(ops, op);
    hide Proper;
  }

  lemma DisableKeepsOps(ops: seq<Op>, conns: seq<Conn>, id: nat, c: Conn)
    requires OpsInv(ops, conns) && id < |conns|
    requires conns[id].removed == 0 && conns[id].events != NONE_EVENT
    requires c.fd == conns[id].fd && c.removed == 0 && c.events == NONE_EVENT
    ensures OpsInv(ops + [Update(Chan(id, c.fd), NONE_EVENT)], conns[id := c])
  {
    var op := Update(Chan(id, c.fd), NONE_EVENT);
    assert StageAfter(ops, op.c) == StageOf(conns, op.c);
    StageChanges(ops, conns, op, conns[id := c]);
  }

  lemma RemoveKeepsOps(ops: seq<Op>, conns: seq<Conn>, id: nat, c: Conn)
    requires OpsInv(ops, conns) && id < |conns|
    requires conns[id].removed == 0 && conns[id].events == NONE_EVENT
    requires c.fd == conns[id].fd && c.removed != 0
    ensures OpsInv(ops + [Remove(Chan(id, c.fd))], conns[id := c])
  {
    var op := Remove(Chan(id, c.fd));
    assert StageAfter(ops, op.c) == StageOf(conns, op.c);
    StageChanges(ops, conns, op, conns[id := c]);
  }
}
