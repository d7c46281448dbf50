/** What every step of a connection's life keeps. */
module TcpSafety {
  import opened PollerMachine
  import opened ConnectionNames
  import opened TcpMachine

  /** Connection i is numbered i + 1 and named after that number. */
  ghost predicate Named(s: State) {
    && s.nextConnId == |s.conns| + 1
    && (forall i | 0 <= i < |s.conns| :: s.conns[i].name == Name(s.server, s.hostport, i + 1))
  }

  /** The map holds connections that are up, under their names. */
  ghost predicate MapHoldsUp(s: State) {
    forall name | name in s.connections ::
      var id := s.connections[name];
      id < |s.conns| && s.conns[id].name == name && s.conns[id].phase == Connected
  }

  /** Each queued functor is for a connection that is down, and no connection is queued twice. */
  ghost predicate QueueHoldsDown(s: State) {
    && (forall k | 0 <= k < |s.functors| ::
          s.functors[k] < |s.conns| && s.conns[s.functors[k]].phase == Disconnected)
    && (forall j, k | 0 <= j < k < |s.functors| :: s.functors[j] != s.functors[k])
  }

  /**
   A connection is up: in the map, watched, reported once. Or it has been closed: erased, disabled, reported down
   once, and queued. Or it is gone from the poller as well, by its functor or by the server's destructor.
   */
  ghost predicate LifeOk(s: State, i: nat)
    requires i < |s.conns|
  {
    var c := s.conns[i];
    c.ups == 1
    && match c.phase
       case Connected =>
         && c.downs == 0 && c.erased == 0 && c.removed == 0 && c.events == READ_EVENT
         && c.name in s.connections && s.connections[c.name] == i
       case Disconnected =>
         && c.downs == 1 && c.erased <= 1 && c.removed <= 1 && c.events == NONE_EVENT
         && (i in s.functors <==> c.removed == 0)
         && (c.removed == 0 ==> c.erased == 1)
       case Connecting => false
  }

  ghost predicate AllLivesOk(s: State) {
    forall i | 0 <= i < |s.conns| :: LifeOk(s, i)
  }

  ghost predicate Inv(s: State) {
    && s.ok
    && Named(s) && MapHoldsUp(s) && QueueHoldsDown(s) && AllLivesOk(s)
    && DistinctFds(s.conns) && OpsInv(s.ops, s.conns)
    && (!s.serving ==> s.connections == map[])
  }

  // ---------------------------------------------------------------- facts

  lemma LifeAt(s: State, i: nat)
    requires Inv(s) && i < |s.conns|
    ensures LifeOk(s, i)
  {
  }

  /** A registered channel's connection is held by the map or by a functor. */
  lemma RegisteredIsOwned(s: State, i: nat)
    requires Inv(s) && Registered(s, i)
    ensures Owned(s, i)
  {
    LifeAt(s, i);
  }

  // ---------------------------------------------------------------- accepting

  lemma NameIsNew(s: State)
    requires Named(s) && MapHoldsUp(s) && Fits(s.hostport, |s.conns| + 1)
    ensures Name(s.server, s.hostport, s.nextConnId) !in s.connections
  {
    hide Name, Fits;
    forall name | name in s.connections ensures name != Name(s.server, s.hostport, s.nextConnId) {
      NamesDiffer(s.server, s.hostport, s.nextConnId, s.connections[name] + 1, s.nextConnId);
    }
  }

  lemma AcceptKeepsLives(s: State, t: State, c: Conn)
    requires MapHoldsUp(s) && QueueHoldsDown(s) && AllLivesOk(s) && c.name !in s.connections
    requires c == Conn(c.name, c.fd, Connected, READ_EVENT, 1, 0, 0, 0) && t.conns == s.conns + [c]
    requires t.connections == s.connections[c.name := |s.conns|] && t.functors == s.functors
    ensures MapHoldsUp(t) && QueueHoldsDown(t) && AllLivesOk(t)
  {
    assert forall i | 0 <= i < |s.conns| :: t.conns[i] == s.conns[i];
    forall i | 0 <= i < |t.conns| ensures LifeOk(t, i) {
      if i < |s.conns| {
        assert LifeOk(s, i);
      }
    }
  }

  lemma AcceptKeepsNames(s: State, t: State, c: Conn)
    requires Named(s) && t.conns == s.conns + [c] && t.nextConnId == s.nextConnId + 1
    requires t.server == s.server && t.hostport == s.hostport && c.name == Name(s.server, s.hostport, s.nextConnId)
    ensures Named(t)
  {
    hide Name;
  }

  lemma AcceptKeepsFds(s: State, c: Conn)
    requires Inv(s) && FreshFd(s, c.fd) && c.removed == 0 && c.events != NONE_EVENT
    ensures DistinctFds(s.conns + [c]) && OpsInv(s.ops + [Update(Chan(|s.conns|, c.fd), c.events)], s.conns + [c])
  {
    forall i | 0 <= i < |s.conns| && s.conns[i].removed == 0 ensures s.conns[i].fd != c.fd {
      RegisteredIsOwned(s, i);
    }
    WatchKeepsOps(s.ops, s.conns, c);
  }

  lemma AcceptKeepsInv(s: State, fd: nat)
    requires Inv(s) && s.serving && FreshFd(s, fd) && Fits(s.hostport, |s.conns| + 1)
    ensures Inv(NewConnection(s, fd))
  {
    var t := NewConnection(s, fd);
    var c := t.conns[|s.conns|];
    NameIsNew(s);
    AcceptKeepsNames(s, t, c);
    AcceptKeepsLives(s, t, c);
    AcceptKeepsFds(s, c);
    hide Name, Fits, Named, OpsInv, FreshFd, MapHoldsUp, QueueHoldsDown, AllLivesOk, DistinctFds;
  }

  // ---------------------------------------------------------------- going down

  lemma NamesKept(s: State, t: State, id: nat)
    requires Named(s) && id < |s.conns| && |t.conns| == |s.conns| && t.nextConnId == s.nextConnId
    requires t.conns == s.conns[id := t.conns[id]] && t.conns[id].name == s.conns[id].name
    requires t.server == s.server && t.hostport == s.hostport
    ensures Named(t)
  {
    hide Name;
  }

  lemma FdsKept(conns: seq<Conn>, id: nat, c: Conn)
    requires DistinctFds(conns) && id < |conns| && conns[id].removed == 0 && c.fd == conns[id].fd
    ensures DistinctFds(conns[id := c])
  {
  }

  lemma ErasedFromMap(s: State, t: State, id: nat)
    requires MapHoldsUp(s) && AllLivesOk(s) && id < |s.conns| && s.conns[id].phase == Connected
    requires |t.conns| == |s.conns| && t.conns == s.conns[id := t.conns[id]]
    requires t.connections == s.connections - {s.conns[id].name}
    ensures MapHoldsUp(t)
  {
    assert LifeOk(s, id);
    forall name | name in t.connections ensures t.connections[name] != id {
      assert s.conns[s.connections[name]].name == name;
    }
  }

  /** The other connections that are up stay in the map. */
  lemma OthersStay(s: State, id: nat, i: nat)
    requires AllLivesOk(s) && id < |s.conns| && i < |s.conns| && i != id
    requires s.conns[id].phase == Connected && s.conns[i].phase == Connected
    ensures s.conns[i].name != s.conns[id].name
  {
    assert LifeOk(s, id) && LifeOk(s, i);
  }

  // ---------------------------------------------------------------- closing

  lemma CloseSteps(s: State, id: nat)
    requires Inv(s) && id < |s.conns| && s.conns[id].phase == Connected
    ensures var c, t := s.conns[id], HandleClose(s, id);
            && t.ok && t.serving == s.serving && t.server == s.server && t.hostport == s.hostport
            && t.nextConnId == s.nextConnId
            && t.conns == s.conns[id := Down(c).(erased := 1)]
            && t.connections == s.connections - {c.name}
            && t.functors == s.functors + [id]
            && t.ops == s.ops + [Update(Chan(id, c.fd), NONE_EVENT)]
  {
    LifeAt(s, id);
    hide Inv;
  }

  lemma CloseKeepsLives(s: State, t: State, id: nat)
    requires AllLivesOk(s) && QueueHoldsDown(s) && id < |s.conns| && s.conns[id].phase == Connected
    requires t.conns == s.conns[id := Down(s.conns[id]).(erased := 1)]
    requires t.connections == s.connections - {s.conns[id].name} && t.functors == s.functors + [id]
    ensures AllLivesOk(t) && QueueHoldsDown(t)
  {
    assert LifeOk(s, id);
    assert forall i | 0 <= i < |s.conns| && i != id :: t.conns[i] == s.conns[i];
    forall i | 0 <= i < |t.conns| ensures LifeOk(t, i) {
      assert LifeOk(s, i);
      if i != id && s.conns[i].phase == Connected {
        OthersStay(s, id, i);
      }
    }
  }

  lemma CloseKeepsInv(s: State, id: nat)
    requires Inv(s) && id < |s.conns| && s.conns[id].phase == Connected
    ensures Inv(HandleClose(s, id)) && |HandleClose(s, id).conns| == |s.conns|
    ensures HandleClose(s, id).conns[id].phase == Disconnected
    ensures HandleClose(s, id).hostport == s.hostport
  {
    LifeAt(s, id);
    CloseSteps(s, id);
    var t := HandleClose(s, id);
    CloseKeepsLives(s, t, id);
    NamesKept(s, t, id);
    FdsKept(s.conns, id, t.conns[id]);
    ErasedFromMap(s, t, id);
    DisableKeepsOps(s.ops, s.conns, id, t.conns[id]);
    hide HandleClose, Named, OpsInv, MapHoldsUp, QueueHoldsDown, AllLivesOk, DistinctFds;
  }

  // ---------------------------------------------------------------- connectDestroyed

  lemma FunctorKeepsLives(s: State, t: State, id: nat)
    requires AllLivesOk(s) && QueueHoldsDown(s) && MapHoldsUp(s) && s.functors != [] && id == s.functors[0]
    requires id < |s.conns| && t.conns == s.conns[id := s.conns[id].(removed := 1)]
    requires t.connections == s.connections && t.functors == s.functors[1..]
    ensures AllLivesOk(t) && QueueHoldsDown(t) && MapHoldsUp(t)
  {
    assert LifeOk(s, id);
    assert forall i | 0 <= i < |s.conns| && i != id :: t.conns[i] == s.conns[i];
    assert forall k | 0 <= k < |t.functors| :: t.functors[k] == s.functors[k + 1];
    assert s.functors == [id] + t.functors;
    forall i | 0 <= i < |t.conns| ensures LifeOk(t, i) {
      assert LifeOk(s, i);
    }
  }

  lemma FunctorAt(s: State)
    requires Inv(s) && s.functors != []
    ensures s.ok && s.functors[0] < |s.conns|
    ensures var c := s.conns[s.functors[0]];
            c.phase == Disconnected && c.removed == 0 && c.events == NONE_EVENT
  {
    LifeAt(s, s.functors[0]);
    hide OpsInv, DistinctFds, MapHoldsUp, Named;
  }

  lemma FunctorSteps(s: State, id: nat)
    requires id < |s.conns| && s.functors != [] && s.functors[0] == id
    requires s.conns[id].phase == Disconnected && s.conns[id].removed == 0 && s.conns[id].events == NONE_EVENT
    ensures ConnectDestroyed(s.(functors := s.functors[1..]), id)
         == s.(functors := s.functors[1..], conns := s.conns[id := s.conns[id].(removed := 1)],
               ops := s.ops + [Remove(Chan(id, s.conns[id].fd))])
  {
  }

  lemma FunctorKeepsInv(s: State)
    requires Inv(s) && s.functors != []
    ensures s.functors[0] < |s.conns|
    ensures var t := ConnectDestroyed(s.(functors := s.functors[1..]), s.functors[0]);
            Inv(t) && |t.conns| == |s.conns| && t.hostport == s.hostport
  {
    FunctorAt(s);
    var id := s.functors[0];
    FunctorSteps(s, id);
    var t := ConnectDestroyed(s.(functors := s.functors[1..]), id);
    FunctorKeepsLives(s, t, id);
    NamesKept(s, t, id);
    FdsKept(s.conns, id, t.conns[id]);
    RemoveKeepsOps(s.ops, s.conns, id, t.conns[id]);
    hide ConnectDestroyed, Named, OpsInv, MapHoldsUp, QueueHoldsDown, AllLivesOk, DistinctFds;
  }

  lemma DestroyOneSteps(s: State, id: nat)
    requires Inv(s) && id < |s.conns| && s.conns[id].phase == Connected
    ensures var c, t := s.conns[id], DestroyOne(s, id);
            && t.ok && t.serving == s.serving && t.server == s.server && t.hostport == s.hostport
            && t.nextConnId == s.nextConnId
            && t.conns == s.conns[id := Down(c).(removed := 1)]
            && t.connections == s.connections - {c.name}
            && t.functors == s.functors
            && t.ops == s.ops + [Update(Chan(id, c.fd), NONE_EVENT)] + [Remove(Chan(id, c.fd))]
  {
    LifeAt(s, id);
    hide Inv;
  }

  lemma DestroyKeepsLives(s: State, t: State, id: nat)
    requires AllLivesOk(s) && QueueHoldsDown(s) && id < |s.conns| && s.conns[id].phase == Connected
    requires t.conns == s.conns[id := Down(s.conns[id]).(removed := 1)]
    requires t.connections == s.connections - {s.conns[id].name} && t.functors == s.functors
    ensures AllLivesOk(t) && QueueHoldsDown(t)
  {
    assert LifeOk(s, id);
    assert forall i | 0 <= i < |s.conns| && i != id :: t.conns[i] == s.conns[i];
    forall i | 0 <= i < |t.conns| ensures LifeOk(t, i) {
      assert LifeOk(s, i);
      if i != id && s.conns[i].phase == Connected {
        OthersStay(s, id, i);
      }
    }
  }

  lemma DestroyOneKeepsInv(s: State, id: nat)
    requires Inv(s) && id < |s.conns| && s.conns[id].phase == Connected
    ensures Inv(DestroyOne(s, id)) && DestroyOne(s, id).conns == s.conns[id := Down(s.conns[id]).(removed := 1)]
    ensures var t := DestroyOne(s, id);
            t.hostport == s.hostport && t.serving == s.serving && t.functors == s.functors
  {
    LifeAt(s, id);
    DestroyOneSteps(s, id);
    var c, t := Down(s.conns[id]), DestroyOne(s, id);
    DestroyKeepsLives(s, t, id);
    NamesKept(s, t, id);
    FdsKept(s.conns, id, c);
    FdsKept(s.conns, id, t.conns[id]);
    ErasedFromMap(s, t, id);
    DisableKeepsOps(s.ops, s.conns, id, c);
    RemoveKeepsOps(s.ops + [Update(Chan(id, c.fd), NONE_EVENT)], s.conns[id := c], id, t.conns[id]);
    hide DestroyOne, Named, OpsInv, MapHoldsUp, QueueHoldsDown, AllLivesOk, DistinctFds;
    assert s.conns[id := c][id := t.conns[id]] == t.conns;
  }

  /** The connections listed are down, the others as they were. */
  ghost predicate Downed(s: State, t: State, order: seq<nat>) {
    && |t.conns| == |s.conns|
    && (forall i | 0 <= i < |s.conns| ::
          if i in order then t.conns[i].phase == Disconnected else t.conns[i] == s.conns[i])
  }

  ghost predicate ListsUp(s: State, order: seq<nat>) {
    && (forall k | 0 <= k < |order| :: order[k] < |s.conns| && s.conns[order[k]].phase == Connected)
    && (forall j, k | 0 <= j < k < |order| :: order[j] != order[k])
  }

  lemma {:induction false} DestroyEachKeepsInv(s: State, order: seq<nat>)
    requires Inv(s) && ListsUp(s, order)
    ensures var t := DestroyEach(s, order);
            && Inv(t) && Downed(s, t, order)
            && t.hostport == s.hostport && t.serving == s.serving && t.functors == s.functors
  {
    hide Inv, DestroyOne;
    if order != [] {
      var front, id := order[..|order| - 1], order[|order| - 1];
      DestroyEachKeepsInv(s, front);
      assert order == front + [id] && id !in front;
      DestroyOneKeepsInv(DestroyEach(s, front), id);
    }
  }

  lemma ListedIsUp(s: State, order: seq<nat>, k: nat)
    requires MapHoldsUp(s) && Lists(order, s.connections) && k < |order|
    ensures order[k] < |s.conns| && s.conns[order[k]].phase == Connected
  {
    assert order[k] in s.connections.Values;
    var name :| name in s.connections && s.connections[name] == order[k];
  }

  lemma ListsAreUp(s: State, order: seq<nat>)
    requires MapHoldsUp(s) && Lists(order, s.connections)
    ensures ListsUp(s, order)
  {
    forall k | 0 <= k < |order| ensures order[k] < |s.conns| && s.conns[order[k]].phase == Connected {
      ListedIsUp(s, order, k);
    }
  }

  /** When every entry of the map has been destroyed, no connection is up. */
  lemma AllDown(s: State, t: State, order: seq<nat>)
    requires AllLivesOk(s) && Lists(order, s.connections) && Downed(s, t, order)
    ensures forall i | 0 <= i < |t.conns| :: t.conns[i].phase != Connected
  {
    forall i | 0 <= i < |t.conns| ensures t.conns[i].phase != Connected {
      assert LifeOk(s, i);
    }
  }

  lemma EmptyMapKeepsLives(s: State, t: State)
    requires AllLivesOk(s) && forall i | 0 <= i < |s.conns| :: s.conns[i].phase != Connected
    requires t.conns == s.conns && t.functors == s.functors
    ensures AllLivesOk(t)
  {
    forall i | 0 <= i < |t.conns| ensures LifeOk(t, i) {
      assert LifeOk(s, i);
    }
  }

  lemma TeardownKeepsInv(s: State, order: seq<nat>)
    requires Inv(s) && Enabled(s, Teardown(order))
    ensures Inv(Step(s, Teardown(order)))
    ensures |Step(s, Teardown(order)).conns| == |s.conns| && Step(s, Teardown(order)).hostport == s.hostport
  {
    ListsAreUp(s, order);
    DestroyEachKeepsInv(s, order);
    var t := DestroyEach(s, order);
    AllDown(s, t, order);
    var u := t.(serving := false, connections := map[]);
    EmptyMapKeepsLives(t, u);
    hide DestroyEach, OpsInv, AllLivesOk, DistinctFds, Lists, ListsUp, Name;
    assert u == Step(s, Teardown(order));
  }

  // ---------------------------------------------------------------- every step

  lemma DispatchKeepsInv(s: State, id: nat, revents: Mask, n: int)
    requires Inv(s) && id < |s.conns| && s.conns[id].phase == Connected && !ClosesTwice(revents, n)
    ensures Inv(HandleEvent(s, id, revents, n))
    ensures |HandleEvent(s, id, revents, n).conns| == |s.conns|
    ensures HandleEvent(s, id, revents, n).hostport == s.hostport
  {
    CloseKeepsInv(s, id);
    hide Inv, HangsUp, Reads, HandleClose;
  }

  lemma StepKeepsInv(s: State, e: Event)
    requires Inv(s) && Benign([e]) && Fits(s.hostport, |Step(s, e).conns|)
    ensures Inv(Step(s, e)) && |Step(s, e).conns| >= |s.conns| && Step(s, e).hostport == s.hostport
  {
    hide Fits;
    if Enabled(s, e) {
      match e
      case Accept(fd) =>
        AcceptKeepsInv(s, fd);
      case Dispatch(id, revents, n) =>
        LifeAt(s, id);
        assert e in [e];
        DispatchKeepsInv(s, id, revents, n);
      case RunFunctor =>
        FunctorKeepsInv(s);
      case Teardown(order) =>
        TeardownKeepsInv(s, order);
    }
  }
}
