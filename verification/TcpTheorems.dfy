/** What holds of every connection in every run, and when. */
module TcpTheorems {
  import opened PollerMachine
  import opened ConnectionNames
  import opened TcpMachine
  import opened TcpSafety

  lemma {:induction false} RunKeepsInv(server: string, hostport: string, trace: seq<Event>)
    requires Benign(trace) && Fits(hostport, |Run(Init(server, hostport), trace).conns|)
    ensures Inv(Run(Init(server, hostport), trace)) && Run(Init(server, hostport), trace).hostport == hostport
  {
    hide Step, Fits;
    if trace != [] {
      var front, e := trace[..|trace| - 1], trace[|trace| - 1];
      var s := Run(Init(server, hostport), front);
      NeverFewer(s, e);
      FitsEarlier(hostport, |s.conns|, |Step(s, e).conns|);
      RunKeepsInv(server, hostport, front);
      hide Inv;
      StepKeepsInv(s, e);
    }
  }

  lemma {:induction false} DestroyEachKeepsCount(s: State, order: seq<nat>)
    ensures |DestroyEach(s, order).conns| == |s.conns|
  {
    if order != [] {
      DestroyEachKeepsCount(s, order[..|order| - 1]);
    }
  }

  lemma NeverFewer(s: State, e: Event)
    ensures |Step(s, e).conns| >= |s.conns|
  {
    if e.Teardown? {
      DestroyEachKeepsCount(s, e.order);
    }
  }

  /** A state some run reaches in which every name given out so far fits its buffer. */
  ghost predicate Reachable(s: State) {
    exists server, hostport, trace ::
      Benign(trace) && Fits(hostport, |Run(Init(server, hostport), trace).conns|)
      && s == Run(Init(server, hostport), trace)
  }

  lemma ReachableInv(s: State)
    requires Reachable(s)
    ensures Inv(s)
  {
    var server, hostport, trace :|
      Benign(trace) && Fits(hostport, |Run(Init(server, hostport), trace).conns|)
      && s == Run(Init(server, hostport), trace);
    RunKeepsInv(server, hostport, trace);
  }

  // ---------------------------------------------------------------- each connection

  /** While the server lives, a connection that is down has been erased from its map. */
  ghost predicate DownIsErased(s: State) {
    s.serving ==> forall i | 0 <= i < |s.conns| && s.conns[i].phase == Disconnected :: s.conns[i].erased == 1
  }

  lemma CloseKeepsErased(s: State, id: nat)
    requires Inv(s) && DownIsErased(s) && id < |s.conns| && s.conns[id].phase == Connected
    ensures DownIsErased(HandleClose(s, id))
  {
    CloseSteps(s, id);
    hide Inv, HandleClose;
  }

  lemma FunctorKeepsErased(s: State)
    requires Inv(s) && DownIsErased(s) && s.functors != [] && s.functors[0] < |s.conns|
    ensures DownIsErased(ConnectDestroyed(s.(functors := s.functors[1..]), s.functors[0]))
  {
    FunctorAt(s);
    FunctorSteps(s, s.functors[0]);
    hide Inv, ConnectDestroyed;
  }

  lemma DispatchKeepsErased(s: State, id: nat, revents: Mask, n: int)
    requires Inv(s) && DownIsErased(s) && id < |s.conns| && s.conns[id].phase == Connected
    requires !ClosesTwice(revents, n)
    ensures DownIsErased(HandleEvent(s, id, revents, n))
  {
    CloseKeepsErased(s, id);
    hide Inv, DownIsErased, HangsUp, Reads, HandleClose;
  }

  lemma StepKeepsErased(s: State, e: Event)
    requires Inv(s) && DownIsErased(s) && Benign([e])
    ensures DownIsErased(Step(s, e))
  {
    if Enabled(s, e) {
      match e
      case Accept(fd) =>
        var t := NewConnection(s, fd);
        assert forall i | 0 <= i < |s.conns| :: t.conns[i] == s.conns[i];
        hide Inv;
      case Dispatch(id, revents, n) =>
        LifeAt(s, id);
        assert e in [e];
        DispatchKeepsErased(s, id, revents, n);
      case RunFunctor =>
        FunctorKeepsErased(s);
      case Teardown(order) =>
        TeardownStops(s, order);
    }
  }

  lemma {:induction false} RunKeepsErased(server: string, hostport: string, trace: seq<Event>)
    requires Benign(trace) && Fits(hostport, |Run(Init(server, hostport), trace).conns|)
    ensures DownIsErased(Run(Init(server, hostport), trace))
  {
    hide Step, Fits, Inv;
    if trace != [] {
      var front, e := trace[..|trace| - 1], trace[|trace| - 1];
      var s := Run(Init(server, hostport), front);
      NeverFewer(s, e);
      FitsEarlier(hostport, |s.conns|, |Step(s, e).conns|);
      RunKeepsErased(server, hostport, front);
      RunKeepsInv(server, hostport, front);
      hide DownIsErased;
      StepKeepsErased(s, e);
    }
  }

  lemma ReachableErased(s: State)
    requires Reachable(s)
    ensures DownIsErased(s)
  {
    var server, hostport, trace :|
      Benign(trace) && Fits(hostport, |Run(Init(server, hostport), trace).conns|)
      && s == Run(Init(server, hostport), trace);
    RunKeepsErased(server, hostport, trace);
  }

  /** The destructor's loop erases nothing: the map goes as a whole. */
  lemma {:induction false} DestroyEachErasesNone(s: State, order: seq<nat>, i: nat)
    requires i < |s.conns|
    ensures |DestroyEach(s, order).conns| == |s.conns| && DestroyEach(s, order).conns[i].erased == s.conns[i].erased
  {
    if order != [] {
      DestroyEachErasesNone(s, order[..|order| - 1], i);
    }
  }

  /** A step erases a connection exactly when it is the dispatch that closes it. */
  lemma ErasedExactlyWhenClosed(s: State, e: Event, i: nat)
    requires Reachable(s) && Benign([e]) && i < |s.conns|
    ensures var t := Step(s, e);
            && i < |t.conns|
            && t.conns[i].erased == s.conns[i].erased + (if ClosedBy(s, e, i) then 1 else 0)
  {
    hide Inv, Reachable, HandleEvent, ConnectDestroyed, DestroyEach, ClosesTwice;
    if Enabled(s, e) {
      ReachableInv(s);
      match e
      case Accept(_) =>
      case Dispatch(id, revents, n) =>
        WatchedIsUp(s, id);
        assert e in [e];
        DispatchErases(s, id, revents, n, i);
      case RunFunctor =>
        FunctorAt(s);
        FunctorSteps(s, s.functors[0]);
      case Teardown(order) =>
        DestroyEachErasesNone(s, order, i);
    }
  }

  lemma WatchedIsUp(s: State, id: nat)
    requires Inv(s) && id < |s.conns| && s.conns[id].events != NONE_EVENT
    ensures s.conns[id].phase == Connected
  {
    LifeAt(s, id);
  }

  lemma DispatchErases(s: State, id: nat, revents: Mask, n: int, i: nat)
    requires Reachable(s) && id < |s.conns| && s.conns[id].phase == Connected && i < |s.conns|
    requires !ClosesTwice(revents, n)
    ensures var t := HandleEvent(s, id, revents, n);
            var endOfFile := (revents & POLLIN != 0 || revents & POLLPRI != 0 || revents & POLLRDHUP != 0) && n == 0;
            var hangUp := revents & POLLHUP != 0 && revents & POLLIN == 0;
            && i < |t.conns|
            && t.conns[i].erased == s.conns[i].erased + (if i == id && (endOfFile || hangUp) then 1 else 0)
  {
    ReadBits(revents);
    hide Reachable, HandleEvent, Reads;
    DispatchExactly(s, id, revents, n);
    assert s.conns[id].erased == 0 by {
      ReportedOnce(s, id);
    }
  }

  /** The event is a dispatch to connection i, which is up, of a hang-up without input or of end-of-file. */
  ghost predicate ClosedBy(s: State, e: Event, i: nat) {
    && Enabled(s, e) && e.Dispatch? && e.id == i
    && ((e.revents & POLLHUP != 0 && e.revents & POLLIN == 0)
        || ((e.revents & POLLIN != 0 || e.revents & POLLPRI != 0 || e.revents & POLLRDHUP != 0) && e.n == 0))
  }

  /**
   One report up, and one report down exactly when it is down. While the server lives, and so until its destructor
   takes down what is left, one erasure exactly when it is down. At most one removal, and only when down and disabled.
   */
  lemma ReportedOnce(s: State, i: nat)
    requires Reachable(s) && i < |s.conns|
    ensures var c := s.conns[i];
            && c.ups == 1
            && c.downs == (if c.phase == Disconnected then 1 else 0)
            && c.erased <= 1 && c.removed <= 1
            && (s.serving ==> c.erased == if c.phase == Disconnected then 1 else 0)
            && (c.phase != Disconnected ==> c.erased == 0)
            && (c.removed == 1 ==> c.phase == Disconnected && c.events == NONE_EVENT)
  {
    ReachableInv(s);
    ReachableErased(s);
    LifeAt(s, i);
    hide Reachable, Inv;
  }

  /** A connection is in the map while it is up, and only then; erasing it always finds it. */
  lemma InMapWhileUp(s: State, i: nat)
    requires Reachable(s) && i < |s.conns|
    ensures var c := s.conns[i];
            c.phase == Connected <==> c.name in s.connections && s.connections[c.name] == i
  {
    ReachableInv(s);
    LifeAt(s, i);
  }

  /**
   Every assert of TcpConnection, TcpServer and Channel has held, and whatever the poller may still report is alive.
   EventLoop::removeChannel asserts more of a removal during event handling, and there is none.
   */
  ghost predicate Safe(s: State) {
    s.ok && forall i: nat :: Registered(s, i) ==> Owned(s, i)
  }

  lemma ReachableIsSafe(s: State)
    requires Reachable(s)
    ensures Safe(s)
  {
    ReachableInv(s);
    forall i: nat | Registered(s, i) ensures Owned(s, i) {
      RegisteredIsOwned(s, i);
    }
  }

  /** A dispatch to a connection that is up keeps every assert exactly when it does not close twice. */
  lemma ClosesTwiceExactly(s: State, id: nat, revents: Mask, n: int)
    requires Reachable(s) && id < |s.conns| && s.conns[id].phase == Connected
    ensures HandleEvent(s, id, revents, n).ok <==> !ClosesTwice(revents, n)
  {
    ReachableInv(s);
    CloseKeepsInv(s, id);
    hide Inv, HangsUp, Reads;
    assert HandleClose(s, id).ok by {
      LifeAt(s, id);
      CloseSteps(s, id);
    }
  }

  /** A dispatch closes the connection exactly on a hang-up without data or on end-of-file, and touches no other. */
  lemma ClosedExactlyWhen(s: State, id: nat, revents: Mask, n: int)
    requires Reachable(s) && id < |s.conns| && s.conns[id].phase == Connected && !ClosesTwice(revents, n)
    ensures var t := HandleEvent(s, id, revents, n);
            && |t.conns| == |s.conns|
            && (t.conns[id].phase == Disconnected <==> HangsUp(revents) || (Reads(revents) && n == 0))
            && (t.conns[id].phase != Disconnected ==> t == s)
            && (forall i | 0 <= i < |s.conns| && i != id :: t.conns[i] == s.conns[i])
  {
    ReachableInv(s);
    CloseSteps(s, id);
    hide Inv, HangsUp, Reads, HandleClose, Reachable;
  }

  /** The connection is turned down, reported, disabled, taken out of the map and queued for connectDestroyed. */
  ghost predicate TurnedDown(s: State, t: State, id: nat)
    requires id < |s.conns|
  {
    var c := s.conns[id];
    && t.ok
    && t.conns == s.conns[id := c.(phase := Disconnected, events := 0, downs := 1, erased := 1)]
    && t.connections == s.connections - {c.name}
    && t.functors == s.functors + [id]
    && t.ops == s.ops + [Update(Chan(id, c.fd), 0)]
  }

  lemma ReadBits(revents: Mask)
    ensures Reads(revents) <==> revents & POLLIN != 0 || revents & POLLPRI != 0 || revents & POLLRDHUP != 0
  {
  }

  lemma CloseTurnsDown(s: State, id: nat)
    requires Reachable(s) && id < |s.conns| && s.conns[id].phase == Connected
    ensures s.ok && TurnedDown(s, HandleClose(s, id), id)
  {
    ReachableInv(s);
    LifeAt(s, id);
    assert s.ok;
    CloseSteps(s, id);
    hide Inv, Reachable, HandleClose;
  }

  /**
   What a dispatch does to a connection that is up, by the bits reported and the result of read. End-of-file on input,
   urgent data or a half-close turns it down, and so does a hang-up without input; both at once fail an assert; and
   nothing else does anything.
   */
  lemma DispatchExactly(s: State, id: nat, revents: Mask, n: int)
    requires Reachable(s) && id < |s.conns| && s.conns[id].phase == Connected
    ensures var endOfFile := (revents & POLLIN != 0 || revents & POLLPRI != 0 || revents & POLLRDHUP != 0) && n == 0;
            var hangUp := revents & POLLHUP != 0 && revents & POLLIN == 0;
            var t := HandleEvent(s, id, revents, n);
            if endOfFile && hangUp then !t.ok
            else if endOfFile || hangUp then TurnedDown(s, t, id)
            else t == s
  {
    hide Reads, Reachable, TurnedDown;
    ReadBits(revents);
    CloseTurnsDown(s, id);
    var t := HandleClose(s, id);
    assert t.ok && id < |t.conns| && t.conns[id].phase == Disconnected by {
      TurnedDownFacts(s, t, id);
    }
    hide RemoveConnection, Disconnect;
  }

  lemma TurnedDownFacts(s: State, t: State, id: nat)
    requires id < |s.conns| && TurnedDown(s, t, id)
    ensures t.ok && |t.conns| == |s.conns| && t.conns[id].phase == Disconnected
  {
  }

  /**
   Accepting adds one connection, up and watched for input and urgent data, reported up, and in the map under a name
   made of its number. Nothing else is touched.
   */
  lemma AcceptExactly(s: State, fd: nat)
    requires Reachable(s) && Enabled(s, Accept(fd))
    ensures var t, id := Step(s, Accept(fd)), |s.conns|;
            var name := Name(s.server, s.hostport, id + 1);
            && t.conns == s.conns + [Conn(name, fd, Connected, POLLIN | POLLPRI, 1, 0, 0, 0)]
            && t.connections == s.connections[name := id]
            && t.ops == s.ops + [Update(Chan(id, fd), POLLIN | POLLPRI)]
            && t.functors == s.functors && t.serving && t.ok
  {
    hide Run, Name;
    ReachableInv(s);
  }

  /**
   The functor that has waited longest runs: it takes the channel of its connection, which is down, out of the poller.
   Nothing else is touched.
   */
  lemma FunctorExactly(s: State)
    requires Reachable(s) && Enabled(s, RunFunctor)
    ensures var t, id := Step(s, RunFunctor), s.functors[0];
            var c := s.conns[id];
            && c.phase == Disconnected && c.removed == 0
            && t.conns == s.conns[id := c.(removed := 1)]
            && t.ops == s.ops + [Remove(Chan(id, c.fd))]
            && t.functors == s.functors[1..]
            && t.connections == s.connections && t.serving == s.serving && t.ok
  {
    hide Step, ConnectDestroyed, Run;
    ReachableInv(s);
    hide Reachable, Enabled;
    FirstInQueue(s);
    RunFunctorIs(s);
    hide Inv;
    RemovesFirst(s);
  }

  lemma FirstInQueue(s: State)
    requires Inv(s) && s.functors != []
    ensures s.ok && s.functors[0] < |s.conns|
    ensures var c := s.conns[s.functors[0]]; c.phase == Disconnected && c.removed == 0 && c.events == 0
  {
    hide LifeOk, OpsInv, DistinctFds, Named, MapHoldsUp;
    assert s.functors[0] in s.functors;
    LifeAt(s, s.functors[0]);
    hide Inv;
    QueuedLife(s, s.functors[0]);
  }

  lemma QueuedLife(s: State, i: nat)
    requires i < |s.conns| && LifeOk(s, i) && i in s.functors && s.conns[i].phase == Disconnected
    ensures s.conns[i].removed == 0 && s.conns[i].events == 0
  {
  }

  lemma RemovesFirst(s: State)
    requires s.functors != [] && s.functors[0] < |s.conns|
    requires var c := s.conns[s.functors[0]]; c.phase == Disconnected && c.removed == 0 && c.events == 0
    ensures var id := s.functors[0]; var c := s.conns[id];
            ConnectDestroyed(s.(functors := s.functors[1..]), id)
            == s.(functors := s.functors[1..], conns := s.conns[id := c.(removed := 1)],
                  ops := s.ops + [Remove(Chan(id, c.fd))])
  {
  }

  /** The ordinary close by the peer: input is reported, and there is none. */
  lemma PeerCloses(server: string, hostport: string)
    ensures var s := Run(Init(server, hostport), [Accept(0), Dispatch(0, POLLIN, 0)]);
            |s.conns| == 1 && s.conns[0].phase == Disconnected && s.conns[0].erased == 1 && s.functors == [0]
  {
    var accept, dispatch := Accept(0), Dispatch(0, POLLIN, 0);
    var s, t := Init(server, hostport), NewConnection(Init(server, hostport), 0);
    assert Step(s, accept) == t;
    assert [accept, dispatch][..1] == [accept] && [accept][..0] == [];
    assert Run(s, [accept]) == Step(Run(s, []), accept);
    assert Run(s, [accept, dispatch]) == Step(t, dispatch);
    assert Reachable(t) by {
      assert Benign([accept]) && Fits(hostport, |Run(s, [accept]).conns|);
    }
    DispatchExactly(t, 0, POLLIN, 0);
    assert Enabled(t, dispatch);
  }

  /** Of what poll and epoll can deliver to a connection that is up, only POLLPRI does it. */
  lemma ClosesTwiceDelivered(revents: Mask, n: int)
    requires Deliverable(revents, READ_EVENT)
    ensures ClosesTwice(revents, n) <==>
              revents & POLLHUP != 0 && revents & POLLIN == 0 && revents & POLLPRI != 0 && n == 0
  {
  }

  /** A run that fails: accept, then a hang-up with urgent data and nothing left to read. */
  lemma DoubleCloseFails(server: string, hostport: string)
    ensures var trace := [Accept(0), Dispatch(0, POLLHUP | POLLPRI, 0)];
            Run(Init(server, hostport), trace[..1]).ok && !Run(Init(server, hostport), trace).ok
  {
    var accept, dispatch := Accept(0), Dispatch(0, POLLHUP | POLLPRI, 0);
    var s, t := Init(server, hostport), NewConnection(Init(server, hostport), 0);
    assert Step(s, accept) == t;
    assert [accept, dispatch][..1] == [accept] && [accept][..0] == [];
    assert Run(s, [accept]) == Step(Run(s, []), accept);
    assert Run(s, [accept, dispatch]) == Step(t, dispatch);
    assert Reachable(t) by {
      assert Benign([accept]) && Fits(hostport, |Run(s, [accept]).conns|);
    }
    ClosesTwiceExactly(t, 0, POLLHUP | POLLPRI, 0);
    assert Enabled(t, dispatch);
  }

  // ---------------------------------------------------------------- the poller

  /** The channel the poller holds under a descriptor, if any, and its connection. */
  lemma InterestIsUp(s: State, fd: int)
    requires Inv(s)
    ensures fd in EpollAfter(s.ops).kernel
        <==> exists i :: 0 <= i < |s.conns| && s.conns[i].phase == Connected && s.conns[i].fd == fd
    ensures fd in EpollAfter(s.ops).kernel ==> EpollAfter(s.ops).kernel[fd] == READ_EVENT
  {
    var p, e := PollAfter(s.ops), EpollAfter(s.ops);
    HistorySimulates(s.ops);
    InterestHas(p.slots, fd);
    hide PollAfter, EpollAfter, Interest, Proper;
    if fd in e.kernel {
      var c := p.channels[fd];
      assert Knows(p, e, c, StageAfter(s.ops, c)) && StageAfter(s.ops, c) == StageOf(s.conns, c);
      LifeAt(s, c.id);
    }
    forall i | 0 <= i < |s.conns| && s.conns[i].phase == Connected && s.conns[i].fd == fd ensures fd in e.kernel {
      LifeAt(s, i);
      var c := Chan(i, fd);
      assert Knows(p, e, c, StageAfter(s.ops, c)) && StageAfter(s.ops, c) == StageOf(s.conns, c);
    }
  }

  /**
   The calls the connections make keep the asserts of both pollers, and the two would watch the same: exactly the
   connections that are up, each for reading. So a channel is disabled before it is removed, and removed once.
   */
  lemma WatchedExactlyWhileUp(s: State)
    requires Reachable(s)
    ensures BothRun(s.ops) && AlwaysAgree(s.ops)
    ensures forall fd :: fd in EpollAfter(s.ops).kernel
              <==> exists i :: 0 <= i < |s.conns| && s.conns[i].phase == Connected && s.conns[i].fd == fd
    ensures forall fd | fd in EpollAfter(s.ops).kernel :: EpollAfter(s.ops).kernel[fd] == READ_EVENT
  {
    ReachableInv(s);
    PollersAgreeExactly(s.ops);
    forall fd: int
      ensures fd in EpollAfter(s.ops).kernel
          <==> exists i :: 0 <= i < |s.conns| && s.conns[i].phase == Connected && s.conns[i].fd == fd
      ensures fd in EpollAfter(s.ops).kernel ==> EpollAfter(s.ops).kernel[fd] == READ_EVENT
    {
      InterestIsUp(s, fd);
    }
  }

  // ---------------------------------------------------------------- the end

  lemma NoneRegistered(ops: seq<Op>, conns: seq<Conn>)
    requires OpsInv(ops, conns) && forall i | 0 <= i < |conns| :: conns[i].removed != 0
    ensures PollAfter(ops).channels == map[] && EpollAfter(ops).channels == map[]
  {
    var p, e := PollAfter(ops), EpollAfter(ops);
    HistorySimulates(ops);
    hide PollAfter, EpollAfter, Interest, Proper;
    forall c ensures !Holds(p.channels, c) {
      assert Knows(p, e, c, StageAfter(ops, c)) && StageAfter(ops, c) == StageOf(conns, c);
    }
    assert forall fd :: fd in p.channels ==> Holds(p.channels, p.channels[fd]);
    assert forall fd :: fd !in p.channels;
  }

  /** Connection i has been reported up and down once, removed once, and nothing holds it. */
  ghost predicate Gone(s: State, i: nat)
    requires i < |s.conns|
  {
    var c := s.conns[i];
    c.ups == 1 && c.downs == 1 && c.removed == 1 && c.erased <= 1 && !Owned(s, i)
  }

  lemma NothingLeft(s: State)
    requires Inv(s) && !s.serving && s.functors == []
    ensures forall i | 0 <= i < |s.conns| :: Gone(s, i)
    ensures PollAfter(s.ops).channels == map[] && EpollAfter(s.ops).channels == map[]
  {
    forall i | 0 <= i < |s.conns| ensures Gone(s, i) && s.conns[i].removed != 0 {
      LifeAt(s, i);
    }
    hide Gone, LifeOk;
    NoneRegistered(s.ops, s.conns);
  }

  function Drain(k: nat): (trace: seq<Event>)
    ensures |trace| == k
  {
    if k == 0 then [] else Drain(k - 1) + [RunFunctor]
  }

  lemma {:induction false} DrainRuns(s: State, k: nat)
    requires Inv(s) && k <= |s.functors|
    ensures var t := Run(s, Drain(k));
            Inv(t) && t.functors == s.functors[k..] && t.serving == s.serving && |t.conns| == |s.conns|
  {
    if k > 0 {
      DrainRuns(s, k - 1);
      assert Drain(k)[..k - 1] == Drain(k - 1);
      var t := Run(s, Drain(k - 1));
      RunFunctorKeepsInv(t);
      hide Inv, Step;
      assert t.functors[1..] == s.functors[k..];
    }
  }

  lemma RunFunctorKeepsInv(s: State)
    requires Inv(s) && s.functors != []
    ensures var t := Step(s, RunFunctor);
            Inv(t) && t.functors == s.functors[1..] && t.serving == s.serving && |t.conns| == |s.conns|
  {
    FunctorAt(s);
    FunctorKeepsInv(s);
    hide Inv;
    FunctorSteps(s, s.functors[0]);
    RunFunctorIs(s);
    hide Step, ConnectDestroyed;
  }

  lemma RunFunctorIs(s: State)
    requires s.ok && s.functors != [] && s.functors[0] < |s.conns|
    ensures Step(s, RunFunctor) == ConnectDestroyed(s.(functors := s.functors[1..]), s.functors[0])
  {
  }

  /**
   Destroying the server, in whatever order its map lists, and running the functors left over ends every connection
   ever accepted: reported up and down once, out of the poller once, held by nothing.
   */
  lemma ShutdownEndsAll(s: State, order: seq<nat>)
    requires Reachable(s) && Enabled(s, Teardown(order))
    ensures var t := Run(Step(s, Teardown(order)), Drain(|s.functors|));
            && |t.conns| == |s.conns| && (forall i | 0 <= i < |t.conns| :: Gone(t, i))
            && PollAfter(t.ops).channels == map[] && EpollAfter(t.ops).channels == map[]
  {
    ReachableInv(s);
    TeardownKeepsInv(s, order);
    TeardownStops(s, order);
    var u := Step(s, Teardown(order));
    DrainRuns(u, |u.functors|);
    hide Inv, Step, Run;
    NothingLeft(Run(u, Drain(|u.functors|)));
  }

  lemma TeardownStops(s: State, order: seq<nat>)
    requires Inv(s) && Enabled(s, Teardown(order))
    ensures var t := Step(s, Teardown(order)); !t.serving && t.functors == s.functors
  {
    ListsAreUp(s, order);
    DestroyEachKeepsInv(s, order);
    hide Inv, DestroyEach, Lists;
  }

  // ---------------------------------------------------------------- how long names stay distinct

  function Accepts(m: nat): (trace: seq<Event>)
    ensures |trace| == m && Benign(trace)
  {
    if m == 0 then [] else Accepts(m - 1) + [Accept(m - 1)]
  }

  /** After m connections and nothing else: all up, on descriptors 0 to m - 1. */
  ghost predicate AllUp(s: State, m: nat) {
    && s.ok && s.serving && s.functors == [] && |s.conns| == m && s.nextConnId == m + 1
    && (forall i | 0 <= i < m ::
          && s.conns[i].fd == i && s.conns[i].removed == 0
          && s.conns[i].name == Name(s.server, s.hostport, i + 1))
    && (forall name | name in s.connections ::
          s.connections[name] < m && s.conns[s.connections[name]].name == name)
    && (m > 0 ==> s.conns[m - 1].name in s.connections && s.connections[s.conns[m - 1].name] == m - 1)
  }

  lemma AcceptKeepsAllUp(s: State, m: nat)
    requires AllUp(s, m)
    ensures AllUp(Step(s, Accept(m)), m + 1)
    ensures Step(s, Accept(m)).server == s.server && Step(s, Accept(m)).hostport == s.hostport
  {
    hide Name;
    assert FreshFd(s, m);
    var t := NewConnection(s, m);
    assert forall i | 0 <= i < m :: t.conns[i] == s.conns[i];
  }

  lemma {:induction false} AcceptsReach(server: string, hostport: string, m: nat)
    ensures var s := Run(Init(server, hostport), Accepts(m));
            AllUp(s, m) && s.server == server && s.hostport == hostport
  {
    hide AllUp, Step;
    if m > 0 {
      AcceptsReach(server, hostport, m - 1);
      var trace := Accepts(m);
      assert trace[..m - 1] == Accepts(m - 1) && trace[m - 1] == Accept(m - 1);
      AcceptKeepsAllUp(Run(Init(server, hostport), Accepts(m - 1)), m - 1);
    } else {
      assert AllUp(Init(server, hostport), 0) by {
        AllUpAtFirst(server, hostport);
      }
    }
  }

  lemma AllUpAtFirst(server: string, hostport: string)
    ensures AllUp(Init(server, hostport), 0)
  {
  }

  /** A later connection of the same name takes the map entry, and nothing holds the earlier one any more. */
  lemma CollisionOrphans(s: State, m: nat, i: nat)
    requires AllUp(s, m) && 1 <= i < m
    requires Name(s.server, s.hostport, i) == Name(s.server, s.hostport, m)
    ensures Registered(s, i - 1) && !Owned(s, i - 1)
  {
    hide Name;
    assert s.conns[i - 1].name == s.conns[m - 1].name;
  }

  /**
   Runs with at most n connections are safe, whatever else happens in them, exactly when the n-th name fits its
   buffer.
   */
  lemma SafeExactly(server: string, hostport: string, n: nat)
    ensures (forall trace :: Benign(trace) && |Run(Init(server, hostport), trace).conns| <= n
                             ==> Safe(Run(Init(server, hostport), trace)))
        <==> Fits(hostport, n)
  {
    hide Safe, Run, AllUp, Name, Fits;
    if Fits(hostport, n) {
      forall trace | Benign(trace) && |Run(Init(server, hostport), trace).conns| <= n
        ensures Safe(Run(Init(server, hostport), trace))
      {
        FitsEarlier(hostport, |Run(Init(server, hostport), trace).conns|, n);
        ReachableIsSafe(Run(Init(server, hostport), trace));
      }
    } else {
      UnsafeRun(server, hostport, n);
    }
  }

  lemma UnsafeRun(server: string, hostport: string, n: nat)
    requires !Fits(hostport, n)
    ensures exists trace :: Benign(trace) && |Run(Init(server, hostport), trace).conns| <= n
                            && !Safe(Run(Init(server, hostport), trace))
  {
    hide Run, Name;
    var i, j := Collision(server, hostport, n);
    AcceptsReach(server, hostport, j);
    var s := Run(Init(server, hostport), Accepts(j));
    CollisionOrphans(s, j, i);
  }
}
