/**
 EventLoop.cpp in its own form. The methods are the loop thread's; what other threads and user code do
 between its accesses is a script, and each method is the run of the machine that its trace spells out.
 */
module EventLoops {
  import opened EventLoopMachine
  import opened EventLoopTheorems

  /** An access by a thread other than the loop's. */
  predicate IsForeign(e: Event) {
    match e
    case Push(tid, _) => tid != LOOP
    case RequestQuit(tid) => tid != LOOP
    case Wakeup(tid) => tid != LOOP
    case _ => false
  }

  /** What may happen while the loop thread is in user code: calls from it, and foreign accesses. */
  predicate IsUser(e: Event) {
    IsForeign(e) || e.LoopPush? || e.LoopQuit?
  }

  /** A call of queueInLoop from the loop thread is two accesses, the second a wakeup where one is due. */
  function Accesses(e: Event): seq<Event> {
    if e.LoopPush? then [e, Wakeup(LOOP)] else [e]
  }

  function Trace(script: seq<Event>): seq<Event> {
    if script == [] then [] else Trace(script[..|script| - 1]) + Accesses(script[|script| - 1])
  }

  /**
   One iteration of loop(): what happens during the poll, in the handlers before and after the wakeup channel's, at
   the swap, and in each functor.
   */
  datatype Iteration = Iteration(
    poll: seq<Event>,
    earlier: seq<Event>,
    handlers: seq<Event>,
    swap: seq<Event>,
    functors: seq<seq<Event>>)

  predicate IsIteration(i: Iteration) {
    && (forall e | e in i.poll + i.swap :: IsForeign(e))
    && (forall e | e in i.earlier + i.handlers :: IsUser(e))
    && (forall k, e | 0 <= k < |i.functors| && e in i.functors[k] :: IsUser(e))
  }

  class EventLoop {
    var quit: bool
    var callingPendingFunctors: bool
    var pendingFunctors: seq<Task>
    var wakeupCounter: nat
    var wakeupReported: bool
    // The other threads' progress, and the number of batches taken so far.
    var owing: set<Tid>
    var swaps: nat

    ghost var pc: Pc
    ghost var batch: seq<Task>
    ghost var next: nat
    ghost var base: nat
    ghost var pushed: seq<Task>
    ghost var executed: seq<Execution>
    ghost var early: bool

    ghost function Model(): State
      reads this
    {
      State(pc, quit, callingPendingFunctors, pendingFunctors, batch, next, wakeupCounter, wakeupReported,
            owing, swaps, base, pushed, executed, early)
    }

    constructor ()
      ensures Model() == Init()
    {
      quit, callingPendingFunctors, pendingFunctors, wakeupCounter, wakeupReported := false, false, [], 0, false;
      swaps, pc, batch, next, owing, base, pushed, executed, early := 0, BeforeLoop, [], 0, {}, 0, [], [], false;
    }

    /** A write of the eventfd by `tid`. */
    method WriteWakeup(tid: Tid)
      requires tid in owing
      modifies this`wakeupCounter, this`owing
      ensures Model() == Step(old(Model()), Event.Wakeup(tid)) && owing == old(owing) - {tid}
    {
      if wakeupCounter < EVENTFD_MAX {
        wakeupCounter := wakeupCounter + 1;
      }
      owing := owing - {tid};
    }

    /** queueInLoop as the loop thread calls it. */
    method QueueInLoop(functor: nat)
      requires LOOP !in owing && InUserCode(Model())
      modifies this`pendingFunctors, this`pushed, this`wakeupCounter, this`owing, this`early
      ensures Model() == Run(old(Model()), Accesses(LoopPush(functor)))
      ensures LOOP !in owing && old(pendingFunctors) <= pendingFunctors
      ensures pendingFunctors == old(pendingFunctors) + [Task(functor, LOOP, swaps)]
    {
      hide Run, Step;
      ghost var before := Model();
      LoopPushIs(before, functor);
      var task := Task(functor, LOOP, swaps);
      pendingFunctors := pendingFunctors + [task];
      pushed := pushed + [task];
      if callingPendingFunctors {
        owing := owing + {LOOP};
      } else {
        early := early || pc == BeforeLoop;
      }
      assert Model() == Step(before, LoopPush(functor));
      RunTwo(before, LoopPush(functor), Event.Wakeup(LOOP));
      if callingPendingFunctors {
        WriteWakeup(LOOP);
      }
    }

    /** An access by another thread. */
    method Foreign(e: Event)
      requires IsForeign(e)
      modifies this`pendingFunctors, this`pushed, this`quit, this`wakeupCounter, this`owing
      ensures Model() == Step(old(Model()), e)
      ensures (LOOP in owing <==> LOOP in old(owing)) && old(pendingFunctors) <= pendingFunctors
      ensures quit == (old(quit) || (e.RequestQuit? && e.tid !in old(owing)))
      ensures pendingFunctors == if e.Push? && e.tid !in old(owing)
                                 then old(pendingFunctors) + [Task(e.functor, e.tid, swaps)]
                                 else old(pendingFunctors)
    {
      match e
      case Push(tid, functor) =>
        if tid !in owing {
          pendingFunctors := pendingFunctors + [Task(functor, tid, swaps)];
          pushed := pushed + [Task(functor, tid, swaps)];
          owing := owing + {tid};
        }
      case RequestQuit(tid) =>
        if tid !in owing {
          quit := true;
          owing := owing + {tid};
        }
      case Wakeup(tid) =>
        if tid in owing {
          WriteWakeup(tid);
        }
    }

    /** One action while the loop thread is in user code; EventLoop::quit from there only sets the flag. */
    method User(e: Event)
      requires IsUser(e) && LOOP !in owing && InUserCode(Model())
      modifies this`pendingFunctors, this`pushed, this`quit, this`wakeupCounter, this`owing, this`early
      ensures Model() == Run(old(Model()), Accesses(e))
      ensures LOOP !in owing && old(pendingFunctors) <= pendingFunctors
      ensures e.LoopQuit? ==> quit
      ensures e.LoopPush? ==> pendingFunctors == old(pendingFunctors) + [Task(e.functor, LOOP, swaps)]
    {
      RunTwo(Model(), e, e);
      if e.LoopPush? {
        QueueInLoop(e.functor);
      } else if e.LoopQuit? {
        quit := true;
      } else {
        Foreign(e);
      }
    }

    method UserCode(script: seq<Event>)
      requires (forall e | e in script :: IsUser(e)) && LOOP !in owing && InUserCode(Model())
      modifies this`pendingFunctors, this`pushed, this`quit, this`wakeupCounter, this`owing, this`early
      ensures Model() == Run(old(Model()), Trace(script))
      ensures LOOP !in owing && old(pendingFunctors) <= pendingFunctors
    {
      ghost var before := Model();
      for k := 0 to |script|
        invariant Model() == Run(before, Trace(script[..k]))
        invariant LOOP !in owing && before.pending <= pendingFunctors
      {
        assert script[..k + 1][..k] == script[..k];
        RunAppend(before, Trace(script[..k]), Accesses(script[k]));
        User(script[k]);
      }
      assert script[..|script|] == script;
    }

    method Others(script: seq<Event>)
      requires (forall e | e in script :: IsForeign(e)) && LOOP !in owing
      modifies this`pendingFunctors, this`pushed, this`quit, this`wakeupCounter, this`owing
      ensures Model() == Run(old(Model()), script)
      ensures LOOP !in owing && old(pendingFunctors) <= pendingFunctors
    {
      ghost var before := Model();
      for k := 0 to |script|
        invariant Model() == Run(before, script[..k])
        invariant LOOP !in owing && before.pending <= pendingFunctors
      {
        assert script[..k + 1] == script[..k] + [script[k]];
        RunSnoc(before, script[..k], script[k]);
        Foreign(script[k]);
      }
      assert script[..|script|] == script;
    }

    /** The wakeup channel's read callback: reading an eventfd takes its whole count. */
    method HandleRead()
      requires pc == Handling && wakeupReported && LOOP !in owing
      modifies this`wakeupCounter, this`wakeupReported
      ensures Model() == Step(old(Model()), ReadWakeup) && !wakeupReported && wakeupCounter == 0
    {
      wakeupCounter := 0;
      wakeupReported := false;
    }

    /** The critical section of doPendingFunctors. */
    method SwapFunctors() returns (functors: seq<Task>)
      requires pc == Swapping && LOOP !in owing && callingPendingFunctors
      modifies this`pendingFunctors, this`swaps, this`batch, this`next, this`base, this`early, this`pc
      ensures Model() == Step(old(Model()), Swap)
      ensures pc == Running && next == 0 && functors == batch == old(pendingFunctors)
    {
      SwapIs(Model());
      hide Step;
      functors := pendingFunctors;
      pendingFunctors := [];
      swaps, batch, next, base, early, pc := swaps + 1, functors, 0, |executed|, false, Running;
    }

    /** doPendingFunctors up to its loop; other threads may queue between its two accesses. */
    method TakeFunctors(atSwap: seq<Event>) returns (functors: seq<Task>, ghost trace: seq<Event>)
      requires pc == Handling && !wakeupReported && LOOP !in owing && !callingPendingFunctors
      requires forall e | e in atSwap :: IsForeign(e)
      modifies this
      ensures Model() == Run(old(Model()), trace)
      ensures pc == Running && callingPendingFunctors && LOOP !in owing && !wakeupReported && next == 0
      ensures functors == batch && old(pendingFunctors) <= batch && executed == old(executed)
    {
      hide Run, Step;
      ghost var before := Model();
      EndHandlingIs(before);
      callingPendingFunctors, pc := true, Swapping;
      RunTwo(before, EndHandling, EndHandling);
      RunAppend(before, [EndHandling], atSwap);
      Others(atSwap);
      trace := [EndHandling] + atSwap;
      RunSnoc(before, trace, Swap);
      functors := SwapFunctors();
      trace := trace + [Swap];
    }

    /** One functor of the batch. */
    method RunOne(functors: seq<Task>, k: nat, script: seq<Event>) returns (ghost trace: seq<Event>)
      requires pc == Running && callingPendingFunctors && batch == functors && next == k < |functors|
      requires LOOP !in owing && !wakeupReported
      requires forall e | e in script :: IsUser(e)
      modifies this
      ensures Model() == Run(old(Model()), trace)
      ensures pc == Running && callingPendingFunctors && batch == functors && next == k + 1
      ensures LOOP !in owing && !wakeupReported
      ensures Tasks(executed) == Tasks(old(executed)) + [functors[k]]
    {
      hide Run;
      ghost var before := Model();
      RunTwo(before, RunFunctor, RunFunctor);
      executed := executed + [Execution(functors[k], swaps)];
      next := next + 1;
      assert Model() == Step(before, RunFunctor);
      RunAppend(before, [RunFunctor], Trace(script));
      UserCode(script);
      trace := [RunFunctor] + Trace(script);
    }

    /**
     Takes the pending functors under the lock and runs them. The functors run are exactly those pending
     at the swap, in order; what they and other threads queue meanwhile is left for the next call.
     */
    method DoPendingFunctors(atSwap: seq<Event>, scripts: seq<seq<Event>>) returns (ghost trace: seq<Event>)
      requires pc == Handling && !wakeupReported && LOOP !in owing && !callingPendingFunctors
      requires forall e | e in atSwap :: IsForeign(e)
      requires forall k, e | 0 <= k < |scripts| && e in scripts[k] :: IsUser(e)
      modifies this
      ensures Model() == Run(old(Model()), trace)
      ensures pc == Top && LOOP !in owing && !callingPendingFunctors && !wakeupReported
      ensures old(pendingFunctors) <= batch
      ensures Tasks(executed) == Tasks(old(executed)) + batch
    {
      hide Run, Tasks;
      ghost var before := Model();
      var functors;
      functors, trace := TakeFunctors(atSwap);
      for k := 0 to |functors|
        invariant Model() == Run(before, trace)
        invariant pc == Running && callingPendingFunctors && batch == functors && next == k
        invariant LOOP !in owing && !wakeupReported
        invariant Tasks(executed) == Tasks(before.executed) + functors[..k]
      {
        ghost var more := RunOne(functors, k, if k < |scripts| then scripts[k] else []);
        RunAppend(before, trace, more);
        trace := trace + more;
      }
      RunSnoc(before, trace, EndRunning);
      callingPendingFunctors, pc := false, Top;
      trace := trace + [EndRunning];
      assert functors[..|functors|] == functors;
    }

    /** poll returns: a level-triggered poller reports the wakeup channel when the eventfd is readable. */
    method ReturnFromPoll()
      requires pc == Polling && LOOP !in owing
      modifies this`wakeupReported, this`pc
      ensures Model() == Step(old(Model()), PollReturn)
      ensures pc == Handling && wakeupReported == (wakeupCounter > 0)
    {
      wakeupReported, pc := wakeupCounter > 0, Handling;
    }

    /** poll and the event handlers, the wakeup channel's anywhere among them: loop() from line 95 to line 111. */
    method PollAndHandle(poll: seq<Event>, earlier: seq<Event>, handlers: seq<Event>) returns (ghost trace: seq<Event>)
      requires pc == Polling && !wakeupReported && LOOP !in owing && !callingPendingFunctors
      requires (forall e | e in poll :: IsForeign(e)) && (forall e | e in earlier + handlers :: IsUser(e))
      modifies this
      ensures Model() == Run(old(Model()), trace)
      ensures pc == Handling && LOOP !in owing && !callingPendingFunctors && !wakeupReported
      ensures executed == old(executed) && old(pendingFunctors) <= pendingFunctors
    {
      hide Run, Step;
      ghost var before := Model();
      Others(poll);
      RunSnoc(before, poll, PollReturn);
      ReturnFromPoll();
      trace := poll + [PollReturn];
      RunAppend(before, trace, Trace(earlier));
      UserCode(earlier);
      trace := trace + Trace(earlier);
      if wakeupReported {
        RunSnoc(before, trace, ReadWakeup);
        HandleRead();
        trace := trace + [ReadWakeup];
      }
      RunAppend(before, trace, Trace(handlers));
      UserCode(handlers);
      trace := trace + Trace(handlers);
    }

    /** One turn of loop()'s body. */
    method Turn(i: Iteration) returns (ghost trace: seq<Event>)
      requires pc == Polling && !wakeupReported && LOOP !in owing && !callingPendingFunctors && IsIteration(i)
      modifies this
      ensures Model() == Run(old(Model()), trace)
      ensures pc == Top && LOOP !in owing && !callingPendingFunctors && !wakeupReported
      ensures Tasks(executed) == Tasks(old(executed)) + batch && old(pendingFunctors) <= batch
    {
      hide Run, Tasks;
      ghost var before := Model();
      trace := PollAndHandle(i.poll, i.earlier, i.handlers);
      ghost var more := DoPendingFunctors(i.swap, i.functors);
      RunAppend(before, trace, more);
      trace := trace + more;
    }

    /** loop(), for as many turns as there are iterations to describe its surroundings, or until it quits. */
    method Loop(iterations: seq<Iteration>) returns (ghost trace: seq<Event>)
      requires Model() == Init()
      requires forall i | i in iterations :: IsIteration(i)
      modifies this
      ensures Model() == Run(Init(), trace) && Inv(Model())
      ensures pc == Exited || pc == Polling
    {
      hide Run, Tasks;
      RunTwo(Init(), Start, CheckQuit);
      quit, pc := false, Top;
      trace := [Start];
      assert Model() == Run(Init(), trace);
      RunSnoc(Init(), trace, CheckQuit);
      pc := if quit then Exited else Polling;
      trace := trace + [CheckQuit];
      var k := 0;
      while !quit && k < |iterations|
        invariant 0 <= k <= |iterations|
        invariant Model() == Run(Init(), trace)
        invariant pc == if quit then Exited else Polling
        invariant LOOP !in owing && !callingPendingFunctors && !wakeupReported
      {
        ghost var more := Turn(iterations[k]);
        RunAppend(Init(), trace, more);
        trace := trace + more;
        RunSnoc(Init(), trace, CheckQuit);
        pc := if quit then Exited else Polling;
        trace := trace + [CheckQuit];
        k := k + 1;
      }
      Always(trace);
    }
  }

  // ---------------------------------------------------------------- what single steps come to

  lemma SwapIs(s: State)
    requires s.pc == Swapping && LOOP !in s.owing
    ensures Step(s, Swap) == s.(pc := Running, batch := s.pending, pending := [], next := 0, swaps := s.swaps + 1,
                                base := |s.executed|, early := false)
  {
  }

  lemma EndHandlingIs(s: State)
    requires s.pc == Handling && !s.reported && LOOP !in s.owing
    ensures Step(s, EndHandling) == s.(pc := Swapping, calling := true)
  {
  }

  /** The wakeup that may follow finds the loop thread owing it, or does nothing. */
  lemma LoopPushIs(s: State, functor: nat)
    requires InUserCode(s) && LOOP !in s.owing
    ensures var t := Enqueue(s, LOOP, functor);
            Step(s, LoopPush(functor)) ==
            if s.calling then t.(owing := s.owing + {LOOP}) else t.(early := s.early || s.pc == BeforeLoop)
    ensures !s.calling ==> Step(Step(s, LoopPush(functor)), Event.Wakeup(LOOP)) == Step(s, LoopPush(functor))
  {
  }

  lemma RunTwo(s: State, a: Event, b: Event)
    ensures Run(s, [a, b]) == Step(Step(s, a), b)
    ensures Run(s, [a]) == Step(s, a)
  {
    assert [a, b][1..] == [b];
    assert Run(Step(s, a), [b]) == Step(Step(s, a), b);
  }
}
