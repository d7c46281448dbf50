/** What EventLoop guarantees in every interleaving of the loop thread with any number of others. */
module EventLoopTheorems {
  import opened EventLoopMachine

  lemma InitInv()
    ensures Inv(Init())
  {
  }

  lemma Always(events: seq<Event>)
    ensures Inv(Run(Init(), events))
  {
    hide Inv;
    assert Inv(Init()) by {
      InitInv();
    }
    RunKeepsInv(Init(), events);
  }

  lemma RunAppend(s: State, a: seq<Event>, b: seq<Event>)
    ensures Run(s, a + b) == Run(Run(s, a), b)
    decreases |a|
  {
    if a == [] {
      assert a + b == b;
    } else {
      assert (a + b)[1..] == a[1..] + b;
      RunAppend(Step(s, a[0]), a[1..], b);
    }
  }

  lemma RunSnoc(s: State, events: seq<Event>, e: Event)
    ensures Run(s, events + [e]) == Step(Run(s, events), e)
  {
    RunAppend(s, events, [e]);
    assert Run(Run(s, events), [e]) == Step(Run(s, events), e);
  }

  // ---------------------------------------------------------------- no lost wakeup

  predicate HasWork(s: State) {
    s.pending != [] || s.quit
  }

  /** Work is waiting, the loop is about to sleep, and nobody is going to wake it. */
  predicate Lost(s: State) {
    s.pc == Polling && HasWork(s) && s.counter == 0 && s.owing == {}
  }

  /** The loop thread queues a functor before it enters loop(). */
  predicate PushesEarly(events: seq<Event>) {
    events != [] && events[0] != Start && (events[0].LoopPush? || PushesEarly(events[1..]))
  }

  lemma {:induction false} NeverEarlyAgain(s: State, events: seq<Event>)
    requires s.pc != BeforeLoop && !s.early
    ensures !Run(s, events).early
    decreases |events|
  {
    if events != [] {
      NeverEarlyAgain(Step(s, events[0]), events[1..]);
    }
  }

  lemma {:induction false} NotEarly(s: State, events: seq<Event>)
    requires s.pc == BeforeLoop && !s.early && LOOP !in s.owing && !PushesEarly(events)
    ensures !Run(s, events).early
    decreases |events|
  {
    if events != [] {
      var t := Step(s, events[0]);
      if t.pc == BeforeLoop {
        NotEarly(t, events[1..]);
      } else {
        NeverEarlyAgain(t, events[1..]);
      }
    }
  }

  lemma FromInitNotEarly(events: seq<Event>)
    requires !PushesEarly(events)
    ensures !Run(Init(), events).early
  {
    NotEarly(Init(), events);
  }

  /**
   When the loop thread is about to block in poll with functors queued or quit set, the eventfd is readable
   or some other thread is on its way to write it, provided the loop thread queued nothing before loop().
   */
  lemma NoLostWakeup(events: seq<Event>)
    requires !PushesEarly(events)
    ensures var s := Run(Init(), events);
            s.pc == Polling && HasWork(s) ==> s.counter > 0 || exists tid :: tid in s.owing && tid != LOOP
  {
    hide Run, Step, Init, Conserved, Later;
    Always(events);
    assert !Run(Init(), events).early by {
      FromInitNotEarly(events);
    }
    var s := Run(Init(), events);
    if s.pc == Polling && HasWork(s) && s.owing != {} {
      var tid :| tid in s.owing;
    }
  }

  /** Some other thread asks the loop to quit. */
  predicate QuitsFromOutside(events: seq<Event>) {
    exists e :: e in events && e.RequestQuit? && e.tid != LOOP
  }

  /** Every functor waiting was queued by the loop thread. */
  predicate OnlyOwnWork(pending: seq<Task>) {
    forall x | x in pending :: x.origin == LOOP
  }

  /** Until the first swap, the eventfd has been signalled exactly if another thread has queued or quit. */
  predicate SignalExact(s: State, quits: bool) {
    s.swaps == 0 && s.pc in {BeforeLoop, Top, Polling} ==> (Signalled(s) <==> quits || !OnlyOwnWork(s.pending))
  }

  predicate SwapsCounted(s: State) {
    && (s.early ==> s.swaps == 0)
    && (s.pc == BeforeLoop ==> s.swaps == 0)
    && (s.pc == Running ==> s.swaps > 0)
  }

  ghost predicate FirstTurn(s: State, quits: bool) {
    Announced(s) && SwapsCounted(s) && SignalExact(s, quits)
  }

  lemma EnqueueOwn(s: State, tid: Tid, functor: nat)
    ensures OnlyOwnWork(Enqueue(s, tid, functor).pending) <==> OnlyOwnWork(s.pending) && tid == LOOP
  {
    var t := Enqueue(s, tid, functor);
    assert t.pending[|s.pending|] in t.pending && t.pending[|s.pending|].origin == tid;
    assert forall x :: x in s.pending ==> x in t.pending;
  }

  lemma ForeignStepInFirstTurn(s: State, quits: bool, e: Event)
    requires SignalExact(s, quits) && (e.Push? || e.RequestQuit? || e.Wakeup?)
    ensures SignalExact(Step(s, e), quits || (e.RequestQuit? && e.tid != LOOP))
  {
    hide OnlyOwnWork;
    var t := Step(s, e);
    match e
    case Push(tid, functor) =>
      EnqueueOwn(s, tid, functor);
      assert tid in t.owing || t == s;
    case RequestQuit(tid) =>
      assert tid in t.owing || t == s;
    case Wakeup(tid) =>
      assert t.counter > 0 || t == s;
    case _ =>
  }

  lemma LoopStepInFirstTurn(s: State, quits: bool, e: Event)
    requires SignalExact(s, quits) && SwapsCounted(s)
    requires s.calling == (s.pc == Swapping || s.pc == Running) && (LOOP in s.owing ==> s.pc == Running)
    ensures SignalExact(LoopStep(s, e), quits)
  {
    hide OnlyOwnWork;
    if e.LoopPush? {
      EnqueueOwn(s, LOOP, e.functor);
    }
  }

  lemma StepCountsSwaps(s: State, e: Event)
    requires SwapsCounted(s)
    ensures SwapsCounted(Step(s, e))
  {
  }

  lemma StepInFirstTurn(s: State, quits: bool, e: Event)
    requires FirstTurn(s, quits)
    ensures FirstTurn(Step(s, e), quits || (e.RequestQuit? && e.tid != LOOP))
  {
    hide Announced, SwapsCounted, SignalExact, LoopStep;
    StepAnnounces(s, e);
    StepCountsSwaps(s, e);
    AnnouncedFacts(s);
    if e.Push? || e.RequestQuit? || e.Wakeup? {
      ForeignStepInFirstTurn(s, quits, e);
    } else {
      LoopStepInFirstTurn(s, quits, e);
    }
  }

  lemma AnnouncedFacts(s: State)
    requires Announced(s)
    ensures s.calling == (s.pc == Swapping || s.pc == Running) && (LOOP in s.owing ==> s.pc == Running)
  {
  }

  lemma {:induction false} RunInFirstTurn(s: State, quits: bool, events: seq<Event>)
    requires FirstTurn(s, quits)
    ensures FirstTurn(Run(s, events), quits || QuitsFromOutside(events))
    decreases |events|
  {
    hide FirstTurn, Step;
    if events != [] {
      var e, rest := events[0], events[1..];
      StepInFirstTurn(s, quits, e);
      RunInFirstTurn(Step(s, e), quits || (e.RequestQuit? && e.tid != LOOP), rest);
      assert events == [e] + rest;
      assert QuitsFromOutside(events) <==> (e.RequestQuit? && e.tid != LOOP) || QuitsFromOutside(rest);
    }
  }

  /**
   In general, the loop thread sleeps on work exactly when it is about to poll for the first time, all that waits was
   queued by itself before loop(), and no other thread has asked it to quit.
   */
  lemma LostExactlyWhenEarly(events: seq<Event>)
    ensures var s := Run(Init(), events);
            s.pc == Polling ==>
              (Lost(s) <==> s.swaps == 0 && s.pending != [] && OnlyOwnWork(s.pending) && !QuitsFromOutside(events))
  {
    RunInFirstTurn(Init(), false, events);
    hide Run, Step, Init, Conserved, Later, QuitsFromOutside, OnlyOwnWork;
  }

  /** That case does happen: line 154 sees the loop thread outside doPendingFunctors and skips the wakeup. */
  lemma EarlyPushIsLost()
    ensures var events := [LoopPush(7), Start, CheckQuit]; PushesEarly(events) && Lost(Run(Init(), events))
  {
    var a := Step(Init(), LoopPush(7));
    var b := Step(a, Start);
    var c := Step(b, CheckQuit);
    assert Run(c, []) == c;
    assert Run(b, [CheckQuit]) == c;
    assert [LoopPush(7), Start, CheckQuit][1..] == [Start, CheckQuit];
    assert [Start, CheckQuit][1..] == [CheckQuit];
    assert Run(a, [Start, CheckQuit]) == c;
  }

  /** A quit requested before loop() is forgotten: loop() clears the flag. */
  lemma EarlyQuitIsForgotten(s: State)
    requires s.pc == BeforeLoop && LOOP !in s.owing
    ensures var t := Run(s, [Start, CheckQuit]); t.pc == Polling && !t.quit && !Run(s, [Start]).quit
  {
    var a := Step(s, Start);
    assert Run(a, []) == a && [Start][1..] == [];
    assert Run(a, [CheckQuit]) == Step(a, CheckQuit);
    assert [Start, CheckQuit][1..] == [CheckQuit];
  }

  lemma StepKeepsQuit(s: State, e: Event)
    requires s.quit && s.pc != BeforeLoop
    ensures var t := Step(s, e);
            && t.quit && t.pc != BeforeLoop
            && (t.pc == Polling ==> s.pc == Polling)
            && (s.pc == Top || s.pc == Exited ==> (t.pc == Top || t.pc == Exited) && t.swaps == s.swaps)
            && (s.pc == Running ==> (t.pc == Running || t.pc == Top) && t.swaps == s.swaps)
            && t.swaps <= s.swaps + 1
            && (t.swaps == s.swaps + 1 ==> s.pc == Swapping && t.pc == Running)
  {
  }

  /** The point at which the loop stands, once it cannot take another batch. */
  predicate PastSwap(s: State) {
    s.pc == Running || s.pc == Top || s.pc == Exited
  }

  /**
   A quit requested once loop() has started is honoured: whatever follows, the flag stays set, the loop does not poll
   again, takes at most one more batch, and leaves at its next test of the flag.
   */
  lemma {:induction false} QuitIsHonoured(s: State, events: seq<Event>)
    requires s.quit && s.pc != BeforeLoop
    ensures var t := Run(s, events);
            && t.quit && t.pc != BeforeLoop
            && (s.pc != Polling ==> t.pc != Polling)
            && (PastSwap(s) ==> PastSwap(t) && t.swaps == s.swaps)
            && t.swaps <= s.swaps + 1 && (t.swaps > s.swaps ==> PastSwap(t))
            && (t.pc == Top && LOOP !in t.owing ==> Step(t, CheckQuit).pc == Exited)
    decreases |events|
  {
    if events != [] {
      StepKeepsQuit(s, events[0]);
      hide Step;
      QuitIsHonoured(Step(s, events[0]), events[1..]);
    }
  }

  /** So a requested quit is kept in every continuation exactly when loop() has started. */
  lemma QuitKeptExactly(s: State)
    requires s.quit && LOOP !in s.owing
    ensures (forall events :: Run(s, events).quit) <==> s.pc != BeforeLoop
  {
    hide Run, Step;
    if s.pc == BeforeLoop {
      EarlyQuitIsForgotten(s);
    } else {
      forall events ensures Run(s, events).quit {
        QuitIsHonoured(s, events);
      }
    }
  }

  lemma StepPending(s: State, e: Event)
    ensures var t := Step(s, e); s.swaps <= t.swaps && (s.swaps == t.swaps ==> s.pending <= t.pending)
  {
    hide InUserCode;
  }

  lemma {:induction false} SwapsGrow(s: State, events: seq<Event>)
    ensures s.swaps <= Run(s, events).swaps
    decreases |events|
  {
    hide Step;
    if events != [] {
      StepPending(s, events[0]);
      SwapsGrow(Step(s, events[0]), events[1..]);
    }
  }

  /** Until the next swap the pending queue only grows, so that swap takes everything waiting now. */
  lemma {:induction false} NextSwapTakesAll(s: State, events: seq<Event>)
    requires Run(s, events).swaps == s.swaps
    ensures s.pending <= Run(s, events).pending
    decreases |events|
  {
    hide Step;
    if events != [] {
      StepPending(s, events[0]);
      SwapsGrow(Step(s, events[0]), events[1..]);
      NextSwapTakesAll(Step(s, events[0]), events[1..]);
    }
  }

  // ---------------------------------------------------------------- order and batches

  function From(tid: Tid, tasks: seq<Task>): seq<Task> {
    if tasks == [] then []
    else
      var last := tasks[|tasks| - 1];
      From(tid, tasks[..|tasks| - 1]) + if last.origin == tid then [last] else []
  }

  lemma {:induction false} FromAppend(tid: Tid, a: seq<Task>, b: seq<Task>)
    ensures From(tid, a + b) == From(tid, a) + From(tid, b)
    decreases |b|
  {
    if b == [] {
      assert a + b == a;
    } else {
      assert (a + b)[..|a + b| - 1] == a + b[..|b| - 1];
      FromAppend(tid, a, b[..|b| - 1]);
    }
  }

  /**
   Nothing queued is lost, duplicated or overtaken: what ran, then the rest of the batch, then what is
   pending is what was queued, in order; so each thread's functors run in the order it queued them.
   */
  lemma FunctorsConserved(events: seq<Event>, tid: Tid)
    ensures var s := Run(Init(), events);
            && s.next <= |s.batch|
            && s.pushed == Tasks(s.executed) + s.batch[s.next..] + s.pending
            && From(tid, Tasks(s.executed)) <= From(tid, s.pushed)
  {
    hide Run, Step, Init, Announced, Later;
    Always(events);
    var s := Run(Init(), events);
    FromAppend(tid, Tasks(s.executed), s.batch[s.next..]);
    FromAppend(tid, Tasks(s.executed) + s.batch[s.next..], s.pending);
    hide From;
  }

  /** A functor runs in a later batch than any taken before it was queued: never in the batch that queued it. */
  lemma QueuedRunsLater(events: seq<Event>)
    ensures forall x | x in Run(Init(), events).executed :: x.task.during < x.batch
  {
    hide Run, Step, Init, Announced, Conserved;
    Always(events);
  }

  /** One doPendingFunctors, when it ends, has run exactly the batch it took, whatever was queued meanwhile. */
  lemma BatchRunsExactly(events: seq<Event>)
    ensures var s := Run(Init(), events);
            && s.base <= |s.executed|
            && (s.pc == Running && s.next == |s.batch| ==> Tasks(s.executed)[s.base..] == s.batch)
  {
    hide Run, Step, Init, Announced, Later;
    Always(events);
    var s := Run(Init(), events);
    assert s.batch[..|s.batch|] == s.batch;
  }

  /** And it does end: no step lengthens the batch, and every functor run shortens what is left of it. */
  lemma BatchShrinks(s: State, e: Event)
    requires s.pc == Running && s.next <= |s.batch|
    ensures var t := Step(s, e);
            && t.batch == s.batch
            && |t.batch| - t.next == |s.batch| - s.next - (if |t.executed| > |s.executed| then 1 else 0)
            && (t.pc != Running ==> e == EndRunning && s.next == |s.batch|)
  {
    hide InUserCode;
  }
}
