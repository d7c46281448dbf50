/** What the calls quit, queueInLoop and wakeup bring about, whenever and by whomever they are made. */
module EventLoopCalls {
  import opened EventLoopMachine
  import opened EventLoopTheorems

  /** The loop thread may call into the loop: from a handler or from a running functor, with no call unfinished. */
  predicate MayCall(s: State) {
    LOOP !in s.owing && (s.pc == BeforeLoop || s.pc == Handling || (s.pc == Running && s.next > 0))
  }

  /** A call of quit. Another thread makes none while it is between the flag, or a push, and its wakeup. */
  predicate IsQuitCall(s: State, e: Event) {
    || (e.RequestQuit? && e.tid != LOOP && e.tid !in s.owing)
    || (e.LoopQuit? && MayCall(s))
  }

  function After(events: seq<Event>): State {
    Run(Init(), events)
  }

  lemma AfterSnoc(events: seq<Event>, e: Event)
    ensures After(events + [e]) == Step(After(events), e)
  {
    RunSnoc(Init(), events, e);
  }

  // ---------------------------------------------------------------- quit

  /** Some thread has called quit since loop() started. */
  ghost predicate QuitCalled(events: seq<Event>) {
    exists k :: 0 <= k < |events| && CalledAt(events, k)
  }

  ghost predicate CalledAt(events: seq<Event>, k: nat)
    requires k < |events|
  {
    After(events[..k]).pc != BeforeLoop && IsQuitCall(After(events[..k]), events[k])
  }

  lemma CalledSnoc(events: seq<Event>, e: Event)
    ensures QuitCalled(events + [e])
        <==> QuitCalled(events) || (After(events).pc != BeforeLoop && IsQuitCall(After(events), e))
  {
    hide After, IsQuitCall;
    var more := events + [e];
    assert more[..|events|] == events;
    assert forall k | 0 <= k < |events| :: more[..k] == events[..k] && more[k] == events[k];
    if QuitCalled(more) {
      var k :| 0 <= k < |more| && CalledAt(more, k);
      assert k < |events| ==> CalledAt(events, k);
    }
    if QuitCalled(events) {
      var k :| 0 <= k < |events| && CalledAt(events, k);
      assert CalledAt(more, k);
    }
    if After(events).pc != BeforeLoop && IsQuitCall(After(events), e) {
      assert CalledAt(more, |events|);
    }
  }

  lemma StepSetsQuit(s: State, e: Event)
    ensures var t := Step(s, e);
            && (s.pc != BeforeLoop ==> t.pc != BeforeLoop && (t.quit <==> s.quit || IsQuitCall(s, e)))
            && (s.pc == BeforeLoop && t.pc != BeforeLoop ==> !t.quit)
            && (t.pc == Exited ==> t.quit || s.pc == Exited)
  {
  }

  /** Once loop() has started, the flag is set exactly if quit has been called since; and only then does loop() end. */
  lemma {:induction false} QuitSetExactly(events: seq<Event>)
    ensures QuitCalled(events) ==> After(events).pc != BeforeLoop
    ensures After(events).pc != BeforeLoop ==> (After(events).quit <==> QuitCalled(events))
    ensures After(events).pc == Exited ==> QuitCalled(events)
    decreases |events|
  {
    hide Step, After, QuitCalled, IsQuitCall;
    if events == [] {
      NothingCalled();
    } else {
      var front, e := events[..|events| - 1], events[|events| - 1];
      assert events == front + [e];
      QuitSetExactly(front);
      AfterSnoc(front, e);
      CalledSnoc(front, e);
      StepSetsQuit(After(front), e);
    }
  }

  lemma NothingCalled()
    ensures !QuitCalled([]) && After([]) == Init() && Init().pc == BeforeLoop
  {
  }

  lemma AfterAppend(a: seq<Event>, b: seq<Event>)
    ensures After(a + b) == Run(After(a), b)
  {
    RunAppend(Init(), a, b);
  }

  /**
   A call of quit after loop() has started, by any thread: in every continuation the flag stays set, the loop once out
   of poll does not go back to it, and it leaves at its next test of the flag.
   */
  lemma QuitCallEndsLoop(events: seq<Event>, e: Event, b: seq<Event>, c: seq<Event>)
    requires After(events).pc != BeforeLoop && IsQuitCall(After(events), e)
    ensures var s, t := After(events + [e] + b), After(events + [e] + b + c);
            && s.quit && t.quit
            && (s.pc != Polling ==> t.pc != Polling)
            && (t.pc == Top && LOOP !in t.owing ==> After(events + [e] + b + c + [CheckQuit]).pc == Exited)
  {
    StepSetsQuit(After(events), e);
    hide After, Step, Run, IsQuitCall;
    AfterSnoc(events, e);
    AfterAppend(events + [e], b);
    QuitIsHonoured(After(events + [e]), b);
    AfterAppend(events + [e] + b, c);
    QuitIsHonoured(After(events + [e] + b), c);
    AfterSnoc(events + [e] + b + c, CheckQuit);
  }

  /** Another thread's quit, all the way: the wakeup brings the loop out of poll, and its next test ends it. */
  lemma QuitFromOutside()
    ensures var events := [Start, CheckQuit, RequestQuit(1), Wakeup(1), PollReturn, ReadWakeup, EndHandling, Swap,
                           EndRunning, CheckQuit];
            After(events[..2]).pc == Polling && After(events).pc == Exited
  {
    var s: seq<Event> := [Start, CheckQuit, RequestQuit(1), Wakeup(1), PollReturn, ReadWakeup, EndHandling, Swap,
                          EndRunning, CheckQuit];
    hide Run, Step, LoopStep;
    NothingCalled();
    TenSteps(s);
    StepsToExit();
  }

  lemma TenSteps(s: seq<Event>)
    requires |s| == 10
    ensures After(s[..2]) == Step(Step(Init(), s[0]), s[1])
    ensures After(s) == Step(Step(Step(Step(Step(Step(Step(Step(After(s[..2]), s[2]), s[3]), s[4]), s[5]), s[6]), s[7]),
                                  s[8]), s[9])
  {
    hide After, Step;
    NothingCalled();
    forall k | 0 <= k < 10 ensures After(s[..k + 1]) == Step(After(s[..k]), s[k]) {
      assert s[..k + 1] == s[..k] + [s[k]];
      AfterSnoc(s[..k], s[k]);
    }
    assert s[..0] == [] && s[..10] == s;
    assert After(s[..1]) == Step(After(s[..0]), s[0]);
    assert After(s[..2]) == Step(After(s[..1]), s[1]);
    assert After(s[..3]) == Step(After(s[..2]), s[2]);
    assert After(s[..4]) == Step(After(s[..3]), s[3]);
    assert After(s[..5]) == Step(After(s[..4]), s[4]);
    assert After(s[..6]) == Step(After(s[..5]), s[5]);
    assert After(s[..7]) == Step(After(s[..6]), s[6]);
    assert After(s[..8]) == Step(After(s[..7]), s[7]);
    assert After(s[..9]) == Step(After(s[..8]), s[8]);
    assert After(s[..10]) == Step(After(s[..9]), s[9]);
  }

  lemma StepsToExit()
    ensures var p := Step(Step(Init(), Start), CheckQuit);
            && p.pc == Polling
            && Step(Step(Step(Step(Step(Step(Step(Step(p, RequestQuit(1)), Wakeup(1)), PollReturn), ReadWakeup),
                                   EndHandling), Swap), EndRunning), CheckQuit).pc == Exited
  {
    var p := Step(Step(Init(), Start), CheckQuit);
    assert p == Init().(pc := Polling);
    var q := Step(Step(p, RequestQuit(1)), Wakeup(1));
    assert q == p.(quit := true, counter := 1) by {
      CallAndWake(p);
    }
    HandlingSteps(q);
    BatchSteps(q.(pc := Swapping, counter := 0, calling := true));
    hide Step, Init;
  }

  lemma CallAndWake(s: State)
    requires s.pc == Polling && s.owing == {} && s.counter == 0
    ensures Step(Step(s, RequestQuit(1)), Wakeup(1)) == s.(quit := true, counter := 1)
  {
    var t := Step(s, RequestQuit(1));
    assert t == s.(quit := true, owing := {1});
    assert {1} - {1} == s.owing;
  }

  lemma HandlingSteps(s: State)
    requires s.pc == Polling && s.owing == {} && s.counter == 1 && !s.reported
    ensures Step(Step(Step(s, PollReturn), ReadWakeup), EndHandling)
         == s.(pc := Swapping, counter := 0, calling := true)
  {
    var t := Step(s, PollReturn);
    assert t == s.(pc := Handling, reported := true);
    var u := Step(t, ReadWakeup);
    assert u == s.(pc := Handling, counter := 0);
  }

  lemma BatchSteps(s: State)
    requires s.pc == Swapping && s.owing == {} && s.pending == [] && s.quit
    ensures Step(Step(Step(s, Swap), EndRunning), CheckQuit).pc == Exited
  {
    var t := Step(s, Swap);
    assert t.pc == Running && t.next == |t.batch| && t.quit && t.owing == {};
    var u := Step(t, EndRunning);
    assert u.pc == Top && u.quit && u.owing == {};
  }

  // ---------------------------------------------------------------- queueInLoop

  /** Only a call of queueInLoop adds to what is pending, namely the functor it was given, at the end. */
  lemma QueuedExactly(s: State, e: Event)
    ensures var t := Step(s, e);
            if e.Push? && e.tid != LOOP && e.tid !in s.owing then
              && t.pending == s.pending + [Task(e.functor, e.tid, s.swaps)]
              && t.pushed == s.pushed + [Task(e.functor, e.tid, s.swaps)]
              && t.owing == s.owing + {e.tid}
            else if e.LoopPush? && MayCall(s) then
              && t.pending == s.pending + [Task(e.functor, LOOP, s.swaps)]
              && t.pushed == s.pushed + [Task(e.functor, LOOP, s.swaps)]
              && t.owing == (if s.calling then s.owing + {LOOP} else s.owing)
            else
              && t.pushed == s.pushed
              && (e != Swap ==> t.pending == s.pending)
  {
  }

  // ---------------------------------------------------------------- wakeup

  /** poll reports the wakeup channel exactly when a wakeup has been written and not yet read. */
  lemma PollReportsExactly(s: State)
    requires s.pc == Polling && LOOP !in s.owing
    ensures var t := Step(s, PollReturn); t.pc == Handling && (t.reported <==> s.counter > 0)
  {
  }

  /** A wakeup is written by some thread during these events. */
  ghost predicate WokenDuring(s: State, events: seq<Event>) {
    exists k :: 0 <= k < |events| && events[k].Wakeup? && events[k].tid in Run(s, events[..k]).owing
  }

  lemma WokenLater(s: State, events: seq<Event>)
    requires events != [] && WokenDuring(Step(s, events[0]), events[1..])
    ensures WokenDuring(s, events)
  {
    hide Step;
    var rest := events[1..];
    var k :| 0 <= k < |rest| && rest[k].Wakeup? && rest[k].tid in Run(Step(s, events[0]), rest[..k]).owing;
    assert events[..k + 1][0] == events[0] && events[..k + 1][1..] == rest[..k];
    assert Run(s, events[..k + 1]) == Run(Step(s, events[0]), rest[..k]);
  }

  /** An eventfd that has been read out stays so until another wakeup is written. */
  lemma {:induction false} ReadOutUntilWoken(s: State, events: seq<Event>)
    requires s.counter == 0 && !s.reported && !WokenDuring(s, events)
    ensures Run(s, events).counter == 0 && !Run(s, events).reported
    decreases |events|
  {
    if events != [] {
      assert events[..0] == [] && Run(s, []) == s;
      assert !(events[0].Wakeup? && events[0].tid in s.owing);
      var t := Step(s, events[0]);
      assert t.counter == 0 && !t.reported;
      hide Step;
      if WokenDuring(t, events[1..]) {
        WokenLater(s, events);
      }
      ReadOutUntilWoken(t, events[1..]);
    }
  }

  /** Reading the eventfd consumes the wakeups: a later poll reports it only if another has been written since. */
  lemma WakeupIsConsumed(s: State, events: seq<Event>)
    requires s.pc == Handling && s.reported && LOOP !in s.owing
    requires Run(Step(s, ReadWakeup), events).reported
    ensures WokenDuring(Step(s, ReadWakeup), events)
  {
    var t := Step(s, ReadWakeup);
    assert t.counter == 0 && !t.reported;
    hide Step;
    if !WokenDuring(t, events) {
      ReadOutUntilWoken(t, events);
    }
  }
}
