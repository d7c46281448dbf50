/**
 Timers across threads: `addTimer` and `cancel` reach the loop thread as functors, so the order in which they were
 queued is the order in which the timer queue sees them.
 */
module TimerCalls {
  import opened TimerSet
  import opened TimerMachine
  import opened TimerSafety
  import opened TimerTheorems
  import Loop = EventLoopMachine
  import LoopTheorems = EventLoopTheorems

  /**
   How a run of the loop and a run of its timer queue go together. `calls` says which functors add or cancel a timer,
   and `at[k]` where the k-th functor executed comes among the queue's steps: in order, and outside handleRead.
   */
  ghost predicate Carries(l: Loop.State, calls: map<nat, Event>, clock: int, steps: seq<Event>, at: seq<nat>) {
    && |at| == |l.executed|
    && (forall j, k | 0 <= j < k < |at| :: at[j] < at[k])
    && (forall k | 0 <= k < |at| && l.executed[k].task.functor in calls ::
          && at[k] < |steps| && steps[at[k]] == calls[l.executed[k].task.functor]
          && After(clock, steps, at[k]).mode == Idle)
  }

  /** Once constructed, a timer stays where it is until its add has been processed. */
  ghost predicate AddedOrWaiting(s: State, id: ActiveTimer) {
    id in s.added || (id.addr in s.heap && IdAt(s.heap, id.addr) == id)
  }

  lemma CancelKeepsConstructed(s: State, id: ActiveTimer, other: ActiveTimer)
    requires Indexed(s) && s.active <= s.added && AddedOrWaiting(s, id)
    ensures AddedOrWaiting(CancelInLoop(s, other), id)
  {
    hide Ascending, Erase;
  }

  lemma ResetKeepsConstructed(s: State, id: ActiveTimer)
    requires Batched(s) && CanReset(s) && AddedOrWaiting(s, id)
    ensures AddedOrWaiting(ResetOne(s), id)
  {
    hide Ascending, Insert;
    NextInBatch(s);
    hide Remaining;
  }

  lemma StepKeepsConstructed(s: State, id: ActiveTimer, e: Event)
    requires Inv(s) && AddedOrWaiting(s, id)
    ensures AddedOrWaiting(Step(s, e), id)
  {
    assert Indexed(s) && Batched(s) && s.active <= s.added;
    hide Inv, Indexed, Batched, ResetOne, CancelInLoop, HowMuchTimeFromNow, Insert;
    if e.Cancel? {
      CancelKeepsConstructed(s, id, e.id);
    } else if e.ResetNext? && CanReset(s) {
      ResetKeepsConstructed(s, id);
    }
  }

  lemma {:induction false} RunKeepsConstructed(s: State, id: ActiveTimer, events: seq<Event>)
    requires Inv(s) && AddedOrWaiting(s, id)
    ensures AddedOrWaiting(Run(s, events), id)
    decreases |events|
  {
    hide Inv, AddedOrWaiting, Step;
    if events != [] {
      StepKeepsConstructed(s, id, events[0]);
      StepKeepsInv(s, events[0]);
      RunKeepsConstructed(Step(s, events[0]), id, events[1..]);
    }
  }

  /** What ran is the first part of what was queued. */
  lemma ExecutedAt(events: seq<Loop.Event>, k: nat)
    requires k < |Loop.Run(Loop.Init(), events).executed|
    ensures var l := Loop.Run(Loop.Init(), events);
            k < |l.pushed| && l.executed[k].task == l.pushed[k]
  {
    LoopTheorems.FunctorsConserved(events, Loop.LOOP);
    var l := Loop.Run(Loop.Init(), events);
    assert Loop.Tasks(l.executed)[k] == l.pushed[k];
  }

  /** After a timer's add has been processed the timer counts as added, whatever happens. */
  lemma AddIsProcessed(clock: int, steps: seq<Event>, id: ActiveTimer, p: nat, q: nat, n: nat)
    requires clock > 0 && p <= q < n <= |steps| && steps[q] == Add(id.addr)
    requires AddedOrWaiting(After(clock, steps, p), id) && After(clock, steps, q).mode == Idle
    ensures id in After(clock, steps, n).added
  {
    hide After, Inv, AddedOrWaiting, Run, Step;
    AfterIsReachable(clock, steps, p);
    AfterLater(clock, steps, p, q);
    RunKeepsConstructed(After(clock, steps, p), id, steps[p..q]);
    AfterLater(clock, steps, q, q + 1);
    RunOne(After(clock, steps, q), steps[q]);
    assert steps[q..q + 1] == [steps[q]];
    AddAdds(After(clock, steps, q), id);
    AfterLater(clock, steps, q + 1, n);
    AddedStays(After(clock, steps, q + 1), id, steps[q + 1..n]);
  }

  lemma AddAdds(s: State, id: ActiveTimer)
    requires AddedOrWaiting(s, id) && s.mode == Idle
    ensures id in Step(s, Add(id.addr)).added
  {
    hide InsertTimer, HowMuchTimeFromNow;
  }

  lemma RunOne(s: State, e: Event)
    ensures Run(s, [e]) == Step(s, e)
  {
    assert [e][1..] == [];
  }

  /**
   A thread constructs a timer, queues its add, and later queues its cancel, as `addTimer` and `cancel` do from outside
   the loop. Once that cancel has been executed, no batch collected afterwards contains the timer. The m-th and n-th
   functors queued need not even come from one thread, as long as the add was queued first.
   */
  lemma QueuedCancelIsFinal(events: seq<Loop.Event>, calls: map<nat, Event>, clock: int, steps: seq<Event>,
                            at: seq<nat>, id: ActiveTimer, p: nat, m: nat, n: nat, j: nat)
    requires clock > 0
    requires var l := Loop.Run(Loop.Init(), events);
             && Carries(l, calls, clock, steps, at)
             && m < n < |l.executed| <= |l.pushed|
             && l.pushed[m].functor in calls && calls[l.pushed[m].functor] == Add(id.addr)
             && l.pushed[n].functor in calls && calls[l.pushed[n].functor] == Cancel(id)
    requires p <= at[m] <= |steps| && at[n] <= |steps|
    requires id.addr in After(clock, steps, p).heap && IdAt(After(clock, steps, p).heap, id.addr) == id
    requires var log := Run(Init(clock), steps).log;
             |After(clock, steps, at[n]).log| <= j < |log| && log[j].Batch?
    ensures id.sequence !in Run(Init(clock), steps).log[j].sequences
  {
    hide Loop.Run, After, Run, Inv, Step, Reachable;
    ExecutedAt(events, m);
    ExecutedAt(events, n);
    AddIsProcessed(clock, steps, id, p, at[m], at[n]);
    AfterIsReachable(clock, steps, at[n]);
    CancelStep(clock, steps, at[n], id);
    CancelIsFinal(After(clock, steps, at[n]), id, steps[at[n] + 1..], j);
  }

  lemma CancelStep(clock: int, steps: seq<Event>, q: nat, id: ActiveTimer)
    requires q < |steps| && steps[q] == Cancel(id)
    ensures Run(Init(clock), steps) == Run(Step(After(clock, steps, q), Cancel(id)), steps[q + 1..])
  {
    AfterLater(clock, steps, q, |steps|);
    assert steps[..|steps|] == steps;
    assert steps[q..][0] == Cancel(id) && steps[q..][1..] == steps[q + 1..];
  }
}
