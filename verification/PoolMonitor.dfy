/**
 ThreadPool as a monitor: any number of client threads submitting and a fixed set of workers, each critical
 section, and each unlocked look at `running_`, one step. Tasks are numbered in the order they are accepted.
 */
module PoolMonitor {
  import opened Common

  type Tid = nat

  /**
   The workers, by where they are: at the top of runInThread's loop, about to lock the mutex in `take`,
   asleep on cond_, woken but without the mutex, executing a task, or gone. `started` counts the tasks taken,
   `finished` are those whose execution has ended, and `late` the workers that took a task after `stop`.
   */
  datatype State = State(
    running: bool,
    queue: seq<nat>,
    looping: set<Tid>,
    taking: set<Tid>,
    sleeping: set<Tid>,
    woken: set<Tid>,
    executing: map<Tid, nat>,
    exited: set<Tid>,
    accepted: nat,
    started: nat,
    finished: set<nat>,
    late: set<Tid>)

  datatype Event =
    | Submit(wake: set<Tid>)
    | Check(w: Tid)
    | TakePass(w: Tid)
    | Spurious(w: Tid)
    | Finish(w: Tid)
    | Stop

  /** After `start`: every worker is about to test `running_`. */
  function Init(workers: set<Tid>): State {
    State(true, [], workers, {}, {}, {}, map[], {}, 0, 0, {}, {})
  }

  /** Submission through the queue; `wake` is whom the signal wakes, at least one sleeper if there is any. */
  function SubmitStep(s: State, wake: set<Tid>): State {
    if wake <= s.sleeping && (s.sleeping != {} ==> wake != {}) then
      s.(queue := s.queue + [s.accepted], accepted := s.accepted + 1,
         sleeping := s.sleeping - wake, woken := s.woken + wake)
    else s
  }

  function CheckStep(s: State, w: Tid): State {
    if w !in s.looping then s
    else if s.running then s.(looping := s.looping - {w}, taking := s.taking + {w})
    else s.(looping := s.looping - {w}, exited := s.exited + {w})
  }

  /** The worker leaves `take` with the task at the front. */
  function TakeTask(s: State, w: Tid): State
    requires s.queue != []
  {
    s.(taking := s.taking - {w}, woken := s.woken - {w}, queue := s.queue[1..], started := s.started + 1,
       executing := s.executing[w := s.queue[0]], late := if s.running then s.late else s.late + {w})
  }

  function TakeStep(s: State, w: Tid): State {
    if w !in s.taking && w !in s.woken then s
    else if s.queue != [] then TakeTask(s, w)
    else if s.running then s.(taking := s.taking - {w}, woken := s.woken - {w}, sleeping := s.sleeping + {w})
    else s.(taking := s.taking - {w}, woken := s.woken - {w}, looping := s.looping + {w})
  }

  /** The steps that bring a worker on; waking up is not one of them. */
  predicate IsWorkerStep(e: Event) {
    e.Check? || e.TakePass? || e.Finish?
  }

  function Step(s: State, e: Event): State {
    match e
    case Submit(wake) => SubmitStep(s, wake)
    case Check(w) => CheckStep(s, w)
    case TakePass(w) => TakeStep(s, w)
    case Spurious(w) =>
      if w in s.sleeping then s.(sleeping := s.sleeping - {w}, woken := s.woken + {w}) else s
    case Finish(w) =>
      if w in s.executing then
        s.(executing := s.executing - {w}, looping := s.looping + {w}, finished := s.finished + {s.executing[w]})
      else s
    case Stop => s.(running := false, woken := s.woken + s.sleeping, sleeping := {})
  }

  function Run(s: State, events: seq<Event>): State
    decreases |events|
  {
    if events == [] then s else Run(Step(s, events[0]), events[1..])
  }

  // ---------------------------------------------------------------- invariants

  function Workers(s: State): set<Tid> {
    s.looping + s.taking + s.sleeping + s.woken + s.executing.Keys + s.exited
  }

  /** A worker is in one place at a time. */
  ghost predicate Placed(s: State) {
    && s.looping !! s.taking !! s.sleeping !! s.woken !! s.exited
    && s.executing.Keys !! s.looping + s.taking + s.sleeping + s.woken + s.exited
  }

  /** Tasks leave the queue in the order in which they came. */
  ghost predicate Queued(s: State) {
    s.accepted == s.started + |s.queue| && forall j | 0 <= j < |s.queue| :: s.queue[j] == s.started + j
  }

  /** A task taken is being executed by one worker or has been executed, and not both. */
  ghost predicate Accounted(s: State) {
    && (forall w | w in s.executing :: s.executing[w] < s.started && s.executing[w] !in s.finished)
    && (forall v, w | v in s.executing && w in s.executing && s.executing[v] == s.executing[w] :: v == w)
    && (forall t | t in s.finished :: t < s.started)
    && (forall t: nat | t < s.started :: t in s.finished || t in s.executing.Values)
  }

  /** No signal is lost, and nobody sleeps once stopped. */
  ghost predicate Signalled(s: State) {
    && (s.sleeping != {} ==> s.running && |s.queue| <= |s.woken|)
  }

  /** After `stop` a worker takes at most one task: having taken one it is past `take` for good. */
  ghost predicate LastTasks(s: State) {
    && (s.running ==> s.late == {})
    && (forall w | w in s.late :: w !in s.taking && w !in s.woken && w !in s.sleeping)
  }

  ghost predicate Inv(s: State) {
    Placed(s) && Queued(s) && Accounted(s) && Signalled(s) && LastTasks(s)
  }

  lemma StepKeepsPlaces(s: State, e: Event)
    requires Placed(s)
    ensures Placed(Step(s, e)) && Workers(Step(s, e)) == Workers(s)
  {
  }

  lemma StepKeepsQueue(s: State, e: Event)
    requires Queued(s)
    ensures Queued(Step(s, e))
  {
  }

  lemma TakeAccounts(s: State, w: Tid)
    requires Queued(s) && Accounted(s) && s.queue != [] && w !in s.executing
    ensures Accounted(TakeTask(s, w))
  {
    var t := TakeTask(s, w);
    forall n: nat | n < t.started ensures n in t.finished || n in t.executing.Values {
      if n == s.started {
        assert t.executing[w] == n;
      } else if n !in s.finished {
        var v :| v in s.executing && s.executing[v] == n;
        assert v in t.executing && t.executing[v] == n;
      }
    }
  }

  lemma FinishAccounts(s: State, w: Tid)
    requires Accounted(s) && w in s.executing
    ensures Accounted(Step(s, Finish(w)))
  {
    var t := Step(s, Finish(w));
    forall n: nat | n < t.started ensures n in t.finished || n in t.executing.Values {
      if n !in t.finished {
        var v :| v in s.executing && s.executing[v] == n;
        assert v in t.executing && t.executing[v] == n;
      }
    }
  }

  lemma StepAccounts(s: State, e: Event)
    requires Placed(s) && Queued(s) && Accounted(s)
    ensures Accounted(Step(s, e))
  {
    match e
    case TakePass(w) =>
      if (w in s.taking || w in s.woken) && s.queue != [] { TakeAccounts(s, w); }
    case Finish(w) => if w in s.executing { FinishAccounts(s, w); }
    case _ =>
  }

  lemma StepSignals(s: State, e: Event)
    requires Placed(s) && Signalled(s)
    ensures Signalled(Step(s, e))
  {
    match e
    case Submit(wake) => if wake <= s.sleeping { WakeCounts(s.woken, s.sleeping, wake); }
    case TakePass(w) => LeaveCounts(s.woken, w);
    case Spurious(w) => if w in s.sleeping { WakeCounts(s.woken, s.sleeping, {w}); }
    case _ =>
  }

  lemma StepKeepsLast(s: State, e: Event)
    requires Placed(s) && Signalled(s) && LastTasks(s)
    ensures LastTasks(Step(s, e))
  {
    match e
    case TakePass(w) =>
      assert w in s.taking + s.woken ==> w !in s.sleeping;
    case _ =>
  }

  lemma StepKeepsInv(s: State, e: Event)
    requires Inv(s)
    ensures Inv(Step(s, e))
  {
    hide Placed, Queued, Accounted, Signalled, LastTasks, Step;
    StepKeepsPlaces(s, e);
    StepKeepsQueue(s, e);
    StepAccounts(s, e);
    StepSignals(s, e);
    StepKeepsLast(s, e);
  }

  lemma {:induction false} RunKeepsInv(s: State, events: seq<Event>)
    requires Inv(s)
    ensures Inv(Run(s, events)) && Workers(Run(s, events)) == Workers(s)
    decreases |events|
  {
    if events != [] {
      StepKeepsPlaces(s, events[0]);
      StepKeepsInv(s, events[0]);
      hide Inv, Workers, Step;
      RunKeepsInv(Step(s, events[0]), events[1..]);
    }
  }

  lemma InitInv(workers: set<Tid>)
    ensures Inv(Init(workers)) && Workers(Init(workers)) == workers
  {
  }

  lemma Always(workers: set<Tid>, events: seq<Event>)
    ensures var s := Run(Init(workers), events); Inv(s) && Workers(s) == workers
  {
    hide Inv, Workers;
    InitInv(workers);
    RunKeepsInv(Init(workers), events);
  }

  // ---------------------------------------------------------------- what it guarantees

  /**
   Every task accepted has been executed, or is in execution by exactly one worker, or is still queued, and
   in no two of these; tasks are taken in the order in which they were accepted.
   */
  lemma TasksConserved(workers: set<Tid>, events: seq<Event>, t: nat)
    ensures var s := Run(Init(workers), events);
            && (t < s.started <==> t in s.finished || t in s.executing.Values)
            && !(t in s.finished && t in s.executing.Values)
            && (t in s.queue <==> s.started <= t < s.accepted)
            && (forall v, w | v in s.executing && w in s.executing && s.executing[v] == s.executing[w] :: v == w)
  {
    hide Run, Init;
    Always(workers, events);
    var s := Run(Init(workers), events);
    if s.started <= t < s.accepted {
      assert s.queue[t - s.started] == t;
    }
  }

  /** While any worker sleeps, each queued task has a woken worker on its way; once stopped, no worker sleeps. */
  lemma NoTaskForgotten(workers: set<Tid>, events: seq<Event>)
    ensures var s := Run(Init(workers), events);
            && (s.sleeping != {} ==> |s.queue| <= |s.woken|)
            && (!s.running ==> s.sleeping == {})
  {
    hide Run, Init;
    Always(workers, events);
  }

  /** A worker that has taken a task since `stop` never takes another. */
  lemma OneLastTask(workers: set<Tid>, events: seq<Event>, w: Tid)
    ensures var s := Run(Init(workers), events);
            w in s.late ==> Step(s, TakePass(w)) == s
  {
    hide Run, Init;
    Always(workers, events);
  }

  lemma StaysPastTake(s: State, e: Event, w: Tid)
    requires Inv(s) && !s.running && w !in s.taking + s.woken
    ensures var t := Step(s, e); !t.running && w !in t.taking + t.woken
  {
  }

  /**
   Once the pool is stopped, a worker that is past `take` takes nothing more, whatever happens, and after one pass of
   `take` every worker is past it.
   */
  lemma {:induction false} AtMostOneMoreTask(s: State, w: Tid, events: seq<Event>)
    requires Inv(s) && !s.running
    ensures var t := Step(s, TakePass(w)); w !in t.taking + t.woken && t.started <= s.started + 1
    ensures w !in s.taking + s.woken ==>
              var t := Run(s, events); w !in t.taking + t.woken && Step(t, TakePass(w)) == t
    decreases |events|
  {
    if events != [] && w !in s.taking + s.woken {
      StaysPastTake(s, events[0], w);
      StepKeepsInv(s, events[0]);
      hide Inv, Step;
      AtMostOneMoreTask(Step(s, events[0]), w, events[1..]);
    }
  }

  /** The pool runs until `stop` is called, and no worker leaves while it runs. */
  lemma {:induction false} RunsUntilStopped(s: State, events: seq<Event>)
    requires s.running && s.exited == {}
    ensures var t := Run(s, events); (t.running <==> Stop !in events) && (t.running ==> t.exited == {})
    decreases |events|
  {
    if events != [] {
      assert events == [events[0]] + events[1..];
      if events[0] == Stop {
        StaysStopped(Step(s, Stop), events[1..]);
      } else {
        RunsUntilStopped(Step(s, events[0]), events[1..]);
      }
    }
  }

  lemma {:induction false} StaysStopped(s: State, events: seq<Event>)
    requires !s.running
    ensures !Run(s, events).running
    decreases |events|
  {
    if events != [] {
      StaysStopped(Step(s, events[0]), events[1..]);
    }
  }

  /** The steps a worker still has to take before it is gone, once the pool is stopped. */
  function StepsLeft(s: State): nat {
    3 * |s.taking| + 3 * |s.woken| + 2 * |s.executing| + |s.looping|
  }

  lemma RemoveOne(a: set<Tid>, w: Tid)
    requires w in a
    ensures |a - {w}| == |a| - 1
  {
    assert a == (a - {w}) + {w};
  }

  lemma AddOne(a: set<Tid>, w: Tid)
    requires w !in a
    ensures |a + {w}| == |a| + 1
  {
  }

  lemma Unchanged(a: set<Tid>, w: Tid)
    requires w !in a
    ensures a - {w} == a
  {
  }

  ghost predicate Stopped(s: State) {
    Inv(s) && !s.running
  }

  lemma OnlyPlace(s: State, w: Tid)
    requires Placed(s)
    ensures w in s.taking || w in s.woken ==> w !in s.looping && w !in s.executing && !(w in s.taking && w in s.woken)
    ensures w in s.executing ==> w !in s.looping
  {
  }

  lemma LeaveTake(s: State, w: Tid)
    requires Placed(s) && (w in s.taking || w in s.woken)
    ensures |s.taking - {w}| + |s.woken - {w}| == |s.taking| + |s.woken| - 1
  {
    OnlyPlace(s, w);
    hide Placed;
    if w in s.taking {
      RemoveOne(s.taking, w);
      Unchanged(s.woken, w);
    } else {
      RemoveOne(s.woken, w);
      Unchanged(s.taking, w);
    }
  }

  lemma AddKey(m: map<Tid, nat>, w: Tid, t: nat)
    requires w !in m
    ensures |m[w := t]| == |m| + 1
  {
    assert m[w := t].Keys == m.Keys + {w};
    AddOne(m.Keys, w);
    assert |m[w := t].Keys| == |m[w := t]| && |m.Keys| == |m|;
  }

  lemma TakeShrinks(s: State, w: Tid)
    requires Placed(s) && !s.running && (w in s.taking || w in s.woken)
    ensures StepsLeft(TakeStep(s, w)) < StepsLeft(s)
  {
    OnlyPlace(s, w);
    LeaveTake(s, w);
    hide Placed;
    if s.queue != [] {
      AddKey(s.executing, w, s.queue[0]);
    } else {
      AddOne(s.looping, w);
    }
  }

  lemma CheckShrinks(s: State, w: Tid)
    requires !s.running
    ensures var t := CheckStep(s, w); !t.running && if w in s.looping then StepsLeft(t) < StepsLeft(s) else t == s
  {
    if w in s.looping {
      RemoveOne(s.looping, w);
    }
  }

  lemma FinishShrinks(s: State, w: Tid)
    requires Placed(s) && w in s.executing
    ensures StepsLeft(Step(s, Finish(w))) < StepsLeft(s)
  {
    OnlyPlace(s, w);
    hide Placed;
    assert (s.executing - {w}).Keys == s.executing.Keys - {w};
    RemoveOne(s.executing.Keys, w);
    assert |s.executing - {w}| == |s.executing| - 1;
    AddOne(s.looping, w);
  }

  lemma StoppedOthers(s: State, e: Event)
    requires !s.running && s.sleeping == {} && !IsWorkerStep(e)
    ensures StepsLeft(Step(s, e)) == StepsLeft(s) && !Step(s, e).running
  {
    match e
    case Submit(wake) => if wake == {} { assert s.woken + wake == s.woken; }
    case Stop => assert s.woken + s.sleeping == s.woken;
    case Spurious(w) =>
  }

  lemma StoppedFacts(s: State)
    requires Stopped(s)
    ensures Inv(s) && Placed(s) && s.sleeping == {}
  {
  }

  lemma WorkerShrinks(s: State, e: Event)
    requires Placed(s) && !s.running && IsWorkerStep(e)
    ensures var t := Step(s, e); !t.running && (t == s || StepsLeft(t) < StepsLeft(s))
  {
    hide Placed, TakeStep, CheckStep, StepsLeft;
    match e
    case Check(w) => CheckShrinks(s, w);
    case TakePass(w) =>
      if w in s.taking || w in s.woken {
        TakeShrinks(s, w);
        StillStopped(s, w);
      } else {
        NoTake(s, w);
      }
    case Finish(w) => if w in s.executing { FinishShrinks(s, w); }
  }

  /** After `stop`, every step of a worker brings it closer to its end, and nothing else moves it away. */
  lemma StoppedShrinks(s: State, e: Event)
    requires Stopped(s)
    ensures var t := Step(s, e);
            && Stopped(t)
            && (if IsWorkerStep(e) && t != s then StepsLeft(t) < StepsLeft(s) else StepsLeft(t) == StepsLeft(s))
  {
    StoppedFacts(s);
    StepKeepsInv(s, e);
    hide Inv, Placed, Step, StepsLeft;
    if IsWorkerStep(e) {
      WorkerShrinks(s, e);
    } else {
      StoppedOthers(s, e);
    }
  }

  lemma StillStopped(s: State, w: Tid)
    ensures TakeStep(s, w).running == s.running
  {
  }

  lemma NoTake(s: State, w: Tid)
    requires w !in s.taking && w !in s.woken
    ensures TakeStep(s, w) == s
  {
  }

  /** How many of the events are steps that a worker really takes. */
  function WorkerSteps(s: State, events: seq<Event>): nat
    decreases |events|
  {
    if events == [] then 0
    else
      var e := events[0];
      var t := Step(s, e);
      (if IsWorkerStep(e) && t != s then 1 else 0) + WorkerSteps(t, events[1..])
  }

  /** So after `stop` the workers take at most StepsLeft more steps in all, whatever else happens. */
  lemma {:induction false} ShutdownTerminates(s: State, events: seq<Event>)
    requires Stopped(s)
    ensures Stopped(Run(s, events)) && WorkerSteps(s, events) + StepsLeft(Run(s, events)) <= StepsLeft(s)
    decreases |events|
  {
    hide Stopped, StepsLeft, Step;
    if events != [] {
      StoppedShrinks(s, events[0]);
      ShutdownTerminates(Step(s, events[0]), events[1..]);
    }
  }

  lemma CanStep(s: State, w: Tid) returns (e: Event)
    requires w in s.looping || w in s.taking || w in s.woken || w in s.executing
    requires Placed(s) && !s.running
    ensures IsWorkerStep(e) && Step(s, e) != s
  {
    OnlyPlace(s, w);
    hide Placed;
    if w in s.looping {
      e := Check(w);
      assert w !in Step(s, e).looping;
    } else if w in s.executing {
      e := Finish(w);
      assert w !in Step(s, e).executing;
    } else {
      e := TakePass(w);
      assert w !in Step(s, e).taking && w !in Step(s, e).woken;
    }
  }

  /** And a stopped pool whose workers are not all gone has a worker that can take a step: `stop` can join them. */
  lemma ShutdownProgress(s: State)
    requires Stopped(s)
    ensures StepsLeft(s) == 0 <==> Workers(s) == s.exited
    ensures StepsLeft(s) > 0 ==> exists e: Event :: IsWorkerStep(e) && Step(s, e) != s
  {
    StoppedFacts(s);
    var busy := s.looping + s.taking + s.woken + s.executing.Keys;
    assert busy == {} <==> Workers(s) == s.exited by {
      assert busy !! s.exited;
      assert Workers(s) == busy + s.exited;
    }
    hide Inv, Placed, Workers, Step;
    assert |s.executing| == |s.executing.Keys|;
    if busy != {} {
      var w :| w in busy;
      var e := CanStep(s, w);
      assert StepsLeft(s) > 0;
    } else {
      assert s.looping == {} && s.taking == {} && s.woken == {} && s.executing.Keys == {};
    }
  }

  lemma RunAppend(s: State, a: seq<Event>, b: seq<Event>)
    ensures Run(s, a + b) == Run(Run(s, a), b)
    decreases |a|
  {
    if a == [] {
      assert a + b == b;
    } else {
      assert (a + b)[1..] == a[1..] + b;
      RunAppend(Step(s, a[0]), a[1..], b);
    }
  }

  lemma RunSnoc(s: State, events: seq<Event>, e: Event)
    ensures Run(s, events + [e]) == Step(Run(s, events), e)
  {
    RunAppend(s, events, [e]);
    assert Run(Run(s, events), [e]) == Step(Run(s, events), e);
  }
}
