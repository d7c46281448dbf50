/**
 ThreadPool.cpp in its own form. Each method is one thread's; what the other threads do while it waits or
 executes a task is given, and each call is a run of the monitor.
 */
module ThreadPools {
  import opened Common
  import opened PoolMonitor

  /** A step in which worker `w` itself does nothing. */
  predicate IsOther(e: Event, w: Tid) {
    match e
    case Check(v) => v != w
    case TakePass(v) => v != w
    case Finish(v) => v != w
    case _ => true
  }

  class ThreadPool {
    var running: bool
    var queue: seq<nat>

    // The workers, by where they are, and what has become of the tasks.
    var looping: set<Tid>
    var taking: set<Tid>
    var sleeping: set<Tid>
    var woken: set<Tid>
    var executing: map<Tid, nat>
    var exited: set<Tid>
    var accepted: nat
    ghost var started: nat
    ghost var finished: set<nat>
    ghost var late: set<Tid>

    ghost function Model(): State
      reads this
    {
      State(running, queue, looping, taking, sleeping, woken, executing, exited, accepted, started, finished, late)
    }

    ghost predicate Valid()
      reads this
    {
      Inv(Model())
    }

    constructor (workers: set<Tid>)
      ensures Valid() && Model() == Init(workers)
    {
      running, queue, looping, taking, sleeping, woken := true, [], workers, {}, {}, {};
      executing, exited, accepted, started, finished, late := map[], {}, 0, 0, {}, {};
      new;
      InitInv(workers);
    }

    /** run, when there are workers: queues the task and signals, which wakes some one sleeper. */
    method Submit() returns (task: nat, ghost wake: set<Tid>)
      requires Valid()
      modifies this
      ensures Valid() && Model() == Step(old(Model()), Event.Submit(wake))
      ensures task == old(accepted) && queue == old(queue) + [task]
    {
      hide Inv;
      ghost var before := Model();
      task := accepted;
      queue, accepted := queue + [task], accepted + 1;
      wake := {};
      if sleeping != {} {
        var t :| t in sleeping;
        sleeping, woken := sleeping - {t}, woken + {t};
        wake := {t};
      }
      assert sleeping == before.sleeping - wake && woken == before.woken + wake;
      StepKeepsInv(before, Event.Submit(wake));
    }

    /** The critical section of stop. */
    method Stop()
      requires Valid()
      modifies this
      ensures Valid() && Model() == Step(old(Model()), Event.Stop)
      ensures !running && sleeping == {}
    {
      hide Inv;
      ghost var before := Model();
      running := false;
      woken, sleeping := woken + sleeping, {};
      StepKeepsInv(before, Event.Stop);
    }

    /** runInThread's unlocked test of `running_`. */
    method TestRunning(w: Tid) returns (goOn: bool)
      requires Valid() && w in looping
      modifies this
      ensures Valid() && Model() == Step(old(Model()), Check(w))
      ensures goOn == running == old(running) && (if goOn then w in taking else w in exited)
    {
      hide Inv;
      ghost var before := Model();
      goOn := running;
      looping := looping - {w};
      if goOn {
        taking := taking + {w};
      } else {
        exited := exited + {w};
      }
      StepKeepsInv(before, Check(w));
    }

    /** One pass of `take` through the mutex: the worker sleeps, or leaves with a task, or with none once stopped. */
    method TakeOnce(w: Tid) returns (slept: bool, task: Option<nat>)
      requires Valid() && (w in taking || w in woken)
      modifies this
      ensures Valid() && Model() == Step(old(Model()), TakePass(w))
      ensures slept == (old(queue) == [] && old(running))
      ensures task == if old(queue) == [] then None else Some(old(queue)[0])
      ensures if slept then w in sleeping
              else if task.Some? then w in executing && executing[w] == task.value else w in looping
    {
      hide Inv;
      ghost var before := Model();
      slept, task := false, None;
      taking, woken := taking - {w}, woken - {w};
      if queue == [] && running {
        sleeping := sleeping + {w};
        slept := true;
      } else if queue != [] {
        task := Some(queue[0]);
        queue := queue[1..];
        executing := executing[w := task.value];
        started := started + 1;
        late := if running then late else late + {w};
      } else {
        looping := looping + {w};
      }
      StepKeepsInv(before, TakePass(w));
    }

    /** The end of a task's execution. */
    method FinishTask(w: Tid)
      requires Valid() && w in executing
      modifies this
      ensures Valid() && Model() == Step(old(Model()), Finish(w))
      ensures w in looping && finished == old(finished) + {old(executing)[w]}
    {
      hide Inv;
      ghost var before := Model();
      finished := finished + {executing[w]};
      executing := executing - {w};
      looping := looping + {w};
      StepKeepsInv(before, Finish(w));
    }

    /** A step of some other thread; whom it signals is decided here, not by `e`. */
    method Other(e: Event, ghost w: Tid) returns (ghost actual: Event)
      requires Valid() && IsOther(e, w)
      modifies this
      ensures Valid() && Model() == Step(old(Model()), actual) && IsOther(actual, w)
    {
      hide Inv;
      actual := e;
      ghost var before := Model();
      StepKeepsInv(before, e);
      match e
      case Submit(_) =>
        var _, wake := Submit();
        actual := Event.Submit(wake);
      case Stop => Stop();
      case Check(v) => if v in looping { var _ := TestRunning(v); }
      case TakePass(v) => if v in taking || v in woken { var _, _ := TakeOnce(v); }
      case Finish(v) => if v in executing { FinishTask(v); }
      case Spurious(v) =>
        if v in sleeping {
          sleeping, woken := sleeping - {v}, woken + {v};
        }
    }

    /** Others' steps move `w` only by waking it. */
    method Others(events: seq<Event>, ghost w: Tid) returns (ghost trace: seq<Event>)
      requires Valid() && forall e | e in events :: IsOther(e, w)
      modifies this
      ensures Valid() && Model() == Run(old(Model()), trace)
      ensures w in old(sleeping) ==> w in sleeping || w in woken
      ensures w in old(executing) ==> w in executing && executing[w] == old(executing)[w]
      ensures w in old(taking) ==> w in taking
    {
      hide Inv, Step;
      ghost var before := Model();
      trace := [];
      for k := 0 to |events|
        invariant Valid() && Model() == Run(before, trace)
        invariant w in before.sleeping ==> w in sleeping || w in woken
        invariant w in before.executing ==> w in executing && executing[w] == before.executing[w]
        invariant w in before.taking ==> w in taking
      {
        ghost var here := Model();
        ghost var actual := Other(events[k], w);
        OtherKeeps(here, actual, w);
        RunSnoc(before, trace, actual);
        trace := trace + [actual];
      }
    }

    /** `take`: sleeps while the queue is empty and the pool runs. `others[k]` happens during the k-th sleep. */
    method Take(w: Tid, others: seq<seq<Event>>) returns (slept: bool, task: Option<nat>, ghost trace: seq<Event>)
      requires Valid() && w in taking
      requires forall k, e | 0 <= k < |others| && e in others[k] :: IsOther(e, w)
      modifies this
      ensures Valid() && Model() == Run(old(Model()), trace)
      ensures if slept then w in sleeping || w in woken
              else if task.Some? then w in executing && executing[w] == task.value else w in looping
      ensures old(queue) != [] ==> !slept && task == Some(old(queue)[0])
      ensures old(queue) == [] && !old(running) ==> !slept && task == None
    {
      hide Inv, Step;
      ghost var before := Model();
      slept, task := TakeOnce(w);
      RunSnoc(before, [], TakePass(w));
      trace := [TakePass(w)];
      assert [] + trace == trace;
      var k := 0;
      while slept && k < |others|
        invariant Valid() && Model() == Run(before, trace)
        invariant if slept then w in sleeping || w in woken
                  else if task.Some? then w in executing && executing[w] == task.value else w in looping
        invariant before.queue != [] ==> !slept && task == Some(before.queue[0])
        invariant before.queue == [] && !before.running ==> !slept && task == None
        decreases slept, |others| - k
      {
        if w in sleeping {
          ghost var more := Others(others[k], w);
          RunAppend(before, trace, more);
          trace := trace + more;
        }
        k := k + 1;
        if w in woken {
          slept, task := TakeOnce(w);
          RunSnoc(before, trace, TakePass(w));
          trace := trace + [TakePass(w)];
        }
      }
    }

    /**
     runInThread, as far as `rounds` describe its surroundings: in each round the others' steps during its
     waits in `take` and during the execution of its task.
     */
    method RunInThread(w: Tid, rounds: seq<(seq<seq<Event>>, seq<Event>)>) returns (ghost trace: seq<Event>)
      requires Valid() && w in looping
      requires forall r, k, e | r in rounds && 0 <= k < |r.0| && e in r.0[k] :: IsOther(e, w)
      requires forall r, e | r in rounds && e in r.1 :: IsOther(e, w)
      modifies this
      ensures Valid() && Model() == Run(old(Model()), trace)
      ensures w in looping || w in sleeping || w in woken || (w in exited && !running)
      ensures rounds != [] && !old(running) ==> w in exited
    {
      hide Inv, Step;
      ghost var before := Model();
      trace := [];
      for r := 0 to |rounds|
        invariant Valid() && Model() == Run(before, trace) && w in looping
        invariant if r > 0 then before.running else running == before.running
      {
        assert rounds[r] in rounds;
        RunSnoc(before, trace, Check(w));
        var goOn := TestRunning(w);
        trace := trace + [Check(w)];
        if !goOn {
          break;
        }
        var slept, task, more := Take(w, rounds[r].0);
        RunAppend(before, trace, more);
        trace := trace + more;
        if slept {
          break;
        }
        if task.Some? {
          ghost var during := Others(rounds[r].1, w);
          RunAppend(before, trace, during);
          trace := trace + during;
          RunSnoc(before, trace, Finish(w));
          FinishTask(w);
          trace := trace + [Finish(w)];
        }
      }
    }
  }

  lemma OtherKeeps(s: State, e: Event, w: Tid)
    requires IsOther(e, w)
    ensures var t := Step(s, e);
            && (w in s.sleeping || w in s.woken ==> w in t.sleeping || w in t.woken)
            && (w in s.executing ==> w in t.executing && t.executing[w] == s.executing[w])
            && (w in s.taking ==> w in t.taking)
  {
  }
}
