/**
 TimerQueue.cpp in its own form: an object whose methods update the two indexes in place.
 `Model()` is the machine state of TimerMachine, and every method is one of its steps or a run of them.
 */
module TimerQueues {
  import opened Common
  import opened TimerSet
  import opened TimerMachine
  import opened TimerSafety
  import opened TimerTheorems

  /** What a timer callback, or another thread while callbacks run, may do. */
  predicate IsCallbackEvent(e: Event) {
    e.Tick? || e.New? || e.Add? || e.Cancel?
  }

  /** The state in which handleRead calls getExpired: the timerfd has been read. */
  ghost predicate AfterReadTimerfd(s: State) {
    exists before :: Reachable(before) && s == ReadTimerfd(before)
  }

  /** getExpired's `erase` of a due timer finds it: no earlier due timer has the same id. */
  lemma NextIsActive(s: State, due: seq<Entry>, k: nat)
    requires AfterReadTimerfd(s) && due == TakeExpired(s).expired && k < |due|
    ensures due[k].addr in s.heap
    ensures IdAt(s.heap, due[k].addr) in s.active - Ids(s.heap, due[..k])
    ensures Ids(s.heap, due[..k + 1]) == Ids(s.heap, due[..k]) + {IdAt(s.heap, due[k].addr)}
  {
    DueIsIndexed(s, due, k);
    forall x | x in due[..k] ensures x.addr != due[k].addr {
      var i :| 0 <= i < k && due[i] == x;
      DueIsIndexed(s, due, i);
    }
    assert due[..k + 1] == due[..k] + [due[k]];
  }

  lemma DueIsIndexed(s: State, due: seq<Entry>, k: nat)
    requires AfterReadTimerfd(s) && due == TakeExpired(s).expired && k < |due|
    ensures due[k].addr in s.heap && IdAt(s.heap, due[k].addr) in s.active
    ensures due[k].when == s.heap[due[k].addr].expiration
    ensures forall j | k < j < |due| :: due[k] != due[j]
  {
    var before :| Reachable(before) && s == ReadTimerfd(before);
    ReachableInv(before);
    assert due[k] == s.timers[k];
    forall j | k < j < |due| ensures due[k] != due[j] {
      assert Less(s.timers[k], s.timers[j]);
    }
  }

  class TimerQueue {
    // The surroundings: the clock, Timer::s_numCreated_, the allocator's live objects, the timerfd, and the
    // timers whose addTimerInLoop has run (addTimer binds it exactly once for each timer).
    var clock: int
    var created: nat
    var heap: map<nat, Timer>
    var deadline: Option<int>
    var armedAt: int
    var added: set<ActiveTimer>

    var timers: seq<Entry>
    var activeTimers: set<ActiveTimer>
    var callingExpiredTimers: bool
    var cancelingTimers: set<ActiveTimer>

    ghost var mode: Mode
    ghost var expired: seq<Entry>
    ghost var next: nat
    ghost var now: int
    ghost var start: nat
    ghost var log: seq<LogEntry>

    ghost function Model(): State
      reads this
    {
      State(clock, created, heap, timers, activeTimers, cancelingTimers, deadline, armedAt,
            mode, expired, next, now, start, added, log)
    }

    ghost predicate Valid()
      reads this
    {
      Reachable(Model()) && callingExpiredTimers == (mode == Calling)
    }

    constructor (clock: int)
      requires clock > 0
      ensures Valid() && Model() == Init(clock)
    {
      this.clock, created, heap, deadline, armedAt := clock, 0, map[], None, clock;
      timers, activeTimers, callingExpiredTimers, cancelingTimers := [], {}, false, {};
      mode, expired, next, now, start, added, log := Idle, [], 0, 0, 0, {}, [];
      new;
      assert Run(Init(clock), []) == Model();
    }

    method ResetTimerfd(expiration: int)
      modifies this`deadline, this`armedAt
      ensures Model() == Arm(old(Model()), expiration)
      ensures deadline == Some(Max(expiration, clock + 100)) && armedAt == clock
    {
      DelayExact(expiration, clock);
      var ts := HowMuchTimeFromNow(expiration, clock);
      deadline := Some(clock + DelayMicros(ts));
      armedAt := clock;
    }

    method ReadTimerfd()
      modifies this`deadline
      ensures Model() == TimerMachine.ReadTimerfd(old(Model()))
      ensures deadline == if old(deadline.Some? && deadline.value <= clock) then None else old(deadline)
    {
      if deadline.Some? && deadline.value <= clock {
        deadline := None;
      }
    }

    /** Inserts into both indexes; neither already holds the timer, as the source asserts. */
    method Insert(addr: nat) returns (earliestChanged: bool)
      requires Indexed(Model())
      requires addr in heap && IdAt(heap, addr) !in activeTimers
      modifies this`timers, this`activeTimers
      ensures Model() == InsertTimer(old(Model()), addr)
      ensures earliestChanged == EarliestChanged(old(Model()), addr)
      ensures |timers| == old(|timers|) + 1 && |activeTimers| == old(|activeTimers|) + 1
    {
      earliestChanged := false;
      var when := heap[addr].expiration;
      if timers == [] || when < timers[0].when {
        earliestChanged := true;
      }
      InsertMembers(timers, Entry(when, addr));
      assert Entry(when, addr) !in timers;
      timers := TimerSet.Insert(timers, Entry(when, addr));
      activeTimers := activeTimers + {ActiveTimer(addr, heap[addr].sequence)};
    }

    method AddTimerInLoop(addr: nat)
      requires Valid() && CanAdd(Model(), addr)
      modifies this
      ensures Valid() && Model() == Step(old(Model()), Add(addr))
    {
      hide Run, Reachable, Step, InsertTimer, Arm;
      ghost var before := Model();
      AddIs(before, addr);
      assert Indexed(before) && IdAt(heap, addr) !in activeTimers by {
        ReachableInv(before);
      }
      var earliestChanged := Insert(addr);
      added := added + {IdAt(heap, addr)};
      if earliestChanged {
        ResetTimerfd(heap[addr].expiration);
      }
      StepReachable(before, Add(addr));
    }

    method CancelInLoop(id: ActiveTimer)
      requires Valid() && mode != Resetting
      modifies this
      ensures Valid() && Model() == Step(old(Model()), Cancel(id))
    {
      hide Run, Reachable, Erase, Step;
      ghost var before := Model();
      CancelIs(before, id);
      if id in added {
        log := log + [Cancelled(id.sequence)];
      }
      if id in activeTimers {
        CancelFinds(before, id);
        var entry := Entry(heap[id.addr].expiration, id.addr);
        assert entry in timers;
        timers := Erase(timers, entry);
        log := log + [Deleted(heap[id.addr].sequence)];
        heap := heap - {id.addr};
        activeTimers := activeTimers - {id};
      } else if callingExpiredTimers {
        cancelingTimers := cancelingTimers + {id};
      }
      StepReachable(before, Cancel(id));
    }

    /** Moves the timers due at `now` out of both indexes. */
    method GetExpired(now: int) returns (due: seq<Entry>)
      requires AfterReadTimerfd(Model()) && now == clock
      modifies this`timers, this`activeTimers
      ensures due == Due(old(timers), now) && timers == NotDue(old(timers), now)
      ensures activeTimers == old(activeTimers) - Ids(heap, due)
    {
      ghost var before := Model();
      var end := LowerBound(timers, Entry(now, UINTPTR_MAX));
      due := timers[..end];
      timers := timers[end..];
      for k := 0 to |due|
        modifies this`activeTimers
        invariant activeTimers == before.active - Ids(heap, due[..k])
      {
        NextIsActive(before, due, k);
        var timer := ActiveTimer(due[k].addr, heap[due[k].addr].sequence);
        assert timer in activeTimers;
        activeTimers := activeTimers - {timer};
      }
      assert due[..|due|] == due;
    }

    /** Timer's constructor, called by any thread, at the address the allocator hands out. */
    method Construct(addr: nat, when: int, delta: nat, repeat: bool)
      requires Valid() && addr !in heap && addr < UINTPTR_MAX
      modifies this`created, this`heap
      ensures Valid() && Model() == Step(old(Model()), New(addr, when, delta, repeat))
      ensures created == old(created) + 1 && heap == old(heap)[addr := Timer(when, delta, repeat, created)]
    {
      hide Run, Reachable;
      ghost var before := Model();
      StepReachable(before, New(addr, when, delta, repeat));
      created := created + 1;
      heap := heap[addr := Timer(when, delta, repeat, created)];
      assert Model() == NewTimer(before, addr, when, delta, repeat);
    }

    /** One action of a callback, or of another thread meanwhile. */
    method Act(e: Event)
      requires Valid() && mode == Calling && IsCallbackEvent(e)
      modifies this
      ensures Valid() && Model() == Step(old(Model()), e)
      ensures mode == Calling && expired == old(expired) && next == old(next)
      ensures now == old(now) && start == old(start)
    {
      ghost var before := Model();
      StepReachable(before, e);
      match e
      case Tick(d) =>
        clock := clock + d;
        assert Model() == before.(clock := before.clock + d);
      case New(addr, when, delta, repeat) =>
        if addr !in heap && addr < UINTPTR_MAX {
          Construct(addr, when, delta, repeat);
        }
      case Add(addr) =>
        if addr in heap && IdAt(heap, addr) !in added {
          AddTimerInLoop(addr);
        }
      case Cancel(id) => CancelInLoop(id);
    }

    /** A timer callback: any finite script of actions. */
    method RunCallback(script: seq<Event>)
      requires Valid() && mode == Calling && forall e | e in script :: IsCallbackEvent(e)
      modifies this
      ensures Valid() && Model() == Run(old(Model()), script)
      ensures mode == Calling && expired == old(expired) && next == old(next)
      ensures now == old(now) && start == old(start)
    {
      hide Run, Step, Reachable;
      ghost var before := Model();
      assert script[..0] == [] && Run(before, []) == before by {
        RunNone(before);
      }
      for k := 0 to |script|
        invariant Valid() && Model() == Run(before, script[..k])
        invariant mode == Calling && expired == before.expired && next == before.next
        invariant now == before.now && start == before.start
      {
        RunSnoc(before, script[..k], script[k]);
        assert script[..k + 1] == script[..k] + [script[k]];
        Act(script[k]);
      }
      assert script[..|script|] == script;
    }

    /** reset's treatment of one expired timer. */
    method ResetTimer(addr: nat, now: int)
      requires Valid() && mode == Resetting && next < |expired| && addr == expired[next].addr && now == this.now
      modifies this
      ensures Valid() && Model() == Step(old(Model()), ResetNext)
    {
      hide Run, Reachable;
      ghost var before := Model();
      StepReachable(before, ResetNext);
      NextIsLive(before);
      var timer := ActiveTimer(addr, heap[addr].sequence);
      next := next + 1;
      if heap[addr].repeat && timer !in cancelingTimers {
        heap := heap[addr := Restart(heap[addr], now)];
        var _ := Insert(addr);
      } else {
        log := log + [Deleted(heap[addr].sequence)];
        heap := heap - {addr};
      }
      assert Model() == ResetOne(before);
    }

    /** The end of reset: sets the timerfd for the earliest timer, if that is valid. */
    method SetNextExpire()
      requires Valid() && mode == Resetting && next == |expired|
      modifies this
      ensures Valid() && Model() == Step(old(Model()), EndReset)
    {
      ghost var before := Model();
      StepReachable(before, EndReset);
      var nextExpire := 0;
      if timers != [] {
        FrontIsLive(before);
        nextExpire := heap[timers[0].addr].expiration;
      }
      if nextExpire > 0 {
        ResetTimerfd(nextExpire);
      }
      mode := Idle;
      assert Model() == Step(before, EndReset);
    }

    /** Puts back the repeating timers that were not cancelled, deletes the rest, and sets the timerfd again. */
    method Reset(due: seq<Entry>, now: int)
      requires Valid() && mode == Resetting && due == expired && next == 0 && now == this.now
      modifies this
      ensures Valid() && mode == Idle
      ensures var s := Run(old(Model()), Repeat(ResetNext, |due|));
              s.mode == Resetting && s.next == |s.expired| && Model() == Step(s, EndReset)
    {
      ghost var before := Model();
      for k := 0 to |due|
        invariant Valid() && Model() == Run(before, Repeat(ResetNext, k))
        invariant mode == Resetting && due == expired && next == k && now == this.now
      {
        RunSnoc(before, Repeat(ResetNext, k), ResetNext);
        ResetTimer(due[k].addr, now);
      }
      SetNextExpire();
    }

    /** The start of handleRead: reads the clock and the timerfd, and takes the expired timers. */
    method StartRead() returns (due: seq<Entry>, time: int)
      requires Valid() && mode == Idle
      modifies this`deadline, this`timers, this`activeTimers
      ensures time == clock && due == Due(old(timers), time) && timers == NotDue(old(timers), time)
      ensures activeTimers == old(activeTimers) - Ids(heap, due)
      ensures deadline == TimerMachine.ReadTimerfd(old(Model())).deadline
    {
      ghost var before := Model();
      time := clock;
      ReadTimerfd();
      due := GetExpired(time);
    }

    /** handleRead up to its callback loop. */
    method BeginCalls() returns (due: seq<Entry>, time: int)
      requires Valid() && mode == Idle
      modifies this
      ensures Model() == TakeExpired(old(Model())) && callingExpiredTimers
      ensures due == expired && time == now
    {
      hide Reachable, Due, NotDue, Ids, Sequences;
      due, time := StartRead();
      callingExpiredTimers := true;
      cancelingTimers := {};
      expired, next, now, mode, start := due, 0, time, Calling, |log|;
      log := log + [Batch(Sequences(heap, due))];
    }

    /** One round of handleRead's callback loop. */
    method CallTimer(addr: nat, script: seq<Event>)
      requires Valid() && mode == Calling && next < |expired| && addr == expired[next].addr
      requires forall e | e in script :: IsCallbackEvent(e)
      modifies this
      ensures Valid() && Model() == Run(old(Model()), [RunNext] + script)
      ensures mode == Calling && expired == old(expired) && next == old(next) + 1
      ensures now == old(now) && start == old(start)
    {
      ghost var before := Model();
      StepReachable(before, RunNext);
      NextIsLive(before);
      assert ([RunNext] + script)[1..] == script;
      log := log + [Ran(heap[addr].sequence)];
      next := next + 1;
      assert Model() == Step(before, RunNext);
      RunCallback(script);
    }

    /** handleRead's callback loop, with `scripts[k]` as the k-th callback run. */
    method CallTimers(due: seq<Entry>, scripts: seq<seq<Event>>) returns (ghost trace: seq<Event>)
      requires Valid() && mode == Calling && due == expired && next == 0
      requires forall k, e | 0 <= k < |scripts| && e in scripts[k] :: IsCallbackEvent(e)
      modifies this
      ensures Valid() && Model() == Run(old(Model()), trace) && EndReset !in trace
      ensures mode == Calling && expired == due && next == |due| && now == old(now)
    {
      ghost var before := Model();
      trace := [];
      for k := 0 to |due|
        invariant Valid() && Model() == Run(before, trace) && EndReset !in trace
        invariant mode == Calling && expired == due && next == k && now == before.now
      {
        var script := if k < |scripts| then scripts[k] else [];
        RunAppend(before, trace, [RunNext] + script);
        CallTimer(due[k].addr, script);
        trace := trace + ([RunNext] + script);
      }
    }

    /**
     The timerfd's read callback. `trace` is the run of the machine that it amounts to, so everything
     proved about runs holds across it.
     */
    method HandleRead(scripts: seq<seq<Event>>) returns (ghost trace: seq<Event>)
      requires Valid() && mode == Idle
      requires forall k, e | 0 <= k < |scripts| && e in scripts[k] :: IsCallbackEvent(e)
      modifies this
      ensures Valid() && mode == Idle
      ensures EndReset !in trace && Model() == Run(old(Model()), [BeginRead] + trace + [EndReset])
      ensures ReadIsExact(old(Model()), Model())
    {
      hide Run, Reachable, ReadIsExact;
      ghost var s0 := Model();
      StepReachable(s0, BeginRead);
      var due, time := BeginCalls();
      ghost var s1 := Model();
      trace := CallTimers(due, scripts);
      trace := EndCallsTrace(s1, trace);
      mode, next := Resetting, 0;
      callingExpiredTimers := false;
      RunAppend(s1, trace, Repeat(ResetNext, |due|));
      Reset(due, time);
      trace := trace + Repeat(ResetNext, |due|);
      ExpiryIsExact(s0, trace);
      WholeRead(s0, trace);
    }
  }

  /** Leaving the callback loop: one more step of the machine. */
  lemma EndCallsTrace(s1: State, trace: seq<Event>) returns (longer: seq<Event>)
    requires Reachable(Run(s1, trace)) && EndReset !in trace
    requires var s := Run(s1, trace); s.mode == Calling && s.next == |s.expired|
    ensures var s := Run(s1, trace); Run(s1, longer) == s.(mode := Resetting, next := 0)
    ensures Reachable(Run(s1, longer)) && EndReset !in longer
  {
    longer := trace + [EndCalls];
    RunSnoc(s1, trace, EndCalls);
    StepReachable(Run(s1, trace), EndCalls);
  }

  lemma FrontIsLive(s: State)
    requires Reachable(s) && s.timers != []
    ensures s.timers[0].addr in s.heap
  {
    ReachableInv(s);
    assert s.timers[0] in s.timers;
  }

  function Repeat(e: Event, n: nat): (r: seq<Event>)
    ensures |r| == n && forall x | x in r :: x == e
  {
    if n == 0 then [] else Repeat(e, n - 1) + [e]
  }

  lemma AddIs(s: State, addr: nat)
    requires CanAdd(s, addr)
    ensures Step(s, Add(addr)) == AddInLoop(s, addr)
  {
  }

  lemma CancelIs(s: State, id: ActiveTimer)
    requires s.mode != Resetting
    ensures Step(s, Cancel(id)) == TimerMachine.CancelInLoop(s, id)
  {
  }

  lemma RunNone(s: State)
    ensures Run(s, []) == s
  {
  }

  lemma RunSnoc(s: State, events: seq<Event>, e: Event)
    ensures Run(s, events + [e]) == Step(Run(s, events), e)
  {
    RunAppend(s, events, [e]);
    assert Run(Run(s, events), [e]) == Step(Run(s, events), e);
  }

  lemma WholeRead(s0: State, trace: seq<Event>)
    ensures Run(s0, [BeginRead] + trace + [EndReset]) == Step(Run(Step(s0, BeginRead), trace), EndReset)
  {
    RunSnoc(s0, [BeginRead] + trace, EndReset);
    assert ([BeginRead] + trace)[1..] == trace;
  }

  /** The timer at the head of the rest of the batch is live and unindexed. */
  lemma NextIsLive(s: State)
    requires Reachable(s) && s.mode != Idle && s.next < |s.expired|
    ensures var a := s.expired[s.next].addr;
            a in s.heap && IdAt(s.heap, a) !in s.active && Indexed(s)
            && Indexed(s.(heap := s.heap[a := Restart(s.heap[a], s.now)]))
  {
    ReachableInv(s);
    assert s.expired[s.next] in Remaining(s) by {
      assert s.mode == Resetting ==> Remaining(s)[0] == s.expired[s.next];
    }
  }

  /** cancelInLoop's `erase` of a found timer removes one entry, and the timer is live. */
  lemma CancelFinds(s: State, id: ActiveTimer)
    requires Reachable(s) && id in s.active
    ensures id.addr in s.heap && IdAt(s.heap, id.addr) == id && Entry(s.heap[id.addr].expiration, id.addr) in s.timers
    ensures |Erase(s.timers, Entry(s.heap[id.addr].expiration, id.addr))| == |s.timers| - 1 == |s.active - {id}|
  {
    ReachableInv(s);
    EraseMembers(s.timers, Entry(s.heap[id.addr].expiration, id.addr));
    SizesAgree(s.heap, s.timers, s.active);
  }
}
