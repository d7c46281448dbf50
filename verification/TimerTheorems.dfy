/** What the timer queue guarantees over whole runs. */
module TimerTheorems {
  import opened Common
  import opened TimerSet
  import opened TimerMachine
  import opened TimerSafety

  lemma InitInv(clock: int)
    requires clock > 0
    ensures Inv(Init(clock))
  {
    assert forall n: nat :: !Live(Init(clock), n);
  }

  ghost predicate Reachable(s: State) {
    exists clock, events :: clock > 0 && s == Run(Init(clock), events)
  }

  lemma ReachableInv(s: State)
    requires Reachable(s)
    ensures Inv(s)
  {
    var clock, events :| clock > 0 && s == Run(Init(clock), events);
    InitInv(clock);
    RunKeepsInv(Init(clock), events);
  }

  lemma RunReachable(s: State, events: seq<Event>)
    requires Reachable(s)
    ensures Reachable(Run(s, events))
  {
    var clock, before :| clock > 0 && s == Run(Init(clock), before);
    RunAppend(Init(clock), before, events);
  }

  lemma StepReachable(s: State, e: Event)
    requires Reachable(s)
    ensures Reachable(Step(s, e))
  {
    RunReachable(s, [e]);
    assert Run(s, [e]) == Step(s, e);
  }

  lemma RunAppend(s: State, a: seq<Event>, b: seq<Event>)
    ensures Run(s, a + b) == Run(Run(s, a), b)
    decreases |a|
  {
    if a == [] {
      assert a + b == b;
    } else {
      assert (a + b)[1..] == a[1..] + b;
      RunAppend(Step(s, a[0]), a[1..], b);
    }
  }

  /** The timer queue after the first `n` of its steps. */
  function After(clock: int, steps: seq<Event>, n: nat): State
    requires n <= |steps|
  {
    Run(Init(clock), steps[..n])
  }

  lemma AfterIsReachable(clock: int, steps: seq<Event>, n: nat)
    requires clock > 0 && n <= |steps|
    ensures Reachable(After(clock, steps, n)) && Inv(After(clock, steps, n))
  {
    InitInv(clock);
    RunKeepsInv(Init(clock), steps[..n]);
  }

  lemma AfterLater(clock: int, steps: seq<Event>, m: nat, n: nat)
    requires m <= n <= |steps|
    ensures After(clock, steps, n) == Run(After(clock, steps, m), steps[m..n])
  {
    assert steps[..n] == steps[..m] + steps[m..n];
    RunAppend(Init(clock), steps[..m], steps[m..n]);
  }

  // ---------------------------------------------------------------- two indexes, one set of timers

  /** `timers_` and `activeTimers_` always have the same size, as cancelInLoop, getExpired and insert assert. */
  lemma {:induction false} SizesAgree(heap: map<nat, Timer>, timers: seq<Entry>, active: set<ActiveTimer>)
    requires Ascending(timers)
    requires forall e | e in timers :: e.addr in heap && heap[e.addr].expiration == e.when
                                       && IdAt(heap, e.addr) in active
    requires forall a | a in active :: a.addr in heap && heap[a.addr].sequence == a.sequence
                                       && Entry(heap[a.addr].expiration, a.addr) in timers
    ensures |timers| == |active|
    decreases |timers|
  {
    if timers == [] {
      assert forall a :: a !in active;
    } else {
      var e := timers[0];
      var id := IdAt(heap, e.addr);
      var rest := timers[1..];
      assert timers == [e] + rest;
      forall x | x in rest ensures IdAt(heap, x.addr) in active - {id} {
        var i :| 1 <= i < |timers| && timers[i] == x;
        assert Less(e, x);
      }
      SizesAgree(heap, rest, active - {id});
    }
  }

  /** In every reachable state an entry is in one index exactly when its timer is in the other. */
  lemma IndexesAgree(clock: int, events: seq<Event>)
    requires clock > 0
    ensures var s := Run(Init(clock), events);
            && |s.timers| == |s.active|
            && (forall w, a :: Entry(w, a) in s.timers <==>
                  a in s.heap && s.heap[a].expiration == w && IdAt(s.heap, a) in s.active)
            && (forall x | x in s.active :: x.addr in s.heap && IdAt(s.heap, x.addr) == x)
  {
    InitInv(clock);
    RunKeepsInv(Init(clock), events);
    var s := Run(Init(clock), events);
    SizesAgree(s.heap, s.timers, s.active);
  }

  /**
   Every timer ever constructed is live or was deleted. A live one has one address, and once its add has run it is
   either indexed or in the batch being processed, not both.
   */
  lemma TimersConserved(clock: int, events: seq<Event>, n: nat)
    requires clock > 0
    ensures var s := Run(Init(clock), events);
            && (1 <= n <= s.created ==> (Live(s, n) <==> Deleted(n) !in s.log))
            && (n == 0 || n > s.created ==> !Live(s, n) && Deleted(n) !in s.log)
            && (forall a, b | a in s.heap && b in s.heap && s.heap[a].sequence == s.heap[b].sequence == n :: a == b)
            && (forall a | a in s.heap && s.heap[a].sequence == n && IdAt(s.heap, a) in s.added ::
                  IdAt(s.heap, a) in s.active <==> Entry(s.heap[a].expiration, a) !in Remaining(s))
  {
    InitInv(clock);
    RunKeepsInv(Init(clock), events);
    hide Run, Step, Init;
  }

  lemma {:induction false} OrderedAt(log: seq<LogEntry>, j: nat)
    requires LogOrdered(log) && j < |log|
    ensures MayFollow(log[..j], log[j])
    decreases |log|
  {
    if j < |log| - 1 {
      OrderedAt(log[..|log| - 1], j);
      assert log[..|log| - 1][..j] == log[..j];
    }
  }

  /** A deleted timer is never run, collected or deleted again: no double delete and no use after delete. */
  lemma DeletedForGood(clock: int, events: seq<Event>, n: nat, i: nat, j: nat)
    requires clock > 0
    requires var log := Run(Init(clock), events).log; i < j < |log| && log[i] == Deleted(n)
    ensures var later := Run(Init(clock), events).log[j];
            && later != Ran(n) && later != Deleted(n) && (later.Batch? ==> n !in later.sequences)
  {
    InitInv(clock);
    RunKeepsInv(Init(clock), events);
    var log := Run(Init(clock), events).log;
    OrderedAt(log, j);
    assert log[..j][i] == Deleted(n);
  }

  // ---------------------------------------------------------------- cancellation

  lemma StepExtendsLog(s: State, e: Event)
    ensures s.log <= Step(s, e).log
  {
  }

  lemma {:induction false} RunExtendsLog(s: State, events: seq<Event>)
    ensures s.log <= Run(s, events).log
    decreases |events|
  {
    if events != [] {
      StepExtendsLog(s, events[0]);
      RunExtendsLog(Step(s, events[0]), events[1..]);
    }
  }

  lemma AddedStepStays(s: State, id: ActiveTimer, e: Event)
    requires id in s.added
    ensures id in Step(s, e).added
  {
  }

  lemma {:induction false} AddedStays(s: State, id: ActiveTimer, events: seq<Event>)
    requires id in s.added
    ensures id in Run(s, events).added
    decreases |events|
  {
    if events != [] {
      AddedStepStays(s, id, events[0]);
      hide Step;
      AddedStays(Step(s, events[0]), id, events[1..]);
    }
  }

  /**
   Once cancelInLoop has run for a timer whose add was processed, no later batch contains the timer,
   whatever happens afterwards and whether the cancel came from inside a callback or not.
   */
  lemma CancelIsFinal(s: State, id: ActiveTimer, events: seq<Event>, j: nat)
    requires Reachable(s) && s.mode != Resetting && id in s.added
    requires var log := Run(Step(s, Cancel(id)), events).log; |s.log| <= j < |log| && log[j].Batch?
    ensures id.sequence !in Run(Step(s, Cancel(id)), events).log[j].sequences
  {
    var t := Step(s, Cancel(id));
    var log := Run(t, events).log;
    StepReachable(s, Cancel(id));
    RunReachable(t, events);
    ReachableLog(Run(t, events));
    RunExtendsLog(t, events);
    assert t.log[|s.log|] == Cancelled(id.sequence);
    OrderedAt(log, j);
    assert log[..j][|s.log|] == Cancelled(id.sequence);
  }

  lemma ReachableLog(s: State)
    requires Reachable(s)
    ensures LogOrdered(s.log)
  {
    ReachableInv(s);
  }

  /** Cancelling `id` leaves every other timer alone, even one that now lives at the same address. */
  lemma CancelTouchesNoOther(s: State, id: ActiveTimer, a: nat)
    requires Inv(s) && a in s.heap && IdAt(s.heap, a) != id
    ensures var t := Step(s, Cancel(id));
            var other := IdAt(s.heap, a);
            var entry := Entry(s.heap[a].expiration, a);
            && a in t.heap && t.heap[a] == s.heap[a]
            && (other in t.active <==> other in s.active)
            && (entry in t.timers <==> entry in s.timers)
            && (other in t.canceling <==> other in s.canceling)
            && t.expired == s.expired && t.next == s.next && t.mode == s.mode
  {
    hide Conserved, LogOrdered, ArmedWhenDue, Batched, Owned;
    if s.mode != Resetting && id in s.active {
      EraseMembers(s.timers, Entry(s.heap[id.addr].expiration, id.addr));
    }
  }

  /** A stale id finds nothing: the heap and both indexes stay as they are. */
  lemma StaleCancelDoesNothing(s: State, id: ActiveTimer)
    requires Inv(s) && (id.addr in s.heap ==> s.heap[id.addr].sequence != id.sequence)
    ensures var t := Step(s, Cancel(id));
            t.heap == s.heap && t.timers == s.timers && t.active == s.active && t.deadline == s.deadline
  {
  }

  // ---------------------------------------------------------------- the timerfd

  /**
   Outside handleRead, if any timer is queued then the timerfd is set to go off no later than the earliest
   timer, or 100 microseconds after it was last set; timers due at or before the epoch included.
   */
  lemma NoTimerIsForgotten(clock: int, events: seq<Event>)
    requires clock > 0
    ensures var s := Run(Init(clock), events);
            s.mode == Idle && s.timers != [] ==>
              && s.deadline.Some?
              && s.armedAt <= s.clock && s.armedAt < s.deadline.value
              && (forall e | e in s.timers :: s.deadline.value <= Max(e.when, s.armedAt + 100))
  {
    hide Run, Init, Step;
    InitInv(clock);
    RunKeepsInv(Init(clock), events);
    var s := Run(Init(clock), events);
    assert Ascending(s.timers) && ArmedWhenDue(s);
    hide Inv;
    forall e | e in s.timers ensures s.timers[0].when <= e.when {
      var i :| 0 <= i < |s.timers| && s.timers[i] == e;
      assert i > 0 ==> Less(s.timers[0], e);
    }
  }

  // ---------------------------------------------------------------- one handleRead

  /** The timers run, in order. */
  function RanIn(log: seq<LogEntry>): seq<nat> {
    if log == [] then []
    else
      var last := log[|log| - 1];
      RanIn(log[..|log| - 1]) + if last.Ran? then [last.sequence] else []
  }

  lemma RanInAppend(a: seq<LogEntry>, b: seq<LogEntry>)
    ensures RanIn(a + b) == RanIn(a) + RanIn(b)
    decreases |b|
  {
    if b == [] {
      assert a + b == a;
    } else {
      assert (a + b)[..|a + b| - 1] == a + b[..|b| - 1];
      RanInAppend(a, b[..|b| - 1]);
    }
  }

  /** The due timer `e` of `s0` has been dealt with: put back at now + interval, or deleted. */
  ghost predicate Settled(s0: State, s: State, e: Entry) {
    e.addr in s0.heap
    && var t := s0.heap[e.addr];
    if t.repeat && Cancelled(t.sequence) !in s.log then
      && e.addr in s.heap && s.heap[e.addr] == t.(expiration := s0.clock + t.delta)
      && Entry(s0.clock + t.delta, e.addr) in s.timers
    else
      Deleted(t.sequence) in s.log
  }

  /** Batch member not dealt with yet. */
  ghost predicate Waiting(s0: State, s: State, e: Entry) {
    && e.addr in s.heap && e.addr in s0.heap && s.heap[e.addr] == s0.heap[e.addr]
    && IdAt(s0.heap, e.addr) in s.added
    && (IdAt(s0.heap, e.addr) in s.canceling ==> Cancelled(s0.heap[e.addr].sequence) in s.log)
  }

  /** A timer that was not due is where it was, unless it was cancelled. */
  ghost predicate Untouched(s0: State, s: State, e: Entry) {
    e.addr in s0.heap
    && (Cancelled(s0.heap[e.addr].sequence) in s.log
        || (e in s.timers && e.addr in s.heap && s.heap[e.addr] == s0.heap[e.addr]))
  }

  /** The batch members before this position have been reset. */
  function Done(s: State): nat {
    if s.mode == Resetting then s.next else 0
  }

  /** The batch members before this position have been run. */
  function Called(s: State): nat {
    if s.mode == Calling then s.next else |s.expired|
  }

  ghost predicate RanSoFar(s0: State, s: State)
    requires Called(s) <= |s.expired|
  {
    s0.log <= s.log && RanIn(s.log[|s0.log|..]) == Sequences(s0.heap, s.expired[..Called(s)])
  }

  ghost predicate BatchSoFar(s0: State, s: State)
    requires Done(s) <= |s.expired|
  {
    && (forall x | x in s.expired[Done(s)..] :: Waiting(s0, s, x))
    && (forall x | x in s.expired[..Done(s)] :: Settled(s0, s, x))
  }

  ghost predicate OthersSoFar(s0: State, s: State) {
    forall e | e in s0.timers && e.when > s0.clock :: Untouched(s0, s, e)
  }

  /** The batch and the time of the handleRead that began in `s0`. */
  ghost predicate SameRead(s0: State, s: State) {
    s.mode != Idle && s.now == s0.clock && s.next <= |s.expired| && s.expired == Due(s0.timers, s0.clock)
  }

  lemma BeginTracks(s0: State)
    requires Reachable(s0) && s0.mode == Idle
    ensures var s := TakeExpired(s0);
            SameRead(s0, s) && RanSoFar(s0, s) && BatchSoFar(s0, s) && OthersSoFar(s0, s)
  {
    hide Inv, Reachable, Due, NotDue, Sequences;
    BeginTracksOthers(s0);
    BeginTracksBatch(s0);
    var s := TakeExpired(s0);
    hide OthersSoFar, BatchSoFar;
    assert s.log[|s0.log|..] == [Batch(Sequences(s0.heap, s.expired))];
    RanInAppend([], [Batch(Sequences(s0.heap, s.expired))]);
    NoneYet(s0.heap, s.expired);
  }

  lemma NoneYet(heap: map<nat, Timer>, expired: seq<Entry>)
    ensures Sequences(heap, expired[..0]) == []
  {
  }

  lemma BeginTracksOthers(s0: State)
    requires Reachable(s0) && s0.mode == Idle
    ensures OthersSoFar(s0, TakeExpired(s0))
  {
    ReachableInv(s0);
    ExpiredAreDue(s0);
    assert Indexed(s0);
    hide Inv, Reachable, Due, NotDue, Ascending;
  }

  lemma BeginTracksBatch(s0: State)
    requires Reachable(s0) && s0.mode == Idle
    ensures var s := TakeExpired(s0); Done(s) <= |s.expired| && BatchSoFar(s0, s)
  {
    hide Run, Due, NotDue, Ascending, Settled, Conserved, CancelledAreOut, LogOrdered, ArmedWhenDue, Batched,
         Sequences, Ids;
    ReachableInv(s0);
    ExpiredAreDue(s0);
    hide Numbered, Reachable;
    var s := TakeExpired(s0);
    forall x | x in s.expired ensures Waiting(s0, s, x) {
      assert IdAt(s0.heap, x.addr) in s0.active;
    }
  }

  lemma StepSameRead(s0: State, s: State, e: Event)
    requires SameRead(s0, s) && e != EndReset
    ensures SameRead(s0, Step(s, e))
  {
  }

  ghost predicate Runs(s: State, e: Event) {
    e == RunNext && s.mode == Calling && s.next < |s.expired|
  }

  lemma RanInShort(log: seq<LogEntry>)
    requires |log| <= 2 && forall x | x in log :: !x.Ran?
    ensures RanIn(log) == []
  {
    if |log| == 2 {
      assert RanIn(log[..1]) == RanIn(log[..1][..0]);
    }
  }

  lemma QuietStepLog(s: State, e: Event)
    requires !Runs(s, e)
    ensures var t := Step(s, e);
            s.log <= t.log && |t.log| <= |s.log| + 2 && forall i | |s.log| <= i < |t.log| :: !t.log[i].Ran?
  {
    match e
    case Cancel(id) =>
    case _ =>
  }

  lemma StepLog(s: State, e: Event)
    ensures var t := Step(s, e);
            && s.log <= t.log
            && RanIn(t.log[|s.log|..]) == if Runs(s, e) then [SequenceAt(s.heap, s.expired[s.next].addr)] else []
  {
    var more := Step(s, e).log[|s.log|..];
    if Runs(s, e) {
      assert more[..0] == [];
    } else {
      QuietStepLog(s, e);
      RanInShort(more);
    }
  }

  lemma StepCalled(s: State, e: Event)
    requires s.mode != Idle && e != EndReset
    ensures Called(Step(s, e)) == if Runs(s, e) then s.next + 1 else Called(s)
  {
  }

  lemma StepTracksRan(s0: State, s: State, e: Event)
    requires SameRead(s0, s) && RanSoFar(s0, s) && e != EndReset
    requires Runs(s, e) ==> Waiting(s0, s, s.expired[s.next])
    ensures SameRead(s0, Step(s, e)) && RanSoFar(s0, Step(s, e))
  {
    hide Step, RanIn;
    StepSameRead(s0, s, e);
    StepLog(s, e);
    StepCalled(s, e);
    var t := Step(s, e);
    var more := t.log[|s.log|..];
    assert t.log[|s0.log|..] == s.log[|s0.log|..] + more;
    RanInAppend(s.log[|s0.log|..], more);
    if Runs(s, e) {
      assert s.expired[..s.next + 1] == s.expired[..s.next] + [s.expired[s.next]];
    }
  }

  lemma CancelKeepsWaiting(s0: State, s: State, id: ActiveTimer, x: Entry)
    requires Reachable(s) && s.mode == Calling && Waiting(s0, s, x) && x in s.expired
    ensures Waiting(s0, Step(s, Cancel(id)), x)
  {
    hide Run, Conserved, LogOrdered, ArmedWhenDue, Numbered, CancelledAreOut, Erase;
    ReachableInv(s);
    StepExtendsLog(s, Cancel(id));
    assert x in Remaining(s);
    if id == IdAt(s0.heap, x.addr) {
      assert Step(s, Cancel(id)).log[|s.log|] == Cancelled(id.sequence);
    }
  }

  lemma NextOthers(s: State)
    requires Reachable(s) && CanReset(s)
    ensures s.next < |s.expired| && s.expired[s.next].addr in s.heap
    ensures forall x | x in s.expired[s.next + 1..] :: x.addr != s.expired[s.next].addr
  {
    hide Run;
    ReachableInv(s);
    NextInBatch(s);
  }

  /** Nothing but its own reset touches a batch member that is waiting. */
  lemma StepKeepsWaiting(s0: State, s: State, e: Event, x: Entry)
    requires Reachable(s) && s.mode != Idle && e != EndReset && Waiting(s0, s, x)
    requires s.mode == Calling ==> x in s.expired
    requires e == ResetNext && CanReset(s) ==> x.addr != s.expired[s.next].addr
    ensures Waiting(s0, Step(s, e), x)
  {
    hide Run;
    if e.Cancel? {
      if s.mode == Calling {
        CancelKeepsWaiting(s0, s, e.id, x);
      }
    } else {
      StepExtendsLog(s, e);
    }
  }

  /** Resetting a waiting member settles it. */
  lemma RestartSettles(s0: State, s: State)
    requires Restarts(s) && CancelledAreOut(s) && s.now == s0.clock && Waiting(s0, s, s.expired[s.next])
    requires Ascending(s.timers)
    ensures Settled(s0, RestartNext(s), s.expired[s.next])
  {
    var x := s.expired[s.next];
    InsertMembers(s.timers, Entry(s.now + s.heap[x.addr].delta, x.addr));
    hide Ascending, Insert;
    assert Cancelled(s.heap[x.addr].sequence) !in s.log;
  }

  lemma DropSettles(s0: State, s: State)
    requires CanReset(s) && !Restarts(s) && Waiting(s0, s, s.expired[s.next])
    ensures Settled(s0, DropNext(s), s.expired[s.next])
  {
    var t := DropNext(s);
    assert t.log[|s.log|] == Deleted(s0.heap[s.expired[s.next].addr].sequence);
  }

  lemma ResetSettles(s0: State, s: State)
    requires Reachable(s) && CanReset(s) && s.now == s0.clock && Waiting(s0, s, s.expired[s.next])
    ensures Settled(s0, ResetOne(s), s.expired[s.next])
  {
    assert Ascending(s.timers) && CancelledAreOut(s) by {
      ReachableInv(s);
    }
    hide Reachable, Ascending, CancelledAreOut, Settled, RestartNext, DropNext;
    if Restarts(s) {
      RestartSettles(s0, s);
    } else {
      DropSettles(s0, s);
    }
  }

  lemma InsertKeepsEntry(s: State, addr: nat, x: Entry)
    requires Indexed(s) && x in s.timers
    ensures x in InsertTimer(s, addr).timers
  {
    InsertMembers(s.timers, Entry(ExpirationAt(s.heap, addr), addr));
  }

  lemma ResetKeepsEntry(s: State, x: Entry)
    requires Reachable(s) && CanReset(s) && x in s.timers
    ensures var t := ResetOne(s);
            x in t.timers && x.addr in s.heap && x.addr in t.heap && t.heap[x.addr] == s.heap[x.addr]
  {
    hide Run, Conserved, LogOrdered, ArmedWhenDue;
    ReachableInv(s);
    NextInBatch(s);
    var a := s.expired[s.next].addr;
    assert x.addr != a;
    if Restarts(s) {
      InsertMembers(s.timers, Entry(Restart(s.heap[a], s.now).expiration, a));
    }
  }

  lemma EntryIsLive(s: State, x: Entry)
    requires Reachable(s) && x in s.timers
    ensures Indexed(s) && x.addr in s.heap
  {
    ReachableInv(s);
  }

  /** Inside handleRead, an indexed timer stays where it is unless it is cancelled. */
  lemma StepKeepsIndexed(s: State, e: Event, x: Entry)
    requires Reachable(s) && s.mode != Idle && x in s.timers
    requires s.mode == Calling && e.Cancel? ==> e.id != IdAt(s.heap, x.addr)
    ensures var t := Step(s, e);
            x in t.timers && x.addr in s.heap && x.addr in t.heap && t.heap[x.addr] == s.heap[x.addr]
  {
    hide Run, Indexed;
    EntryIsLive(s, x);
    match e
    case Cancel(id) => if s.mode == Calling { CancelLeavesEntry(s, id, x); }
    case Add(addr) => InsertKeepsEntry(s, addr, x);
    case ResetNext => if CanReset(s) { hide ResetOne; ResetKeepsEntry(s, x); }
    case _ =>
  }

  lemma CancelLeavesEntry(s: State, id: ActiveTimer, x: Entry)
    requires Reachable(s) && x in s.timers && id != IdAt(s.heap, x.addr)
    ensures var t := Step(s, Cancel(id));
            x in t.timers && x.addr in s.heap && x.addr in t.heap && t.heap[x.addr] == s.heap[x.addr]
  {
    hide Run;
    ReachableInv(s);
    CancelTouchesNoOther(s, id, x.addr);
  }

  lemma ResettingLog(s: State, e: Event, n: nat)
    requires s.mode == Resetting && Cancelled(n) !in s.log
    ensures Cancelled(n) !in Step(s, e).log
  {
  }

  lemma StepKeepsSettled(s0: State, s: State, e: Event, x: Entry)
    requires Reachable(s) && s.mode == Resetting && Settled(s0, s, x)
    ensures Settled(s0, Step(s, e), x)
  {
    StepExtendsLog(s, e);
    var t := s0.heap[x.addr];
    if t.repeat && Cancelled(t.sequence) !in s.log {
      ResettingLog(s, e, t.sequence);
      StepKeepsIndexed(s, e, Entry(s0.clock + t.delta, x.addr));
    }
  }

  lemma StepTracksWaiting(s0: State, s: State, e: Event)
    requires Reachable(s) && SameRead(s0, s) && BatchSoFar(s0, s) && e != EndReset
    ensures SameRead(s0, Step(s, e)) && forall x | x in s.expired[Done(Step(s, e))..] :: Waiting(s0, Step(s, e), x)
  {
    hide Run, Reachable, Waiting, Settled;
    StepSameRead(s0, s, e);
    var t := Step(s, e);
    forall x | x in s.expired[Done(t)..] ensures Waiting(s0, t, x) {
      if e == ResetNext && CanReset(s) {
        NextOthers(s);
      }
      assert x in s.expired[Done(s)..];
      hide Step;
      StepKeepsWaiting(s0, s, e, x);
    }
  }

  lemma StepTracksSettled(s0: State, s: State, e: Event)
    requires Reachable(s) && SameRead(s0, s) && BatchSoFar(s0, s) && e != EndReset
    ensures SameRead(s0, Step(s, e)) && forall x | x in s.expired[..Done(Step(s, e))] :: Settled(s0, Step(s, e), x)
  {
    StepSameRead(s0, s, e);
    var t := Step(s, e);
    forall x | x in s.expired[..Done(t)] ensures Settled(s0, t, x) {
      if x in s.expired[..Done(s)] {
        StepKeepsSettled(s0, s, e, x);
      } else {
        ResetSettles(s0, s);
      }
    }
  }

  lemma StepTracksOthers(s0: State, s: State, e: Event)
    requires Reachable(s) && s.mode != Idle && OthersSoFar(s0, s)
    ensures OthersSoFar(s0, Step(s, e))
  {
    StepExtendsLog(s, e);
    forall x | x in s0.timers && x.when > s0.clock ensures Untouched(s0, Step(s, e), x) {
      assert Untouched(s0, s, x);
      var n := s0.heap[x.addr].sequence;
      if Cancelled(n) !in s.log {
        if s.mode == Calling && e == Cancel(IdAt(s.heap, x.addr)) {
          CancelIsLogged(s, x);
        } else {
          StepKeepsIndexed(s, e, x);
        }
      }
    }
  }

  lemma CancelIsLogged(s: State, x: Entry)
    requires Reachable(s) && s.mode == Calling && x in s.timers
    ensures Cancelled(SequenceAt(s.heap, x.addr)) in Step(s, Cancel(IdAt(s.heap, x.addr))).log
  {
    ReachableInv(s);
    assert Step(s, Cancel(IdAt(s.heap, x.addr))).log[|s.log|] == Cancelled(SequenceAt(s.heap, x.addr));
  }

  lemma {:induction false} RunTracks(s0: State, s: State, events: seq<Event>)
    requires Reachable(s) && SameRead(s0, s) && RanSoFar(s0, s) && BatchSoFar(s0, s) && OthersSoFar(s0, s)
    requires EndReset !in events
    ensures var t := Run(s, events);
            SameRead(s0, t) && RanSoFar(s0, t) && BatchSoFar(s0, t) && OthersSoFar(s0, t)
    decreases |events|
  {
    if events != [] {
      var e := events[0];
      StepReachable(s, e);
      StepTracksRan(s0, s, e);
      StepTracksWaiting(s0, s, e);
      StepTracksSettled(s0, s, e);
      StepTracksOthers(s0, s, e);
      assert EndReset !in events[1..];
      RunTracks(s0, Step(s, e), events[1..]);
    }
  }

  /** The result of a whole handleRead, from `s0` to `t`. */
  ghost predicate ReadIsExact(s0: State, t: State) {
    var due := Due(s0.timers, s0.clock);
    && Ascending(due) && (forall e :: e in due <==> e in s0.timers && e.when <= s0.clock)
    && s0.log <= t.log && RanIn(t.log[|s0.log|..]) == Sequences(s0.heap, due)
    && (forall e | e in due :: Settled(s0, t, e))
    && (forall e | e in s0.timers && e !in due :: Untouched(s0, t, e))
  }

  /** The last step of handleRead only sets the timerfd. */
  lemma EndResetKeepsResults(s0: State, s: State)
    requires s.mode == Resetting && s.next == |s.expired|
    ensures var t := Step(s, EndReset);
            && t.mode == Idle && t.log == s.log
            && (forall e :: Settled(s0, s, e) ==> Settled(s0, t, e))
            && (forall e :: Untouched(s0, s, e) ==> Untouched(s0, t, e))
  {
  }

  /**
   One handleRead, whatever its callbacks and other threads do meanwhile. It runs exactly the timers due at
   the time it read the clock, each once, in order of expiration; then it has put each repeating one back at
   that time plus its interval unless it was cancelled, and deleted the others; and every timer that was
   not due is untouched unless it was cancelled.
   */
  lemma ExpiryIsExact(s0: State, events: seq<Event>)
    requires Reachable(s0) && s0.mode == Idle && EndReset !in events
    requires var s := Run(Step(s0, BeginRead), events); s.mode == Resetting && s.next == |s.expired|
    ensures var t := Step(Run(Step(s0, BeginRead), events), EndReset);
            t.mode == Idle && ReadIsExact(s0, t)
  {
    DueExactly(s0);
    BeginTracks(s0);
    assert Step(s0, BeginRead) == TakeExpired(s0);
    hide Step, Run, TakeExpired, Settled, Untouched, Reachable, Due;
    StepReachable(s0, BeginRead);
    RunTracks(s0, TakeExpired(s0), events);
    var s := Run(Step(s0, BeginRead), events);
    assert s.expired[..|s.expired|] == s.expired;
    EndResetKeepsResults(s0, s);
  }

  lemma DueExactly(s0: State)
    requires Reachable(s0)
    ensures var due := Due(s0.timers, s0.clock);
            Ascending(due) && (forall e :: e in due <==> e in s0.timers && e.when <= s0.clock)
  {
    ReachableInv(s0);
    ExpiredAreDue(s0);
  }
}
