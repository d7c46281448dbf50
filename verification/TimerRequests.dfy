/**
 What a caller of runAt, runAfter and runEvery gets: a timer constructed for a time is collected by the first
 handleRead at or after that time and by no earlier one, and a repeating one is then asked for again.
 */
module TimerRequests {
  import opened TimerSet
  import opened TimerMachine
  import opened TimerSafety
  import opened TimerTheorems

  /** Timer number `n` is in a batch at or after position `base` of the log. */
  ghost predicate Collected(log: seq<LogEntry>, base: nat, n: nat) {
    exists j :: base <= j < |log| && log[j].Batch? && n in log[j].sequences
  }

  /** Timer `timer` lives at `addr`, and once its add has been processed it is queued for its expiration. */
  ghost predicate Standing(s: State, addr: nat, timer: Timer) {
    && addr in s.heap && s.heap[addr] == timer
    && (ActiveTimer(addr, timer.sequence) in s.added ==> Entry(timer.expiration, addr) in s.timers)
  }

  ghost predicate StandingOrOver(s: State, addr: nat, timer: Timer, base: nat) {
    || Cancelled(timer.sequence) in s.log
    || Collected(s.log, base, timer.sequence)
    || Standing(s, addr, timer)
  }

  lemma AddKeepsStanding(s: State, addr: nat, timer: Timer, other: nat)
    requires Indexed(s) && Standing(s, addr, timer)
    ensures Standing(Step(s, Add(other)), addr, timer)
  {
    if CanAdd(s, other) {
      InsertMembers(s.timers, Entry(ExpirationAt(s.heap, other), other));
      hide Ascending, Insert;
    }
  }

  lemma CancelKeepsStanding(s: State, addr: nat, timer: Timer, id: ActiveTimer)
    requires Inv(s) && Standing(s, addr, timer)
    ensures var t := Step(s, Cancel(id)); Cancelled(timer.sequence) in t.log || Standing(t, addr, timer)
  {
    hide Conserved, LogOrdered, ArmedWhenDue, Batched;
    if id != IdAt(s.heap, addr) {
      CancelTouchesNoOther(s, id, addr);
    } else if s.mode != Resetting && id in s.added {
      assert Step(s, Cancel(id)).log[|s.log|] == Cancelled(id.sequence);
    }
  }

  lemma ResetKeepsStanding(s: State, addr: nat, timer: Timer)
    requires Indexed(s) && Batched(s) && CanReset(s) && Standing(s, addr, timer)
    ensures Standing(ResetOne(s), addr, timer)
  {
    NextInBatch(s);
    var a := s.expired[s.next].addr;
    if Restarts(s) {
      InsertMembers(s.timers, Entry(Restart(s.heap[a], s.now).expiration, a));
    }
    hide Ascending, Insert, Remaining;
  }

  lemma BeginKeepsStanding(s: State, addr: nat, timer: Timer)
    requires Indexed(s) && Numbered(s) && Standing(s, addr, timer)
    ensures var t := TakeExpired(s); Collected(t.log, |s.log|, timer.sequence) || Standing(t, addr, timer)
  {
    ExpiredAreDue(s);
    var t, e := TakeExpired(s), Entry(timer.expiration, addr);
    hide Ascending, Due, NotDue;
    if e in t.expired {
      var i :| 0 <= i < |t.expired| && t.expired[i] == e;
      assert Sequences(s.heap, t.expired)[i] == timer.sequence;
      assert t.log[|s.log|] == Batch(Sequences(s.heap, t.expired));
    }
  }

  lemma StepKeepsStanding(s: State, addr: nat, timer: Timer, e: Event)
    requires Inv(s) && Standing(s, addr, timer)
    ensures StandingOrOver(Step(s, e), addr, timer, |s.log|)
  {
    assert Indexed(s) && Batched(s) && Numbered(s);
    hide Inv, Indexed, Batched, Numbered, ResetOne, CancelInLoop, TakeExpired, AddInLoop, Collected,
         HowMuchTimeFromNow;
    match e
    case Add(other) => AddKeepsStanding(s, addr, timer, other);
    case Cancel(id) => CancelKeepsStanding(s, addr, timer, id);
    case ResetNext => if CanReset(s) { ResetKeepsStanding(s, addr, timer); }
    case BeginRead => if s.mode == Idle { BeginKeepsStanding(s, addr, timer); }
    case _ =>
  }

  lemma CollectedStays(log: seq<LogEntry>, later: seq<LogEntry>, base: nat, n: nat)
    requires log <= later && Collected(log, base, n)
    ensures Collected(later, base, n)
  {
    var j :| base <= j < |log| && log[j].Batch? && n in log[j].sequences;
    assert later[j] == log[j];
  }

  /** As long as it is neither cancelled nor collected, a timer stays as it was constructed or restarted. */
  lemma {:induction false} RunKeepsStanding(s: State, addr: nat, timer: Timer, base: nat, events: seq<Event>)
    requires Inv(s) && StandingOrOver(s, addr, timer, base) && base <= |s.log|
    ensures StandingOrOver(Run(s, events), addr, timer, base)
    decreases |events|
  {
    hide Inv, Step, Collected, Standing;
    if events != [] {
      var t := Step(s, events[0]);
      StepExtendsLog(s, events[0]);
      StepKeepsInv(s, events[0]);
      if Standing(s, addr, timer) {
        StepKeepsStanding(s, addr, timer, events[0]);
        if Collected(t.log, |s.log|, timer.sequence) {
          LaterBase(t.log, base, |s.log|, timer.sequence);
        }
      } else if Collected(s.log, base, timer.sequence) {
        CollectedStays(s.log, t.log, base, timer.sequence);
      }
      RunKeepsStanding(t, addr, timer, base, events[1..]);
    }
  }

  lemma LaterBase(log: seq<LogEntry>, base: nat, later: nat, n: nat)
    requires base <= later && Collected(log, later, n)
    ensures Collected(log, base, n)
  {
  }

  /** A queued timer whose time has not come is not among the expired ones. */
  lemma EarlyIsLeft(t: State, addr: nat, timer: Timer)
    requires Indexed(t) && Numbered(t) && Standing(t, addr, timer) && timer.expiration > t.clock
    ensures timer.sequence !in Sequences(t.heap, TakeExpired(t).expired)
  {
    hide Ascending;
    assert forall e | e in TakeExpired(t).expired :: e in t.timers && e.when <= t.clock by {
      ExpiredAreDue(t);
    }
    var due := TakeExpired(t).expired;
    hide TakeExpired;
    forall i | 0 <= i < |due| ensures Sequences(t.heap, due)[i] != timer.sequence {
      assert due[i] in due;
    }
  }

  /** A queued timer is in the batch of a handleRead exactly when its time has come. */
  lemma CollectedWhenDue(t: State, addr: nat, timer: Timer)
    requires Inv(t) && t.mode == Idle && Standing(t, addr, timer)
    requires ActiveTimer(addr, timer.sequence) in t.added
    ensures Collected(Step(t, BeginRead).log, |t.log|, timer.sequence) <==> timer.expiration <= t.clock
  {
    hide Due, NotDue, Indexed, Numbered, Batched, Owned, Conserved, CancelledAreOut, LogOrdered, ArmedWhenDue,
         Sequences;
    if timer.expiration <= t.clock {
      BeginKeepsStanding(t, addr, timer);
      DueLeaves(t, addr, timer);
    } else {
      EarlyIsLeft(t, addr, timer);
    }
  }

  /** A timer that is due does not stay queued. */
  lemma DueLeaves(t: State, addr: nat, timer: Timer)
    requires Indexed(t) && Numbered(t) && timer.expiration <= t.clock
    requires ActiveTimer(addr, timer.sequence) in t.added
    ensures !Standing(TakeExpired(t), addr, timer)
  {
    hide Ascending;
    ExpiredAreDue(t);
  }

  /**
   From any moment at which a timer stands for its expiration, whatever happens afterwards: as long as it has been
   added, not cancelled and not collected since, the next handleRead collects it exactly when that time has come.
   */
  lemma FirstCollected(s: State, addr: nat, timer: Timer, events: seq<Event>)
    requires Reachable(s) && Standing(s, addr, timer)
    requires var t := Run(s, events);
             && t.mode == Idle && ActiveTimer(addr, timer.sequence) in t.added
             && Cancelled(timer.sequence) !in t.log && !Collected(t.log, |s.log|, timer.sequence)
    ensures var t := Run(s, events);
            && Standing(t, addr, timer)
            && (Collected(Step(t, BeginRead).log, |t.log|, timer.sequence) <==> timer.expiration <= t.clock)
  {
    hide Inv, Step, Run, Collected, Standing, Reachable;
    ReachableInv(s);
    RunKeepsStanding(s, addr, timer, |s.log|, events);
    RunKeepsInv(s, events);
    CollectedWhenDue(Run(s, events), addr, timer);
  }

  lemma NewStands(s: State, addr: nat, when: int, delta: nat, repeat: bool)
    requires Reachable(s) && addr !in s.heap && addr < UINTPTR_MAX
    ensures Standing(Step(s, New(addr, when, delta, repeat)), addr, Timer(when, delta, repeat, s.created + 1))
    ensures Step(s, New(addr, when, delta, repeat)).log == s.log
  {
    hide Run;
    ReachableInv(s);
  }

  /**
   A timer asked for at `when`, once added and unless cancelled, is in no batch collected at a time before `when`
   and in the first one collected at or after it, in every run.
   */
  lemma RunsWhenAsked(s: State, addr: nat, when: int, delta: nat, repeat: bool, events: seq<Event>)
    requires Reachable(s) && addr !in s.heap && addr < UINTPTR_MAX
    requires var n := s.created + 1; var t := Run(s, [New(addr, when, delta, repeat)] + events);
             && t.mode == Idle && ActiveTimer(addr, n) in t.added
             && Cancelled(n) !in t.log && !Collected(t.log, |s.log|, n)
    ensures var n := s.created + 1; var t := Run(s, [New(addr, when, delta, repeat)] + events);
            Collected(Step(t, BeginRead).log, |t.log|, n) <==> when <= t.clock
  {
    hide Step, Collected, Standing, Reachable;
    NewIsFirst(s, addr, when, delta, repeat, events);
    hide Run;
    NewStands(s, addr, when, delta, repeat);
    StepReachable(s, New(addr, when, delta, repeat));
    FirstCollected(Step(s, New(addr, when, delta, repeat)), addr, Timer(when, delta, repeat, s.created + 1), events);
  }

  lemma NewIsFirst(s: State, addr: nat, when: int, delta: nat, repeat: bool, events: seq<Event>)
    ensures var e := New(addr, when, delta, repeat); Run(s, [e] + events) == Run(Step(s, e), events)
  {
    var e := New(addr, when, delta, repeat);
    assert ([e] + events)[1..] == events;
  }

  /** The timer `n` at `addr` has had its run at time `now`: it is asked for again after `delta`, or deleted. */
  ghost predicate Served(t: State, u: State, addr: nat, delta: nat, repeat: bool, n: nat) {
    && |t.log| <= |u.log| && n in RanIn(u.log[|t.log|..])
    && if repeat && Cancelled(n) !in u.log
       then Standing(u, addr, Timer(t.clock + delta, delta, true, n)) && ActiveTimer(addr, n) in u.added
       else Deleted(n) in u.log
  }

  lemma DueIsServed(t: State, u: State, addr: nat, timer: Timer)
    requires Reachable(t) && Reachable(u) && ReadIsExact(t, u)
    requires Standing(t, addr, timer) && ActiveTimer(addr, timer.sequence) in t.added && timer.expiration <= t.clock
    ensures Served(t, u, addr, timer.delta, timer.repeat, timer.sequence)
  {
    var due, e := Due(t.timers, t.clock), Entry(timer.expiration, addr);
    assert e in due && Settled(t, u, e);
    var i :| 0 <= i < |due| && due[i] == e;
    assert Sequences(t.heap, due)[i] == timer.sequence;
    assert Indexed(u) && Owned(u) by {
      ReachableInv(u);
    }
  }

  /**
   The handleRead that collects it, whatever its callbacks do, runs the timer; if it repeats and was not cancelled it
   then stands for `delta` after the time that handleRead began, and so on; otherwise it is deleted.
   */
  lemma RunsAgainAfterDelta(s: State, addr: nat, timer: Timer, events: seq<Event>, during: seq<Event>)
    requires Reachable(s) && Standing(s, addr, timer)
    requires var t := Run(s, events);
             && t.mode == Idle && ActiveTimer(addr, timer.sequence) in t.added && timer.expiration <= t.clock
             && Cancelled(timer.sequence) !in t.log && !Collected(t.log, |s.log|, timer.sequence)
    requires EndReset !in during
    requires var v := Run(Step(Run(s, events), BeginRead), during); v.mode == Resetting && v.next == |v.expired|
    ensures var t := Run(s, events); var u := Step(Run(Step(t, BeginRead), during), EndReset);
            Served(t, u, addr, timer.delta, timer.repeat, timer.sequence)
  {
    hide Inv, Step, Run, Collected, Standing, Reachable, Served;
    FirstCollected(s, addr, timer, events);
    var t := Run(s, events);
    RunReachable(s, events);
    ExpiryIsExact(t, during);
    StepReachable(t, BeginRead);
    RunReachable(Step(t, BeginRead), during);
    StepReachable(Run(Step(t, BeginRead), during), EndReset);
    DueIsServed(t, Step(Run(Step(t, BeginRead), during), EndReset), addr, timer);
  }

  /** The same from the request on: what `delta` and `repeat` are for. */
  lemma RepeatsAsAsked(s: State, addr: nat, when: int, delta: nat, repeat: bool, events: seq<Event>,
                       during: seq<Event>)
    requires Reachable(s) && addr !in s.heap && addr < UINTPTR_MAX
    requires var n := s.created + 1; var t := Run(s, [New(addr, when, delta, repeat)] + events);
             && t.mode == Idle && ActiveTimer(addr, n) in t.added && when <= t.clock
             && Cancelled(n) !in t.log && !Collected(t.log, |s.log|, n)
    requires EndReset !in during
    requires var v := Run(Step(Run(s, [New(addr, when, delta, repeat)] + events), BeginRead), during);
             v.mode == Resetting && v.next == |v.expired|
    ensures var t := Run(s, [New(addr, when, delta, repeat)] + events);
            var u := Step(Run(Step(t, BeginRead), during), EndReset);
            Served(t, u, addr, delta, repeat, s.created + 1)
  {
    hide Step, Collected, Standing, Reachable, Served;
    NewIsFirst(s, addr, when, delta, repeat, events);
    hide Run;
    NewStands(s, addr, when, delta, repeat);
    StepReachable(s, New(addr, when, delta, repeat));
    RunsAgainAfterDelta(Step(s, New(addr, when, delta, repeat)), addr, Timer(when, delta, repeat, s.created + 1),
                        events, during);
  }
}
