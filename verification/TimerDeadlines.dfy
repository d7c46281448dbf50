/** What the timerfd is set for, and that a handleRead it causes has something to do. */
module TimerDeadlines {
  import opened Common
  import opened TimerSet
  import opened TimerMachine
  import opened TimerSafety
  import opened TimerTheorems
  import opened TimerRequests

  /** The two places that set the timerfd: an add that comes first, and the end of reset. */
  ghost predicate Rearms(s: State, e: Event) {
    || (e.Add? && CanAdd(s, e.addr) && (s.timers == [] || s.heap[e.addr].expiration < s.timers[0].when))
    || (e == EndReset && s.mode == Resetting && s.next == |s.expired| && s.timers != [] && s.timers[0].when > 0)
  }

  /** The deadline has passed, so the timerfd reads as ready. */
  predicate Fired(s: State) {
    s.deadline.Some? && s.deadline.value <= s.clock
  }

  /** The timerfd has just been set for the earliest timer: at its expiration, or in 100 microseconds if later. */
  ghost predicate JustArmed(s: State) {
    && s.timers != [] && s.armedAt == s.clock
    && s.deadline == Some(Max(s.timers[0].when, s.clock + 100))
  }

  lemma AddRearms(s: State, addr: nat)
    requires Indexed(s) && Rearms(s, Add(addr))
    ensures JustArmed(Step(s, Add(addr)))
  {
    hide HowMuchTimeFromNow, DelayMicros, Insert;
    DelayExact(s.heap[addr].expiration, s.clock);
    InsertOrder(s.timers, Entry(s.heap[addr].expiration, addr));
    hide Ascending;
  }

  lemma EndResetRearms(s: State)
    requires Indexed(s) && Rearms(s, EndReset)
    ensures JustArmed(Step(s, EndReset))
  {
    hide HowMuchTimeFromNow, DelayMicros, Ascending;
    assert s.timers[0] in s.timers;
    DelayExact(s.timers[0].when, s.clock);
  }

  /** What each step does to the timerfd. */
  lemma DeadlineExactly(s: State, e: Event)
    requires Inv(s)
    ensures var t := Step(s, e);
            if Rearms(s, e) then JustArmed(t)
            else && t.armedAt == s.armedAt
                 && t.deadline == if e == BeginRead && s.mode == Idle && Fired(s) then None else s.deadline
  {
    hide Step, JustArmed, Batched, Owned, Numbered, Conserved, CancelledAreOut, LogOrdered, ArmedWhenDue, Indexed;
    if Rearms(s, e) {
      if e.Add? {
        AddRearms(s, e.addr);
      } else {
        EndResetRearms(s);
      }
    } else {
      NotRearmed(s, e);
    }
  }

  lemma NotRearmed(s: State, e: Event)
    requires Indexed(s) && !Rearms(s, e)
    ensures var t := Step(s, e);
            && t.armedAt == s.armedAt
            && t.deadline == if e == BeginRead && s.mode == Idle && Fired(s) then None else s.deadline
  {
    hide Ascending, Insert, HowMuchTimeFromNow, Due, NotDue, Sequences, Ids, Erase;
    if s.timers != [] {
      assert s.timers[0] in s.timers;
    }
  }

  /** The timerfd was set in the state after `k` steps, for the timer that came first there, and not touched since. */
  ghost predicate SetAt(clock: int, events: seq<Event>, k: nat) {
    && k <= |events| && JustArmed(After(clock, events, k))
    && forall j | k <= j <= |events| :: KeptFrom(clock, events, k, j)
  }

  ghost predicate KeptFrom(clock: int, events: seq<Event>, k: nat, j: nat)
    requires k <= j <= |events|
  {
    var r, t := After(clock, events, k), After(clock, events, j);
    t.deadline == r.deadline && t.armedAt == r.armedAt
  }

  lemma AfterPrefix(clock: int, events: seq<Event>, n: nat, k: nat)
    requires k <= n <= |events|
    ensures After(clock, events[..n], k) == After(clock, events, k)
  {
    assert events[..n][..k] == events[..k];
  }

  lemma AfterNext(clock: int, events: seq<Event>, n: nat)
    requires n < |events|
    ensures After(clock, events, n + 1) == Step(After(clock, events, n), events[n])
  {
    AfterLater(clock, events, n, n + 1);
    assert events[n..n + 1] == [events[n]] && [events[n]][1..] == [];
  }

  lemma UnsetAtFirst(clock: int, events: seq<Event>)
    ensures After(clock, events, 0).deadline == None
  {
    assert events[..0] == [];
  }

  lemma SetStays(clock: int, events: seq<Event>, n: nat, k: nat)
    requires n < |events| && SetAt(clock, events[..n], k)
    requires After(clock, events, n + 1).deadline == After(clock, events, n).deadline
    requires After(clock, events, n + 1).armedAt == After(clock, events, n).armedAt
    ensures SetAt(clock, events[..n + 1], k)
  {
    hide After, JustArmed;
    AfterPrefix(clock, events, n, k);
    AfterPrefix(clock, events, n + 1, k);
    AfterPrefix(clock, events, n, n);
    AfterPrefix(clock, events, n + 1, n + 1);
    var longer := events[..n + 1];
    forall j | k <= j <= n + 1 ensures KeptFrom(clock, longer, k, j) {
      AfterPrefix(clock, events, n + 1, j);
      if j <= n {
        AfterPrefix(clock, events, n, j);
        assert KeptFrom(clock, events[..n], k, j);
      } else {
        assert KeptFrom(clock, events[..n], k, n);
      }
    }
  }

  /**
   Whenever the timerfd is set, in any state of any run, it is set for the expiration that was the earliest when it was
   last set, or 100 microseconds after that moment if this is later.
   */
  lemma {:induction false} DeadlineIsForEarliest(clock: int, events: seq<Event>, n: nat)
    requires clock > 0 && n <= |events| && After(clock, events, n).deadline.Some?
    ensures exists k :: SetAt(clock, events[..n], k)
    decreases n
  {
    hide Inv, Reachable, JustArmed, Step, Run;
    if n == 0 {
      UnsetAtFirst(clock, events);
    } else {
      AfterIsReachable(clock, events, n - 1);
      AfterNext(clock, events, n - 1);
      hide After;
      var s, e := After(clock, events, n - 1), events[n - 1];
      DeadlineExactly(s, e);
      AfterPrefix(clock, events, n, n);
      if Rearms(s, e) {
        assert SetAt(clock, events[..n], n);
      } else {
        DeadlineIsForEarliest(clock, events, n - 1);
        var k :| SetAt(clock, events[..n - 1], k);
        SetStays(clock, events, n - 1, k);
      }
    }
  }

  /** The `i`-th of the events is the start of a handleRead that collects timer `n`. */
  ghost predicate ReadTakes(s: State, events: seq<Event>, i: nat, n: nat)
    requires i < |events|
  {
    var q := Run(s, events[..i]);
    events[i] == BeginRead && q.mode == Idle && Collected(Step(q, BeginRead).log, |q.log|, n)
  }

  /** A timer that has been collected since `s` was collected by a handleRead since `s`. */
  lemma CollectedByRead(s: State, events: seq<Event>, n: nat)
    requires Collected(Run(s, events).log, |s.log|, n)
    ensures exists i :: 0 <= i < |events| && ReadTakes(s, events, i, n)
    decreases |events|
  {
    hide Step, Collected;
    if events == [] {
      NoneSince(s.log, n);
    } else {
      var t := Step(s, events[0]);
      if Collected(t.log, |s.log|, n) {
        OnlyReadsCollect(s, events[0], n);
        assert events[..0] == [] && ReadTakes(s, events, 0, n);
      } else {
        StepExtendsLog(s, events[0]);
        RunExtendsLog(t, events[1..]);
        EarlyOrLater(Run(t, events[1..]).log, t.log, |s.log|, n);
        CollectedByRead(t, events[1..], n);
        var i :| 0 <= i < |events[1..]| && ReadTakes(t, events[1..], i, n);
        assert events[..i + 1][1..] == events[1..][..i];
        assert ReadTakes(s, events, i + 1, n);
      }
    }
  }

  lemma NoneSince(log: seq<LogEntry>, n: nat)
    ensures !Collected(log, |log|, n)
  {
  }

  lemma NoBatchHere(s: State, e: Event)
    requires !(e == BeginRead && s.mode == Idle)
    ensures var t := Step(s, e); forall i | |s.log| <= i < |t.log| :: !t.log[i].Batch?
  {
    hide HowMuchTimeFromNow, Insert, Erase;
  }

  lemma OnlyReadsCollect(s: State, e: Event, n: nat)
    requires Collected(Step(s, e).log, |s.log|, n)
    ensures e == BeginRead && s.mode == Idle
  {
    hide Step;
    if !(e == BeginRead && s.mode == Idle) {
      NoBatchHere(s, e);
    }
  }

  lemma EarlyOrLater(log: seq<LogEntry>, early: seq<LogEntry>, base: nat, n: nat)
    requires early <= log && Collected(log, base, n)
    ensures Collected(early, base, n) || Collected(log, |early|, n)
  {
    var j :| base <= j < |log| && log[j].Batch? && n in log[j].sequences;
    if j < |early| {
      assert early[j] == log[j];
    }
  }

  /** Timer `n` was taken by a handleRead that the timerfd did not cause: it had not fired when its turn came. */
  ghost predicate TakenSpuriously(clock: int, events: seq<Event>, j: nat, n: nat)
    requires j < |events|
  {
    var q := After(clock, events, j);
    && events[j] == BeginRead && q.mode == Idle && !Fired(q)
    && Collected(Step(q, BeginRead).log, |q.log|, n)
  }

  /** The earliest timer when the timerfd was set: still queued and due, or cancelled, or taken by a spurious read. */
  ghost predicate Accounted(clock: int, events: seq<Event>, k: nat)
    requires k <= |events| && After(clock, events, k).timers != []
  {
    var first := After(clock, events, k).timers[0];
    var n := SequenceAt(After(clock, events, k).heap, first.addr);
    var s := Run(Init(clock), events);
    || (first in s.timers && first.when <= s.clock)
    || Cancelled(n) in s.log
    || exists j | k <= j < |events| :: TakenSpuriously(clock, events, j, n)
  }

  lemma FirstStands(s: State)
    requires Inv(s) && s.timers != []
    ensures var first := s.timers[0]; first.addr in s.heap && Standing(s, first.addr, s.heap[first.addr])
    ensures IdAt(s.heap, s.timers[0].addr) in s.added && s.heap[s.timers[0].addr].expiration == s.timers[0].when
  {
    assert s.timers[0] in s.timers;
    assert Indexed(s) && Owned(s);
    hide Inv, Ascending;
  }

  /** A handleRead that begins with the timerfd fired leaves it unset, so since it was set there was none. */
  lemma NoFiredReadSince(clock: int, events: seq<Event>, k: nat, j: nat)
    requires clock > 0 && SetAt(clock, events, k) && k <= j < |events|
    requires events[j] == BeginRead && After(clock, events, j).mode == Idle
    ensures !Fired(After(clock, events, j))
  {
    hide Inv, Reachable, Step, Run, After;
    AfterIsReachable(clock, events, j);
    AfterNext(clock, events, j);
    DeadlineExactly(After(clock, events, j), BeginRead);
    assert KeptFrom(clock, events, k, j) && KeptFrom(clock, events, k, j + 1);
  }

  lemma TakenSince(clock: int, events: seq<Event>, k: nat, n: nat)
    requires clock > 0 && k <= |events| && SetAt(clock, events, k)
    requires Collected(Run(Init(clock), events).log, |After(clock, events, k).log|, n)
    ensures exists j | k <= j < |events| :: TakenSpuriously(clock, events, j, n)
  {
    hide Init, Step, Collected, Run, JustArmed, SetAt, KeptFrom;
    var r, rest := After(clock, events, k), events[k..];
    SplitAt(clock, events, k);
    CollectedByRead(r, rest, n);
    var i :| 0 <= i < |rest| && ReadTakes(r, rest, i, n);
    AfterLater(clock, events, k, k + i);
    assert rest[..i] == events[k..k + i];
    hide After;
    NoFiredReadSince(clock, events, k, k + i);
    assert TakenSpuriously(clock, events, k + i, n);
  }

  lemma SplitAt(clock: int, events: seq<Event>, k: nat)
    requires k <= |events|
    ensures Run(Init(clock), events) == Run(After(clock, events, k), events[k..])
  {
    AfterLater(clock, events, k, |events|);
    assert events[..|events|] == events && events[k..|events|] == events[k..];
  }

  lemma FirstIsAccounted(clock: int, events: seq<Event>, k: nat)
    requires clock > 0 && SetAt(clock, events, k) && Fired(Run(Init(clock), events))
    ensures After(clock, events, k).timers != [] && Accounted(clock, events, k)
  {
    hide Inv, Reachable, Step, Standing, Collected, Run, Init, After, TakenSpuriously;
    var r, s := After(clock, events, k), Run(Init(clock), events);
    AfterIsReachable(clock, events, k);
    FirstStands(r);
    var first := r.timers[0];
    var timer := r.heap[first.addr];
    RunKeepsStanding(r, first.addr, timer, |r.log|, events[k..]);
    SplitAt(clock, events, k);
    if Standing(s, first.addr, timer) {
      AddedStays(r, ActiveTimer(first.addr, timer.sequence), events[k..]);
      StandingIsQueued(s, first.addr, timer);
      FirstIsDue(clock, events, k);
    } else if Cancelled(timer.sequence) !in s.log {
      TakenSince(clock, events, k, timer.sequence);
    }
  }

  lemma FirstIsDue(clock: int, events: seq<Event>, k: nat)
    requires SetAt(clock, events, k) && Fired(Run(Init(clock), events))
    ensures After(clock, events, k).timers[0].when <= Run(Init(clock), events).clock
  {
    hide Run, Init;
    assert events[..|events|] == events;
    assert KeptFrom(clock, events, k, |events|);
  }

  lemma StandingIsQueued(s: State, addr: nat, timer: Timer)
    requires Standing(s, addr, timer) && ActiveTimer(addr, timer.sequence) in s.added
    ensures Entry(timer.expiration, addr) in s.timers
  {
  }

  /**
   When the timerfd has fired, the timer it was set for is due and queued, so that handleRead will run it, unless the
   timer was cancelled, or a handleRead that the timerfd had not caused took it first.
   */
  lemma FiredFindsItsTimer(clock: int, events: seq<Event>)
    requires clock > 0 && Fired(Run(Init(clock), events))
    ensures exists k :: SetAt(clock, events, k) && Accounted(clock, events, k)
  {
    hide Run, JustArmed, Accounted;
    assert events[..|events|] == events;
    assert After(clock, events, |events|) == Run(Init(clock), events);
    DeadlineIsForEarliest(clock, events, |events|);
    var k :| SetAt(clock, events, k);
    FirstIsAccounted(clock, events, k);
  }
}
