/**
 EventLoop as a machine over atomic steps: one loop thread and any number of other threads, which meet in
 the pending queue, the quit flag and the eventfd. A step is one access to any of them.
 */
module EventLoopMachine {

  type Tid = nat

  /** The thread that runs the loop; `isInLoopThread` holds of this one alone. */
  const LOOP: Tid := 0

  /** A write that would take the eventfd's counter above this fails, and leaves it readable. */
  const EVENTFD_MAX: nat := 0xFFFF_FFFF_FFFF_FFFE

  /** A queued functor: who queued it, and how many batches had been taken by then. */
  datatype Task = Task(functor: nat, origin: Tid, during: nat)

  datatype Execution = Execution(task: Task, batch: nat)

  /** The loop thread's program counter, in the order in which loop() passes through. */
  datatype Pc = BeforeLoop | Top | Polling | Handling | Swapping | Running | Exited

  /**
   `calling` is callingPendingFunctors_, `reported` says that poll returned the wakeup channel, `owing` are
   the threads between their push or quit and their wakeup. The last five fields are history; `early` says
   that a functor queued by the loop thread before loop() is still pending.
   */
  datatype State = State(
    pc: Pc,
    quit: bool,
    calling: bool,
    pending: seq<Task>,
    batch: seq<Task>,
    next: nat,
    counter: nat,
    reported: bool,
    owing: set<Tid>,
    swaps: nat,
    base: nat,
    pushed: seq<Task>,
    executed: seq<Execution>,
    early: bool)

  datatype Event =
    | Push(tid: Tid, functor: nat)
    | RequestQuit(tid: Tid)
    | Wakeup(tid: Tid)
    | LoopPush(functor: nat)
    | LoopQuit
    | Start
    | CheckQuit
    | PollReturn
    | ReadWakeup
    | EndHandling
    | Swap
    | RunFunctor
    | EndRunning

  function Init(): State {
    State(BeforeLoop, false, false, [], [], 0, 0, false, {}, 0, 0, [], [], false)
  }

  function Enqueue(s: State, tid: Tid, functor: nat): State {
    var task := Task(functor, tid, s.swaps);
    s.(pending := s.pending + [task], pushed := s.pushed + [task])
  }

  /** The points at which the loop thread runs user code. */
  predicate InUserCode(s: State) {
    s.pc == BeforeLoop || s.pc == Handling || (s.pc == Running && s.next > 0)
  }

  /** The loop thread takes no other step while it owes a wakeup. */
  function LoopStep(s: State, e: Event): State {
    if LOOP in s.owing then s else
    match e
    case LoopPush(functor) =>
      if InUserCode(s) then
        var t := Enqueue(s, LOOP, functor);
        if s.calling then t.(owing := s.owing + {LOOP}) else t.(early := s.early || s.pc == BeforeLoop)
      else s
    case LoopQuit => if InUserCode(s) then s.(quit := true) else s
    case Start => if s.pc == BeforeLoop then s.(pc := Top, quit := false) else s
    case CheckQuit => if s.pc == Top then s.(pc := if s.quit then Exited else Polling) else s
    case PollReturn => if s.pc == Polling then s.(pc := Handling, reported := s.counter > 0) else s
    case ReadWakeup => if s.pc == Handling && s.reported then s.(counter := 0, reported := false) else s
    case EndHandling => if s.pc == Handling && !s.reported then s.(pc := Swapping, calling := true) else s
    case Swap =>
      if s.pc == Swapping then
        s.(pc := Running, batch := s.pending, pending := [], next := 0, swaps := s.swaps + 1,
           base := |s.executed|, early := false)
      else s
    case RunFunctor =>
      if s.pc == Running && s.next < |s.batch| then
        s.(next := s.next + 1, executed := s.executed + [Execution(s.batch[s.next], s.swaps)])
      else s
    case EndRunning => if s.pc == Running && s.next == |s.batch| then s.(pc := Top, calling := false) else s
    case _ => s
  }

  /** One step; an event that cannot happen in `s` leaves it unchanged. */
  function Step(s: State, e: Event): State {
    match e
    case Push(tid, functor) =>
      if tid == LOOP || tid in s.owing then s else Enqueue(s, tid, functor).(owing := s.owing + {tid})
    case RequestQuit(tid) =>
      if tid == LOOP || tid in s.owing then s else s.(quit := true, owing := s.owing + {tid})
    case Wakeup(tid) =>
      if tid !in s.owing then s
      else s.(counter := if s.counter < EVENTFD_MAX then s.counter + 1 else s.counter, owing := s.owing - {tid})
    case _ => LoopStep(s, e)
  }

  function Run(s: State, events: seq<Event>): State
    decreases |events|
  {
    if events == [] then s else Run(Step(s, events[0]), events[1..])
  }

  // ---------------------------------------------------------------- invariants

  predicate Signalled(s: State) {
    s.counter > 0 || s.owing != {}
  }

  /** Work that arrived after the last swap has been, or is about to be, announced. */
  ghost predicate Announced(s: State) {
    && (s.pc in {BeforeLoop, Running, Top, Polling} && s.pending != [] ==> Signalled(s) || s.early)
    && (s.pc == Polling && s.quit ==> Signalled(s))
    && (s.early ==> s.pending != [] && s.pc != Running)
    && (LOOP in s.owing ==> s.pc == Running)
    && s.calling == (s.pc == Swapping || s.pc == Running)
    && (s.reported ==> s.pc == Handling)
  }

  function Tasks(executed: seq<Execution>): (r: seq<Task>)
    ensures |r| == |executed|
  {
    seq(|executed|, i requires 0 <= i < |executed| => executed[i].task)
  }

  /** What was pushed is what has run, then the rest of the current batch, then what is pending. */
  ghost predicate Conserved(s: State) {
    && s.next <= |s.batch|
    && (s.pc != Running ==> s.next == |s.batch|)
    && s.pushed == Tasks(s.executed) + s.batch[s.next..] + s.pending
    && s.base + s.next == |s.executed|
    && Tasks(s.executed)[s.base..] == s.batch[..s.next]
  }

  /** A functor is run in a later batch than any that had been taken when it was queued. */
  ghost predicate Later(s: State) {
    && (forall t | t in s.pending :: t.during <= s.swaps)
    && (forall t | t in s.batch :: t.during < s.swaps)
    && (forall x | x in s.executed :: x.task.during < x.batch <= s.swaps)
  }

  ghost predicate Inv(s: State) {
    Announced(s) && Conserved(s) && Later(s)
  }

  lemma StepAnnounces(s: State, e: Event)
    requires Announced(s)
    ensures Announced(Step(s, e))
  {
    var t := Step(s, e);
    match e
    case Push(tid, _) => assert tid in t.owing || t == s;
    case RequestQuit(tid) => assert tid in t.owing || t == s;
    case Wakeup(tid) => assert t.counter > 0 || t == s;
    case LoopPush(_) => assert t != s && s.calling ==> LOOP in t.owing;
    case _ =>
  }

  lemma EnqueueConserves(s: State, tid: Tid, functor: nat)
    requires Conserved(s)
    ensures Conserved(Enqueue(s, tid, functor))
  {
    var task := Task(functor, tid, s.swaps);
    var done := Tasks(s.executed) + s.batch[s.next..];
    assert done + s.pending + [task] == done + (s.pending + [task]);
  }

  lemma SwapConserves(s: State)
    requires Conserved(s) && s.pc == Swapping
    ensures Conserved(LoopStep(s, Swap))
  {
    var t := LoopStep(s, Swap);
    if t != s {
      assert t.batch[0..] == s.pending;
      assert s.pushed == Tasks(t.executed) + t.batch[0..] + [];
      assert Tasks(t.executed)[t.base..] == [];
    }
  }

  lemma RunFunctorConserves(s: State)
    requires Conserved(s) && s.pc == Running && s.next < |s.batch| && LOOP !in s.owing
    ensures Conserved(LoopStep(s, RunFunctor))
  {
    var t := LoopStep(s, RunFunctor);
    assert Tasks(t.executed) == Tasks(s.executed) + [s.batch[s.next]];
    assert s.batch[s.next..] == [s.batch[s.next]] + s.batch[t.next..];
    assert s.batch[..t.next] == s.batch[..s.next] + [s.batch[s.next]];
    assert Tasks(t.executed) + t.batch[t.next..] == Tasks(s.executed) + s.batch[s.next..];
  }

  lemma StepConserves(s: State, e: Event)
    requires Conserved(s)
    ensures Conserved(Step(s, e))
  {
    match e
    case Push(tid, functor) => EnqueueConserves(s, tid, functor);
    case LoopPush(functor) => EnqueueConserves(s, LOOP, functor);
    case Swap => if s.pc == Swapping { SwapConserves(s); }
    case RunFunctor =>
      if s.pc == Running && s.next < |s.batch| && LOOP !in s.owing { RunFunctorConserves(s); }
    case _ =>
  }

  lemma StepLater(s: State, e: Event)
    requires Later(s)
    ensures Later(Step(s, e))
  {
  }

  lemma {:induction false} RunKeepsInv(s: State, events: seq<Event>)
    requires Inv(s)
    ensures Inv(Run(s, events))
    decreases |events|
  {
    if events != [] {
      StepAnnounces(s, events[0]);
      StepConserves(s, events[0]);
      StepLater(s, events[0]);
      RunKeepsInv(Step(s, events[0]), events[1..]);
    }
  }
}
