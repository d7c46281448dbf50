/**
 BoundedBlockingQueue as a monitor: any number of threads, each critical section one step. A thread that
 waits gives up the mutex and sleeps on a condition; it may be woken by a signal or for no reason at all,
 and by the time it has the mutex again others may have been in.
 */
module QueueMonitor {
  import opened Common

  type Tid = nat

  /**
   `takers` and `putters` sleep on notEmpty_ and notFull_; the woken ones have yet to get the mutex back.
   `args` holds the items that waiting putters carry; `puts` and `takes` are history, in lock order.
   */
  datatype State<T> = State(
    capacity: nat,
    queue: seq<T>,
    takers: set<Tid>,
    wokenTakers: set<Tid>,
    putters: set<Tid>,
    wokenPutters: set<Tid>,
    args: map<Tid, T>,
    puts: seq<T>,
    takes: seq<T>)

  /** `wake` is whom the signal wakes: POSIX lets it be any of the sleepers, but at least one. */
  datatype Event<T> =
    | PutPass(tid: Tid, x: T, wake: set<Tid>)
    | TakePass(tid: Tid, wake: set<Tid>)
    | Spurious(tid: Tid)

  function Init<T>(capacity: nat): State<T> {
    State(capacity, [], {}, {}, {}, {}, map[], [], [])
  }

  predicate Full<T>(s: State<T>) {
    |s.queue| + 1 >= s.capacity
  }

  predicate CanWake(wake: set<Tid>, sleepers: set<Tid>) {
    wake <= sleepers && (sleepers != {} ==> wake != {})
  }

  /** The item put: the one the thread has carried since its first pass, if it has been waiting. */
  function Carried<T>(s: State<T>, tid: Tid, x: T): T {
    if tid in s.wokenPutters && tid in s.args then s.args[tid] else x
  }

  function PutWaits<T>(s: State<T>, tid: Tid, x: T): State<T> {
    s.(putters := s.putters + {tid}, wokenPutters := s.wokenPutters - {tid}, args := s.args[tid := Carried(s, tid, x)])
  }

  function PutSucceeds<T>(s: State<T>, tid: Tid, x: T, wake: set<Tid>): State<T> {
    var item := Carried(s, tid, x);
    s.(queue := s.queue + [item], puts := s.puts + [item], wokenPutters := s.wokenPutters - {tid},
       takers := s.takers - wake, wokenTakers := s.wokenTakers + wake)
  }

  function TakeWaits<T>(s: State<T>, tid: Tid): State<T> {
    s.(takers := s.takers + {tid}, wokenTakers := s.wokenTakers - {tid})
  }

  function TakeSucceeds<T>(s: State<T>, tid: Tid, wake: set<Tid>): State<T>
    requires s.queue != []
  {
    s.(queue := s.queue[1..], takes := s.takes + [s.queue[0]], wokenTakers := s.wokenTakers - {tid},
       putters := s.putters - wake, wokenPutters := s.wokenPutters + wake)
  }

  /** One pass of `put` through the mutex: it waits, or pushes and signals. */
  function PutStep<T>(s: State<T>, tid: Tid, x: T, wake: set<Tid>): State<T> {
    if tid in s.putters + s.takers + s.wokenTakers then s
    else if Full(s) then PutWaits(s, tid, x)
    else if CanWake(wake, s.takers) then PutSucceeds(s, tid, x, wake)
    else s
  }

  function TakeStep<T>(s: State<T>, tid: Tid, wake: set<Tid>): State<T> {
    if tid in s.takers + s.putters + s.wokenPutters then s
    else if s.queue == [] then TakeWaits(s, tid)
    else if CanWake(wake, s.putters) then TakeSucceeds(s, tid, wake)
    else s
  }

  function Step<T>(s: State<T>, e: Event<T>): State<T> {
    match e
    case PutPass(tid, x, wake) => PutStep(s, tid, x, wake)
    case TakePass(tid, wake) => TakeStep(s, tid, wake)
    case Spurious(tid) =>
      if tid in s.takers then s.(takers := s.takers - {tid}, wokenTakers := s.wokenTakers + {tid})
      else if tid in s.putters then s.(putters := s.putters - {tid}, wokenPutters := s.wokenPutters + {tid})
      else s
  }

  function Run<T>(s: State<T>, events: seq<Event<T>>): State<T>
    decreases |events|
  {
    if events == [] then s else Run(Step(s, events[0]), events[1..])
  }

  // ---------------------------------------------------------------- invariants

  /** No signal is lost: items beyond the woken takers' reach, or slots beyond the woken putters', have no sleepers. */
  ghost predicate NoSignalLost<T>(s: State<T>) {
    && (s.takers != {} ==> |s.queue| <= |s.wokenTakers|)
    && (s.putters != {} ==> s.capacity - 1 - |s.queue| <= |s.wokenPutters|)
  }

  ghost predicate Inv<T>(s: State<T>) {
    && s.capacity >= 1 && |s.queue| <= s.capacity - 1
    && s.takers !! s.wokenTakers && s.putters !! s.wokenPutters
    && s.puts == s.takes + s.queue
    && NoSignalLost(s)
  }

  lemma PutSucceedsKeepsInv<T>(s: State<T>, tid: Tid, x: T, wake: set<Tid>)
    requires Inv(s) && !Full(s) && CanWake(wake, s.takers) && tid !in s.putters
    ensures Inv(PutSucceeds(s, tid, x, wake))
  {
    var item := Carried(s, tid, x);
    assert s.takes + (s.queue + [item]) == s.takes + s.queue + [item];
    hide Carried;
    LeaveCounts(s.wokenPutters, tid);
    WakeCounts(s.wokenTakers, s.takers, wake);
  }

  lemma PutKeepsInv<T>(s: State<T>, tid: Tid, x: T, wake: set<Tid>)
    requires Inv(s)
    ensures Inv(PutStep(s, tid, x, wake))
  {
    hide PutSucceeds;
    if !Full(s) && CanWake(wake, s.takers) && tid !in s.putters {
      PutSucceedsKeepsInv(s, tid, x, wake);
    }
  }

  lemma TakeSucceedsKeepsInv<T>(s: State<T>, tid: Tid, wake: set<Tid>)
    requires Inv(s) && s.queue != [] && CanWake(wake, s.putters) && tid !in s.takers
    ensures Inv(TakeSucceeds(s, tid, wake))
  {
    assert s.takes + s.queue == s.takes + [s.queue[0]] + s.queue[1..];
    LeaveCounts(s.wokenTakers, tid);
    WakeCounts(s.wokenPutters, s.putters, wake);
  }

  lemma TakeKeepsInv<T>(s: State<T>, tid: Tid, wake: set<Tid>)
    requires Inv(s)
    ensures Inv(TakeStep(s, tid, wake))
  {
    hide TakeSucceeds;
    if s.queue != [] && CanWake(wake, s.putters) && tid !in s.takers {
      TakeSucceedsKeepsInv(s, tid, wake);
    }
  }

  lemma SpuriousKeepsInv<T>(s: State<T>, tid: Tid)
    requires Inv(s)
    ensures Inv(Step(s, Spurious(tid)))
  {
    if tid in s.takers {
      WakeCounts(s.wokenTakers, s.takers, {tid});
    } else if tid in s.putters {
      WakeCounts(s.wokenPutters, s.putters, {tid});
    }
  }

  lemma StepKeepsInv<T>(s: State<T>, e: Event<T>)
    requires Inv(s)
    ensures Inv(Step(s, e))
  {
    hide Inv;
    match e
    case PutPass(tid, x, wake) => PutKeepsInv(s, tid, x, wake);
    case TakePass(tid, wake) => TakeKeepsInv(s, tid, wake);
    case Spurious(tid) => SpuriousKeepsInv(s, tid);
  }

  lemma {:induction false} RunKeepsInv<T>(s: State<T>, events: seq<Event<T>>)
    requires Inv(s)
    ensures Inv(Run(s, events))
    decreases |events|
  {
    if events != [] {
      StepKeepsInv(s, events[0]);
      RunKeepsInv(Step(s, events[0]), events[1..]);
    }
  }

  lemma Always<T>(capacity: nat, events: seq<Event<T>>)
    requires capacity >= 1
    ensures Inv(Run(Init<T>(capacity), events))
  {
    RunKeepsInv(Init<T>(capacity), events);
  }

  lemma {:induction false} CapacityFixed<T>(s: State<T>, events: seq<Event<T>>)
    ensures Run(s, events).capacity == s.capacity
    decreases |events|
  {
    if events != [] {
      CapacityFixed(Step(s, events[0]), events[1..]);
    }
  }

  // ---------------------------------------------------------------- what it guarantees

  /**
   No lost wakeup, for any number of threads, spurious wakeups and barging: while a consumer sleeps, every
   item in the queue has a woken consumer on its way to it, and while a producer sleeps so has every free slot.
   */
  lemma NoLostWakeup<T>(capacity: nat, events: seq<Event<T>>)
    requires capacity >= 1
    ensures var s := Run(Init<T>(capacity), events);
            && (s.takers != {} ==> |s.queue| <= |s.wokenTakers|)
            && (s.putters != {} ==> capacity - 1 - |s.queue| <= |s.wokenPutters|)
  {
    hide Run, Init;
    Always(capacity, events);
    CapacityOfRun(capacity, events);
  }

  lemma CapacityOfRun<T>(capacity: nat, events: seq<Event<T>>)
    ensures Run(Init<T>(capacity), events).capacity == capacity
  {
    CapacityFixed(Init<T>(capacity), events);
  }

  /** Threads sleep on both conditions and nobody is on the way to wake them. */
  predicate Stuck<T>(s: State<T>) {
    s.takers != {} && s.putters != {} && s.wokenTakers == {} && s.wokenPutters == {}
  }

  /** With two slots or more, producers and consumers never wait for each other. */
  lemma NeverStuck<T>(capacity: nat, events: seq<Event<T>>)
    requires capacity >= 2
    ensures !Stuck(Run(Init<T>(capacity), events))
  {
    hide Run, Init;
    NoLostWakeup(capacity, events);
  }

  /** With one slot, which is the one kept empty, a put and a take already wait for each other. */
  lemma OneSlotSticks<T>(x: T)
    ensures Stuck(Run(Init<T>(1), [PutPass(1, x, {}), TakePass(2, {})]))
  {
    var a := Step(Init<T>(1), PutPass(1, x, {}));
    var b := Step(a, TakePass(2, {}));
    var events: seq<Event<T>> := [PutPass(1, x, {}), TakePass(2, {})];
    assert events[1..] == [TakePass(2, {})];
    assert Run(a, events[1..]) == b;
    assert b.putters == {1} && b.takers == {2} && b.wokenPutters == {} && b.wokenTakers == {};
  }

  /** So two slots are exactly what it takes. */
  lemma NeverStuckExactly<T>(capacity: nat, x: T)
    requires capacity >= 1
    ensures (forall events: seq<Event<T>> :: !Stuck(Run(Init<T>(capacity), events))) <==> capacity >= 2
  {
    hide Run, Init, Stuck;
    if capacity >= 2 {
      forall events: seq<Event<T>> ensures !Stuck(Run(Init<T>(capacity), events)) {
        NeverStuck(capacity, events);
      }
    } else {
      OneSlotSticks(x);
      var events: seq<Event<T>> := [PutPass(1, x, {}), TakePass(2, {})];
      assert Stuck(Run(Init<T>(capacity), events));
    }
  }

  /** Linearizable: under every interleaving, what was put, in lock order, is what was taken and then what is queued. */
  lemma FirstInFirstOut<T>(capacity: nat, events: seq<Event<T>>)
    requires capacity >= 1
    ensures var s := Run(Init<T>(capacity), events);
            s.puts == s.takes + s.queue && |s.queue| <= capacity - 1
  {
    hide Run, Init;
    Always(capacity, events);
    CapacityOfRun(capacity, events);
  }

  lemma RunAppend<T>(s: State<T>, a: seq<Event<T>>, b: seq<Event<T>>)
    ensures Run(s, a + b) == Run(Run(s, a), b)
    decreases |a|
  {
    if a == [] {
      assert a + b == b;
    } else {
      assert (a + b)[1..] == a[1..] + b;
      RunAppend(Step(s, a[0]), a[1..], b);
    }
  }

  lemma RunSnoc<T>(s: State<T>, events: seq<Event<T>>, e: Event<T>)
    ensures Run(s, events + [e]) == Step(Run(s, events), e)
  {
    RunAppend(s, events, [e]);
    assert Run(Run(s, events), [e]) == Step(Run(s, events), e);
  }
}
