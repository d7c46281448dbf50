/**
 The timer queue as a machine over its atomic steps. One step is what the loop thread does between two
 points where something else may happen: a timer callback may add and cancel timers, another thread may
 construct a timer, and time may pass. Addresses are explicit numbers because the allocator reuses them.
 */
module TimerMachine {
  import opened Common
  import opened TimerSet

  /** Timer.h: `delta` is the interval in microseconds, which may truncate to 0 while `repeat` is set. */
  datatype Timer = Timer(expiration: int, delta: nat, repeat: bool, sequence: nat)

  /** Timer::restart. */
  function Restart(t: Timer, now: int): Timer {
    t.(expiration := if t.repeat then now + t.delta else 0)
  }

  /** The pair that identifies a timer in TimerId and in `activeTimers_`. */
  datatype ActiveTimer = ActiveTimer(addr: nat, sequence: nat)

  datatype LogEntry =
    | Batch(sequences: seq<nat>)
    | Ran(sequence: nat)
    | Cancelled(sequence: nat)
    | Deleted(sequence: nat)

  /** Where the loop thread is: outside handleRead, in its callback loop, or in reset. */
  datatype Mode = Idle | Calling | Resetting

  /**
   `heap` holds the live Timer objects, `deadline` and `armedAt` are the timerfd, `mode` to `start` are
   handleRead's progress (`start` is the log position of its batch); `added` and `log` are history.
   */
  datatype State = State(
    clock: int,
    created: nat,
    heap: map<nat, Timer>,
    timers: seq<Entry>,
    active: set<ActiveTimer>,
    canceling: set<ActiveTimer>,
    deadline: Option<int>,
    armedAt: int,
    mode: Mode,
    expired: seq<Entry>,
    next: nat,
    now: int,
    start: nat,
    added: set<ActiveTimer>,
    log: seq<LogEntry>)

  datatype Event =
    | Tick(d: nat)
    | New(addr: nat, when: int, delta: nat, repeat: bool)
    | Add(addr: nat)
    | Cancel(id: ActiveTimer)
    | BeginRead
    | RunNext
    | EndCalls
    | ResetNext
    | EndReset

  const MICROS_PER_SECOND := 1_000_000

  datatype Timespec = Timespec(sec: int, nsec: int)

  function HowMuchTimeFromNow(when: int, now: int): Timespec {
    var microseconds := if when - now < 100 then 100 else when - now;
    Timespec(TruncDiv(microseconds, MICROS_PER_SECOND), TruncMod(microseconds, MICROS_PER_SECOND) * 1000)
  }

  /** The kernel's reading of a relative timespec, in microseconds. */
  function DelayMicros(ts: Timespec): int {
    ts.sec * MICROS_PER_SECOND + ts.nsec / 1000
  }

  /** The timespec is one timerfd_settime accepts, never zero (zero disarms), and loses nothing. */
  lemma DelayExact(when: int, now: int)
    ensures var ts := HowMuchTimeFromNow(when, now);
            && ts.sec >= 0 && 0 <= ts.nsec < 1_000_000_000
            && !(ts.sec == 0 && ts.nsec == 0)
            && DelayMicros(ts) == Max(when - now, 100)
  {
    var us := Max(when - now, 100);
    assert TruncDiv(us, MICROS_PER_SECOND) == us / MICROS_PER_SECOND;
    assert TruncMod(us, MICROS_PER_SECOND) == us % MICROS_PER_SECOND;
  }

  /** resetTimerfd: a one-shot deadline measured from now. */
  function Arm(s: State, expiration: int): State {
    s.(deadline := Some(s.clock + DelayMicros(HowMuchTimeFromNow(expiration, s.clock))), armedAt := s.clock)
  }

  /** readTimerfd: reading consumes an expired deadline; on a spurious call it fails and changes nothing. */
  function ReadTimerfd(s: State): State {
    if s.deadline.Some? && s.deadline.value <= s.clock then s.(deadline := None) else s
  }

  function SequenceAt(heap: map<nat, Timer>, addr: nat): nat {
    if addr in heap then heap[addr].sequence else 0
  }

  function ExpirationAt(heap: map<nat, Timer>, addr: nat): int {
    if addr in heap then heap[addr].expiration else 0
  }

  function IdAt(heap: map<nat, Timer>, addr: nat): ActiveTimer {
    ActiveTimer(addr, SequenceAt(heap, addr))
  }

  function InsertTimer(s: State, addr: nat): State {
    s.(timers := Insert(s.timers, Entry(ExpirationAt(s.heap, addr), addr)),
       active := s.active + {IdAt(s.heap, addr)})
  }

  function EarliestChanged(s: State, addr: nat): bool {
    s.timers == [] || ExpirationAt(s.heap, addr) < s.timers[0].when
  }

  function Delete(s: State, addr: nat): State {
    s.(heap := s.heap - {addr}, log := s.log + [Deleted(SequenceAt(s.heap, addr))])
  }

  function NewTimer(s: State, addr: nat, when: int, delta: nat, repeat: bool): State {
    s.(created := s.created + 1, heap := s.heap[addr := Timer(when, delta, repeat, s.created + 1)])
  }

  function AddInLoop(s: State, addr: nat): State {
    var inserted := InsertTimer(s, addr).(added := s.added + {IdAt(s.heap, addr)});
    if EarliestChanged(s, addr) then Arm(inserted, ExpirationAt(s.heap, addr)) else inserted
  }

  function CancelInLoop(s: State, id: ActiveTimer): State {
    var s := if id in s.added then s.(log := s.log + [Cancelled(id.sequence)]) else s;
    if id in s.active then
      Delete(s.(timers := Erase(s.timers, Entry(ExpirationAt(s.heap, id.addr), id.addr)),
                active := s.active - {id}), id.addr)
    else if s.mode.Calling? then
      s.(canceling := s.canceling + {id})
    else
      s
  }

  function Sequences(heap: map<nat, Timer>, entries: seq<Entry>): seq<nat> {
    seq(|entries|, i requires 0 <= i < |entries| => SequenceAt(heap, entries[i].addr))
  }

  /** The timers before the sentry, and those from it on. */
  function Due(timers: seq<Entry>, now: int): seq<Entry> {
    timers[..LowerBound(timers, Entry(now, UINTPTR_MAX))]
  }

  function NotDue(timers: seq<Entry>, now: int): seq<Entry> {
    timers[LowerBound(timers, Entry(now, UINTPTR_MAX))..]
  }

  function Ids(heap: map<nat, Timer>, entries: seq<Entry>): set<ActiveTimer> {
    set e | e in entries :: IdAt(heap, e.addr)
  }

  /** handleRead up to the callbacks: read the timerfd and take the expired timers out of both indexes. */
  function TakeExpired(s: State): State {
    var s := ReadTimerfd(s);
    var expired := Due(s.timers, s.clock);
    s.(timers := NotDue(s.timers, s.clock),
       active := s.active - Ids(s.heap, expired),
       canceling := {},
       mode := Calling, expired := expired, next := 0, now := s.clock, start := |s.log|,
       log := s.log + [Batch(Sequences(s.heap, expired))])
  }

  /** reset puts a timer back: it restarts it and inserts it again. */
  function RestartNext(s: State): State
    requires s.next < |s.expired| && s.expired[s.next].addr in s.heap
  {
    var addr := s.expired[s.next].addr;
    InsertTimer(s.(next := s.next + 1, heap := s.heap[addr := Restart(s.heap[addr], s.now)]), addr)
  }

  function DropNext(s: State): State
    requires s.next < |s.expired|
  {
    Delete(s.(next := s.next + 1), s.expired[s.next].addr)
  }

  function ResetOne(s: State): State
    requires s.next < |s.expired|
  {
    var addr := s.expired[s.next].addr;
    if addr in s.heap && s.heap[addr].repeat && IdAt(s.heap, addr) !in s.canceling then RestartNext(s)
    else DropNext(s)
  }

  function Rearm(s: State): State {
    var nextExpire := if s.timers == [] then 0 else ExpirationAt(s.heap, s.timers[0].addr);
    if nextExpire > 0 then Arm(s, nextExpire) else s
  }

  /** One step; an event that cannot happen in `s` leaves it unchanged. */
  function Step(s: State, e: Event): State {
    match e
    case Tick(d) => s.(clock := s.clock + d)
    case New(addr, when, delta, repeat) =>
      if addr in s.heap || addr >= UINTPTR_MAX then s else NewTimer(s, addr, when, delta, repeat)
    case Add(addr) =>
      if addr in s.heap && IdAt(s.heap, addr) !in s.added && s.mode != Resetting then AddInLoop(s, addr) else s
    case Cancel(id) =>
      if s.mode != Resetting then CancelInLoop(s, id) else s
    case BeginRead =>
      if s.mode == Idle then TakeExpired(s) else s
    case RunNext =>
      if s.mode == Calling && s.next < |s.expired|
      then s.(log := s.log + [Ran(SequenceAt(s.heap, s.expired[s.next].addr))], next := s.next + 1)
      else s
    case EndCalls =>
      if s.mode == Calling && s.next == |s.expired| then s.(mode := Resetting, next := 0) else s
    case ResetNext =>
      if s.mode == Resetting && s.next < |s.expired| then ResetOne(s) else s
    case EndReset =>
      if s.mode == Resetting && s.next == |s.expired| then Rearm(s).(mode := Idle) else s
  }

  function Run(s: State, events: seq<Event>): State
    decreases |events|
  {
    if events == [] then s else Run(Step(s, events[0]), events[1..])
  }

  function Init(clock: int): State {
    State(clock, 0, map[], [], {}, {}, None, clock, Idle, [], 0, 0, 0, {}, [])
  }

  // ---------------------------------------------------------------- invariants

  /** The expired timers not yet put back or deleted. */
  function Remaining(s: State): seq<Entry> {
    match s.mode
    case Idle => []
    case Calling => s.expired
    case Resetting => if s.next <= |s.expired| then s.expired[s.next..] else []
  }

  /** The two indexes hold the same timers, each under the timer's own expiration and sequence. */
  ghost predicate Indexed(s: State) {
    && Ascending(s.timers)
    && (forall e | e in s.timers :: e.addr in s.heap && s.heap[e.addr].expiration == e.when
                                    && IdAt(s.heap, e.addr) in s.active)
    && (forall a | a in s.active :: a.addr in s.heap && s.heap[a.addr].sequence == a.sequence
                                    && Entry(s.heap[a.addr].expiration, a.addr) in s.timers)
  }

  /** What is left of the batch is live, out of both indexes, and in ascending order. */
  ghost predicate Batched(s: State) {
    && s.next <= |s.expired|
    && Ascending(s.expired)
    && (forall e | e in Remaining(s) :: e.addr in s.heap && s.heap[e.addr].expiration == e.when
                                        && IdAt(s.heap, e.addr) in s.added
                                        && IdAt(s.heap, e.addr) !in s.active)
  }

  /** A live timer that was added is indexed or in the batch; one that was not added is in neither. */
  ghost predicate Owned(s: State) {
    && (forall a | a in s.heap && IdAt(s.heap, a) in s.added ::
          IdAt(s.heap, a) in s.active || Entry(s.heap[a].expiration, a) in Remaining(s))
    && s.active <= s.added
  }

  /** Addresses and sequence numbers of live timers; a sequence number is never reused. */
  ghost predicate Numbered(s: State) {
    && (forall a | a in s.heap :: a < UINTPTR_MAX && 1 <= s.heap[a].sequence <= s.created)
    && (forall a, b | a in s.heap && b in s.heap && s.heap[a].sequence == s.heap[b].sequence :: a == b)
    && (forall x | x in s.added :: 1 <= x.sequence <= s.created)
    && (forall x, a | x in s.added && a in s.heap && s.heap[a].sequence == x.sequence :: x.addr == a)
  }

  ghost predicate Live(s: State, n: nat) {
    exists a :: a in s.heap && s.heap[a].sequence == n
  }

  /** Every timer ever constructed is live or has been deleted, and not both. */
  ghost predicate Conserved(s: State) {
    && (forall n: nat :: Live(s, n) ==> Deleted(n) !in s.log)
    && (forall n: nat | 1 <= n <= s.created :: Live(s, n) || Deleted(n) in s.log)
    && (forall n: nat | Deleted(n) in s.log :: 1 <= n <= s.created)
  }

  /** A cancelled timer is out of the indexes, and if it is still live its restart is blocked. */
  ghost predicate CancelledAreOut(s: State) {
    && (forall n: nat | Cancelled(n) in s.log :: 1 <= n <= s.created)
    && (forall a | a in s.heap && Cancelled(s.heap[a].sequence) in s.log ::
          IdAt(s.heap, a) in s.added - s.active && IdAt(s.heap, a) in s.canceling)
  }

  /** What may follow a log: no deleted timer runs or is deleted again, no cancelled timer is in a batch. */
  ghost predicate MayFollow(log: seq<LogEntry>, e: LogEntry) {
    match e
    case Ran(n) => Deleted(n) !in log
    case Deleted(n) => Deleted(n) !in log
    case Batch(ns) => forall n | n in ns :: Cancelled(n) !in log && Deleted(n) !in log
    case Cancelled(_) => true
  }

  ghost predicate LogOrdered(log: seq<LogEntry>) {
    log == [] || (LogOrdered(log[..|log| - 1]) && MayFollow(log[..|log| - 1], log[|log| - 1]))
  }

  /** The timerfd will fire, no later than the earliest timer or 100 microseconds after it was set. */
  ghost predicate Armed(s: State) {
    && s.timers != [] && s.deadline.Some?
    && s.armedAt <= s.clock
    && s.armedAt + 100 <= s.deadline.value <= Max(s.timers[0].when, s.armedAt + 100)
  }

  ghost predicate ArmedWhenDue(s: State) {
    && s.clock > 0
    && (s.mode.Idle? && s.timers != [] ==> Armed(s))
    && (!s.mode.Idle? ==> 0 < s.now <= s.clock)
    && (!s.mode.Idle? && s.timers != [] && s.timers[0].when <= 0 ==> Armed(s))
  }

  /** The invariant of the timer queue. */
  ghost predicate Inv(s: State) {
    Indexed(s) && Batched(s) && Owned(s) && Numbered(s) && Conserved(s) && CancelledAreOut(s) && LogOrdered(s.log)
    && ArmedWhenDue(s)
  }

}
