/**
 What the two pollers do with the channels handed to them, one call at a time, and exactly when both run without a
 failed assert and watch the same.
 */
module PollerMachine {

  /** Event masks of poll(2) and epoll(7), which agree. */
  type Mask = bv16

  const NONE_EVENT: Mask := 0
  const READ_EVENT: Mask := 3
  const WRITE_EVENT: Mask := 4

  /** A Channel object: which one it is, and its descriptor, which it keeps for life. */
  datatype Chan = Chan(id: nat, fd: int)

  /** A channel handed to the poller with its current events, or for removal. */
  datatype Op = Update(c: Chan, events: Mask) | Remove(c: Chan)

  /** The map has this very channel under its descriptor. */
  predicate Holds(channels: map<int, Chan>, c: Chan) {
    c.fd in channels && channels[c.fd] == c
  }

  /** A channel's events: those of its last update, or none. */
  function EventsOf(events: map<Chan, Mask>, c: Chan): Mask {
    if c in events then events[c] else NONE_EVENT
  }

  // ---------------------------------------------------------------- PollPoller

  /** A slot of the poll array; `ignored` when its fd is stored as -fd-1. */
  datatype Slot = Slot(ignored: bool, events: Mask)

  /**
   `indexed` are the channels whose index is no longer -1: it is set when a channel is first added and never reset.
   `ok` tells whether every assert so far has held; a failed one ends the run.
   */
  datatype PollSet = PollSet(
    channels: map<int, Chan>,
    slots: map<int, Slot>,
    indexed: set<Chan>,
    events: map<Chan, Mask>,
    ok: bool)

  function PollStep(s: PollSet, op: Op): PollSet {
    if !s.ok then s
    else
      match op
      case Update(c, events) =>
        if c !in s.indexed then
          if c.fd in s.channels then s.(ok := false)
          else
            s.(channels := s.channels[c.fd := c], slots := s.slots[c.fd := Slot(false, events)],
               indexed := s.indexed + {c}, events := s.events[c := events])
        else if Holds(s.channels, c) && c.fd in s.slots then
          var ignored := s.slots[c.fd].ignored || events == NONE_EVENT;
          s.(slots := s.slots[c.fd := Slot(ignored, events)], events := s.events[c := events])
        else s.(ok := false)
      case Remove(c) =>
        if && Holds(s.channels, c) && c.fd in s.slots
           && EventsOf(s.events, c) == NONE_EVENT && s.slots[c.fd] == Slot(true, NONE_EVENT)
        then s.(channels := s.channels - {c.fd}, slots := s.slots - {c.fd})
        else s.(ok := false)
  }

  /** What poll(2) watches. */
  function Interest(slots: map<int, Slot>): map<int, Mask> {
    map fd | fd in slots && !slots[fd].ignored :: slots[fd].events
  }

  // ---------------------------------------------------------------- EPollPoller

  /** kAdded and kDeleted; a channel that is kNew has no entry. */
  datatype Index = Added | Deleted

  datatype Ctl = Add | Modify | Delete

  /** `kernel` is the kernel's set, and `refused` tells whether any epoll_ctl so far has failed. */
  datatype Epoll = Epoll(
    channels: map<int, Chan>,
    index: map<Chan, Index>,
    kernel: map<int, Mask>,
    events: map<Chan, Mask>,
    ok: bool,
    refused: bool)

  /** epoll_ctl: ADD wants the fd absent, MOD and DEL want it present. */
  function Control(e: Epoll, ctl: Ctl, fd: int, events: Mask): Epoll {
    match ctl
    case Add => if fd in e.kernel then e.(refused := true) else e.(kernel := e.kernel[fd := events])
    case Modify => if fd !in e.kernel then e.(refused := true) else e.(kernel := e.kernel[fd := events])
    case Delete => if fd !in e.kernel then e.(refused := true) else e.(kernel := e.kernel - {fd})
  }

  function EpollStep(e: Epoll, op: Op): Epoll {
    if !e.ok then e
    else
      match op
      case Update(c, events) =>
        if c !in e.index then
          if c.fd in e.channels then e.(ok := false)
          else
            var t := e.(channels := e.channels[c.fd := c], index := e.index[c := Added],
                        events := e.events[c := events]);
            Control(t, Add, c.fd, events)
        else if !Holds(e.channels, c) then e.(ok := false)
        else
          var t := e.(events := e.events[c := events]);
          if e.index[c] == Deleted then
            Control(t.(index := t.index[c := Added]), Add, c.fd, events)
          else if events == NONE_EVENT then
            Control(t, Delete, c.fd, events).(index := t.index[c := Deleted])
          else
            Control(t, Modify, c.fd, events)
      case Remove(c) =>
        if Holds(e.channels, c) && EventsOf(e.events, c) == NONE_EVENT && c in e.index then
          var t := e.(channels := e.channels - {c.fd}, index := e.index - {c});
          if e.index[c] == Added then Control(t, Delete, c.fd, NONE_EVENT) else t
        else e.(ok := false)
  }

  // ---------------------------------------------------------------- histories

  function PollAfter(ops: seq<Op>): PollSet {
    if ops == [] then PollSet(map[], map[], {}, map[], true)
    else PollStep(PollAfter(ops[..|ops| - 1]), ops[|ops| - 1])
  }

  function EpollAfter(ops: seq<Op>): Epoll {
    if ops == [] then Epoll(map[], map[], map[], map[], true, false)
    else EpollStep(EpollAfter(ops[..|ops| - 1]), ops[|ops| - 1])
  }

  /** Neither poller fails an assert or is refused by the kernel. */
  predicate BothRun(ops: seq<Op>) {
    PollAfter(ops).ok && EpollAfter(ops).ok && !EpollAfter(ops).refused
  }

  /** At every moment of the history the two pollers watch the same descriptors with the same masks. */
  ghost predicate AlwaysAgree(ops: seq<Op>) {
    forall n | 0 <= n <= |ops| :: Interest(PollAfter(ops[..n]).slots) == EpollAfter(ops[..n]).kernel
  }

  /** How far a channel has come: never handed over, in use, disabled by an update, or removed after that. */
  datatype Stage = Fresh | Live(events: Mask) | Disabled | Gone

  function NextStage(stage: Stage, op: Op): Stage {
    match stage
    case Fresh => if op.Update? then Live(op.events) else Fresh
    case Live(_) =>
      if op.Remove? then stage else if op.events == NONE_EVENT then Disabled else Live(op.events)
    case Disabled => if op.Remove? then Gone else Disabled
    case Gone => Gone
  }

  function StageAfter(ops: seq<Op>, c: Chan): Stage {
    if ops == [] then Fresh
    else
      var before := StageAfter(ops[..|ops| - 1], c);
      if ops[|ops| - 1].c == c then NextStage(before, ops[|ops| - 1]) else before
  }

  predicate InUse(stage: Stage) {
    stage.Live? || stage.Disabled?
  }

  /**
   An update of a channel that has not been disabled, and that has its descriptor to itself if it is new; or the
   removal of one that has been disabled.
   */
  ghost predicate Allowed(ops: seq<Op>, op: Op) {
    match op
    case Update(c, _) =>
      || StageAfter(ops, c).Live?
      || (StageAfter(ops, c).Fresh? && forall d: Chan | d.fd == c.fd :: !InUse(StageAfter(ops, d)))
    case Remove(c) => StageAfter(ops, c).Disabled?
  }

  /**
   No channel is updated after it has been disabled or removed, each removal follows a disabling update, and no two
   channels use one descriptor at a time.
   */
  ghost predicate Proper(ops: seq<Op>) {
    ops == [] || (Proper(ops[..|ops| - 1]) && Allowed(ops[..|ops| - 1], ops[|ops| - 1]))
  }

  lemma Appended(ops: seq<Op>, op: Op)
    ensures PollAfter(ops + [op]) == PollStep(PollAfter(ops), op)
    ensures EpollAfter(ops + [op]) == EpollStep(EpollAfter(ops), op)
    ensures Proper(ops + [op]) <==> Proper(ops) && Allowed(ops, op)
    ensures forall c :: StageAfter(ops + [op], c)
                     == if op.c == c then NextStage(StageAfter(ops, c), op) else StageAfter(ops, c)
  {
    var more := ops + [op];
    assert more[..|more| - 1] == ops && more[|more| - 1] == op;
  }

  // ---------------------------------------------------------------- EPollPoller on its own

  /** The channels with an index are those in the map. */
  ghost predicate Indexed(channels: map<int, Chan>, index: map<Chan, Index>) {
    && (forall c | c in index :: Holds(channels, c))
    && (forall fd | fd in channels :: channels[fd].fd == fd && channels[fd] in index)
  }

  ghost predicate IsAdded(channels: map<int, Chan>, index: map<Chan, Index>, fd: int) {
    fd in channels && channels[fd] in index && index[channels[fd]] == Added
  }

  /** kAdded if and only if the kernel has the fd, with the channel's own mask; and no epoll_ctl has failed. */
  ghost predicate EpollExact(e: Epoll) {
    && !e.refused && Indexed(e.channels, e.index)
    && (forall fd :: fd in e.kernel <==> IsAdded(e.channels, e.index, fd))
    && (forall fd | fd in e.kernel :: fd in e.channels && e.kernel[fd] == EventsOf(e.events, e.channels[fd]))
  }

  lemma AddKeepsIndexed(channels: map<int, Chan>, index: map<Chan, Index>, c: Chan)
    requires Indexed(channels, index) && (c in index || c.fd !in channels)
    ensures Indexed(channels[c.fd := c], index[c := Added])
    ensures forall fd :: IsAdded(channels[c.fd := c], index[c := Added], fd)
                    <==> fd == c.fd || IsAdded(channels, index, fd)
  {
    var t, u := channels[c.fd := c], index[c := Added];
    forall d | d in u ensures Holds(t, d) {
      if d != c {
        assert Holds(channels, d) && (c in index ==> Holds(channels, c));
      }
    }
    forall fd ensures IsAdded(t, u, fd) <==> fd == c.fd || IsAdded(channels, index, fd) {
      if fd != c.fd {
        assert fd in t <==> fd in channels;
        assert fd in channels ==> t[fd] == channels[fd] != c;
      }
    }
  }

  lemma AddKeepsExact(e: Epoll, c: Chan, events: Mask)
    requires EpollExact(e) && if c in e.index then e.index[c] == Deleted else c.fd !in e.channels
    ensures c.fd !in e.kernel
    ensures EpollExact(e.(channels := e.channels[c.fd := c], index := e.index[c := Added],
                          kernel := e.kernel[c.fd := events], events := e.events[c := events]))
  {
    assert c in e.index ==> Holds(e.channels, c);
    assert forall fd | fd in e.channels && fd != c.fd :: e.channels[fd] != c;
    AddKeepsIndexed(e.channels, e.index, c);
    assert !IsAdded(e.channels, e.index, c.fd);
    hide Indexed, IsAdded;
  }

  lemma ModifyKeepsExact(e: Epoll, c: Chan, events: Mask)
    requires EpollExact(e) && c in e.index && e.index[c] == Added
    ensures c.fd in e.kernel
    ensures EpollExact(e.(kernel := e.kernel[c.fd := events], events := e.events[c := events]))
  {
    assert forall fd | fd in e.channels && fd != c.fd :: e.channels[fd] != c;
  }

  lemma DeleteKeepsExact(e: Epoll, c: Chan, events: Mask)
    requires EpollExact(e) && c in e.index && e.index[c] == Added
    ensures c.fd in e.kernel
    ensures EpollExact(e.(index := e.index[c := Deleted], kernel := e.kernel - {c.fd}, events := e.events[c := events]))
  {
    assert forall fd | fd in e.channels && fd != c.fd :: e.channels[fd] != c;
  }

  lemma UpdateKeepsExact(e: Epoll, c: Chan, events: Mask)
    requires EpollExact(e) && e.ok
    ensures EpollExact(EpollStep(e, Update(c, events)))
  {
    if c in e.index && e.index[c] == Added {
      assert Holds(e.channels, c);
      if events == NONE_EVENT {
        DeleteKeepsExact(e, c, events);
      } else {
        ModifyKeepsExact(e, c, events);
      }
    } else if c in e.index || c.fd !in e.channels {
      assert c in e.index ==> Holds(e.channels, c) && e.channels == e.channels[c.fd := c];
      AddKeepsExact(e, c, events);
    }
    hide EpollExact;
    assert EpollExact(e.(ok := false)) by {
      FailedIsExact(e);
    }
  }

  lemma FailedIsExact(e: Epoll)
    requires EpollExact(e)
    ensures EpollExact(e.(ok := false))
  {
  }

  lemma RemoveKeepsExact(e: Epoll, c: Chan)
    requires EpollExact(e) && e.ok
    ensures EpollExact(EpollStep(e, Remove(c)))
  {
    if Holds(e.channels, c) && EventsOf(e.events, c) == NONE_EVENT && c in e.index {
      RemoveKeepsIndexed(e.channels, e.index, c);
      assert IsAdded(e.channels, e.index, c.fd) <==> e.index[c] == Added;
      assert c.fd !in e.kernel ==> e.kernel - {c.fd} == e.kernel;
      hide Indexed, IsAdded;
    }
  }

  lemma RemoveKeepsIndexed(channels: map<int, Chan>, index: map<Chan, Index>, c: Chan)
    requires Indexed(channels, index) && c in index
    ensures Indexed(channels - {c.fd}, index - {c})
    ensures forall fd :: IsAdded(channels - {c.fd}, index - {c}, fd) <==> fd != c.fd && IsAdded(channels, index, fd)
  {
    var t, u := channels - {c.fd}, index - {c};
    forall d | d in u ensures Holds(t, d) {
      assert Holds(channels, d) && Holds(channels, c);
    }
    forall fd ensures IsAdded(t, u, fd) <==> fd != c.fd && IsAdded(channels, index, fd) {
      assert fd in channels && fd != c.fd ==> channels[fd] != c;
    }
  }

  lemma EpollStepKeepsExact(e: Epoll, op: Op)
    requires EpollExact(e)
    ensures EpollExact(EpollStep(e, op))
  {
    hide EpollExact;
    if e.ok {
      match op
      case Update(c, events) => UpdateKeepsExact(e, c, events);
      case Remove(c) => RemoveKeepsExact(e, c);
    }
  }

  /** For every history whatever, re-enabling, re-adding and misuse included. */
  lemma {:induction false} EpollStaysExact(ops: seq<Op>)
    ensures EpollExact(EpollAfter(ops))
  {
    if ops != [] {
      EpollStaysExact(ops[..|ops| - 1]);
      EpollStepKeepsExact(EpollAfter(ops[..|ops| - 1]), ops[|ops| - 1]);
    }
  }

  // ---------------------------------------------------------------- what poll(2) watches

  lemma InterestOfUpdate(slots: map<int, Slot>, fd: int, slot: Slot)
    ensures Interest(slots[fd := slot])
         == if slot.ignored then Interest(slots) - {fd} else Interest(slots)[fd := slot.events]
  {
    var t := slots[fd := slot];
    assert forall g | g != fd :: g in t <==> g in slots;
    assert forall g | g != fd && g in slots :: t[g] == slots[g];
  }

  lemma InterestOfRemove(slots: map<int, Slot>, fd: int)
    ensures Interest(slots - {fd}) == Interest(slots) - {fd}
  {
  }

  lemma InterestHas(slots: map<int, Slot>, fd: int)
    ensures fd in Interest(slots) <==> fd in slots && !slots[fd].ignored
  {
  }

  // ---------------------------------------------------------------- the simulation

  /** What each poller knows of a channel at a given stage. */
  ghost predicate Knows(p: PollSet, e: Epoll, c: Chan, stage: Stage) {
    match stage
    case Fresh => c !in p.indexed && c !in e.index && !Holds(p.channels, c)
    case Live(events) =>
      && c in p.indexed && Holds(p.channels, c) && c.fd in p.slots && p.slots[c.fd] == Slot(false, events)
      && c in e.index && e.index[c] == Added && EventsOf(p.events, c) == events
    case Disabled =>
      && c in p.indexed && Holds(p.channels, c) && c.fd in p.slots && p.slots[c.fd] == Slot(true, NONE_EVENT)
      && c in e.index && e.index[c] == Deleted && EventsOf(p.events, c) == NONE_EVENT
    case Gone => c in p.indexed && c !in e.index && !Holds(p.channels, c)
  }

  ghost predicate SameMaps(p: PollSet, e: Epoll) {
    && p.ok && e.ok && !e.refused && p.channels == e.channels && p.events == e.events
    && (forall fd | fd in p.channels :: p.channels[fd].fd == fd)
    && (forall fd :: fd in p.slots <==> fd in p.channels)
    && Interest(p.slots) == e.kernel
  }

  /** Both pollers know of every channel what the history has made of it, and watch the same. */
  ghost predicate Simulates(p: PollSet, e: Epoll, ops: seq<Op>) {
    SameMaps(p, e) && forall c :: Knows(p, e, c, StageAfter(ops, c))
  }

  lemma StepKeepsMaps(p: PollSet, e: Epoll, op: Op, stage: Stage)
    requires SameMaps(p, e) && Knows(p, e, op.c, stage)
    requires if op.Update? then stage.Live? || (stage.Fresh? && op.c.fd !in p.channels) else stage.Disabled?
    ensures SameMaps(PollStep(p, op), EpollStep(e, op))
  {
    var fd := op.c.fd;
    InterestHas(p.slots, fd);
    InterestOfRemove(p.slots, fd);
    if op.Update? {
      InterestOfUpdate(p.slots, fd, PollStep(p, op).slots[fd]);
    }
    hide Interest;
    assert fd !in e.kernel ==> e.kernel - {fd} == e.kernel;
  }

  lemma StepKeepsKnowledge(p: PollSet, e: Epoll, op: Op, stage: Stage, c: Chan, other: Stage)
    requires SameMaps(p, e) && Knows(p, e, op.c, stage) && Knows(p, e, c, other) && (c == op.c ==> other == stage)
    requires if op.Update? then stage.Live? || (stage.Fresh? && op.c.fd !in p.channels) else stage.Disabled?
    ensures Knows(PollStep(p, op), EpollStep(e, op), c, if c == op.c then NextStage(stage, op) else other)
  {
    hide Interest;
    if op.Update? {
      UpdateKeepsKnowledge(p, e, op, stage, c, other);
    } else {
      hide Control;
      assert e.index[op.c] == Deleted;
    }
  }

  lemma UpdateKeepsKnowledge(p: PollSet, e: Epoll, op: Op, stage: Stage, c: Chan, other: Stage)
    requires SameMaps(p, e) && Knows(p, e, op.c, stage) && Knows(p, e, c, other) && (c == op.c ==> other == stage)
    requires op.Update? && (stage.Live? || (stage.Fresh? && op.c.fd !in p.channels))
    ensures Knows(PollStep(p, op), EpollStep(e, op), c, if c == op.c then NextStage(stage, op) else other)
  {
    hide Interest;
  }

  lemma AllowedHasRoom(p: PollSet, e: Epoll, ops: seq<Op>, op: Op)
    requires Simulates(p, e, ops) && op.Update? && StageAfter(ops, op.c).Fresh?
    ensures Allowed(ops, op) <==> op.c.fd !in p.channels
  {
    hide Interest;
    var fd := op.c.fd;
    if fd in p.channels {
      var d := p.channels[fd];
      assert Knows(p, e, d, StageAfter(ops, d));
      assert InUse(StageAfter(ops, d)) && d.fd == fd;
    } else {
      forall d: Chan | d.fd == fd ensures !InUse(StageAfter(ops, d)) {
        assert Knows(p, e, d, StageAfter(ops, d));
      }
    }
  }

  lemma StepSimulates(p: PollSet, e: Epoll, ops: seq<Op>, op: Op)
    requires Simulates(p, e, ops) && Allowed(ops, op)
    ensures Simulates(PollStep(p, op), EpollStep(e, op), ops + [op])
  {
    var stage := StageAfter(ops, op.c);
    assert Knows(p, e, op.c, stage);
    if op.Update? && stage.Fresh? {
      AllowedHasRoom(p, e, ops, op);
    }
    assert if op.Update? then stage.Live? || (stage.Fresh? && op.c.fd !in p.channels) else stage.Disabled?;
    StepKeepsMaps(p, e, op, stage);
    Appended(ops, op);
    hide PollStep, EpollStep, SameMaps, StageAfter, NextStage;
    forall c ensures Knows(PollStep(p, op), EpollStep(e, op), c, StageAfter(ops + [op], c)) {
      StepKeepsKnowledge(p, e, op, stage, c, StageAfter(ops, c));
    }
  }

  /** Any other call makes one of the pollers fail an assert, or leaves the two watching different sets. */
  lemma ImproperIsSeen(p: PollSet, e: Epoll, ops: seq<Op>, op: Op)
    requires Simulates(p, e, ops) && !Allowed(ops, op)
    ensures var q, f := PollStep(p, op), EpollStep(e, op);
            q.ok && f.ok ==> Interest(q.slots) != f.kernel
  {
    var stage := StageAfter(ops, op.c);
    assert Knows(p, e, op.c, stage);
    if op.Update? && stage.Fresh? {
      AllowedHasRoom(p, e, ops, op);
    } else if op.Update? && stage.Disabled? {
      ReenableDiverges(p, e, op);
    }
    hide Interest;
  }

  /** Updating a disabled channel puts it back into the epoll set, but the poll array keeps ignoring it. */
  lemma ReenableDiverges(p: PollSet, e: Epoll, op: Op)
    requires SameMaps(p, e) && op.Update? && Knows(p, e, op.c, Disabled)
    ensures var q, f := PollStep(p, op), EpollStep(e, op);
            q.ok && f.ok && !f.refused && op.c.fd in f.kernel && op.c.fd !in Interest(q.slots)
  {
    InterestHas(p.slots, op.c.fd);
    InterestHas(PollStep(p, op).slots, op.c.fd);
    hide Interest;
  }

  lemma NothingSimulates()
    ensures Simulates(PollAfter([]), EpollAfter([]), [])
  {
  }

  lemma {:induction false} HistorySimulates(ops: seq<Op>)
    requires Proper(ops)
    ensures Simulates(PollAfter(ops), EpollAfter(ops), ops)
  {
    hide Simulates, Allowed, PollStep, EpollStep;
    if ops == [] {
      NothingSimulates();
    } else {
      var front, op := ops[..|ops| - 1], ops[|ops| - 1];
      HistorySimulates(front);
      assert ops == front + [op];
      StepSimulates(PollAfter(front), EpollAfter(front), front, op);
    }
  }

  lemma {:induction false} PrefixIsProper(ops: seq<Op>, n: nat)
    requires Proper(ops) && n <= |ops|
    ensures Proper(ops[..n])
    decreases |ops|
  {
    hide Allowed;
    if n < |ops| {
      PrefixIsProper(ops[..|ops| - 1], n);
      assert ops[..|ops| - 1][..n] == ops[..n];
    } else {
      assert ops[..n] == ops;
    }
  }

  /** An improper history has a first improper call. */
  lemma {:induction false} FirstImproper(ops: seq<Op>) returns (n: nat)
    requires !Proper(ops)
    ensures 0 < n <= |ops| && Proper(ops[..n - 1]) && !Allowed(ops[..n - 1], ops[n - 1])
    decreases |ops|
  {
    hide Allowed;
    var before := ops[..|ops| - 1];
    if Proper(before) {
      n := |ops|;
    } else {
      n := FirstImproper(before);
      assert before[..n - 1] == ops[..n - 1];
    }
  }

  lemma {:induction false} RunsFromTheStart(ops: seq<Op>, n: nat)
    requires PollAfter(ops).ok && EpollAfter(ops).ok && n <= |ops|
    ensures PollAfter(ops[..n]).ok && EpollAfter(ops[..n]).ok
    decreases |ops|
  {
    if n < |ops| {
      RunsFromTheStart(ops[..|ops| - 1], n);
      assert ops[..|ops| - 1][..n] == ops[..n];
    } else {
      assert ops[..n] == ops;
    }
  }

  lemma ProperRunsAndAgrees(ops: seq<Op>)
    requires Proper(ops)
    ensures BothRun(ops) && AlwaysAgree(ops)
  {
    HistorySimulates(ops);
    hide Proper, PollAfter, EpollAfter, Interest, StageAfter, Knows;
    forall n | 0 <= n <= |ops| ensures Interest(PollAfter(ops[..n]).slots) == EpollAfter(ops[..n]).kernel {
      PrefixIsProper(ops, n);
      HistorySimulates(ops[..n]);
    }
  }

  lemma ImproperFailsOrDiffers(ops: seq<Op>, n: nat)
    requires 0 < n <= |ops| && Proper(ops[..n - 1]) && !Allowed(ops[..n - 1], ops[n - 1])
    requires PollAfter(ops).ok && EpollAfter(ops).ok
    ensures Interest(PollAfter(ops[..n]).slots) != EpollAfter(ops[..n]).kernel
  {
    hide PollAfter, EpollAfter, PollStep, EpollStep, Interest, Simulates, Allowed, Proper, StageAfter, NextStage;
    var front, op := ops[..n - 1], ops[n - 1];
    HistorySimulates(front);
    RunsFromTheStart(ops, n);
    assert ops[..n] == front + [op];
    Appended(front, op);
    ImproperIsSeen(PollAfter(front), EpollAfter(front), front, op);
  }

  /**
   Both pollers run through a history and watch the same throughout exactly when the history is proper: each channel
   registered, updated, disabled once, removed once, and not handed over again.
   */
  lemma PollersAgreeExactly(ops: seq<Op>)
    ensures BothRun(ops) && AlwaysAgree(ops) <==> Proper(ops)
  {
    hide Proper, PollAfter, EpollAfter, Interest, Allowed;
    if Proper(ops) {
      ProperRunsAndAgrees(ops);
    } else if BothRun(ops) {
      var n := FirstImproper(ops);
      ImproperFailsOrDiffers(ops, n);
    }
  }

  // ---------------------------------------------------------------- where PollPoller falls short

  /** EPollPoller takes back a channel it has removed; PollPoller, which left its index, fails an assert. */
  lemma ReaddedChannel(c: Chan, events: Mask)
    requires events != NONE_EVENT
    ensures var ops := [Update(c, events), Update(c, NONE_EVENT), Remove(c), Update(c, events)];
            && PollAfter(ops[..3]).ok && !PollAfter(ops).ok
            && EpollAfter(ops).ok && !EpollAfter(ops).refused && EpollAfter(ops).kernel == map[c.fd := events]
  {
    var a, b, d := [Update(c, events)], Update(c, NONE_EVENT), Remove(c);
    Appended([], Update(c, events));
    assert [] + a == a;
    Appended(a, b);
    Appended(a + [b], d);
    Appended(a + [b] + [d], Update(c, events));
    var ops := [Update(c, events), b, d, Update(c, events)];
    assert ops == a + [b] + [d] + a;
    assert ops[..3] == a + [b] + [d];
  }

  /** A channel registered with no interest is not marked as ignored, so PollPoller fails an assert on its removal. */
  lemma NeverEnabledChannel(c: Chan)
    ensures var ops := [Update(c, NONE_EVENT), Remove(c)];
            !PollAfter(ops).ok && EpollAfter(ops).ok && !EpollAfter(ops).refused
  {
    var a := [Update(c, NONE_EVENT)];
    Appended([], Update(c, NONE_EVENT));
    assert [] + a == a;
    Appended(a, Remove(c));
    assert [Update(c, NONE_EVENT), Remove(c)] == a + [Remove(c)];
  }
}
