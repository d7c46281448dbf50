/** The invariants of the timer queue hold in every reachable state. */
module TimerSafety {
  import opened TimerSet
  import opened TimerMachine

  lemma SameLive(s: State, t: State)
    requires s.heap == t.heap
    ensures forall n :: Live(s, n) <==> Live(t, n)
  {
  }

  lemma TickKeepsInv(s: State, d: nat)
    requires Inv(s)
    ensures Inv(s.(clock := s.clock + d))
  {
    var t := s.(clock := s.clock + d);
    assert Indexed(t);
    assert Owned(t);
    assert Conserved(t) by {
      SameLive(s, t);
    }
    assert ArmedWhenDue(t);
  }

  lemma NewConserves(s: State, addr: nat, when: int, delta: nat, repeat: bool)
    requires Conserved(s) && Numbered(s) && addr !in s.heap
    ensures Conserved(NewTimer(s, addr, when, delta, repeat))
  {
    var t := NewTimer(s, addr, when, delta, repeat);
    forall n: nat | 1 <= n <= t.created ensures Live(t, n) || Deleted(n) in t.log {
      if n == t.created {
        assert t.heap[addr].sequence == n;
      } else if Live(s, n) {
        var a :| a in s.heap && s.heap[a].sequence == n;
        assert a in t.heap && t.heap[a].sequence == n;
      }
    }
  }

  lemma NewKeepsIndexes(s: State, addr: nat, when: int, delta: nat, repeat: bool)
    requires Indexed(s) && addr !in s.heap
    ensures Indexed(NewTimer(s, addr, when, delta, repeat))
  {
  }

  lemma NewKeepsOwned(s: State, addr: nat, when: int, delta: nat, repeat: bool)
    requires Indexed(s) && Batched(s) && Owned(s) && Numbered(s) && addr !in s.heap
    ensures Batched(NewTimer(s, addr, when, delta, repeat)) && Owned(NewTimer(s, addr, when, delta, repeat))
  {
    assert Remaining(NewTimer(s, addr, when, delta, repeat)) == Remaining(s);
  }

  lemma NewKeepsNumbers(s: State, addr: nat, when: int, delta: nat, repeat: bool)
    requires Numbered(s) && addr !in s.heap && addr < UINTPTR_MAX
    ensures Numbered(NewTimer(s, addr, when, delta, repeat))
  {
  }

  lemma NewKeepsCancelled(s: State, addr: nat, when: int, delta: nat, repeat: bool)
    requires CancelledAreOut(s) && Numbered(s) && addr !in s.heap
    ensures CancelledAreOut(NewTimer(s, addr, when, delta, repeat))
  {
  }

  lemma NewKeepsInv(s: State, addr: nat, when: int, delta: nat, repeat: bool)
    requires Inv(s) && addr !in s.heap && addr < UINTPTR_MAX
    ensures Inv(NewTimer(s, addr, when, delta, repeat))
  {
    hide Indexed, Batched, Owned, Numbered, Conserved, CancelledAreOut;
    NewConserves(s, addr, when, delta, repeat);
    NewKeepsIndexes(s, addr, when, delta, repeat);
    NewKeepsOwned(s, addr, when, delta, repeat);
    NewKeepsNumbers(s, addr, when, delta, repeat);
    NewKeepsCancelled(s, addr, when, delta, repeat);
  }

  ghost predicate CanAdd(s: State, addr: nat) {
    addr in s.heap && IdAt(s.heap, addr) !in s.added && s.mode != Resetting
  }

  lemma InsertKeepsIndexes(s: State, addr: nat)
    requires Indexed(s) && addr in s.heap
    ensures Indexed(InsertTimer(s, addr))
  {
    var e := Entry(s.heap[addr].expiration, addr);
    InsertOrder(s.timers, e);
    InsertMembers(s.timers, e);
  }

  lemma AddKeepsIndexes(s: State, addr: nat)
    requires Indexed(s) && CanAdd(s, addr)
    ensures Indexed(AddInLoop(s, addr))
  {
    InsertKeepsIndexes(s, addr);
  }

  lemma AddKeepsHistory(s: State, addr: nat)
    requires Conserved(s) && LogOrdered(s.log)
    ensures Conserved(AddInLoop(s, addr)) && LogOrdered(AddInLoop(s, addr).log)
  {
    SameLive(s, AddInLoop(s, addr));
  }

  lemma AddKeepsOwned(s: State, addr: nat)
    requires Batched(s) && Owned(s) && CanAdd(s, addr)
    ensures Owned(AddInLoop(s, addr)) && Batched(AddInLoop(s, addr))
  {
    assert Remaining(AddInLoop(s, addr)) == Remaining(s);
  }

  lemma AddKeepsNumbers(s: State, addr: nat)
    requires Numbered(s) && CanAdd(s, addr)
    ensures Numbered(AddInLoop(s, addr))
  {
  }

  lemma AddKeepsArmed(s: State, addr: nat)
    requires Indexed(s) && ArmedWhenDue(s) && CanAdd(s, addr)
    ensures ArmedWhenDue(AddInLoop(s, addr))
  {
    InsertOrder(s.timers, Entry(s.heap[addr].expiration, addr));
    DelayExact(s.heap[addr].expiration, s.clock);
  }

  lemma AddKeepsCancelled(s: State, addr: nat)
    requires CancelledAreOut(s) && CanAdd(s, addr)
    ensures CancelledAreOut(AddInLoop(s, addr))
  {
  }

  lemma AddKeepsInv(s: State, addr: nat)
    requires Inv(s) && CanAdd(s, addr)
    ensures Inv(AddInLoop(s, addr))
  {
    hide Indexed, Batched, Owned, Numbered, Conserved, CancelledAreOut, LogOrdered, ArmedWhenDue, AddInLoop;
    AddKeepsIndexes(s, addr);
    AddKeepsOwned(s, addr);
    AddKeepsNumbers(s, addr);
    AddKeepsArmed(s, addr);
    AddKeepsCancelled(s, addr);
    AddKeepsHistory(s, addr);
  }

  lemma RunNextKeepsHistory(s: State)
    requires Batched(s) && Conserved(s) && LogOrdered(s.log) && s.mode == Calling && s.next < |s.expired|
    ensures var t := Step(s, RunNext); Conserved(t) && LogOrdered(t.log)
  {
    var t := Step(s, RunNext);
    SameLive(s, t);
    assert s.expired[s.next] in Remaining(s);
    assert Live(s, SequenceAt(s.heap, s.expired[s.next].addr));
    LogGrows(s.log, t.log[|s.log|]);
  }

  lemma RunNextKeepsOthers(s: State)
    requires Indexed(s) && Batched(s) && Owned(s) && Numbered(s) && CancelledAreOut(s) && ArmedWhenDue(s)
    requires s.mode == Calling && s.next < |s.expired|
    ensures var t := Step(s, RunNext);
            Indexed(t) && Batched(t) && Owned(t) && Numbered(t) && CancelledAreOut(t) && ArmedWhenDue(t)
  {
    RunNextKeepsIndexes(s);
    hide Indexed, Numbered, ArmedWhenDue, Ascending;
    assert Remaining(Step(s, RunNext)) == Remaining(s);
  }

  lemma RunNextKeepsIndexes(s: State)
    requires Indexed(s) && Numbered(s) && ArmedWhenDue(s) && s.mode == Calling && s.next < |s.expired|
    ensures var t := Step(s, RunNext); Indexed(t) && Numbered(t) && ArmedWhenDue(t)
  {
  }

  lemma RunNextKeepsInv(s: State)
    requires Inv(s) && s.mode == Calling && s.next < |s.expired|
    ensures Inv(Step(s, RunNext))
  {
    hide Indexed, Batched, Owned, Numbered, Conserved, CancelledAreOut, LogOrdered, ArmedWhenDue, Step;
    RunNextKeepsHistory(s);
    RunNextKeepsOthers(s);
  }

  lemma EndCallsKeepsInv(s: State)
    requires Inv(s) && s.mode == Calling && s.next == |s.expired|
    ensures Inv(Step(s, EndCalls))
  {
    EndCallsKeepsPlaces(s);
    EndCallsKeepsHistory(s);
    hide Indexed, Batched, Owned, Numbered, Conserved, ArmedWhenDue, CancelledAreOut;
  }

  lemma EndCallsKeepsPlaces(s: State)
    requires Indexed(s) && Batched(s) && Owned(s) && Numbered(s) && ArmedWhenDue(s)
    requires s.mode == Calling && s.next == |s.expired|
    ensures var t := Step(s, EndCalls); Indexed(t) && Batched(t) && Owned(t) && Numbered(t) && ArmedWhenDue(t)
  {
    hide Ascending;
    assert Remaining(Step(s, EndCalls)) == Remaining(s);
  }

  lemma EndCallsKeepsHistory(s: State)
    requires Conserved(s) && CancelledAreOut(s) && s.mode == Calling && s.next == |s.expired|
    ensures var t := Step(s, EndCalls); Conserved(t) && CancelledAreOut(t) && t.log == s.log
  {
    SameLive(s, Step(s, EndCalls));
    hide Live;
  }

  /** Deleting a live timer that neither index nor the batch refers to. */
  lemma DeleteKeeps(s: State, addr: nat)
    requires addr in s.heap && Numbered(s) && Conserved(s)
    ensures Numbered(Delete(s, addr)) && Conserved(Delete(s, addr))
  {
    DeleteKeepsLive(s, addr);
    var t, q := Delete(s, addr), s.heap[addr].sequence;
    assert 1 <= q <= s.created;
    assert forall n: nat :: Deleted(n) in t.log <==> Deleted(n) in s.log || n == q;
    assert Numbered(t);
    hide Live, Numbered;
  }

  lemma DeleteKeepsLive(s: State, addr: nat)
    requires addr in s.heap && Numbered(s)
    ensures forall n: nat :: Live(Delete(s, addr), n) <==> Live(s, n) && n != s.heap[addr].sequence
  {
    var t, q := Delete(s, addr), s.heap[addr].sequence;
    forall n: nat | Live(t, n) ensures Live(s, n) && n != q {
      var a :| a in t.heap && t.heap[a].sequence == n;
      assert a in s.heap && s.heap[a].sequence == n;
    }
    forall n: nat | Live(s, n) && n != q ensures Live(t, n) {
      var a :| a in s.heap && s.heap[a].sequence == n;
      assert a in t.heap && t.heap[a].sequence == n;
    }
  }

  lemma LogGrows(log: seq<LogEntry>, e: LogEntry)
    requires LogOrdered(log) && MayFollow(log, e)
    ensures LogOrdered(log + [e])
  {
    assert (log + [e])[..|log|] == log;
  }

  /** Most of the invariant looks neither at the log nor at the cancel set. */
  lemma PlacesKept(s: State, t: State)
    requires t == s.(log := t.log, canceling := t.canceling)
    ensures Indexed(s) ==> Indexed(t)
    ensures Batched(s) ==> Batched(t)
    ensures Owned(s) ==> Owned(t)
    ensures Numbered(s) ==> Numbered(t)
    ensures ArmedWhenDue(s) ==> ArmedWhenDue(t)
  {
    assert Remaining(t) == Remaining(s);
  }

  lemma CancelledConserves(s: State, n: nat)
    requires Conserved(s)
    ensures Conserved(s.(log := s.log + [Cancelled(n)]))
  {
    var t := s.(log := s.log + [Cancelled(n)]);
    SameLive(s, t);
    hide Live;
    assert forall m: nat :: Deleted(m) in t.log <==> Deleted(m) in s.log;
  }

  /** Recording a cancellation changes nothing else. */
  lemma LogCancelled(s: State, n: nat)
    requires Inv(s)
    ensures var t := s.(log := s.log + [Cancelled(n)]);
            Indexed(t) && Batched(t) && Owned(t) && Numbered(t) && Conserved(t) && LogOrdered(t.log) && ArmedWhenDue(t)
  {
    hide Indexed, Batched, Owned, Numbered, Conserved, ArmedWhenDue, CancelledAreOut;
    PlacesKept(s, s.(log := s.log + [Cancelled(n)]));
    CancelledConserves(s, n);
    LogGrows(s.log, Cancelled(n));
  }

  /** The part of cancelInLoop that unlinks an indexed timer. */
  function Unlink(s: State, id: ActiveTimer): State {
    s.(timers := Erase(s.timers, Entry(ExpirationAt(s.heap, id.addr), id.addr)), active := s.active - {id})
  }

  lemma UnlinkKeepsIndexes(s: State, id: ActiveTimer)
    requires Indexed(s) && ArmedWhenDue(s) && id in s.active
    ensures var t := Delete(Unlink(s, id), id.addr); Indexed(t) && ArmedWhenDue(t)
  {
    var e := Entry(s.heap[id.addr].expiration, id.addr);
    EraseOrder(s.timers, e);
    EraseMembers(s.timers, e);
    hide Ascending, Erase, Less;
  }

  lemma UnlinkKeepsOwnership(s: State, id: ActiveTimer)
    requires Indexed(s) && Batched(s) && Owned(s) && Numbered(s) && id in s.active
    ensures var t := Delete(Unlink(s, id), id.addr); Batched(t) && Owned(t)
  {
    UnlinkKeepsBatch(s, id);
    hide Batched;
    assert Remaining(Delete(Unlink(s, id), id.addr)) == Remaining(s);
  }

  lemma UnlinkKeepsBatch(s: State, id: ActiveTimer)
    requires Indexed(s) && Batched(s) && Numbered(s) && id in s.active
    ensures Batched(Delete(Unlink(s, id), id.addr))
  {
    assert Remaining(Delete(Unlink(s, id), id.addr)) == Remaining(s);
  }

  lemma UnlinkKeepsCancelled(s: State, id: ActiveTimer)
    requires Indexed(s) && Owned(s) && Numbered(s) && CancelledAreOut(s) && id in s.active
    ensures CancelledAreOut(Delete(Unlink(s.(log := s.log + [Cancelled(id.sequence)]), id), id.addr))
  {
    var t := Delete(Unlink(s.(log := s.log + [Cancelled(id.sequence)]), id), id.addr);
    assert IdAt(s.heap, id.addr) == id && 1 <= id.sequence <= s.created;
    assert forall n: nat :: Cancelled(n) in t.log <==> Cancelled(n) in s.log || n == id.sequence;
    hide Ascending, Erase, Owned;
    forall a | a in t.heap && Cancelled(t.heap[a].sequence) in t.log
      ensures IdAt(t.heap, a) in t.added - t.active && IdAt(t.heap, a) in t.canceling
    {
      assert a in s.heap && a != id.addr && t.heap[a] == s.heap[a] && IdAt(t.heap, a) == IdAt(s.heap, a);
    }
  }

  lemma UnlinkKeepsHistory(s: State, id: ActiveTimer)
    requires Indexed(s) && Numbered(s) && Conserved(s) && LogOrdered(s.log) && id in s.active
    ensures var t := Delete(Unlink(s, id), id.addr); Numbered(t) && Conserved(t) && LogOrdered(t.log)
  {
    DeleteKeeps(Unlink(s, id), id.addr);
    assert Live(s, id.sequence);
    LogGrows(s.log, Deleted(id.sequence));
  }

  lemma CancelActiveKeepsInv(s: State, id: ActiveTimer)
    requires Inv(s) && id in s.active && s.mode != Resetting
    ensures Inv(CancelInLoop(s, id))
  {
    assert id in s.added;
    hide Indexed, Batched, Owned, Numbered, Conserved, CancelledAreOut, ArmedWhenDue;
    var logged := s.(log := s.log + [Cancelled(id.sequence)]);
    LogCancelled(s, id.sequence);
    UnlinkKeepsIndexes(logged, id);
    UnlinkKeepsOwnership(logged, id);
    UnlinkKeepsCancelled(s, id);
    UnlinkKeepsHistory(logged, id);
  }

  lemma OtherKeepsCancelled(s: State, id: ActiveTimer)
    requires Indexed(s) && Batched(s) && Owned(s) && Numbered(s) && CancelledAreOut(s)
    requires id !in s.active && s.mode != Resetting
    ensures CancelledAreOut(CancelInLoop(s, id))
  {
    var t := CancelInLoop(s, id);
    forall a | a in t.heap && Cancelled(t.heap[a].sequence) in t.log
      ensures IdAt(t.heap, a) !in t.active && IdAt(t.heap, a) in t.canceling
    {
    }
  }

  lemma CancelOtherKeepsInv(s: State, id: ActiveTimer)
    requires Inv(s) && id !in s.active && s.mode != Resetting
    ensures Inv(CancelInLoop(s, id))
  {
    hide Indexed, Batched, Owned, Numbered, Conserved, ArmedWhenDue, CancelledAreOut;
    if id in s.added {
      LogCancelled(s, id.sequence);
    }
    OtherKeepsCancelled(s, id);
    var t := CancelInLoop(s, id);
    PlacesKept(s, t);
    CancelingConserves(s.(log := t.log), t);
  }

  lemma CancelingConserves(s: State, t: State)
    requires Conserved(s) && t == s.(canceling := t.canceling)
    ensures Conserved(t)
  {
    SameLive(s, t);
    hide Live;
  }

  lemma EndResetKeepsInv(s: State)
    requires Inv(s) && s.mode == Resetting && s.next == |s.expired|
    ensures Inv(Step(s, EndReset))
  {
    EndResetArms(s);
    EndResetKeepsPlaces(s);
    EndResetKeepsHistory(s);
    hide Indexed, Batched, Owned, Numbered, Conserved, ArmedWhenDue, LogOrdered, CancelledAreOut;
  }

  lemma EndResetArms(s: State)
    requires Indexed(s) && ArmedWhenDue(s) && s.mode == Resetting && s.next == |s.expired|
    ensures ArmedWhenDue(Step(s, EndReset))
  {
    hide Ascending, HowMuchTimeFromNow;
    if s.timers != [] {
      assert s.timers[0] in s.timers;
      DelayExact(s.timers[0].when, s.clock);
    }
  }

  lemma EndResetKeepsPlaces(s: State)
    requires Indexed(s) && Batched(s) && Owned(s) && Numbered(s) && s.mode == Resetting && s.next == |s.expired|
    ensures var t := Step(s, EndReset); Indexed(t) && Batched(t) && Owned(t) && Numbered(t)
  {
    hide HowMuchTimeFromNow;
    assert Remaining(Step(s, EndReset)) == Remaining(s) == [];
  }

  lemma EndResetKeepsHistory(s: State)
    requires Conserved(s) && CancelledAreOut(s) && s.mode == Resetting && s.next == |s.expired|
    ensures var t := Step(s, EndReset); Conserved(t) && CancelledAreOut(t) && t.log == s.log
  {
    hide HowMuchTimeFromNow;
    SameLive(s, Step(s, EndReset));
    hide Live;
  }


  // ---------------------------------------------------------------- getExpired

  lemma TakeSplits(s: State)
    requires Ascending(s.timers) && forall x | x in s.timers :: x.addr < UINTPTR_MAX
    ensures var t := TakeExpired(s);
            && s.timers == t.expired + t.timers
            && Ascending(t.expired) && Ascending(t.timers)
            && (forall e | e in t.expired :: e.when <= s.clock)
            && (forall e | e in t.timers :: e.when > s.clock)
  {
    hide LowerBound;
    SentrySplits(s.timers, s.clock);
    SlicesAscend(s.timers, LowerBound(s.timers, Entry(s.clock, UINTPTR_MAX)));
    hide Ascending;
    var t := TakeExpired(s);
    assert s.timers == t.expired + t.timers;
  }

  lemma SlicesAscend(timers: seq<Entry>, end: nat)
    requires Ascending(timers) && end <= |timers|
    ensures Ascending(timers[..end]) && Ascending(timers[end..])
  {
  }

  /** getExpired takes exactly the indexed timers with expiration at most `now`. */
  lemma ExpiredAreDue(s: State)
    requires Indexed(s) && Numbered(s)
    ensures var t := TakeExpired(s);
            && t.expired <= s.timers && s.timers == t.expired + t.timers
            && Ascending(t.expired) && Ascending(t.timers)
            && (forall e :: e in t.expired <==> e in s.timers && e.when <= s.clock)
            && (forall e :: e in t.timers <==> e in s.timers && e.when > s.clock)
  {
    TakeSplits(s);
    var t := TakeExpired(s);
    forall e ensures e in s.timers <==> e in t.expired || e in t.timers {
    }
  }

  lemma TakeKeepsIndexes(s: State)
    requires Indexed(s) && Numbered(s)
    ensures Indexed(TakeExpired(s))
  {
    ExpiredAreDue(s);
    var t := TakeExpired(s);
    forall e | e in t.timers ensures IdAt(t.heap, e.addr) in t.active {
      assert forall x | x in t.expired && IdAt(s.heap, x.addr) == IdAt(s.heap, e.addr) :: x == e;
    }
  }

  lemma TakeKeepsOwned(s: State)
    requires Indexed(s) && Owned(s) && Numbered(s) && s.mode == Idle
    ensures Batched(TakeExpired(s)) && Owned(TakeExpired(s))
  {
    ExpiredAreDue(s);
    var t := TakeExpired(s);
    assert Remaining(t) == t.expired;
    forall a | a in t.heap && IdAt(t.heap, a) in t.added
      ensures IdAt(t.heap, a) in t.active || Entry(t.heap[a].expiration, a) in Remaining(t)
    {
      if IdAt(s.heap, a) !in t.active {
        var x :| x in t.expired && IdAt(s.heap, x.addr) == IdAt(s.heap, a);
        assert x == Entry(s.heap[a].expiration, a);
      }
    }
  }

  lemma DueMayFollow(s: State)
    requires Indexed(s) && Numbered(s) && Owned(s) && Conserved(s) && CancelledAreOut(s)
    ensures MayFollow(s.log, Batch(Sequences(s.heap, TakeExpired(s).expired)))
  {
    var due := TakeExpired(s).expired;
    ExpiredAreDue(s);
    hide Ascending, TakeExpired;
    forall n | n in Sequences(s.heap, due) ensures Cancelled(n) !in s.log && Deleted(n) !in s.log {
      var i :| 0 <= i < |due| && n == SequenceAt(s.heap, due[i].addr);
      assert due[i] in due;
      assert Live(s, n);
    }
  }

  lemma TakeKeepsHistory(s: State)
    requires Conserved(s) && LogOrdered(s.log) && MayFollow(s.log, Batch(Sequences(s.heap, TakeExpired(s).expired)))
    ensures var t := TakeExpired(s); Conserved(t) && LogOrdered(t.log)
  {
    SameLive(s, TakeExpired(s));
    LogGrows(s.log, Batch(Sequences(s.heap, TakeExpired(s).expired)));
  }

  lemma TakeKeepsCancelled(s: State)
    requires Indexed(s) && Owned(s) && CancelledAreOut(s) && s.mode == Idle
    ensures CancelledAreOut(TakeExpired(s))
  {
    assert Remaining(s) == [];
  }

  lemma TakeKeepsArmed(s: State)
    requires Indexed(s) && Numbered(s) && ArmedWhenDue(s)
    ensures ArmedWhenDue(TakeExpired(s))
  {
    ExpiredAreDue(s);
    var t := TakeExpired(s);
    assert t.timers != [] ==> t.timers[0] in t.timers;
  }

  lemma BeginReadKeepsInv(s: State)
    requires Inv(s) && s.mode == Idle
    ensures Inv(TakeExpired(s))
  {
    hide Indexed, Batched, Owned, Conserved, CancelledAreOut, LogOrdered, ArmedWhenDue;
    TakeKeepsIndexes(s);
    TakeKeepsOwned(s);
    DueMayFollow(s);
    TakeKeepsHistory(s);
    TakeKeepsCancelled(s);
    TakeKeepsArmed(s);
  }

  // ---------------------------------------------------------------- reset

  ghost predicate CanReset(s: State) {
    s.mode == Resetting && s.next < |s.expired|
  }

  /** The next batch entry is live, and no later entry shares its address. */
  lemma NextInBatch(s: State)
    requires Batched(s) && CanReset(s)
    ensures var e := s.expired[s.next]; var rest := Remaining(s.(next := s.next + 1));
            && e in Remaining(s) && e.addr in s.heap
            && (forall x | x in rest :: x in Remaining(s) && x.addr != e.addr)
            && (forall x | x in Remaining(s) :: x == e || x in rest)
  {
    var e := s.expired[s.next];
    assert Remaining(s) == [e] + s.expired[s.next + 1..];
    forall x | x in s.expired[s.next + 1..] ensures x.addr != e.addr {
      var i :| s.next < i < |s.expired| && s.expired[i] == x;
      assert Less(e, x);
    }
  }

  ghost predicate Restarts(s: State) {
    CanReset(s)
    && var a := s.expired[s.next].addr;
    a in s.heap && s.heap[a].repeat && IdAt(s.heap, a) !in s.canceling
  }

  lemma RestartKeepsIndexes(s: State)
    requires Indexed(s) && Batched(s) && Restarts(s)
    ensures Indexed(RestartNext(s))
  {
    NextInBatch(s);
    var a := s.expired[s.next].addr;
    var restarted := s.(next := s.next + 1, heap := s.heap[a := Restart(s.heap[a], s.now)]);
    assert Indexed(restarted);
    InsertKeepsIndexes(restarted, a);
  }

  lemma RestartKeepsBatch(s: State)
    requires Batched(s) && Restarts(s)
    ensures Batched(RestartNext(s))
  {
    hide Insert;
    NextInBatch(s);
    assert Remaining(RestartNext(s)) == Remaining(s.(next := s.next + 1));
  }

  lemma RestartKeepsOwned(s: State)
    requires Batched(s) && Owned(s) && Restarts(s)
    ensures Owned(RestartNext(s))
  {
    NextInBatch(s);
    var t, rest := RestartNext(s), Remaining(s.(next := s.next + 1));
    var next := s.expired[s.next];
    assert Remaining(t) == rest && t.added == s.added;
    assert IdAt(t.heap, next.addr) == IdAt(s.heap, next.addr) && IdAt(s.heap, next.addr) in s.added;
    hide Remaining, Ascending, Insert;
    forall a | a in t.heap && IdAt(t.heap, a) in t.added
      ensures IdAt(t.heap, a) in t.active || Entry(t.heap[a].expiration, a) in rest
    {
      if a != next.addr {
        assert t.heap[a] == s.heap[a] && IdAt(t.heap, a) == IdAt(s.heap, a);
      }
    }
  }

  lemma RestartKeepsHistory(s: State)
    requires Numbered(s) && Conserved(s) && Restarts(s)
    ensures Numbered(RestartNext(s)) && Conserved(RestartNext(s))
  {
    var t := RestartNext(s);
    forall n | Live(s, n) ensures Live(t, n) {
      var a :| a in s.heap && s.heap[a].sequence == n;
      assert a in t.heap && t.heap[a].sequence == n;
    }
    forall n | Live(t, n) ensures Live(s, n) {
      var a :| a in t.heap && t.heap[a].sequence == n;
      assert a in s.heap && s.heap[a].sequence == n;
    }
  }

  lemma RestartKeepsCancelled(s: State)
    requires Numbered(s) && CancelledAreOut(s) && Restarts(s)
    ensures CancelledAreOut(RestartNext(s)) && RestartNext(s).log == s.log
  {
  }

  /** A restarted timer lies after `now`, which is positive, so it cannot be the unarmed front. */
  lemma RestartKeepsArmed(s: State)
    requires ArmedWhenDue(s) && Ascending(s.timers) && Restarts(s)
    ensures ArmedWhenDue(RestartNext(s))
  {
    var a := s.expired[s.next].addr;
    InsertOrder(s.timers, Entry(s.now + s.heap[a].delta, a));
  }

  lemma RestartKeepsInv(s: State)
    requires Inv(s) && Restarts(s)
    ensures Inv(RestartNext(s))
  {
    assert Ascending(s.timers);
    hide Indexed, Batched, Owned, Numbered, Conserved, CancelledAreOut, LogOrdered, ArmedWhenDue;
    RestartKeepsIndexes(s);
    RestartKeepsBatch(s);
    RestartKeepsOwned(s);
    RestartKeepsHistory(s);
    RestartKeepsCancelled(s);
    RestartKeepsArmed(s);
  }

  lemma DropKeepsIndexes(s: State)
    requires Indexed(s) && Batched(s) && CanReset(s)
    ensures Indexed(DropNext(s))
  {
    NextInBatch(s);
  }

  lemma DropKeepsBatch(s: State)
    requires Batched(s) && CanReset(s)
    ensures Batched(DropNext(s))
  {
    NextInBatch(s);
    var t, rest := DropNext(s), Remaining(s.(next := s.next + 1));
    assert Remaining(t) == rest && t.expired == s.expired && t.active == s.active && t.added == s.added;
    hide Remaining, Ascending;
    forall e | e in rest
      ensures e.addr in t.heap && t.heap[e.addr].expiration == e.when
              && IdAt(t.heap, e.addr) in t.added && IdAt(t.heap, e.addr) !in t.active
    {
      assert e in Remaining(s) && t.heap[e.addr] == s.heap[e.addr];
      assert IdAt(t.heap, e.addr) == IdAt(s.heap, e.addr);
    }
  }

  lemma DropKeepsOwned(s: State)
    requires Batched(s) && Owned(s) && CanReset(s)
    ensures Owned(DropNext(s))
  {
    NextInBatch(s);
    assert Remaining(DropNext(s)) == Remaining(s.(next := s.next + 1));
  }

  lemma DropKeepsHistory(s: State)
    requires Batched(s) && Numbered(s) && Conserved(s) && LogOrdered(s.log) && CanReset(s)
    ensures var t := DropNext(s); Numbered(t) && Conserved(t) && LogOrdered(t.log)
  {
    hide Batched, Remaining, Numbered, Conserved, Live;
    NextInBatch(s);
    var a, next := s.expired[s.next].addr, s.(next := s.next + 1);
    LiveNotDeleted(s, a);
    LogGrows(s.log, Deleted(s.heap[a].sequence));
    MovedOn(s, next);
    DeleteKeeps(next, a);
    assert DropNext(s).log == s.log + [Deleted(s.heap[a].sequence)];
  }

  lemma LiveNotDeleted(s: State, a: nat)
    requires Conserved(s) && a in s.heap
    ensures Deleted(s.heap[a].sequence) !in s.log
  {
    assert Live(s, s.heap[a].sequence);
  }

  lemma MovedOn(s: State, t: State)
    requires t == s.(next := t.next)
    ensures Numbered(s) ==> Numbered(t)
    ensures Conserved(s) ==> Conserved(t)
  {
    SameLive(s, t);
    hide Live;
  }

  lemma DropKeepsCancelled(s: State)
    requires CancelledAreOut(s) && CanReset(s) && ArmedWhenDue(s)
    ensures CancelledAreOut(DropNext(s)) && ArmedWhenDue(DropNext(s))
  {
  }

  lemma DropKeepsInv(s: State)
    requires Inv(s) && CanReset(s)
    ensures Inv(DropNext(s))
  {
    hide Indexed, Batched, Owned, Numbered, Conserved, CancelledAreOut, LogOrdered, ArmedWhenDue;
    DropKeepsIndexes(s);
    DropKeepsBatch(s);
    DropKeepsOwned(s);
    DropKeepsHistory(s);
    DropKeepsCancelled(s);
  }

  lemma ResetOneKeepsInv(s: State)
    requires Inv(s) && CanReset(s)
    ensures Inv(ResetOne(s))
  {
    hide Inv;
    if Restarts(s) {
      RestartKeepsInv(s);
    } else {
      DropKeepsInv(s);
    }
  }

  // ---------------------------------------------------------------- whole runs

  lemma ActionKeepsInv(s: State, e: Event)
    requires Inv(s) && (e.Tick? || e.New? || e.Add? || e.Cancel?)
    ensures Inv(Step(s, e))
  {
    hide Inv;
    match e
    case Tick(d) => TickKeepsInv(s, d);
    case New(addr, when, delta, repeat) =>
      if addr !in s.heap && addr < UINTPTR_MAX { NewKeepsInv(s, addr, when, delta, repeat); }
    case Add(addr) =>
      if CanAdd(s, addr) { AddKeepsInv(s, addr); }
    case Cancel(id) =>
      if s.mode != Resetting {
        if id in s.active { CancelActiveKeepsInv(s, id); } else { CancelOtherKeepsInv(s, id); }
      }
  }

  lemma StepKeepsInv(s: State, e: Event)
    requires Inv(s)
    ensures Inv(Step(s, e))
  {
    hide Inv;
    match e
    case BeginRead => if s.mode == Idle { BeginReadKeepsInv(s); }
    case RunNext => if s.mode == Calling && s.next < |s.expired| { RunNextKeepsInv(s); }
    case EndCalls => if s.mode == Calling && s.next == |s.expired| { EndCallsKeepsInv(s); }
    case ResetNext => if CanReset(s) { ResetOneKeepsInv(s); }
    case EndReset => if s.mode == Resetting && s.next == |s.expired| { EndResetKeepsInv(s); }
    case _ => ActionKeepsInv(s, e);
  }

  /** Every reachable state of the timer queue satisfies the invariant. */
  lemma {:induction false} RunKeepsInv(s: State, events: seq<Event>)
    requires Inv(s)
    ensures Inv(Run(s, events))
    decreases |events|
  {
    hide Inv;
    if events != [] {
      StepKeepsInv(s, events[0]);
      RunKeepsInv(Step(s, events[0]), events[1..]);
    }
  }
}
