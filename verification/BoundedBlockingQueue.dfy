/**
 BoundedBlockingQueue.h in its own form, over the circular buffer. `put` and `take` are the calling thread's;
 what the others do while it waits is given, and each call is a run of the monitor.
 */
module BoundedBlockingQueues {
  import opened CircularBuffers
  import opened QueueMonitor

  /** A step in which thread `tid` itself does nothing. */
  predicate IsOther<T>(e: Event<T>, tid: Tid) {
    match e
    case PutPass(t, _, _) => t != tid
    case TakePass(t, _) => t != tid
    case Spurious(_) => true
  }

  class BoundedBlockingQueue<T(0)> {
    const queue: CircularBuffer<T>

    // The threads asleep on, or just woken from, each condition, and what the waiting putters carry.
    var takers: set<Tid>
    var wokenTakers: set<Tid>
    var putters: set<Tid>
    var wokenPutters: set<Tid>
    var args: map<Tid, T>

    ghost var puts: seq<T>
    ghost var takes: seq<T>

    ghost predicate Valid()
      reads this, queue, queue.buffer
    {
      queue.Valid() && Inv(Model())
    }

    ghost function Model(): State<T>
      reads this, queue, queue.buffer
      requires queue.Valid()
    {
      State(queue.capacity, queue.Contents(), takers, wokenTakers, putters, wokenPutters, args, puts, takes)
    }

    constructor (maxSize: nat)
      requires maxSize >= 1
      ensures Valid() && Model() == Init(maxSize)
      ensures fresh(queue) && fresh(queue.buffer)
    {
      queue := new CircularBuffer<T>(maxSize);
      takers, wokenTakers, putters, wokenPutters, args := {}, {}, {}, {}, map[];
      puts, takes := [], [];
    }

    /** A signal on notEmpty_ wakes some one sleeper, if there is any. */
    method NotifyNotEmpty() returns (ghost wake: set<Tid>)
      modifies this`takers, this`wokenTakers
      ensures CanWake(wake, old(takers)) && takers == old(takers) - wake && wokenTakers == old(wokenTakers) + wake
    {
      wake := {};
      if takers != {} {
        var t :| t in takers;
        takers, wokenTakers := takers - {t}, wokenTakers + {t};
        wake := {t};
      }
    }

    method NotifyNotFull() returns (ghost wake: set<Tid>)
      modifies this`putters, this`wokenPutters
      ensures CanWake(wake, old(putters)) && putters == old(putters) - wake && wokenPutters == old(wokenPutters) + wake
    {
      wake := {};
      if putters != {} {
        var t :| t in putters;
        putters, wokenPutters := putters - {t}, wokenPutters + {t};
        wake := {t};
      }
    }

    /** One pass of `put` through the mutex; signalling wakes some one sleeper, if there is any. */
    method PutOnce(tid: Tid, x: T) returns (done: bool, ghost wake: set<Tid>)
      requires Valid() && tid !in putters + takers + wokenTakers
      modifies this, queue, queue.buffer
      ensures Valid() && queue.buffer == old(queue.buffer)
      ensures Model() == Step(old(Model()), PutPass(tid, x, wake))
      ensures done == !Full(old(Model()))
      ensures if done then puts == old(puts) + [Carried(old(Model()), tid, x)]
              else puts == old(puts) && tid in putters && tid in args && args[tid] == Carried(old(Model()), tid, x)
      ensures takers + wokenTakers == old(takers + wokenTakers)
      ensures forall t | t != tid :: t in putters + wokenPutters <==> t in old(putters + wokenPutters)
      ensures forall t | t != tid && t in old(args) :: t in args && args[t] == old(args)[t]
    {
      hide Inv;
      ghost var before := Model();
      var item := if tid in wokenPutters && tid in args then args[tid] else x;
      wake := {};
      queue.SizeExact();
      if queue.Full() {
        putters, wokenPutters, args := putters + {tid}, wokenPutters - {tid}, args[tid := item];
        done := false;
      } else {
        done := queue.PushBack(item);
        puts := puts + [item];
        wokenPutters := wokenPutters - {tid};
        wake := NotifyNotEmpty();
      }
      StepKeepsInv(before, PutPass(tid, x, wake));
    }

    /** One pass of `take` through the mutex. */
    method TakeOnce(tid: Tid) returns (done: bool, item: T, ghost wake: set<Tid>)
      requires Valid() && tid !in takers + putters + wokenPutters
      modifies this, queue, queue.buffer
      ensures Valid() && queue.buffer == old(queue.buffer)
      ensures Model() == Step(old(Model()), TakePass(tid, wake))
      ensures done == (old(queue.Contents()) != [])
      ensures if done then takes == old(takes) + [item] && item == old(queue.Contents())[0]
              else takes == old(takes) && tid in takers
      ensures putters + wokenPutters == old(putters + wokenPutters) && args == old(args)
      ensures forall t | t != tid :: t in takers + wokenTakers <==> t in old(takers + wokenTakers)
    {
      hide Inv;
      ghost var before := Model();
      wake := {};
      queue.SizeExact();
      item := queue.Front();
      if queue.Empty() {
        takers, wokenTakers := takers + {tid}, wokenTakers - {tid};
        done := false;
      } else {
        queue.PopFront();
        takes := takes + [item];
        wokenTakers := wokenTakers - {tid};
        done := true;
        wake := NotifyNotFull();
      }
      StepKeepsInv(before, TakePass(tid, wake));
    }

    /** A step of some other thread than `tid`; whom it signals is decided here, not by `e`. */
    method Other(e: Event<T>, tid: Tid) returns (ghost actual: Event<T>)
      requires Valid() && IsOther(e, tid)
      modifies this, queue, queue.buffer
      ensures Valid() && queue.buffer == old(queue.buffer)
      ensures Model() == Step(old(Model()), actual)
      ensures tid in putters + wokenPutters <==> tid in old(putters + wokenPutters)
      ensures tid in takers + wokenTakers <==> tid in old(takers + wokenTakers)
      ensures tid in old(args) ==> tid in args && args[tid] == old(args)[tid]
    {
      hide Inv;
      actual := e;
      match e
      case PutPass(t, x, _) =>
        if t !in putters + takers + wokenTakers {
          var _, wake' := PutOnce(t, x);
          actual := PutPass(t, x, wake');
        }
      case TakePass(t, _) =>
        if t !in takers + putters + wokenPutters {
          var _, _, wake' := TakeOnce(t);
          actual := TakePass(t, wake');
        }
      case Spurious(t) =>
        StepKeepsInv(Model(), e);
        if t in takers {
          takers, wokenTakers := takers - {t}, wokenTakers + {t};
        } else if t in putters {
          putters, wokenPutters := putters - {t}, wokenPutters + {t};
        }
    }

    method Others(events: seq<Event<T>>, tid: Tid) returns (ghost trace: seq<Event<T>>)
      requires Valid() && forall e | e in events :: IsOther(e, tid)
      modifies this, queue, queue.buffer
      ensures Valid() && queue.buffer == old(queue.buffer) && Model() == Run(old(Model()), trace)
      ensures tid in putters + wokenPutters <==> tid in old(putters + wokenPutters)
      ensures tid in takers + wokenTakers <==> tid in old(takers + wokenTakers)
      ensures tid in old(args) ==> tid in args && args[tid] == old(args)[tid]
    {
      hide Inv, Step;
      ghost var before := Model();
      trace := [];
      for k := 0 to |events|
        invariant Valid() && queue.buffer == old(queue.buffer) && Model() == Run(before, trace)
        invariant tid in putters + wokenPutters <==> tid in before.putters + before.wokenPutters
        invariant tid in takers + wokenTakers <==> tid in before.takers + before.wokenTakers
        invariant tid in before.args ==> tid in args && args[tid] == before.args[tid]
      {
        ghost var actual := Other(events[k], tid);
        RunSnoc(before, trace, actual);
        trace := trace + [actual];
      }
    }

    /**
     `put`: waits while the queue is full, then pushes and signals. `others[k]` is what the other threads do
     during the k-th wait; if they never leave room, the call has not returned when they run out.
     */
    method Put(tid: Tid, x: T, others: seq<seq<Event<T>>>) returns (done: bool, ghost trace: seq<Event<T>>)
      requires Valid() && tid !in putters + wokenPutters + takers + wokenTakers
      requires forall k, e | 0 <= k < |others| && e in others[k] :: IsOther(e, tid)
      modifies this, queue, queue.buffer
      ensures Valid() && Model() == Run(old(Model()), trace)
      ensures if done then puts != [] && puts[|puts| - 1] == x
              else tid in putters + wokenPutters && tid in args && args[tid] == x
      ensures !Full(old(Model())) ==> done && puts == old(puts) + [x]
    {
      hide Inv, Step;
      ghost var before := Model();
      ghost var wake;
      done, wake := PutOnce(tid, x);
      RunSnoc(before, [], PutPass(tid, x, wake));
      trace := [PutPass(tid, x, wake)];
      assert [] + trace == trace;
      var k := 0;
      while !done && k < |others|
        invariant Valid() && queue.buffer == old(queue.buffer) && Model() == Run(before, trace)
        invariant !done ==> tid in putters + wokenPutters && tid in args && args[tid] == x
        invariant !done ==> tid !in takers + wokenTakers
        invariant done ==> puts != [] && puts[|puts| - 1] == x
        invariant !Full(before) ==> done && puts == before.puts + [x]
        decreases !done, |others| - k
      {
        ghost var more := Others(others[k], tid);
        RunAppend(before, trace, more);
        trace := trace + more;
        k := k + 1;
        if tid !in putters {
          done, wake := PutOnce(tid, x);
          RunSnoc(before, trace, PutPass(tid, x, wake));
          trace := trace + [PutPass(tid, x, wake)];
        }
      }
    }

    /** `take`: waits while the queue is empty, then pops and signals. */
    method Take(tid: Tid, others: seq<seq<Event<T>>>) returns (done: bool, item: T, ghost trace: seq<Event<T>>)
      requires Valid() && tid !in putters + wokenPutters + takers + wokenTakers
      requires forall k, e | 0 <= k < |others| && e in others[k] :: IsOther(e, tid)
      modifies this, queue, queue.buffer
      ensures Valid() && Model() == Run(old(Model()), trace)
      ensures if done then takes != [] && takes[|takes| - 1] == item else tid in takers + wokenTakers
      ensures old(queue.Contents()) != [] ==>
                done && item == old(queue.Contents())[0] && takes == old(takes) + [item]
    {
      hide Inv, Step;
      ghost var before := Model();
      ghost var wake;
      done, item, wake := TakeOnce(tid);
      RunSnoc(before, [], TakePass(tid, wake));
      trace := [TakePass(tid, wake)];
      assert [] + trace == trace;
      var k := 0;
      while !done && k < |others|
        invariant Valid() && queue.buffer == old(queue.buffer) && Model() == Run(before, trace)
        invariant !done ==> tid in takers + wokenTakers && tid !in putters + wokenPutters
        invariant done ==> takes != [] && takes[|takes| - 1] == item
        invariant before.queue != [] ==> done && item == before.queue[0] && takes == before.takes + [item]
        decreases !done, |others| - k
      {
        ghost var more := Others(others[k], tid);
        RunAppend(before, trace, more);
        trace := trace + more;
        k := k + 1;
        if tid !in takers {
          done, item, wake := TakeOnce(tid);
          RunSnoc(before, trace, TakePass(tid, wake));
          trace := trace + [TakePass(tid, wake)];
        }
      }
    }
  }
}
