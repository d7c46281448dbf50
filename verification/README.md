# A verified model of the muduo re-implementation

The repository is a C++ network library in the reactor style: an event loop per thread that polls channels, runs
timers and executes functors handed to it by other threads; TCP connections built on it; and a base layer with a
thread pool, a bounded blocking queue, calendar and time-zone arithmetic, and a logging stream.

This project models its hardest parts and proves what they keep over whole runs.

- **Timers** (`TimerSet`, `TimerMachine`, `TimerSafety`, `TimerTheorems`, `TimerRequests`, `TimerDeadlines`,
  `TimerQueue`, `TimerCalls`): the two indexes over the same owned timers, the cancel set, re-entrant callbacks, what a
  request for a timer brings about, and the timerfd.
- **Event loop** (`EventLoopMachine`, `EventLoopTheorems`, `EventLoopCalls`, `EventLoop`): the queue swap, the eventfd
  and quit, under interleaving with any number of threads.
- **Pollers** (`PollerMachine`, `Poller`): the poll array with its swap-removal, the epoll states against the
  kernel's set, and when the two agree.
- **Connections** (`ConnectionNames`, `TcpMachine`, `TcpSafety`, `TcpTheorems`, `TcpServer`): from accept to
  connectDestroyed, with deferred destruction.
- **Monitors** (`CircularBuffer`, `QueueMonitor`, `BoundedBlockingQueue`, `PoolMonitor`, `ThreadPool`): sleeping,
  waking, spurious wakeups and barging for any number of threads.
- **Time and numbers** (`Date`, `UtcTime`, `TimeZone`, `Digits`, `LogStream`).

Most parts come twice. A *machine* is a state and a total step function, where a step that is not enabled does
nothing; the theorems speak of all its runs. A *class* has the source's fields and methods, and each method is
proved to take the machine's state through the step, or the run, that the source's code amounts to; the run is a
ghost result. User callbacks are arbitrary finite scripts, other threads are arbitrary steps between the accesses
of the thread at hand, and the kernel is a counter, a deadline or a map. Preconditions of the methods are the
source's asserts and the agreement of the objects' fields with one another.

Where the code falls short of what one would expect of it, the exact condition is proved:

- A functor the loop thread queues before `loop()` is not announced by a wakeup, and a `quit` is forgotten exactly when
  it comes before.
- The pollers differ on channels that are updated after being disabled; PollPoller fails an assert on a channel that
  comes back after its removal, and on the removal of one that was registered with no interest and never disabled.
- `disableWriting` keeps write interest and drops reading.
- A bounded queue of capacity 1 holds nothing and its producers and consumers wait for each other for ever.
- A hang-up without data that comes with urgent data (PRI), with end-of-file, closes a connection twice and fails an
  assert.
- Connection names repeat once host, port and number no longer fit a 32-byte buffer, and an earlier connection then
  loses its owner while still registered.
- `weekDay` is wrong before 23 November 4714 BC except on Sundays; `tm_yday` is one short in 4801 BC.
- Local time converts back from a repeated hour exactly when the set-back is the ordinary one.

## Model

| member | source | states |
|---|---|---|
| TimerMachine.DelayExact | net/TimerQueue.cpp:40-54 | The timespec for an expiration is one timerfd_settime accepts, never zero, and stands for exactly max(when - now, 100) microseconds. |
| TimerSet.SentrySplits | net/TimerQueue.cpp:200-205 | lower_bound of (now, UINTPTR_MAX) splits the ordered set exactly between expirations at most and after now. |
| TimerSet.InsertMembers | net/TimerQueue.cpp:273-278 | Inserting into the ordered set adds the one entry and keeps every other. |
| TimerSafety.StepKeepsInv | net/TimerQueue.cpp:136-288 | Every step of the queue (add, cancel, collecting, each callback, each restart or deletion, re-arming, time passing, other threads constructing timers) keeps index agreement, ownership, numbering, cancellation and arming together. |
| TimerSafety.RunKeepsInv | net/TimerQueue.cpp:136-288 | So every run keeps them, with callbacks that add and cancel re-entrantly. |
| TimerSafety.ExpiredAreDue | net/TimerQueue.cpp:196-222 | getExpired takes exactly the entries with expiration at most now, in order, and leaves exactly the rest. |
| TimerTheorems.IndexesAgree | net/TimerQueue.cpp:260-288 | In every reachable state (w, t) is in `timers_` if and only if (t, sequence of t) is in `activeTimers_` with w the expiration of t. |
| TimerTheorems.SizesAgree | net/TimerQueue.cpp:152 | The two sets have the same size, as every assert on them demands. |
| TimerTheorems.TimersConserved | net/TimerQueue.cpp:158-161 | Each timer ever constructed is either live or deleted, and no other number is either; a live one has one address and, once added, is either indexed or in the batch being processed, not both. |
| TimerTheorems.DeletedForGood | net/TimerQueue.cpp:241-244 | After a timer is deleted it is never run, collected or deleted again. |
| TimerTheorems.CancelIsFinal | net/TimerQueue.cpp:149-169 | Once a cancel has run after the timer's add, no later expired batch contains the timer, in any continuation, whether or not the cancel came from a callback. |
| TimerCalls.QueuedCancelIsFinal | net/TimerQueue.cpp:116-134 | Across threads: a timer is constructed, its add queued to the loop, and later its cancel; once the loop has executed that cancel, no batch collected afterwards contains the timer, in whatever way the queued calls, direct calls and handleRead mix. |
| TimerTheorems.CancelTouchesNoOther | net/TimerQueue.cpp:153-167 | A cancel leaves every timer with another (address, sequence) untouched in the heap, both indexes, the cancel set and the batch. |
| TimerTheorems.StaleCancelDoesNothing | net/TimerQueue.cpp:155-156 | A stale id, even one whose address has been reused, finds nothing and changes neither heap, indexes nor timerfd. |
| TimerTheorems.NoTimerIsForgotten | net/TimerQueue.cpp:247-257 | Outside handleRead with timers queued, the timerfd is set, for a moment after it was armed, no later than max(earliest expiration, arming time + 100 us), for every mix of inserts, cancels, fires and expirations at or before the epoch. |
| TimerDeadlines.DeadlineExactly | net/TimerQueue.cpp:136-147 | Step by step: the timerfd is set only by an add that comes first and by the end of a reset with timers left, then for exactly max(earliest expiration, now + 100 us); reading it disarms it if it had fired; nothing else touches it. |
| TimerDeadlines.DeadlineIsForEarliest | net/TimerQueue.cpp:247-257 | In every state of every run, a deadline that is set equals max(w, t + 100 us), where t is when it was last set and w the expiration that was the earliest then, and has not changed since. |
| TimerDeadlines.FiredFindsItsTimer | net/TimerQueue.cpp:171-178 | When the timerfd has fired, the timer it was set for is queued and due, so handleRead has it to run, unless that timer was cancelled or a handleRead that the timerfd had not caused took it. |
| TimerRequests.RunsWhenAsked | net/Timer.h:23-29 | A timer constructed for `when`, once added and as long as it is not cancelled, is in no batch collected at a time before `when` and in the first one collected at or after it, in every run. |
| TimerRequests.RepeatsAsAsked | net/Timer.h:26-27 | The handleRead that collects it runs it; if it was asked to repeat and has not been cancelled it then stands for that time plus the interval asked for, otherwise it is deleted. |
| TimerRequests.FirstCollected | net/TimerQueue.cpp:196-222 | From any moment at which a timer stands for a time, so after each restart too: the first handleRead at or after that time collects it and no earlier one does. |
| TimerRequests.RunsAgainAfterDelta | net/TimerQueue.cpp:228-238 | Each period of a repeating timer ends with the timer standing for the next one. |
| TimerRequests.RunKeepsStanding | net/TimerQueue.cpp:136-258 | Until it is cancelled or collected, no step of any run alters a timer or takes it out of the queue. |
| TimerTheorems.ExpiryIsExact | net/TimerQueue.cpp:171-193 | One handleRead, whatever callbacks and other threads do, runs exactly the timers due, each once, in expiration order; then uncancelled repeating ones are indexed at now + interval, the others are deleted, and timers that were not due are as they were unless cancelled. |
| TimerTheorems.DueExactly | net/TimerQueue.cpp:204-209 | The batch run is ordered and holds exactly the entries due. |
| TimerQueues.TimerQueue.ResetTimerfd | net/TimerQueue.cpp:69-82 | Sets the timerfd for max(expiration, now + 100 us). |
| TimerQueues.TimerQueue.ReadTimerfd | net/TimerQueue.cpp:57-66 | Takes the timerfd's expirations: it is disarmed if it had fired and stays armed on a spurious call. |
| TimerQueues.TimerQueue.Insert | net/TimerQueue.cpp:260-288 | Adds one entry to each index in place and reports whether it is now the earliest. |
| TimerQueues.TimerQueue.AddTimerInLoop | net/TimerQueue.cpp:136-147 | In place, exactly the machine's add: both indexes, and re-arming only for a new earliest timer. |
| TimerQueues.TimerQueue.CancelInLoop | net/TimerQueue.cpp:149-169 | In place, exactly the machine's cancel: erased from both indexes and deleted, or put in the cancel set while callbacks run. |
| TimerQueues.TimerQueue.GetExpired | net/TimerQueue.cpp:196-222 | Moves exactly the due entries out of both indexes. |
| TimerQueues.TimerQueue.Construct | net/Timer.h:23-29 | A new timer has the expiration, interval and repetition asked for and the next sequence number; the other timers are as they were. |
| TimerQueues.TimerQueue.ResetTimer | net/TimerQueue.cpp:228-245 | One turn of reset: an uncancelled repeating timer is restarted and re-inserted, any other deleted. |
| TimerQueues.TimerQueue.SetNextExpire | net/TimerQueue.cpp:247-257 | The end of reset re-arms for the earliest timer when that time is valid. |
| TimerQueues.TimerQueue.Reset | net/TimerQueue.cpp:224-258 | The whole of reset is the machine's run of those turns. |
| TimerQueues.TimerQueue.CallTimers | net/TimerQueue.cpp:183-188 | The callback loop runs every collected timer in order, each callback an arbitrary script of adds and cancels. |
| TimerQueues.TimerQueue.HandleRead | net/TimerQueue.cpp:171-193 | The whole callback is a run of the machine from and to idle, and its result is exact in the sense of ExpiryIsExact. |
| EventLoopTheorems.NoLostWakeup | net/EventLoop.cpp:84-158 | When the loop thread is about to block in poll with functors queued or `quit_` set, the eventfd is positive or another thread is between its push (or its flag) and its wakeup, in every interleaving of any number of threads, provided the loop thread queued nothing before loop(). |
| EventLoopTheorems.LostExactlyWhenEarly | net/EventLoop.cpp:154-157 | At any poll, work waits with nobody to announce it if and only if no batch has been taken yet, everything that waits was queued by the loop thread (so before loop()), and no other thread has asked to quit. |
| EventLoopTheorems.EarlyPushIsLost | net/EventLoop.cpp:154-157 | A concrete run in which that happens. |
| EventLoopTheorems.EarlyQuitIsForgotten | net/EventLoop.cpp:89 | A quit before loop() is cleared and the loop polls. |
| EventLoopTheorems.QuitIsHonoured | net/EventLoop.cpp:93-113 | A quit requested once loop() has started: whatever follows, the flag stays set, the loop does not go back to poll, takes at most one more batch, and leaves at its next test. |
| EventLoopTheorems.QuitKeptExactly | net/EventLoop.cpp:89 | A requested quit is kept in every continuation if and only if loop() has started. |
| EventLoopCalls.QuitSetExactly | net/EventLoop.cpp:84-127 | At any point after loop() has started, the flag is set if and only if some thread has called quit since; and loop() ends only then. |
| EventLoopCalls.QuitCallEndsLoop | net/EventLoop.cpp:120-127 | A call of quit after the start, by any thread: in every continuation the flag stays set, the loop once out of poll does not go back to it, and its next test ends it. |
| EventLoopCalls.QuitFromOutside | net/EventLoop.cpp:120-127 | A concrete run: another thread's quit wakes the loop from poll, and the loop ends. |
| EventLoopCalls.QueuedExactly | net/EventLoop.cpp:144-158 | The functor given to queueInLoop, and nothing else, goes to the end of the pending queue; only queueInLoop puts anything there; other threads, and the loop thread while it runs functors, then owe a wakeup. |
| EventLoopCalls.PollReportsExactly | net/EventLoop.cpp:96 | poll reports the wakeup channel exactly when the eventfd's counter is positive. |
| EventLoopCalls.WakeupIsConsumed | net/EventLoop.cpp:219-228 | After the eventfd has been read, poll reports it again only if a wakeup has been written since. |
| EventLoopTheorems.NextSwapTakesAll | net/EventLoop.cpp:235-238 | Until the next swap the pending queue only grows, so that swap takes everything waiting now. |
| EventLoopTheorems.FunctorsConserved | net/EventLoop.cpp:230-245 | What was queued equals what ran, then the rest of the batch, then what is pending, in order; so each thread's functors run in its order. |
| EventLoopTheorems.QueuedRunsLater | net/EventLoop.cpp:240-243 | A functor runs in a later batch than every batch taken before it was queued, so never in the batch that queued it. |
| EventLoopTheorems.BatchRunsExactly | net/EventLoop.cpp:240-243 | When doPendingFunctors ends it has run exactly the batch it took. |
| EventLoopTheorems.BatchShrinks | net/EventLoop.cpp:240-244 | No step lengthens the batch and each functor shortens what is left, so one doPendingFunctors ends under endless re-queueing. |
| EventLoops.EventLoop.QueueInLoop | net/EventLoop.cpp:144-158 | The loop thread's queueInLoop is the machine's push, with a wakeup only from a running functor. |
| EventLoops.EventLoop.WriteWakeup | net/EventLoop.cpp:208-217 | The eventfd's counter goes up by one. |
| EventLoops.EventLoop.HandleRead | net/EventLoop.cpp:219-228 | Reading the eventfd takes its whole count. |
| EventLoops.EventLoop.SwapFunctors | net/EventLoop.cpp:235-238 | The critical section takes the whole pending queue and leaves it empty. |
| EventLoops.EventLoop.DoPendingFunctors | net/EventLoop.cpp:230-245 | Runs exactly the functors pending at the swap, in order, whatever they and other threads queue meanwhile. |
| EventLoops.EventLoop.PollAndHandle | net/EventLoop.cpp:95-111 | Polling and the event handlers, in whatever order the wakeup channel comes among them, execute no functor and lose none. |
| EventLoops.EventLoop.Turn | net/EventLoop.cpp:93-113 | One turn executes exactly its batch, which includes all that was pending when it began. |
| EventLoops.EventLoop.Loop | net/EventLoop.cpp:84-117 | loop() is a run of the machine from its initial state, ending in exit or about to poll. |
| PollerMachine.EpollStaysExact | net/poller/EPollPoller.cpp:99-180 | For every history whatever: a registered fd is in the kernel's set if and only if its channel is kAdded, with the channel's last mask, and no ADD, MOD or DEL is refused. |
| PollerMachine.StepSimulates | net/poller/PollPoller.cpp:68-137 | A proper call keeps both pollers' asserts, their maps, what each knows of every channel (its index included), and the sets watched, the same. |
| PollerMachine.ImproperIsSeen | net/poller/PollPoller.cpp:76-118 | Any other call makes one of the pollers fail an assert or leaves them watching different sets. |
| PollerMachine.ReenableDiverges | net/poller/PollPoller.cpp:98-104 | Updating a disabled channel puts it back into the epoll set while the poll array keeps ignoring it. |
| PollerMachine.PollersAgreeExactly | net/poller/PollPoller.cpp:68-137 | Neither poller fails an assert or is refused by the kernel, and both watch the same at every moment, if and only if the history is proper: no channel is updated after being disabled or removed, each removal follows a disabling update, and no two channels use one fd at a time. |
| PollerMachine.ReaddedChannel | net/poller/PollPoller.cpp:115-136 | A channel removed and handed over again: EPollPoller, which reset its index (EPollPoller.cpp:159), takes it; PollPoller, which did not, fails an assert. |
| PollerMachine.NeverEnabledChannel | net/poller/PollPoller.cpp:118 | A channel registered with no interest and then removed: its slot is not marked as ignored, and PollPoller fails an assert. |
| Pollers.Channel.DisableWriting | net/Channel.h:59 | As written it drops reading and keeps the write bit: afterwards there is no write interest if and only if there was none before. |
| Pollers.ReadyIsExact | net/poller/PollPoller.cpp:51-65 | Of an array whose slots belong to distinct fds, every flagged fd is listed exactly once, and no other. |
| Pollers.NoneLeft | net/poller/PollPoller.cpp:51-56 | Once as many slots were found as poll(2) counted, no later slot is flagged: the early exit loses none. |
| Pollers.AppendAddsSlot | net/poller/PollPoller.cpp:72-84 | Appending a slot keeps the bijection of slots and indexes and adds exactly that fd. |
| Pollers.ChangeSetsSlot | net/poller/PollPoller.cpp:91-104 | Rewriting a slot, as -fd-1 when no events are left, keeps the bijection and changes exactly that fd. |
| Pollers.SwapRemoveDropsSlot | net/poller/PollPoller.cpp:121-136 | Swap-removal keeps the bijection, with the last slot's channel given the freed index, and drops exactly the removed fd. |
| Pollers.AnswerIsExact | net/poller/PollPoller.cpp:30-35 | After poll(2), of the ready fds exactly those the array shows the kernel are listed, once each. |
| Pollers.PollPoller.UpdateChannel | net/poller/PollPoller.cpp:68-106 | In place, whenever the asserts hold: keeps slots, map and indexes in bijection and is the machine's update. |
| Pollers.PollPoller.RemoveChannel | net/poller/PollPoller.cpp:108-137 | In place, whenever the asserts hold: keeps the bijection, removes exactly the channel's slot, and leaves the channel's index set. |
| Pollers.PollPoller.FillActiveChannels | net/poller/PollPoller.cpp:48-66 | Under poll(2)'s count the active channels are those of the flagged slots, in order, each told its events. |
| Pollers.PollPoller.Poll | net/poller/PollPoller.cpp:27-46 | One poll reports each ready fd of interest exactly once and nothing else, tells its channel the events that are ready, and leaves what is watched alone. |
| Pollers.EPollPoller.UpdateChannel | net/poller/EPollPoller.cpp:99-139 | In place, whenever the asserts hold: kNew, kAdded and kDeleted against the kernel's set, every epoll_ctl legal, as the machine's update. |
| Pollers.EPollPoller.RemoveChannel | net/poller/EPollPoller.cpp:141-160 | In place: removes the channel from map and kernel and resets its index. |
| Pollers.EPollPoller.Update | net/poller/EPollPoller.cpp:162-180 | epoll_ctl on a legal operation has exactly its effect on the kernel's set and pointers. |
| Pollers.EPollPoller.FillActiveChannels | net/poller/EPollPoller.cpp:81-97 | Each epoll event reaches the channel it points at, which is the registered one, with its events. |
| ConnectionNames.NameReadsBack | net/TcpServer.cpp:77-80 | A name that fits is server, colon, host and port, number sign and id, each of which can be read back from it; of any other, only the first 31 characters after the server's name are kept. |
| ConnectionNames.NamesDistinctExactly | net/TcpServer.cpp:77-80 | The names of connections 1 to n are pairwise distinct if and only if n < 2 or length of hostport + digits(n) <= 29. |
| ConnectionNames.Collision | net/TcpServer.cpp:77-78 | Where they do not fit, two ids among them share a name. |
| ConnectionNames.Ipv4NamesDistinct | net/TcpServer.cpp:78 | With an IPv4 host and port the first 99,999,999 names are distinct. |
| TcpSafety.StepKeepsInv | net/TcpServer.cpp:41-126 | Accepting, dispatching, running a connectDestroyed functor and destroying the server each keep the life-cycle invariant of every connection, as long as names fit and no dispatch closes twice. |
| TcpSafety.CloseKeepsInv | net/TcpConnection.cpp:140-155 | Closing a connection that is up: disconnected, disabled, reported down, erased, queued. |
| TcpSafety.FunctorKeepsInv | net/TcpConnection.cpp:85-96 | Its functor takes it out of the poller. |
| TcpSafety.DestroyEachKeepsInv | net/TcpServer.cpp:46-54 | The destructor's loop takes down exactly the connections listed and leaves the others as they were. |
| TcpTheorems.RunKeepsInv | net/TcpServer.cpp:74-126 | So every run of such steps keeps the invariant. |
| TcpTheorems.ReportedOnce | net/TcpConnection.cpp:72-96 | Each connection is reported up once, and down once exactly when it is down; as long as the server lives it has been erased from the map exactly once when it is down and not at all before; it is removed at most once, and only when down and disabled. |
| TcpTheorems.ErasedExactlyWhenClosed | net/TcpServer.cpp:116-120 | A step erases a connection from the map exactly when it is the dispatch that closes it: once, since a closed one cannot be closed again; the destructor, which drops the whole map, erases none. |
| TcpTheorems.InMapWhileUp | net/TcpServer.cpp:116-120 | A connection is in the map, under its own name, exactly while it is up, so erasing it always finds one entry. |
| TcpTheorems.ReachableIsSafe | net/TcpConnection.cpp:72-96 | No assert of connection, server or channel fails, and whatever is registered with the poller is still held by the map or by a functor: alive until connectDestroyed has run. |
| TcpTheorems.ClosesTwiceExactly | net/Channel.cpp:75-97 | Dispatching to a connection that is up keeps every assert exactly unless events have HUP without IN together with PRI or RDHUP and read returns 0. |
| TcpTheorems.ClosesTwiceDelivered | net/Channel.cpp:16 | Of the events that can be delivered to a connection that is up, exactly HUP without IN together with PRI, with read returning 0, close twice. |
| TcpTheorems.DoubleCloseFails | net/TcpConnection.cpp:144 | A run of two steps, an accept and such a dispatch, fails the assert. |
| TcpTheorems.DispatchExactly | net/Channel.cpp:75-97 | By the bits: with POLLIN, POLLPRI or POLLRDHUP and a read of 0 bytes, or with POLLHUP and no POLLIN, the connection is turned down, reported, erased from the map and queued for connectDestroyed; with both at once an assert fails; with neither nothing changes. |
| TcpTheorems.AcceptExactly | net/TcpServer.cpp:74-106 | Accepting adds one connection, up, watched for input and urgent data, reported up once, in the map under a name made of its number; nothing else is touched. |
| TcpTheorems.FunctorExactly | net/TcpConnection.cpp:85-96 | The functor that has waited longest runs: its connection, which is down, leaves the poller; nothing else is touched. |
| TcpTheorems.PeerCloses | net/Channel.cpp:92-97 | The ordinary close, POLLIN with nothing to read, on an accepted connection: it is down, erased and queued. |
| TcpTheorems.ClosedExactlyWhen | net/Channel.cpp:72-103 | A dispatch closes the connection exactly on HUP without IN or on end-of-file, otherwise changes nothing, and never touches another connection. |
| TcpTheorems.WatchedExactlyWhileUp | net/Channel.cpp:49-53 | The calls made to the poller respect the asserts of both pollers, which would watch the same: exactly the connections that are up, for reading. So each channel is disabled before it is removed and removed once. |
| TcpTheorems.NothingLeft | net/TcpConnection.cpp:85-96 | With the server gone and no functor left, each connection was reported up and down once, removed once, and is held by nothing. |
| TcpTheorems.ShutdownEndsAll | net/TcpServer.cpp:41-55 | Destroying the server in any order and running the functors left over reaches that state. |
| TcpTheorems.CollisionOrphans | net/TcpServer.cpp:95 | A later connection of the same name takes the map entry and leaves the earlier one registered but unowned. |
| TcpTheorems.SafeExactly | net/TcpServer.cpp:74-126 | All runs with at most n connections are safe if and only if the n-th name fits the buffer. |
| TcpServers.TcpConnection.ConnectEstablished | net/TcpConnection.cpp:72-83 | Connecting becomes connected, the channel reads and is handed to the poller, one report up. |
| TcpServers.TcpConnection.ConnectDestroyed | net/TcpConnection.cpp:85-96 | Turns a connected one down first, with its report; then removes the channel. |
| TcpServers.TcpConnection.HandleClose | net/TcpConnection.cpp:140-155 | In place, exactly the machine's close, removeConnection included. |
| TcpServers.TcpConnection.HandleRead | net/TcpConnection.cpp:98-138 | Closes on end-of-file and only then. |
| TcpServers.TcpConnection.HandleEvent | net/Channel.cpp:55-103 | In place, exactly the machine's dispatch of the channel's events; it ends Disconnected on end-of-file or hang-up, in the bits of DispatchExactly. |
| TcpServers.TcpServer.NewConnection | net/TcpServer.cpp:74-106 | Adds one connection, named after the next id, entered in the map and established. |
| TcpServers.TcpServer.RemoveConnection | net/TcpServer.cpp:108-126 | Erases exactly one entry and queues connectDestroyed. |
| TcpServers.TcpServer.RunFunctor | net/EventLoop.cpp:240-243 | The first functor destroys its connection. |
| TcpServers.TcpServer.Destroy | net/TcpServer.cpp:41-55 | The loop over the map is the machine's teardown, goes through every entry once, and leaves none. |
| CircularBuffers.CircularBuffer.SizeExact | base/circularbuffer.h:29-33 | Across wraparound size, empty and full are those of the contents, which never exceed capacity - 1. |
| CircularBuffers.CircularBuffer.PushBack | base/circularbuffer.h:100-111 | Appends the item, or refuses exactly when capacity - 1 items are in. |
| CircularBuffers.CircularBuffer.Front | base/circularbuffer.h:113-123 | The first item, or the static default of an empty buffer. |
| CircularBuffers.CircularBuffer.PopFront | base/circularbuffer.h:125-134 | Drops the first item, if any. |
| CircularBuffers.CircularBuffer.Create | base/circularbuffer.h:65-73 | Refuses a capacity below 1. |
| CircularBuffers.CircularBuffer.Copy | base/circularbuffer.h:75-83 | The same contents in a buffer of its own. |
| CircularBuffers.CircularBuffer.Swap | base/circularbuffer.h:39-45 | Exchanges the contents. |
| CircularBuffers.Assign | base/circularbuffer.h:92-98 | Assignment copies the contents and leaves the source as it was. |
| QueueMonitor.NoLostWakeup | base/BoundedBlockingQueue.h:30-54 | With any number of threads, spurious wakeups and barging: consumers asleep imply queued items <= woken takers; producers asleep imply free slots <= woken putters. |
| QueueMonitor.NeverStuck | base/BoundedBlockingQueue.h:33-36 | With capacity 2 or more, sleeping producers and consumers never coexist with nobody woken. |
| QueueMonitor.OneSlotSticks | base/BoundedBlockingQueue.h:26 | With capacity 1, whose one slot stays empty, they do. |
| QueueMonitor.NeverStuckExactly | base/BoundedBlockingQueue.h:26-36 | So the queue never sticks if and only if its capacity is at least 2. |
| QueueMonitor.FirstInFirstOut | base/BoundedBlockingQueue.h:30-54 | Under every interleaving the values put, in lock order, are those taken and then those queued. |
| BoundedBlockingQueues.BoundedBlockingQueue.PutOnce | base/BoundedBlockingQueue.h:32-39 | One pass through the mutex is the monitor's step over the real ring: puts unless full, signals one sleeper, or waits. |
| BoundedBlockingQueues.BoundedBlockingQueue.TakeOnce | base/BoundedBlockingQueue.h:44-53 | Likewise for take, returning the first item. |
| BoundedBlockingQueues.BoundedBlockingQueue.Put | base/BoundedBlockingQueue.h:30-40 | The wait loop: a run of the monitor that ends with x put last, or still waiting with x. |
| BoundedBlockingQueues.BoundedBlockingQueue.Take | base/BoundedBlockingQueue.h:42-54 | The wait loop: ends with the item last taken returned, or still waiting. |
| PoolMonitor.TasksConserved | base/ThreadPool.cpp:59-101 | Every task accepted while workers exist is finished, or in execution by exactly one worker, or queued, and in only one of these; tasks start in order. |
| PoolMonitor.NoTaskForgotten | base/ThreadPool.cpp:66-80 | While a worker sleeps every queued task has a woken worker; after stop's critical section no worker sleeps. |
| PoolMonitor.OneLastTask | base/ThreadPool.cpp:94-101 | A worker that took a task after stop takes no other. |
| PoolMonitor.AtMostOneMoreTask | base/ThreadPool.cpp:94-101 | Once stopped, a worker past take takes nothing more in any continuation, and every pass of take leaves its worker past it. |
| PoolMonitor.RunsUntilStopped | base/ThreadPool.cpp:47-57 | The pool runs exactly until stop is called, and no worker leaves while it runs. |
| PoolMonitor.StoppedShrinks | base/ThreadPool.cpp:47-57 | After stop every worker step lowers a measure that nothing else raises. |
| PoolMonitor.ShutdownTerminates | base/ThreadPool.cpp:54-56 | So after stop the workers take a bounded number of steps, whatever else happens. |
| PoolMonitor.ShutdownProgress | base/ThreadPool.cpp:54-56 | The measure is zero exactly when all workers have exited, and otherwise some worker can step. |
| ThreadPools.ThreadPool.Submit | base/ThreadPool.cpp:65-70 | Queues the task and signals one sleeper. |
| ThreadPools.ThreadPool.Stop | base/ThreadPool.cpp:49-53 | Clears `running_` and wakes all. |
| ThreadPools.ThreadPool.TestRunning | base/ThreadPool.cpp:94 | The unlocked test: go on to take, or leave. |
| ThreadPools.ThreadPool.TakeOnce | base/ThreadPool.cpp:76-87 | One pass through the mutex: sleeps exactly when the queue is empty and the pool runs, else leaves with the first task or none. |
| ThreadPools.ThreadPool.Take | base/ThreadPool.cpp:74-88 | The wait loop as a run of the monitor. |
| ThreadPools.ThreadPool.RunInThread | base/ThreadPool.cpp:90-101 | The worker's loop as a run of the monitor; it is left only once the pool has stopped, and at its next test then. |
| Dates.SuccessorAddsOne | base/Date.cpp:22-29 | From each date of the proleptic Gregorian calendar to the next, by leap years stated independently, the number goes up by exactly one. |
| Dates.DateRecovered | base/Date.cpp:31-44 | Every date from 1 March -4800 on is recovered from its number. |
| Dates.NumberIsOfADate | base/Date.cpp:31-44 | Every number from -32044 on is some date's. |
| Dates.NumberRecovered | base/Date.cpp:31-44 | Every number from -32044 on is recovered from the date computed for it. |
| Dates.OrderPreserved | base/Date.h:104-107 | Dates are in calendar order if and only if their numbers are. |
| Dates.NoOverflowExactlyUpToLast | base/Date.cpp:33-42 | No intermediate of getYearMonthDay overflows 32 bits if and only if the number is at most 536838867. |
| Dates.NumberDoesNotOverflow | base/Date.cpp:25-28 | Nor does any of getJulianDayNumber on dates up to that day. |
| Dates.WeekDayExact | base/Date.h:93-96 | weekDay is the day of the week if and only if the number is at least -1 or falls on a Sunday; it advances by one modulo 7. |
| Dates.WeekDayExamples | base/Date.h:93-96 | The epoch was a Thursday; day -2 gets weekday -1. |
| UtcTimes.SplitExact | base/TimeZone.cpp:328-334 | Truncating division with the correction is floor division into day and second, for negative times too. |
| UtcTimes.UtcFields | base/TimeZone.cpp:323-349 | The fields of a time are normalised and denote its day and second of day. |
| UtcTimes.UtcRoundTrip | base/TimeZone.cpp:323-364 | fromUtcTime(toUtcTime(t)) == t for negative and positive t. |
| UtcTimes.UtcFieldsRoundTrip | base/TimeZone.cpp:323-364 | toUtcTime(fromUtcTime(f)) gives the date and time of day of normalised fields back. |
| UtcTimes.UtcOrder | base/TimeZone.cpp:323-349 | Lexicographic order of the fields is the order of the times. |
| UtcTimes.WeekDays | base/TimeZone.cpp:341 | The weekday is 0 to 6 and advances modulo 7 from day to day; the epoch is a Thursday. |
| UtcTimes.YearDay | base/TimeZone.cpp:343-347 | tm_yday counts the days since 1 January and stays in 0..364, or 0..365 in leap years, from year -4799 on. |
| UtcTimes.YearDayOneShort | base/TimeZone.cpp:345-346 | In year -4800 tm_yday is one less than the days since 1 January, which lies before the algorithm's range. |
| UtcTimes.PosixSeconds | base/TimeZone.cpp:351-364 | From 1970 on the conversion satisfies the formula for Seconds Since the Epoch of POSIX.1-2017, XBD section 4.16. |
| TimeZones.FindExact | base/TimeZone.cpp:224-256 | By either key, lower_bound with the step back finds the type of the last transition at or before the sentry. |
| TimeZones.ToLocalExact | base/TimeZone.cpp:278-298 | The fields of a local time are normalised and denote the day and second that lie the offset in force after UTC, with the DST flag of the type in force. |
| TimeZones.FromLocalExact | base/TimeZone.cpp:300-321 | For any fields, those that no time has included: the offset of the segment they fall in by local time is taken off, and an hour more exactly when they claim DST and the guess is not in DST but shows the same hour and minute. |
| TimeZones.LocalRoundTripExact | base/TimeZone.cpp:278-321 | In every zone whose transitions are spaced, fromLocalTime(toLocalTime(t)) == t if and only if the local time is not repeated or the set-back is 3600 s from a DST to a non-DST type. |
| TimeZones.LocalRoundTrip | base/TimeZone.cpp:300-321 | So in zones with transitions over an hour apart and only such set-backs it holds for every time, the repeated hour included. |
| TimeZones.SetBacksThatFail | base/TimeZone.cpp:309-319 | Zones and a time at which it fails: a set-back of two hours, and one of an hour between two standard times. |
| TimeZones.OrdinaryIsSpaced | base/TimeZone.cpp:235-238 | In those zones both keys are sorted and far enough apart. |
| Digits.NumeralRead | base/LogStream.cpp:42-47 | Reading the digits gives the number back, in any base up to 16. |
| Digits.NumeralShape | base/LogStream.cpp:42-47 | A numeral has no sign and no leading zero. |
| Digits.NumeralLength | base/LogStream.cpp:42-47 | It has at most k digits if and only if the number is below base^k. |
| Digits.DecimalRead | base/LogStream.cpp:36-57 | Reading a decimal text gives the integer back, negative or not. |
| Digits.DecimalFits | base/LogStream.cpp:113 | Every 64-bit integer, signed or unsigned, takes at most 20 characters. |
| Digits.HexFits | base/LogStream.cpp:174 | Every 64-bit pointer takes at most 16 digits. |
| LogStreams.TableExact | base/LogStream.cpp:24-25 | `zero[lsd]` is the digit of a remainder of either sign. |
| LogStreams.ReverseRange | base/LogStream.cpp:54 | std::reverse in place. |
| LogStreams.WriteDigits | base/LogStream.cpp:42-47 | The digit loop writes the digits in reverse and nothing else, by truncating division and no negation. |
| LogStreams.Convert | base/LogStream.cpp:36-57 | For every 64-bit value, the least included, the text written is the decimal numeral, NUL after it, and the rest of the buffer is untouched. |
| LogStreams.ConvertHex | base/LogStream.cpp:59-75 | Likewise in base 16. |
| LogStreams.StreamExact | base/LogStream.h:39-47 | After any sequence of integer, pointer, character and string outputs the buffer is the concatenation of the accepted ones, with at least one byte free. |
| LogStreams.FeedExactly | base/LogStream.h:124-153 | One output, said of its argument: a string that leaves a byte free is appended as it is, a null string as (null); a number that finds 32 bytes free appends digits, after a minus sign or 0x, that read back as it; anything else changes nothing. |
| LogStreams.TextsAreJoined | base/LogStream.h:124-153 | Strings that fit together come out joined, in the order streamed. |
| LogStreams.LogStream.Append | base/LogStream.h:39-47 | All of the text or none of it. |
| LogStreams.LogStream.FormatInteger | base/LogStream.cpp:108-116 | Writes the number in place when at least 32 bytes are free, else nothing. |
| LogStreams.LogStream.FormatPointer | base/LogStream.cpp:166-178 | Likewise for a pointer, after 0x. |
| LogStreams.LogStream.WriteAll | base/LogStream.h:86-142 | A chain of outputs on the real buffer leaves what StreamExact, FeedExactly and TextsAreJoined describe. |

## Left out

- Sockets, accept, address formatting, EMFILE handling and the echo programs: system calls. A connection's read is
  its result; accepting hands out a descriptor that no live connection has.
- `readTimeZoneFile`: file parsing. A zone is given by its transitions and types with valid indexes.
- `gmtime_r` and `timegm`: modelled by the repository's own `toUtcTime` and `fromUtcTime`, which never set tm_isdst.
- The abbreviation, tm_zone and tm_gmtoff fields of local time: copied without effect on the conversions.
- Clocks: one clock that never goes back, in microseconds, in place of CLOCK_MONOTONIC and gettimeofday.
- Floating-point timer intervals: whole non-negative microseconds, where a positive interval may be 0.
- `LogStream` output of floating-point numbers and `Fmt`: formatting by snprintf.
- Widths of size_t, time_t and of the microsecond clock, and of the connection counter: unbounded here. 32-bit
  overflow is modelled in the calendar, 64-bit range in integer printing.
- Poll timeouts, errors of poll and epoll_wait, and the growth of the event buffer: a poll returns what is ready.
- `runInLoop` called in the loop thread: it is a direct call, so it is the operation itself.
- Allocation order, `TimerQueue`'s destructor and `cancel` overtaking an unprocessed add: a cancel is considered
  after its timer's add.
- TimerQueues.TimerQueue.Reset: other threads that construct timers in the middle of reset appear in the machine's runs
  only.
- TimerQueues.TimerQueue.CallTimers: a callback is a script of adds, cancels and new timers; what else it does is not
  modelled.
- EventLoops.EventLoop.QueueInLoop: other threads between its push and its wakeup appear in the machine's runs only.
- BoundedBlockingQueues.BoundedBlockingQueue.Put: the other threads are given by a finite description; when it is
  used up while the call still waits, the call is reported as waiting.
- ThreadPools.ThreadPool.RunInThread: likewise for the surroundings of a worker; exceptions thrown by tasks abort the
  program and are not modelled.
- ThreadPools.ThreadPool.Submit: a pool without threads runs the task in the caller, which is a direct call.
- TcpServers.TcpServer.Destroy: goes through the map in some order, the source in key order; asks that the state be
  one the steps keep, as it is in every run.
- TcpServers.TcpServer.NewConnection: the calls it makes to the poller are recorded in order, and the recorded history
  is proved legal for both pollers; the poller objects themselves are not linked in.
- TcpServers.TcpConnection.HandleEvent: the weak pointer's lock always succeeds, since what is registered is alive;
  error callbacks only log.
- Message and write-complete callbacks: a read of more than 0 bytes, or a failed one, changes nothing here.
- Shared pointers that user callbacks keep: they only make a connection live longer.
- The kConnecting state outside newConnection and kDisconnecting, which nothing sets.
- `EventLoop::removeChannel`'s assert on removals during event handling: a dispatch is one step, and functors and the
  server's destruction come between dispatches, so there are none.
- Writing to a poll slot through a stale index, which PollPoller would do after a failed assert if asserts were off: a
  failed assert ends the run.
- Destroying the server from inside an event handler: it is destroyed between events, as its use of the loop asks.
- Calendar dates before 1 March 4801 BC, where the algorithm's range begins.
- `BlockingQueue`, `CountDownLatch`, `AtomicInteger`, `StringPiece`, `Endian`, threads, fork hooks, logging back ends:
  smaller versions of the same ideas, or operating-system wrappers.
