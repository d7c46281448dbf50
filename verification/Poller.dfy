/** Channels and the two pollers that watch them. */
module Pollers {
  import opened PollerMachine

  class Channel {
    // Which object this is, for the machine.
    ghost const id: nat
    const fd: nat
    var events: Mask
    var revents: Mask
    var index: int

    constructor (fd: nat, ghost id: nat)
      ensures Value() == Chan(id, fd) && events == NONE_EVENT && revents == 0 && index == -1
    {
      this.fd, this.id := fd, id;
      events, revents, index := NONE_EVENT, 0, -1;
    }

    ghost function Value(): Chan {
      Chan(id, fd)
    }

    method SetRevents(revt: Mask)
      modifies this`revents
      ensures revents == revt
    {
      revents := revt;
    }

    // The setters, without the update of the poller that follows each.

    method EnableReading()
      modifies this`events
      ensures events == old(events) | READ_EVENT
    {
      events := events | READ_EVENT;
    }

    /** As written it masks with the write event and not with its complement. */
    method DisableWriting()
      modifies this`events
      ensures events == old(events) & WRITE_EVENT
      ensures events & READ_EVENT == 0
      ensures events & WRITE_EVENT == 0 <==> old(events) & WRITE_EVENT == 0
    {
      events := events & WRITE_EVENT;
    }

    method DisableAll()
      modifies this`events
      ensures events == NONE_EVENT
    {
      events := NONE_EVENT;
    }

    predicate IsNoneEvent()
      reads this
    {
      events == NONE_EVENT
    }
  }

  // ---------------------------------------------------------------- the poll array

  /** A pollfd; an ignored one carries -fd-1. */
  datatype PollFd = PollFd(fd: int, events: Mask, revents: Mask)

  function Decode(fd: int): nat {
    if fd < 0 then -fd - 1 else fd
  }

  function SlotOf(pollfd: PollFd): Slot {
    Slot(pollfd.fd < 0, pollfd.events)
  }

  /** The descriptors poll(2) has flagged among the first n slots, in the order of the array. */
  function Ready(pollfds: seq<PollFd>, n: nat): (fds: seq<int>)
    requires n <= |pollfds|
    ensures |fds| <= n
  {
    if n == 0 then []
    else Ready(pollfds, n - 1) + if pollfds[n - 1].revents != 0 then [pollfds[n - 1].fd] else []
  }

  lemma ReadyNone(pollfds: seq<PollFd>)
    ensures Ready(pollfds, 0) == []
  {
  }

  lemma ReadyStep(pollfds: seq<PollFd>, n: nat)
    requires n < |pollfds|
    ensures Ready(pollfds, n + 1)
         == Ready(pollfds, n) + if pollfds[n].revents != 0 then [pollfds[n].fd] else []
  {
  }

  /** No two slots belong to one descriptor. */
  ghost predicate Distinct(pollfds: seq<PollFd>) {
    forall i, j :: 0 <= i < j < |pollfds| ==> Decode(pollfds[i].fd) != Decode(pollfds[j].fd)
  }

  ghost predicate Flagged(pollfds: seq<PollFd>, n: nat, fd: int)
    requires n <= |pollfds|
  {
    exists k :: 0 <= k < n && pollfds[k].fd == fd && pollfds[k].revents != 0
  }

  lemma FlaggedOnce(pollfds: seq<PollFd>, n: nat, fd: int)
    requires Distinct(pollfds) && 0 < n <= |pollfds|
    ensures var last := pollfds[n - 1];
            && (Flagged(pollfds, n, fd) <==> Flagged(pollfds, n - 1, fd) || (last.fd == fd && last.revents != 0))
            && !(Flagged(pollfds, n - 1, fd) && last.fd == fd)
  {
    if Flagged(pollfds, n - 1, fd) {
      var k :| 0 <= k < n - 1 && pollfds[k].fd == fd && pollfds[k].revents != 0;
      assert Decode(pollfds[k].fd) != Decode(pollfds[n - 1].fd);
    }
  }

  /** Every flagged descriptor is listed, exactly once, and nothing else is. */
  lemma {:induction false} ReadyIsExact(pollfds: seq<PollFd>, n: nat, fd: int)
    requires Distinct(pollfds) && n <= |pollfds|
    ensures multiset(Ready(pollfds, n))[fd] == if Flagged(pollfds, n, fd) then 1 else 0
  {
    if n > 0 {
      ReadyIsExact(pollfds, n - 1, fd);
      FlaggedOnce(pollfds, n, fd);
      hide Flagged, Distinct;
    }
  }

  /** Once as many have been found as were promised, no later slot is flagged. */
  lemma {:induction false} NoneLeft(pollfds: seq<PollFd>, n: nat, m: nat)
    requires n <= m <= |pollfds|
    ensures |Ready(pollfds, n)| <= |Ready(pollfds, m)|
    ensures |Ready(pollfds, n)| == |Ready(pollfds, m)| ==>
              Ready(pollfds, n) == Ready(pollfds, m) && forall k | n <= k < m :: pollfds[k].revents == 0
    decreases m
  {
    if n < m {
      NoneLeft(pollfds, n, m - 1);
    }
  }

  /** Slots of the array and channel indexes are in bijection. */
  ghost predicate Bijection(pollfds: seq<PollFd>, index: map<int, int>) {
    && (forall fd | fd in index :: 0 <= index[fd] < |pollfds| && Decode(pollfds[index[fd]].fd) == fd)
    && (forall k | 0 <= k < |pollfds| ::
          Decode(pollfds[k].fd) in index && index[Decode(pollfds[k].fd)] == k)
  }

  /** The slot each descriptor has. */
  ghost function SlotsOf(pollfds: seq<PollFd>, index: map<int, int>): map<int, Slot>
    requires Bijection(pollfds, index)
  {
    map fd | fd in index :: SlotOf(pollfds[index[fd]])
  }

  lemma SlotAt(pollfds: seq<PollFd>, index: map<int, int>, fd: int)
    requires Bijection(pollfds, index)
    ensures fd in SlotsOf(pollfds, index) <==> fd in index
    ensures fd in index ==> 0 <= index[fd] < |pollfds| && Decode(pollfds[index[fd]].fd) == fd
                            && SlotsOf(pollfds, index)[fd] == SlotOf(pollfds[index[fd]])
  {
  }

  lemma IndexAt(pollfds: seq<PollFd>, index: map<int, int>, k: nat)
    requires Bijection(pollfds, index) && k < |pollfds|
    ensures Decode(pollfds[k].fd) in index && index[Decode(pollfds[k].fd)] == k
  {
  }

  lemma BijectionIsDistinct(pollfds: seq<PollFd>, index: map<int, int>)
    requires Bijection(pollfds, index)
    ensures Distinct(pollfds)
  {
  }

  lemma AppendAddsSlot(pollfds: seq<PollFd>, index: map<int, int>, last: PollFd)
    requires Bijection(pollfds, index) && last.fd >= 0 && last.fd !in index
    ensures Bijection(pollfds + [last], index[last.fd := |pollfds|])
    ensures SlotsOf(pollfds + [last], index[last.fd := |pollfds|])
         == SlotsOf(pollfds, index)[last.fd := Slot(false, last.events)]
  {
    var more, after := pollfds + [last], index[last.fd := |pollfds|];
    assert forall fd | fd in index :: more[after[fd]] == pollfds[index[fd]];
    assert Bijection(more, after);
    assert SlotsOf(more, after) == SlotsOf(pollfds, index)[last.fd := SlotOf(last)];
  }

  lemma ChangeSetsSlot(pollfds: seq<PollFd>, index: map<int, int>, fd: int, slot: PollFd)
    requires Bijection(pollfds, index) && fd in index && Decode(slot.fd) == fd
    ensures Bijection(pollfds[index[fd] := slot], index)
    ensures SlotsOf(pollfds[index[fd] := slot], index) == SlotsOf(pollfds, index)[fd := SlotOf(slot)]
  {
    var changed := pollfds[index[fd] := slot];
    assert forall g | g in index && g != fd :: changed[index[g]] == pollfds[index[g]];
    assert Bijection(changed, index);
    assert SlotsOf(changed, index) == SlotsOf(pollfds, index)[fd := SlotOf(slot)];
  }

  function Swap<T>(s: seq<T>, i: nat, j: nat): (r: seq<T>)
    requires i < |s| && j < |s|
    ensures |r| == |s|
  {
    s[i := s[j]][j := s[i]]
  }

  lemma SwapThenPop<T>(s: seq<T>, i: nat)
    requires i < |s|
    ensures Swap(s, i, |s| - 1)[..|s| - 1] == s[i := s[|s| - 1]][..|s| - 1]
    ensures i == |s| - 1 ==> s[..|s| - 1] == s[i := s[|s| - 1]][..|s| - 1]
  {
  }

  lemma SlotsAgree(pollfds: seq<PollFd>, index: map<int, int>, rest: seq<PollFd>, after: map<int, int>, fd: int)
    requires Bijection(pollfds, index) && Bijection(rest, after)
    requires forall g :: g in after <==> g in index && g != fd
    requires forall g | g in after :: rest[after[g]] == pollfds[index[g]]
    ensures SlotsOf(rest, after) == SlotsOf(pollfds, index) - {fd}
  {
    var a, b := SlotsOf(rest, after), SlotsOf(pollfds, index) - {fd};
    assert forall g :: g in a <==> g in b;
    forall g | g in a ensures a[g] == b[g] {
      assert g in after;
    }
    assert a == b;
  }

  /** The swap with the last slot: that slot's channel gets the freed index. */
  lemma SwapRemoveDropsSlot(pollfds: seq<PollFd>, index: map<int, int>, fd: int, rest: seq<PollFd>,
                                 after: map<int, int>)
    requires Bijection(pollfds, index) && fd in index
    requires var n, end := |pollfds| - 1, Decode(pollfds[|pollfds| - 1].fd);
             && rest == pollfds[index[fd] := pollfds[n]][..n]
             && after == if end == fd then index - {fd} else (index - {fd})[end := index[fd]]
    ensures Bijection(rest, after)
    ensures SlotsOf(rest, after) == SlotsOf(pollfds, index) - {fd}
  {
    var n, end := |pollfds| - 1, Decode(pollfds[|pollfds| - 1].fd);
    assert index[end] == n;
    forall g | g in after ensures 0 <= after[g] < n && rest[after[g]] == pollfds[index[g]] {
      assert g in index && g != fd;
      assert Decode(pollfds[index[g]].fd) == g;
    }
    forall k | 0 <= k < n ensures Decode(rest[k].fd) in after && after[Decode(rest[k].fd)] == k {
      if k != index[fd] {
        assert rest[k] == pollfds[k];
      }
    }
    assert Bijection(rest, after);
    SlotsAgree(pollfds, index, rest, after, fd);
  }

  /** A flagged slot that is not ignored belongs to a channel of its own. */
  lemma FlaggedSlots(pollfds: seq<PollFd>, index: map<int, int>)
    requires Bijection(pollfds, index)
    requires forall k | 0 <= k < |pollfds| && pollfds[k].revents != 0 :: pollfds[k].fd >= 0
    ensures forall k | 0 <= k < |pollfds| && pollfds[k].revents != 0 ::
              pollfds[k].fd in index && index[pollfds[k].fd] == k
  {
  }

  /** The array as poll(2) returns it when `ready` are the descriptors with something to report. */
  function Answer(pollfds: seq<PollFd>, ready: map<int, Mask>): (r: seq<PollFd>)
    ensures |r| == |pollfds|
  {
    seq(|pollfds|, k requires 0 <= k < |pollfds| =>
      var fd := pollfds[k].fd;
      pollfds[k].(revents := if fd >= 0 && fd in ready then ready[fd] else 0))
  }

  lemma AnswerKeepsSlots(pollfds: seq<PollFd>, index: map<int, int>, ready: map<int, Mask>)
    requires Bijection(pollfds, index)
    ensures Bijection(Answer(pollfds, ready), index)
    ensures SlotsOf(Answer(pollfds, ready), index) == SlotsOf(pollfds, index)
  {
    var answer := Answer(pollfds, ready);
    assert forall k | 0 <= k < |pollfds| :: answer[k].fd == pollfds[k].fd && answer[k].events == pollfds[k].events;
    assert Bijection(answer, index);
    assert forall fd | fd in index :: SlotOf(answer[index[fd]]) == SlotOf(pollfds[index[fd]]);
  }

  /** No ignored slot is flagged. */
  lemma AnswerFlags(pollfds: seq<PollFd>, ready: map<int, Mask>)
    ensures forall k | 0 <= k < |pollfds| && Answer(pollfds, ready)[k].revents != 0 ::
              Answer(pollfds, ready)[k].fd >= 0
  {
  }

  /** Of the ready descriptors, those the poll array shows the kernel are listed, each exactly once. */
  lemma AnswerIsExact(pollfds: seq<PollFd>, index: map<int, int>, ready: map<int, Mask>, fd: int)
    requires Bijection(pollfds, index)
    requires forall g | g in ready :: ready[g] != 0
    ensures multiset(Ready(Answer(pollfds, ready), |pollfds|))[fd]
         == if fd in ready && fd in Interest(SlotsOf(pollfds, index)) then 1 else 0
  {
    var answer := Answer(pollfds, ready);
    AnswerKeepsSlots(pollfds, index, ready);
    BijectionIsDistinct(answer, index);
    ReadyIsExact(answer, |answer|, fd);
    InterestHas(SlotsOf(pollfds, index), fd);
    SlotAt(pollfds, index, fd);
    hide Ready, Interest, SlotsOf, Distinct;
    forall k | 0 <= k < |answer| && answer[k].fd == fd && answer[k].revents != 0
      ensures fd in ready && fd in index && index[fd] == k
    {
      IndexAt(pollfds, index, k);
    }
    if fd in ready && fd in Interest(SlotsOf(pollfds, index)) {
      assert answer[index[fd]].fd == fd && answer[index[fd]].revents != 0;
    }
  }

  /** poll(2) writes what a descriptor of interest has to report into its slot. */
  lemma AnswerTells(pollfds: seq<PollFd>, index: map<int, int>, ready: map<int, Mask>, fd: int)
    requires Bijection(pollfds, index)
    requires fd in ready && fd in Interest(SlotsOf(pollfds, index))
    ensures Shows(Answer(pollfds, ready), fd, ready[fd])
  {
    InterestHas(SlotsOf(pollfds, index), fd);
    SlotAt(pollfds, index, fd);
    assert Answer(pollfds, ready)[index[fd]].fd == fd;
  }

  ghost predicate Shows(pollfds: seq<PollFd>, fd: int, revents: Mask) {
    exists k :: 0 <= k < |pollfds| && pollfds[k].fd == fd && pollfds[k].revents == revents
  }

  ghost function Values(channels: map<int, Channel>): map<int, Chan> {
    map fd | fd in channels :: channels[fd].Value()
  }

  lemma ValuesUpdated(channels: map<int, Channel>, channel: Channel)
    ensures Values(channels[channel.fd := channel]) == Values(channels)[channel.fd := channel.Value()]
  {
  }

  lemma ValuesRemoved(channels: map<int, Channel>, fd: int)
    ensures Values(channels - {fd}) == Values(channels) - {fd}
  {
  }

  /** The channels registered for a list of descriptors, in its order. */
  ghost predicate AreChannelsOf(active: seq<Channel>, channels: map<int, Channel>, fds: seq<int>) {
    |active| == |fds| && forall k | 0 <= k < |fds| :: fds[k] in channels && channels[fds[k]] == active[k]
  }

  class PollPoller {
    var pollfds: seq<PollFd>
    var channels: map<int, Channel>
    // The index each registered channel holds.
    ghost var indexes: map<int, int>
    ghost var repr: set<Channel>
    // The channels whose index has been set, and the events of each channel's last update.
    ghost var indexed: set<Chan>
    ghost var events: map<Chan, Mask>

    /** Slots, map entries and channel indexes are in bijection. */
    ghost predicate Valid()
      reads this, repr`index
    {
      && Bijection(pollfds, indexes)
      && (forall fd | fd in indexes :: fd in channels)
      && (forall fd | fd in channels ::
            && fd in indexes && channels[fd] in repr && channels[fd].Value() in indexed
            && channels[fd].fd == fd && channels[fd].index == indexes[fd])
    }

    ghost function Slots(): map<int, Slot>
      reads this
      requires Bijection(pollfds, indexes)
    {
      SlotsOf(pollfds, indexes)
    }

    ghost function Model(): PollSet
      reads this
      requires Bijection(pollfds, indexes)
    {
      PollSet(Values(channels), Slots(), indexed, events, true)
    }

    /** Whether this poller has ever given the channel an index shows in the index: it is never reset. */
    ghost predicate Knows(channel: Channel)
      reads this, channel`index
    {
      && (channel.index >= 0 <==> channel.Value() in indexed)
      && (channel.fd in channels && channels[channel.fd].Value() == channel.Value() ==> channels[channel.fd] == channel)
    }

    constructor ()
      ensures Valid() && Model() == PollAfter([]) && channels == map[]
    {
      pollfds, channels, indexes, repr := [], map[], map[], {};
      indexed, events := {}, map[];
    }

    /** Gives a channel that is not watched yet a slot at the end. */
    method AddSlot(channel: Channel)
      requires Valid() && channel.fd !in channels
      modifies this`pollfds, this`channels, this`indexes, this`repr, this`indexed, channel`index
      ensures Valid() && channels == old(channels)[channel.fd := channel] && channel.index >= 0
      ensures Slots() == old(Slots())[channel.fd := Slot(false, channel.events)]
      ensures indexed == old(indexed) + {channel.Value()}
    {
      var pfd := PollFd(channel.fd, channel.events, 0);
      AppendAddsSlot(pollfds, indexes, pfd);
      hide Bijection, SlotsOf;
      pollfds := pollfds + [pfd];
      channel.index := |pollfds| - 1;
      channels := channels[channel.fd := channel];
      indexes, repr := indexes[channel.fd := channel.index], repr + {channel};
      indexed := indexed + {channel.Value()};
    }

    /** Rewrites the slot a channel has; with no events left, the slot is marked as ignored. */
    method ChangeSlot(channel: Channel)
      requires Valid() && channel.fd in channels && channels[channel.fd] == channel
      modifies this`pollfds
      ensures Valid() && channel.fd in old(Slots())
      ensures var ignored := old(Slots())[channel.fd].ignored || channel.events == NONE_EVENT;
              Slots() == old(Slots())[channel.fd := Slot(ignored, channel.events)]
    {
      SlotAt(pollfds, indexes, channel.fd);
      hide Bijection, SlotsOf;
      var idx := channel.index;
      var pfd := pollfds[idx].(events := channel.events, revents := 0);
      if channel.IsNoneEvent() {
        pfd := pfd.(fd := -1 - (channel.fd as int));
      }
      ChangeSetsSlot(pollfds, indexes, channel.fd, pfd);
      pollfds := pollfds[idx := pfd];
    }

    /** The asserts of the source are the condition that the machine's step holds. */
    method UpdateChannel(channel: Channel)
      requires Valid() && Knows(channel)
      requires PollStep(Model(), Update(channel.Value(), channel.events)).ok
      modifies this, channel`index
      ensures Valid() && Knows(channel) && channels == old(channels)[channel.fd := channel]
      ensures Model() == PollStep(old(Model()), Update(channel.Value(), channel.events))
    {
      UpdateAsserts(channel);
      ValuesUpdated(channels, channel);
      hide Valid, Bijection, SlotsOf, Values;
      if channel.index < 0 {
        AddSlot(channel);
      } else {
        ChangeSlot(channel);
        assert channels[channel.fd := channel] == channels;
      }
      events := events[channel.Value() := channel.events];
    }

    lemma UpdateAsserts(channel: Channel)
      requires Valid() && Knows(channel)
      requires PollStep(Model(), Update(channel.Value(), channel.events)).ok
      ensures channel.index < 0 ==> channel.fd !in channels
      ensures channel.index >= 0 ==> channel.fd in channels && channels[channel.fd] == channel
    {
    }

    lemma RemoveAsserts(channel: Channel)
      requires Valid() && Knows(channel) && PollStep(Model(), Remove(channel.Value())).ok
      ensures channel.fd in channels && channels[channel.fd] == channel
      ensures EventsOf(events, channel.Value()) == NONE_EVENT
      ensures channel.fd in Slots() && Slots()[channel.fd] == Slot(true, NONE_EVENT)
    {
    }

    /** Takes the slot out by moving the last slot into its place. The channel keeps its index. */
    method RemoveSlot(channel: Channel)
      requires Valid() && channel.fd in channels && channels[channel.fd] == channel
      modifies this`pollfds, this`channels, this`indexes, this`repr, repr`index
      ensures Valid() && channels == old(channels) - {channel.fd}
      ensures channel.index == old(channel.index)
      ensures Slots() == old(Slots()) - {channel.fd}
    {
      hide Bijection, SlotsOf, Swap;
      var idx, n := channel.index, |pollfds| - 1;
      ghost var after := indexes - {channel.fd};
      SlotAt(pollfds, indexes, channel.fd);
      IndexAt(pollfds, indexes, n);
      SwapThenPop(pollfds, idx);
      SwapRemoveDropsSlot(pollfds, indexes, channel.fd, Swap(pollfds, idx, n)[..n],
                          if idx == n then after else after[Decode(pollfds[n].fd) := idx]);
      if idx != n {
        var channelAtEnd := pollfds[n].fd;
        if channelAtEnd < 0 {
          channelAtEnd := -channelAtEnd - 1;
        }
        channels[channelAtEnd].index := idx;
        after := after[channelAtEnd := idx];
      }
      pollfds, channels, indexes := Swap(pollfds, idx, n)[..n], channels - {channel.fd}, after;
      repr := repr - {channel};
    }

    /** The channel's index stays set, so this poller cannot take the channel back: see ReaddedChannel. */
    method RemoveChannel(channel: Channel)
      requires Valid() && Knows(channel) && channel.IsNoneEvent()
      requires PollStep(Model(), Remove(channel.Value())).ok
      modifies this`pollfds, this`channels, this`indexes, this`repr, repr`index
      ensures Valid() && Knows(channel) && channels == old(channels) - {channel.fd}
      ensures channel.index == old(channel.index)
      ensures Model() == PollStep(old(Model()), Remove(channel.Value()))
    {
      RemoveAsserts(channel);
      ValuesRemoved(channels, channel.fd);
      hide Valid, Bijection, SlotsOf, Values;
      RemoveSlot(channel);
    }

    /**
     Collects the flagged channels. Under the contract of poll(2), where the number returned counts the flagged
     slots and no ignored slot is flagged, stopping at the last of them loses none.
     */
    method FillActiveChannels(numEvents: int) returns (active: seq<Channel>)
      requires Valid()
      requires numEvents == |Ready(pollfds, |pollfds|)|
      requires forall k | 0 <= k < |pollfds| && pollfds[k].revents != 0 :: pollfds[k].fd >= 0
      modifies repr`revents
      ensures Valid() && Slots() == old(Slots())
      ensures AreChannelsOf(active, channels, Ready(pollfds, |pollfds|))
      ensures forall k | 0 <= k < |pollfds| && pollfds[k].revents != 0 ::
                pollfds[k].fd in channels && channels[pollfds[k].fd].revents == pollfds[k].revents
    {
      hide Bijection, Distinct, Decode, Ready;
      FlaggedSlots(pollfds, indexes);
      ReadyNone(pollfds);
      active := [];
      var i, left := 0, numEvents;
      while i < |pollfds| && left > 0
        invariant 0 <= i <= |pollfds|
        invariant left == numEvents - |Ready(pollfds, i)|
        invariant AreChannelsOf(active, channels, Ready(pollfds, i))
        invariant forall k | 0 <= k < i && pollfds[k].revents != 0 ::
                    channels[pollfds[k].fd].revents == pollfds[k].revents
      {
        ReadyStep(pollfds, i);
        if pollfds[i].revents != 0 {
          left := left - 1;
          var channel := channels[pollfds[i].fd];
          channel.SetRevents(pollfds[i].revents);
          active := active + [channel];
        }
        i := i + 1;
      }
      if i < |pollfds| {
        NoneLeft(pollfds, i, |pollfds|);
      }
    }

    /** The call of poll(2), when `ready` are the descriptors with something to report. */
    method CallPoll(ready: map<int, Mask>) returns (numEvents: nat)
      requires Valid()
      modifies this`pollfds
      ensures Valid() && Slots() == old(Slots())
      ensures pollfds == Answer(old(pollfds), ready) && numEvents == |Ready(pollfds, |pollfds|)|
    {
      AnswerKeepsSlots(pollfds, indexes, ready);
      hide Bijection, SlotsOf, Answer;
      pollfds := Answer(pollfds, ready);
      numEvents := |Ready(pollfds, |pollfds|)|;
    }

    /** Polls once: of the ready descriptors, those of interest are reported, each exactly once, and nothing else. */
    method Poll(ready: map<int, Mask>) returns (active: seq<Channel>)
      requires Valid()
      requires forall fd | fd in ready :: ready[fd] != 0
      modifies this`pollfds, repr`revents
      ensures Valid() && Slots() == old(Slots())
      ensures AreChannelsOf(active, channels, Ready(pollfds, |pollfds|))
      ensures forall fd :: multiset(Ready(pollfds, |pollfds|))[fd]
                        == if fd in ready && fd in Interest(Slots()) then 1 else 0
      ensures forall fd | fd in ready && fd in Interest(Slots()) ::
                fd in channels && channels[fd] in active && channels[fd].revents == ready[fd]
    {
      hide Bijection, SlotsOf, Interest, Answer, Ready, Shows, AreChannelsOf;
      ghost var interest := Interest(Slots());
      AnswerReports(ready);
      AnswerFlags(pollfds, ready);
      var numEvents := CallPoll(ready);
      active := [];
      if numEvents > 0 {
        active := FillActiveChannels(numEvents);
      } else {
        NoneReady(channels, Ready(pollfds, |pollfds|));
      }
      forall fd | fd in ready && fd in interest
        ensures fd in channels && channels[fd] in active && channels[fd].revents == ready[fd]
      {
        ToldWhatIsReady(active, fd, ready[fd]);
      }
    }

    /** The poll array after the call lists and shows what is ready. */
    lemma AnswerReports(ready: map<int, Mask>)
      requires Valid()
      requires forall fd | fd in ready :: ready[fd] != 0
      ensures forall fd :: multiset(Ready(Answer(pollfds, ready), |pollfds|))[fd]
                        == if fd in ready && fd in Interest(Slots()) then 1 else 0
      ensures forall fd | fd in ready && fd in Interest(Slots()) :: Shows(Answer(pollfds, ready), fd, ready[fd])
    {
      hide Bijection, SlotsOf, Interest, Answer, Ready, Shows;
      forall fd ensures multiset(Ready(Answer(pollfds, ready), |pollfds|))[fd]
                     == if fd in ready && fd in Interest(Slots()) then 1 else 0 {
        AnswerIsExact(pollfds, indexes, ready, fd);
      }
      forall fd | fd in ready && fd in Interest(Slots()) ensures Shows(Answer(pollfds, ready), fd, ready[fd]) {
        AnswerTells(pollfds, indexes, ready, fd);
      }
    }

    /** Once its events have been handed on, a listed channel has been told what its slot shows. */
    lemma ToldWhatIsReady(active: seq<Channel>, fd: int, revents: Mask)
      requires AreChannelsOf(active, channels, Ready(pollfds, |pollfds|))
      requires multiset(Ready(pollfds, |pollfds|))[fd] == 1 && Shows(pollfds, fd, revents) && revents != 0
      requires forall k | 0 <= k < |pollfds| && pollfds[k].revents != 0 ::
                 pollfds[k].fd in channels && channels[pollfds[k].fd].revents == pollfds[k].revents
      ensures fd in channels && channels[fd] in active && channels[fd].revents == revents
    {
      hide Ready;
      var fds := Ready(pollfds, |pollfds|);
      assert fd in fds;
      var k :| 0 <= k < |fds| && fds[k] == fd;
      assert channels[fds[k]] == active[k];
    }
  }

  lemma NoneReady(channels: map<int, Channel>, fds: seq<int>)
    requires |fds| == 0
    ensures AreChannelsOf([], channels, fds)
  {
  }

  // ---------------------------------------------------------------- epoll

  const NEW := -1
  const ADDED := 1
  const DELETED := 2

  function Code(index: Index): int {
    if index == Added then ADDED else DELETED
  }

  /** An epoll_event as epoll_wait fills it. */
  datatype Event = Event(events: Mask, ptr: Channel)

  class EPollPoller {
    var channels: map<int, Channel>
    // The kernel's side of epollfd_: the mask and data.ptr of each descriptor.
    var kernel: map<int, Mask>
    var data: map<int, Channel>
    // The index each registered channel holds, and the events of each channel's last update.
    ghost var indexes: map<Chan, Index>
    ghost var events: map<Chan, Mask>
    ghost var repr: set<Channel>

    /** Each channel holds the index this poller gave it. */
    ghost predicate ChannelsOk()
      reads this`channels, this`indexes, this`repr, repr`index
    {
      forall fd | fd in channels ::
        && channels[fd] in repr && channels[fd].fd == fd && channels[fd].Value() in indexes
        && channels[fd].index == Code(indexes[channels[fd].Value()])
    }

    /** The kernel points back at the registered channels. */
    ghost predicate DataOk()
      reads this`channels, this`kernel, this`data
    {
      forall fd | fd in kernel :: fd in channels && fd in data && data[fd] == channels[fd]
    }

    /** A registered channel is in the kernel's set exactly when it is ADDED, with its own mask. */
    ghost predicate Valid()
      reads this, repr`index
    {
      EpollExact(Model()) && ChannelsOk() && DataOk()
    }

    ghost function Model(): Epoll
      reads this
    {
      Epoll(Values(channels), indexes, kernel, events, true, false)
    }

    /** A channel's index is the one this poller gave it, and NEW once it has been removed. */
    ghost predicate Knows(channel: Channel)
      reads this, channel`index
    {
      && channel.index == (if channel.Value() in indexes then Code(indexes[channel.Value()]) else NEW)
      && (channel.fd in channels && channels[channel.fd].Value() == channel.Value() ==> channels[channel.fd] == channel)
    }

    constructor ()
      ensures Valid() && Model() == EpollAfter([]) && channels == map[]
    {
      channels, kernel, data := map[], map[], map[];
      indexes, events, repr := map[], map[], {};
    }

    /** epoll_ctl: ADD of a descriptor it has, or MOD or DEL of one it has not, would be refused. */
    method Update(operation: Ctl, channel: Channel)
      requires operation.Add? <==> channel.fd !in kernel
      modifies this`kernel, this`data
      ensures Model() == Control(old(Model()), operation, channel.fd, channel.events)
      ensures data == if operation.Delete? then old(data) else old(data)[channel.fd := channel]
    {
      if operation.Delete? {
        kernel := kernel - {channel.fd};
      } else {
        kernel, data := kernel[channel.fd := channel.events], data[channel.fd := channel];
      }
    }

    lemma UpdateAsserts(channel: Channel)
      requires Valid() && Knows(channel)
      requires EpollStep(Model(), PollerMachine.Update(channel.Value(), channel.events)).ok
      ensures channel.index == NEW ==> channel.fd !in channels && channel.Value() !in indexes
      ensures channel.index != NEW ==>
                && channel.fd in channels && channels[channel.fd] == channel
                && channel.Value() in indexes && channel.index == Code(indexes[channel.Value()])
                && channels[channel.fd := channel] == channels
      ensures channel.index != ADDED <==> channel.fd !in kernel
    {
      var c := channel.Value();
      assert c in indexes ==> Holds(Values(channels), c);
    }

    /** What the machine's step comes to in each case. */
    lemma UpdateIs(channel: Channel)
      requires Valid() && Knows(channel)
      requires EpollStep(Model(), PollerMachine.Update(channel.Value(), channel.events)).ok
      ensures var c, mask := channel.Value(), channel.events;
              EpollStep(Model(), PollerMachine.Update(c, mask)) ==
              if channel.index != ADDED then
                Epoll(Values(channels)[c.fd := c], indexes[c := Added], kernel[c.fd := mask], events[c := mask],
                      true, false)
              else if mask == NONE_EVENT then
                Epoll(Values(channels), indexes[c := Deleted], kernel - {c.fd}, events[c := mask], true, false)
              else
                Epoll(Values(channels), indexes, kernel[c.fd := mask], events[c := mask], true, false)
    {
      UpdateAsserts(channel);
      ValuesUpdated(channels, channel);
      hide ChannelsOk, DataOk, EpollExact, Values;
    }

    /** A new or disabled channel: ADD. */
    method AddChannel(channel: Channel)
      requires ChannelsOk() && DataOk() && channel.fd !in kernel
      requires channel.index == NEW ==> channel.fd !in channels
      requires channel.index != NEW ==> channel.fd in channels && channels[channel.fd] == channel
      modifies this`channels, this`kernel, this`data, this`indexes, this`repr, channel`index
      ensures ChannelsOk() && DataOk() && channel.index == ADDED
      ensures channels == old(channels)[channel.fd := channel]
      ensures indexes == old(indexes)[channel.Value() := Added]
      ensures kernel == old(kernel)[channel.fd := channel.events]
    {
      if channel.index == NEW {
        channels := channels[channel.fd := channel];
        repr := repr + {channel};
      } else {
        assert channels[channel.fd := channel] == channels;
      }
      channel.index := ADDED;
      indexes := indexes[channel.Value() := Added];
      Update(Add, channel);
    }

    /** An added channel: MOD, or DEL when it has no events left. */
    method ChangeChannel(channel: Channel)
      requires ChannelsOk() && DataOk() && channel.fd in kernel
      requires channel.fd in channels && channels[channel.fd] == channel && channel.index == ADDED
      modifies this`kernel, this`data, this`indexes, channel`index
      ensures ChannelsOk() && DataOk()
      ensures if channel.events == NONE_EVENT
              then channel.index == DELETED && indexes == old(indexes)[channel.Value() := Deleted]
                   && kernel == old(kernel) - {channel.fd}
              else channel.index == ADDED && indexes == old(indexes)
                   && kernel == old(kernel)[channel.fd := channel.events]
    {
      if channel.IsNoneEvent() {
        Update(Delete, channel);
        channel.index := DELETED;
        indexes := indexes[channel.Value() := Deleted];
      } else {
        Update(Modify, channel);
      }
    }

    /** The asserts of the source are the condition that the machine's step holds. */
    method UpdateChannel(channel: Channel)
      requires Valid() && Knows(channel)
      requires EpollStep(Model(), PollerMachine.Update(channel.Value(), channel.events)).ok
      modifies this, channel`index
      ensures Valid() && Knows(channel) && channels == old(channels)[channel.fd := channel]
      ensures Model() == EpollStep(old(Model()), PollerMachine.Update(channel.Value(), channel.events))
    {
      hide ChannelsOk, DataOk, EpollExact, EpollStep, Values, Holds;
      UpdateKeepsExact(Model(), channel.Value(), channel.events);
      UpdateAsserts(channel);
      UpdateIs(channel);
      ValuesUpdated(channels, channel);
      events := events[channel.Value() := channel.events];
      if channel.index == NEW || channel.index == DELETED {
        AddChannel(channel);
      } else {
        ChangeChannel(channel);
      }
    }

    lemma RemoveAsserts(channel: Channel)
      requires Valid() && Knows(channel) && EpollStep(Model(), Remove(channel.Value())).ok
      ensures channel.fd in channels && channels[channel.fd] == channel
      ensures channel.index == ADDED <==> channel.fd in kernel
      ensures channel.fd !in kernel ==> kernel == kernel - {channel.fd}
    {
    }

    /** The channel's index is reset, so this poller can take the channel back. */
    method RemoveChannel(channel: Channel)
      requires Valid() && Knows(channel) && channel.IsNoneEvent()
      requires EpollStep(Model(), Remove(channel.Value())).ok
      modifies this, channel`index
      ensures Valid() && Knows(channel) && channels == old(channels) - {channel.fd} && channel.index == NEW
      ensures Model() == EpollStep(old(Model()), Remove(channel.Value()))
    {
      RemoveKeepsExact(Model(), channel.Value());
      RemoveAsserts(channel);
      ValuesRemoved(channels, channel.fd);
      hide ChannelsOk, DataOk, EpollExact, Values;
      DropChannel(channel);
    }

    method DropChannel(channel: Channel)
      requires ChannelsOk() && DataOk() && channel.fd in channels && channels[channel.fd] == channel
      requires channel.index == ADDED <==> channel.fd in kernel
      modifies this`channels, this`kernel, this`data, this`indexes, channel`index
      ensures ChannelsOk() && DataOk() && channel.index == NEW
      ensures channels == old(channels) - {channel.fd} && indexes == old(indexes) - {channel.Value()}
      ensures kernel == old(kernel) - {channel.fd}
    {
      var index := channel.index;
      channels := channels - {channel.fd};
      indexes := indexes - {channel.Value()};
      if index == ADDED {
        Update(Delete, channel);
      }
      channel.index := NEW;
    }

    /** Every event of epoll_wait goes to the channel its pointer names, which is the registered one. */
    method FillActiveChannels(events: seq<Event>) returns (active: seq<Channel>)
      requires Valid()
      requires forall k | 0 <= k < |events| ::
                 var fd := events[k].ptr.fd; fd in kernel && events[k].ptr == data[fd]
      requires forall j, k | 0 <= j < k < |events| :: events[j].ptr != events[k].ptr
      modifies repr`revents
      ensures |active| == |events|
      ensures forall k | 0 <= k < |events| ::
                && active[k] == events[k].ptr && active[k].revents == events[k].events
                && active[k].fd in channels && channels[active[k].fd] == active[k]
    {
      active := [];
      for i := 0 to |events|
        invariant |active| == i
        invariant forall k | 0 <= k < i :: active[k] == events[k].ptr && active[k].revents == events[k].events
      {
        var channel := events[i].ptr;
        channel.SetRevents(events[i].events);
        active := active + [channel];
      }
    }
  }
}
