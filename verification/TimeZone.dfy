/** TimeZone.cpp: local time from the transitions of a zone, and back. */
module TimeZones {
  import opened Dates
  import opened UtcTimes

  datatype Transition = Transition(gmttime: int, localtime: int, localtimeIdx: nat)

  datatype Localtime = Localtime(gmtOffset: int, isDst: bool)

  datatype Data = Data(transitions: seq<Transition>, localtimes: seq<Localtime>)

  /** What readTimeZoneFile and the fixed-offset constructor build. */
  ghost predicate WellFormed(data: Data) {
    && data.localtimes != []
    && (forall tr | tr in data.transitions ::
          && tr.localtimeIdx < |data.localtimes|
          && tr.localtime == tr.gmttime + data.localtimes[tr.localtimeIdx].gmtOffset)
  }

  /** The comparison object Comp: by UTC or by local time. */
  function Key(tr: Transition, gmt: bool): int {
    if gmt then tr.gmttime else tr.localtime
  }

  ghost predicate Ascending(trs: seq<Transition>, gmt: bool) {
    forall i, j | 0 <= i < j < |trs| :: Key(trs[i], gmt) < Key(trs[j], gmt)
  }

  /** std::lower_bound on trs[lo..hi], halving the range. */
  function LowerBound(trs: seq<Transition>, x: int, gmt: bool, lo: nat, hi: nat): (i: nat)
    requires lo <= hi <= |trs|
    ensures lo <= i <= hi
    ensures Ascending(trs, gmt) ==> (forall k | lo <= k < i :: Key(trs[k], gmt) < x)
                                    && (forall k | i <= k < hi :: Key(trs[k], gmt) >= x)
    decreases hi - lo
  {
    if lo == hi then lo
    else
      var mid := lo + (hi - lo) / 2;
      if Key(trs[mid], gmt) < x then LowerBound(trs, x, gmt, mid + 1, hi) else LowerBound(trs, x, gmt, lo, mid)
  }

  function FindLocaltime(data: Data, x: int, gmt: bool): Localtime
    requires WellFormed(data)
  {
    var trs := data.transitions;
    if trs == [] || x < Key(trs[0], gmt) then data.localtimes[0]
    else
      var i := LowerBound(trs, x, gmt, 0, |trs|);
      if i < |trs| then
        if x != Key(trs[i], gmt) && i > 0 then data.localtimes[trs[i - 1].localtimeIdx]
        else data.localtimes[trs[i].localtimeIdx]
      else data.localtimes[trs[|trs| - 1].localtimeIdx]
  }

  function ToLocalTime(data: Data, seconds: int): Tm
    requires WellFormed(data)
  {
    var local := FindLocaltime(data, seconds, true);
    ToUtcTime(seconds + local.gmtOffset).(isdst := local.isDst)
  }

  function FromLocalTime(data: Data, localTm: Tm): int
    requires WellFormed(data)
  {
    var seconds := FromUtcTime(localTm);
    var local := FindLocaltime(data, seconds, false);
    var tryTm := ToLocalTime(data, seconds - local.gmtOffset);
    if localTm.isdst && !tryTm.isdst && tryTm.hour == localTm.hour && tryTm.min == localTm.min
    then seconds - 3600 - local.gmtOffset
    else seconds - local.gmtOffset
  }

  // ---------------------------------------------------------------- segments

  /** The type in force from transition `k` on; before the first transition it is the first type. */
  function TypeAt(data: Data, k: int): Localtime
    requires WellFormed(data) && -1 <= k < |data.transitions|
  {
    if k < 0 then data.localtimes[0] else data.localtimes[data.transitions[k].localtimeIdx]
  }

  function Offset(data: Data, k: int): int
    requires WellFormed(data) && -1 <= k < |data.transitions|
  {
    TypeAt(data, k).gmtOffset
  }

  /** Transition `k` is the last whose key is at most `x`, or -1 when there is none. */
  ghost predicate InSegment(data: Data, x: int, gmt: bool, k: int) {
    && -1 <= k < |data.transitions|
    && (0 <= k ==> Key(data.transitions[k], gmt) <= x)
    && (k + 1 < |data.transitions| ==> x < Key(data.transitions[k + 1], gmt))
  }

  lemma SegmentUnique(data: Data, x: int, gmt: bool, j: int, k: int)
    requires Ascending(data.transitions, gmt) && InSegment(data, x, gmt, j) && InSegment(data, x, gmt, k)
    ensures j == k
  {
  }

  /** findLocaltime: the type of the last transition at or before the sentry, by either key. */
  lemma FindExact(data: Data, x: int, gmt: bool) returns (k: int)
    requires WellFormed(data) && Ascending(data.transitions, gmt)
    ensures InSegment(data, x, gmt, k) && FindLocaltime(data, x, gmt) == TypeAt(data, k)
  {
    hide LowerBound;
    var trs := data.transitions;
    if trs == [] || x < Key(trs[0], gmt) {
      k := -1;
    } else {
      k := LowerBound(trs, x, gmt, 0, |trs|);
      if k == |trs| || x != Key(trs[k], gmt) {
        k := k - 1;
      }
    }
  }

  lemma FindInSegment(data: Data, x: int, gmt: bool, k: int)
    requires WellFormed(data) && Ascending(data.transitions, gmt) && InSegment(data, x, gmt, k)
    ensures FindLocaltime(data, x, gmt) == TypeAt(data, k)
  {
    var j := FindExact(data, x, gmt);
    SegmentUnique(data, x, gmt, j, k);
  }

  // ---------------------------------------------------------------- the round trip, zone by zone

  /** Transitions come later one after the other, and further apart than the offset drops over one step or two. */
  ghost predicate Spaced(data: Data)
    requires WellFormed(data)
  {
    var trs := data.transitions;
    forall k | 0 <= k < |trs| - 1 :: WideGap(data, k)
  }

  ghost predicate WideGap(data: Data, k: int)
    requires WellFormed(data) && 0 <= k < |data.transitions| - 1
  {
    var gap := data.transitions[k + 1].gmttime - data.transitions[k].gmttime;
    && gap > 0
    && gap > Offset(data, k) - Offset(data, k + 1)
    && gap >= Offset(data, k - 1) - Offset(data, k)
    && gap >= Offset(data, k - 1) - Offset(data, k + 1)
  }

  lemma {:induction false} KeysAscend(data: Data, gmt: bool, i: int, j: int)
    requires WellFormed(data) && Spaced(data) && 0 <= i < j < |data.transitions|
    ensures Key(data.transitions[i], gmt) < Key(data.transitions[j], gmt)
    decreases j - i
  {
    assert WideGap(data, j - 1);
    assert data.transitions[j - 1] in data.transitions && data.transitions[j] in data.transitions;
    if i < j - 1 {
      KeysAscend(data, gmt, i, j - 1);
    }
  }

  lemma SpacedAscends(data: Data, gmt: bool)
    requires WellFormed(data) && Spaced(data)
    ensures Ascending(data.transitions, gmt)
  {
    forall i, j | 0 <= i < j < |data.transitions|
      ensures Key(data.transitions[i], gmt) < Key(data.transitions[j], gmt)
    {
      KeysAscend(data, gmt, i, j);
    }
  }

  /** `t`, in segment `k`, has a local time that comes again after the next transition sets clocks back. */
  ghost predicate Repeated(data: Data, t: int, k: int)
    requires WellFormed(data) && -1 <= k < |data.transitions|
  {
    k + 1 < |data.transitions| && t + Offset(data, k) >= data.transitions[k + 1].localtime
  }

  /** The set-back that fromLocalTime's correction is made for: one hour, from a DST type to another kind. */
  ghost predicate OrdinarySetBack(data: Data, k: int)
    requires WellFormed(data) && -1 <= k < |data.transitions| - 1
  {
    && Offset(data, k) - Offset(data, k + 1) == 3600
    && TypeAt(data, k).isDst && !TypeAt(data, k + 1).isDst
  }

  /** Looking up by local time finds the right segment, or the next one when the local time is repeated. */
  lemma LocalSegment(data: Data, t: int, k: int)
    requires WellFormed(data) && Spaced(data) && InSegment(data, t, true, k)
    ensures InSegment(data, t + Offset(data, k), false, if Repeated(data, t, k) then k + 1 else k)
  {
    var trs := data.transitions;
    if k >= 0 {
      assert trs[k] in trs;
    }
    if k + 2 < |trs| {
      assert trs[k + 1] in trs && trs[k + 2] in trs;
      assert WideGap(data, k + 1);
    }
  }

  /** In the repeated case, the guess made with the next segment's offset does fall in that segment. */
  lemma GuessSegment(data: Data, t: int, k: int)
    requires WellFormed(data) && Spaced(data) && InSegment(data, t, true, k) && Repeated(data, t, k)
    ensures InSegment(data, t + Offset(data, k) - Offset(data, k + 1), true, k + 1)
  {
    var trs := data.transitions;
    assert trs[k + 1] in trs;
    if k + 2 < |trs| {
      assert WideGap(data, k + 1);
    }
  }

  lemma LocalFields(data: Data, t: int, k: int)
    requires WellFormed(data) && Ascending(data.transitions, true) && InSegment(data, t, true, k)
    ensures ToLocalTime(data, t) == ToUtcTime(t + Offset(data, k)).(isdst := TypeAt(data, k).isDst)
  {
    hide ToUtcTime, FindLocaltime;
    FindInSegment(data, t, true, k);
  }

  /** toLocalTime: the day and time of day that lie the offset in force after UTC, with that type's DST flag. */
  lemma ToLocalExact(data: Data, t: int, k: int)
    requires WellFormed(data) && Ascending(data.transitions, true) && InSegment(data, t, true, k)
    requires Representable(t + Offset(data, k))
    ensures var f, local := ToLocalTime(data, t), t + Offset(data, k);
            && Normalised(f) && f.isdst == TypeAt(data, k).isDst
            && Jdn(DateOf(f)) == local / SECONDS_PER_DAY + EPOCH && SecondOfDay(f) == local % SECONDS_PER_DAY
  {
    hide ToUtcTime, ToLocalTime, FindLocaltime, Jdn, Representable, WellFormed, Ascending, Normalised, DateOf,
         SecondOfDay, WeekDay, GetJulianDayNumber;
    LocalFields(data, t, k);
    UtcFields(t + Offset(data, k));
    FlagAside(ToUtcTime(t + Offset(data, k)), TypeAt(data, k).isDst);
  }

  /** The DST flag is no part of the civil time. */
  lemma FlagAside(f: Tm, dst: bool)
    ensures var g := f.(isdst := dst);
            DateOf(g) == DateOf(f) && SecondOfDay(g) == SecondOfDay(f) && (Normalised(g) <==> Normalised(f))
  {
  }

  /**
   fromLocalTime, for any fields, whether or not some time has them. The offset is that of the segment the fields fall
   in by local time. An hour is taken off exactly when they claim DST and the time so guessed is not in DST but shows
   the same hour and minute.
   */
  lemma FromLocalExact(data: Data, f: Tm, k: int, j: int)
    requires WellFormed(data) && Ascending(data.transitions, true) && Ascending(data.transitions, false)
    requires InSegment(data, FromUtcTime(f), false, k)
    requires InSegment(data, FromUtcTime(f) - Offset(data, k), true, j)
    requires Representable(FromUtcTime(f) - Offset(data, k) + Offset(data, j))
    ensures var guess := FromUtcTime(f) - Offset(data, k);
            var minute := (guess + Offset(data, j)) % SECONDS_PER_DAY / 60;
            FromLocalTime(data, f)
            == if f.isdst && !TypeAt(data, j).isDst && minute / 60 == f.hour && minute % 60 == f.min
               then guess - 3600 else guess
  {
    hide ToUtcTime, FromUtcTime, FindLocaltime, ToLocalTime, Jdn, WellFormed, Ascending, Representable, DateOf,
         SecondOfDay, Normalised;
    FindInSegment(data, FromUtcTime(f), false, k);
    var guess := FromUtcTime(f) - Offset(data, k);
    ToLocalExact(data, guess, j);
    MinuteOfDay(ToLocalTime(data, guess));
  }

  lemma MinuteOfDay(f: Tm)
    requires Normalised(f)
    ensures SecondOfDay(f) / 60 / 60 == f.hour && SecondOfDay(f) / 60 % 60 == f.min
  {
  }

  lemma SecondsOfLocal(t: int, dst: bool)
    requires Representable(t)
    ensures FromUtcTime(ToUtcTime(t).(isdst := dst)) == t
  {
    hide ToUtcTime, FromUtcTime;
    UtcRoundTrip(t);
    FromUtcValue(ToUtcTime(t));
    FromUtcValue(ToUtcTime(t).(isdst := dst));
  }

  /**
   For every zone whose transitions are spaced and every time in it, converting to local time and back gives
   the time again exactly when its local time is not repeated or the set-back is the ordinary one.
   */
  lemma LocalRoundTripExact(data: Data, t: int, k: int)
    requires WellFormed(data) && Spaced(data) && InSegment(data, t, true, k)
    requires Representable(t + Offset(data, k))
    ensures FromLocalTime(data, ToLocalTime(data, t)) == t <==>
              !Repeated(data, t, k) || OrdinarySetBack(data, k)
  {
    hide ToUtcTime, FromUtcTime, FindLocaltime, WellFormed, Spaced, Representable;
    SpacedAscends(data, true);
    SpacedAscends(data, false);
    LocalFields(data, t, k);
    var local := t + Offset(data, k);
    SecondsOfLocal(local, TypeAt(data, k).isDst);
    LocalSegment(data, t, k);
    var found := if Repeated(data, t, k) then k + 1 else k;
    FindInSegment(data, local, false, found);
    if Repeated(data, t, k) {
      GuessSegment(data, t, k);
    }
    LocalFields(data, local - Offset(data, found), found);
    SetBackIsPositive(data, t, k);
  }

  /** A zone that goes back from its first type, ahead by `offset`, to standard time. */
  function SetBackZone(offset: int, dst: bool): Data {
    Data([Transition(100_000, 100_000, 1)], [Localtime(offset, dst), Localtime(0, false)])
  }

  /** Going back by two hours, or by an hour between two standard times, the last second before does not come back. */
  lemma SetBacksThatFail(offset: int, dst: bool)
    requires (offset == 7200 && dst) || (offset == 3600 && !dst)
    ensures var zone := SetBackZone(offset, dst);
            WellFormed(zone) && Spaced(zone) && FromLocalTime(zone, ToLocalTime(zone, 99_999)) != 99_999
  {
    hide FromLocalTime, ToLocalTime;
    LocalRoundTripExact(SetBackZone(offset, dst), 99_999, -1);
  }

  lemma SetBackIsPositive(data: Data, t: int, k: int)
    requires WellFormed(data) && InSegment(data, t, true, k)
    ensures Repeated(data, t, k) ==> Offset(data, k) > Offset(data, k + 1)
  {
    if Repeated(data, t, k) {
      assert data.transitions[k + 1] in data.transitions;
    }
  }

  /** Every set-back is by an hour, from a DST type to one that is not, and transitions are over an hour apart. */
  ghost predicate OrdinaryZone(data: Data)
    requires WellFormed(data)
  {
    && (forall k | 0 <= k < |data.transitions| - 1 ::
          data.transitions[k + 1].gmttime - data.transitions[k].gmttime > 3600)
    && (forall k | -1 <= k < |data.transitions| - 1 ::
          Offset(data, k) > Offset(data, k + 1) ==> OrdinarySetBack(data, k))
  }

  lemma OrdinaryIsSpaced(data: Data)
    requires WellFormed(data) && OrdinaryZone(data)
    ensures Spaced(data)
  {
    forall k | 0 <= k < |data.transitions| - 1 ensures WideGap(data, k) {
      assert Offset(data, k - 1) > Offset(data, k) ==> OrdinarySetBack(data, k - 1);
      assert Offset(data, k) > Offset(data, k + 1) ==> OrdinarySetBack(data, k);
    }
  }

  /** In such a zone local time always converts back, the repeated hour included. */
  lemma LocalRoundTrip(data: Data, t: int)
    requires WellFormed(data) && OrdinaryZone(data)
    requires Representable(t + FindLocaltime(data, t, true).gmtOffset)
    ensures FromLocalTime(data, ToLocalTime(data, t)) == t
  {
    hide FromLocalTime, ToLocalTime, FindLocaltime, WellFormed, Representable;
    OrdinaryIsSpaced(data);
    SpacedAscends(data, true);
    var k := FindExact(data, t, true);
    LocalRoundTripExact(data, t, k);
    SetBackIsPositive(data, t, k);
  }
}
