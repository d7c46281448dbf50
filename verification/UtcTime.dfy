/** TimeZone.cpp's conversions between seconds since the epoch and broken-down UTC time. */
module UtcTimes {
  import opened Common
  import opened Dates

  const SECONDS_PER_DAY := 86400
  const EPOCH := 2440588

  /** `struct tm`, with its offsets: `mon` counts from 0 and `year` from 1900. */
  datatype Tm = Tm(sec: int, min: int, hour: int, mday: int, mon: int, year: int, wday: int, yday: int, isdst: bool)

  /** fillHMS; `seconds` is unsigned. */
  function FillHMS(seconds: nat, utc: Tm): Tm {
    var minutes := seconds / 60;
    utc.(sec := seconds % 60, min := minutes % 60, hour := minutes / 60)
  }

  /** The day and the second of the day, corrected for C's division of negative numbers. */
  function SplitSeconds(t: int): (int, int) {
    var seconds := TruncMod(t, SECONDS_PER_DAY);
    var days := TruncDiv(t, SECONDS_PER_DAY);
    if seconds < 0 then (days - 1, seconds + SECONDS_PER_DAY) else (days, seconds)
  }

  lemma SplitExact(t: int)
    ensures SplitSeconds(t) == (t / SECONDS_PER_DAY, t % SECONDS_PER_DAY)
  {
    assert t == SECONDS_PER_DAY * (t / SECONDS_PER_DAY) + t % SECONDS_PER_DAY;
    var q := (-t) / SECONDS_PER_DAY;
    assert -t == SECONDS_PER_DAY * q + (-t) % SECONDS_PER_DAY;
  }

  /** The fields that depend on the day alone. */
  function DateFields(jdn: int): Tm {
    var ymd := GetYearMonthDay(jdn);
    Tm(0, 0, 0, ymd.day, ymd.month - 1, ymd.year - 1900, WeekDay(jdn),
       jdn - GetJulianDayNumber(ymd.year, 1, 1), false)
  }

  function ToUtcTime(secondsSinceEpoch: int): Tm {
    var (days, seconds) := SplitSeconds(secondsSinceEpoch);
    if seconds < 0 then DateFields(days + EPOCH) else FillHMS(seconds, DateFields(days + EPOCH))
  }

  function FromUtcTime(utc: Tm): int {
    var secondsInDay := utc.hour * 3600 + utc.min * 60 + utc.sec;
    (GetJulianDayNumber(utc.year + 1900, utc.mon + 1, utc.mday) - EPOCH) * SECONDS_PER_DAY + secondsInDay
  }

  /** The seconds whose day number getYearMonthDay computes without overflow, from 4801 BC on. */
  predicate Representable(t: int) {
    -32044 <= t / SECONDS_PER_DAY + EPOCH <= LAST
  }

  function DateOf(f: Tm): YearMonthDay {
    YearMonthDay(f.year + 1900, f.mon + 1, f.mday)
  }

  predicate InDay(f: Tm) {
    0 <= f.hour < 24 && 0 <= f.min < 60 && 0 <= f.sec < 60
  }

  /** Fields in their ordinary ranges. */
  predicate Normalised(f: Tm) {
    InRange(DateOf(f)) && InDay(f)
  }

  function SecondOfDay(f: Tm): int {
    f.hour * 3600 + f.min * 60 + f.sec
  }

  predicate SameCivilTime(f: Tm, g: Tm) {
    DateOf(f) == DateOf(g) && f.hour == g.hour && f.min == g.min && f.sec == g.sec
  }

  /** The lexicographic order of year, month, day, hour, minute and second. */
  predicate Earlier(f: Tm, g: Tm) {
    Before(DateOf(f), DateOf(g))
    || (DateOf(f) == DateOf(g)
        && (f.hour < g.hour || (f.hour == g.hour && (f.min < g.min || (f.min == g.min && f.sec < g.sec)))))
  }

  lemma TimeOfDay(seconds: nat, utc: Tm)
    requires seconds < SECONDS_PER_DAY
    ensures var f := FillHMS(seconds, utc);
            InDay(f) && SecondOfDay(f) == seconds && f.(hour := utc.hour, min := utc.min, sec := utc.sec) == utc
  {
    assert seconds == 3600 * (seconds / 60 / 60) + 60 * (seconds / 60 % 60) + seconds % 60;
  }

  lemma DateFieldsExact(jdn: int)
    requires jdn >= -32044
    ensures var f := DateFields(jdn);
            && InRange(DateOf(f)) && Jdn(DateOf(f)) == jdn && !f.isdst && f.wday == WeekDay(jdn)
            && f.yday == jdn - GetJulianDayNumber(f.year + 1900, 1, 1)
  {
    hide GetYearMonthDay, GetJulianDayNumber, InRange, Jdn, WeekDay;
    NumberRecovered(jdn);
    assert DateOf(DateFields(jdn)) == GetYearMonthDay(jdn);
  }

  /** The fields of a representable time, each in its range, and where they come from. */
  lemma UtcFields(t: int)
    requires Representable(t)
    ensures var f := ToUtcTime(t);
            && Normalised(f) && !f.isdst
            && Jdn(DateOf(f)) == t / SECONDS_PER_DAY + EPOCH
            && SecondOfDay(f) == t % SECONDS_PER_DAY
            && f.wday == WeekDay(Jdn(DateOf(f)))
            && f.yday == Jdn(DateOf(f)) - GetJulianDayNumber(f.year + 1900, 1, 1)
  {
    hide DateFields, GetJulianDayNumber, InRange, Jdn, WeekDay, SplitSeconds, FillHMS, SecondOfDay;
    SplitExact(t);
    var jdn := t / SECONDS_PER_DAY + EPOCH;
    DateFieldsExact(jdn);
    TimeOfDay(t % SECONDS_PER_DAY, DateFields(jdn));
    assert DateOf(ToUtcTime(t)) == DateOf(DateFields(jdn));
  }

  lemma FromUtcValue(f: Tm)
    ensures FromUtcTime(f) == (Jdn(DateOf(f)) - EPOCH) * SECONDS_PER_DAY + SecondOfDay(f)
  {
    hide GetJulianDayNumber;
  }

  /** Converting to fields and back gives every time, before or after the epoch. */
  lemma UtcRoundTrip(t: int)
    requires Representable(t)
    ensures FromUtcTime(ToUtcTime(t)) == t
  {
    UtcFields(t);
    FromUtcValue(ToUtcTime(t));
    hide ToUtcTime, FromUtcTime, Normalised, Jdn, DateOf, SecondOfDay;
  }

  lemma NormalisedTime(f: Tm)
    requires Normalised(f)
    ensures var t := FromUtcTime(f);
            t / SECONDS_PER_DAY == Jdn(DateOf(f)) - EPOCH && t % SECONDS_PER_DAY == SecondOfDay(f)
  {
    FromUtcValue(f);
    hide FromUtcTime, Jdn, InRange;
    var d := Jdn(DateOf(f)) - EPOCH;
    assert 0 <= SecondOfDay(f) < SECONDS_PER_DAY;
    hide SecondOfDay;
    assert (d * SECONDS_PER_DAY + SecondOfDay(f)) / SECONDS_PER_DAY == d;
  }

  /** Hour, minute and second are in the order of the second of the day. */
  lemma TimeOfDayOrder(f: Tm, g: Tm)
    requires InDay(f) && InDay(g)
    ensures SecondOfDay(f) < SecondOfDay(g) <==>
              f.hour < g.hour || (f.hour == g.hour && (f.min < g.min || (f.min == g.min && f.sec < g.sec)))
    ensures SecondOfDay(f) == SecondOfDay(g) ==> f.hour == g.hour && f.min == g.min && f.sec == g.sec
  {
  }

  /** Converting fields to seconds and back gives the same date and time of day. */
  lemma UtcFieldsRoundTrip(f: Tm)
    requires Normalised(f) && Jdn(DateOf(f)) <= LAST
    ensures Representable(FromUtcTime(f)) && SameCivilTime(ToUtcTime(FromUtcTime(f)), f)
  {
    hide FromUtcTime, ToUtcTime, Jdn, InRange, DateOf, SecondOfDay;
    var t := FromUtcTime(f);
    NormalisedTime(f);
    FirstIsLeast(DateOf(f));
    UtcFields(t);
    var g := ToUtcTime(t);
    SameNumberSameDate(DateOf(g), DateOf(f));
    TimeOfDayOrder(f, g);
  }

  lemma FirstIsLeast(d: YearMonthDay)
    requires InRange(d)
    ensures Jdn(d) >= -32044
  {
    DateRecovered(d);
  }

  lemma DayThenSecond(t: int, u: int)
    ensures t < u <==> t / SECONDS_PER_DAY < u / SECONDS_PER_DAY
                       || (t / SECONDS_PER_DAY == u / SECONDS_PER_DAY && t % SECONDS_PER_DAY < u % SECONDS_PER_DAY)
  {
  }

  lemma SameNumberSameDate(a: YearMonthDay, b: YearMonthDay)
    requires InRange(a) && InRange(b) && Jdn(a) == Jdn(b)
    ensures a == b
  {
    DateRecovered(a);
    DateRecovered(b);
    hide InRange, Jdn, GetYearMonthDay;
  }

  /** Earlier fields are a smaller number of seconds, and the other way round. */
  lemma UtcOrder(t: int, u: int)
    requires Representable(t) && Representable(u)
    ensures t < u <==> Earlier(ToUtcTime(t), ToUtcTime(u))
  {
    hide ToUtcTime, InRange, Jdn, Before, DateOf, SecondOfDay, Representable;
    UtcFields(t);
    UtcFields(u);
    DayThenSecond(t, u);
    var f, g := ToUtcTime(t), ToUtcTime(u);
    OrderPreserved(DateOf(f), DateOf(g));
    TimeOfDayOrder(f, g);
    if Jdn(DateOf(f)) == Jdn(DateOf(g)) {
      SameNumberSameDate(DateOf(f), DateOf(g));
    }
  }

  // ---------------------------------------------------------------- day of the week and of the year

  /** The day of the week is 0 to 6 and goes round; the epoch was a Thursday. */
  lemma WeekDays(t: int)
    requires Representable(t) && Representable(t + SECONDS_PER_DAY) && t / SECONDS_PER_DAY + EPOCH >= -1
    ensures 0 <= ToUtcTime(t).wday <= 6
    ensures ToUtcTime(t + SECONDS_PER_DAY).wday == (ToUtcTime(t).wday + 1) % 7
    ensures ToUtcTime(0).wday == 4
  {
    hide ToUtcTime, Normalised, Jdn, DateOf, SecondOfDay, GetJulianDayNumber;
    UtcFields(t);
    UtcFields(t + SECONDS_PER_DAY);
    UtcFields(0);
    assert (t + SECONDS_PER_DAY) / SECONDS_PER_DAY == t / SECONDS_PER_DAY + 1;
    WeekDayExact(t / SECONDS_PER_DAY + EPOCH);
  }

  /** Days before month `month` of a year, counted by its month lengths. */
  function DaysBefore(year: int, month: nat): int
    requires month <= 13
  {
    if month <= 1 then 0 else DaysBefore(year, month - 1) + DaysInMonth(year, month - 1)
  }

  lemma {:induction false} StartOfMonth(year: int, month: nat)
    requires year >= -4799 && 1 <= month <= 12
    ensures GetJulianDayNumber(year, month, 1) == GetJulianDayNumber(year, 1, 1) + DaysBefore(year, month)
  {
    hide GetJulianDayNumber, Jdn, IsLeap;
    if month > 1 {
      StartOfMonth(year, month - 1);
      MonthAddsItsDays(year, month - 1);
    }
  }

  lemma MonthAddsItsDays(year: int, month: nat)
    requires year >= -4799 && 1 <= month < 12
    ensures GetJulianDayNumber(year, month + 1, 1)
         == GetJulianDayNumber(year, month, 1) + DaysInMonth(year, month)
  {
    hide GetJulianDayNumber, IsLeap, MonthStart, YearStart;
    var first, last := YearMonthDay(year, month, 1), YearMonthDay(year, month, DaysInMonth(year, month));
    SuccessorAddsOne(last);
    JdnShifted(last);
    JdnShifted(first);
    assert Successor(last) == YearMonthDay(year, month + 1, 1);
  }

  /** From 4800 BC on, tm_yday counts the days since 1 January, from 0 to 364, or to 365 in a leap year. */
  lemma YearDay(t: int)
    requires Representable(t) && ToUtcTime(t).year + 1900 >= -4799
    ensures var f := ToUtcTime(t);
            f.yday == DaysBefore(f.year + 1900, f.mon + 1) + f.mday - 1
            && 0 <= f.yday <= if IsLeap(f.year + 1900) then 365 else 364
  {
    UtcFields(t);
    var f := ToUtcTime(t);
    var d := DateOf(f);
    hide ToUtcTime;
    StartOfMonth(d.year, d.month);
    JdnShifted(d);
    JdnShifted(YearMonthDay(d.year, d.month, 1));
    DaysBeforeBound(d.year, d.month);
  }

  lemma DaysBeforeTable(year: int)
    ensures var leap := if IsLeap(year) then 1 else 0;
            && DaysBefore(year, 2) == 31 && DaysBefore(year, 3) == 59 + leap && DaysBefore(year, 4) == 90 + leap
            && DaysBefore(year, 5) == 120 + leap && DaysBefore(year, 6) == 151 + leap
            && DaysBefore(year, 7) == 181 + leap && DaysBefore(year, 8) == 212 + leap
            && DaysBefore(year, 9) == 243 + leap && DaysBefore(year, 10) == 273 + leap
            && DaysBefore(year, 11) == 304 + leap && DaysBefore(year, 12) == 334 + leap
  {
    hide IsLeap;
    assert DaysBefore(year, 2) == 31;
    assert DaysBefore(year, 4) == DaysBefore(year, 3) + 31;
    assert DaysBefore(year, 6) == DaysBefore(year, 5) + 31;
    assert DaysBefore(year, 8) == DaysBefore(year, 7) + 31;
    assert DaysBefore(year, 10) == DaysBefore(year, 9) + 30;
  }

  lemma DaysBeforeBound(year: int, month: nat)
    requires 1 <= month <= 12
    ensures 0 <= DaysBefore(year, month)
    ensures DaysBefore(year, month) + DaysInMonth(year, month) <= if IsLeap(year) then 366 else 365
  {
    hide IsLeap;
    DaysBeforeTable(year);
  }

  lemma FirstYearMonths(month: int)
    requires 3 <= month <= 12
    ensures DaysBefore(-4800, month) == MonthStart(month - 3) + 60
  {
    MonthTable();
    DaysBeforeTable(-4800);
  }

  /** In the first year handled, 4801 BC, 1 January comes before the algorithm's range and tm_yday is one short. */
  lemma YearDayOneShort(t: int)
    requires Representable(t) && ToUtcTime(t).year + 1900 == -4800
    ensures var f := ToUtcTime(t); f.yday == DaysBefore(-4800, f.mon + 1) + f.mday - 2
  {
    UtcFields(t);
    var d := DateOf(ToUtcTime(t));
    hide ToUtcTime;
    FirstYearDays(d);
  }

  lemma FirstYearDays(d: YearMonthDay)
    requires InRange(d) && d.year == -4800
    ensures Jdn(d) - GetJulianDayNumber(-4800, 1, 1) == DaysBefore(-4800, d.month) + d.day - 2
  {
    assert GetJulianDayNumber(-4800, 1, 1) == -32103;
    FirstYearMonths(d.month);
    JdnShifted(d);
    assert YearStart(0) == 0;
    hide GetJulianDayNumber, Jdn, DaysBefore, MonthStart;
  }

  /** "Seconds Since the Epoch" of POSIX.1-2017, XBD section 4.16, for years from 1970 on. */
  lemma PosixSeconds(t: int)
    requires Representable(t) && ToUtcTime(t).year >= 70
    ensures var f := ToUtcTime(t);
            t == f.sec + f.min * 60 + f.hour * 3600 + f.yday * 86400 + (f.year - 70) * 31536000
                 + (f.year - 69) / 4 * 86400 - (f.year - 1) / 100 * 86400 + (f.year + 299) / 400 * 86400
  {
    UtcFields(t);
    var f := ToUtcTime(t);
    hide ToUtcTime;
    NewYear(f.year);
    hide GetJulianDayNumber, Normalised, Jdn, DateOf;
    assert t == SECONDS_PER_DAY * (t / SECONDS_PER_DAY) + t % SECONDS_PER_DAY;
  }

  lemma NewYear(year: int)
    requires year >= 70
    ensures GetJulianDayNumber(year + 1900, 1, 1) - EPOCH
            == 365 * (year - 70) + (year - 69) / 4 - (year - 1) / 100 + (year + 299) / 400
  {
    var y := year + 6699;
    assert TruncDiv(13, 12) == 1 && TruncDiv(153 * 10 + 2, 5) == 306;
    assert y / 4 == (year - 69) / 4 + 1692;
    assert y / 100 == (year - 1) / 100 + 67;
    assert y / 400 == (year + 299) / 400 + 16;
  }
}
