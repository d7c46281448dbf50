/** Date.cpp: Julian day numbers of the proleptic Gregorian calendar. */
module Dates {
  import opened Common

  datatype YearMonthDay = YearMonthDay(year: int, month: int, day: int)

  function GetJulianDayNumber(year: int, month: int, day: int): int {
    var a := TruncDiv(14 - month, 12);
    var y := year + 4800 - a;
    var m := month + 12 * a - 3;
    day + TruncDiv(153 * m + 2, 5) + y * 365 + TruncDiv(y, 4) - TruncDiv(y, 100) + TruncDiv(y, 400) - 32045
  }

  function GetYearMonthDay(julianDayNumber: int): YearMonthDay {
    var a := julianDayNumber + 32044;
    var b := TruncDiv(4 * a + 3, 146097);
    var c := a - TruncDiv(b * 146097, 4);
    var d := TruncDiv(4 * c + 3, 1461);
    var e := c - TruncDiv(1461 * d, 4);
    var m := TruncDiv(5 * e + 2, 153);
    YearMonthDay(b * 100 + d - 4800 + TruncDiv(m, 10),
                 m + 3 - 12 * TruncDiv(m, 10),
                 e - TruncDiv(153 * m + 2, 5) + 1)
  }

  // ---------------------------------------------------------------- the calendar, independently

  predicate IsLeap(year: int) {
    year % 4 == 0 && (year % 100 != 0 || year % 400 == 0)
  }

  function DaysInMonth(year: int, month: int): int {
    if month == 2 then (if IsLeap(year) then 29 else 28)
    else if month == 4 || month == 6 || month == 9 || month == 11 then 30
    else 31
  }

  predicate IsDate(d: YearMonthDay) {
    1 <= d.month <= 12 && 1 <= d.day <= DaysInMonth(d.year, d.month)
  }

  /** The next day of the calendar. */
  function Successor(d: YearMonthDay): YearMonthDay {
    if d.day < DaysInMonth(d.year, d.month) then d.(day := d.day + 1)
    else if d.month < 12 then YearMonthDay(d.year, d.month + 1, 1)
    else YearMonthDay(d.year + 1, 1, 1)
  }

  predicate Before(a: YearMonthDay, b: YearMonthDay) {
    a.year < b.year || (a.year == b.year && (a.month < b.month || (a.month == b.month && a.day < b.day)))
  }

  function Jdn(d: YearMonthDay): int {
    GetJulianDayNumber(d.year, d.month, d.day)
  }

  /** The first day the algorithm handles: 1 March 4801 BC, whose number is -32044. */
  const FIRST := YearMonthDay(-4800, 3, 1)

  predicate InRange(d: YearMonthDay) {
    IsDate(d) && !Before(d, FIRST)
  }

  // ---------------------------------------------------------------- the inner calendar, whose year begins in March

  /** Days before month `m` (0 is March) of a year that begins in March. */
  function MonthStart(m: int): int
    requires 0 <= m <= 12
  {
    (153 * m + 2) / 5
  }

  /** Days before 1 March of year `y` (0 is 4801 BC). */
  function YearStart(y: nat): int {
    y * 365 + y / 4 - y / 100 + y / 400
  }

  predicate ShiftedLeap(y: int) {
    (y + 1) % 4 == 0 && ((y + 1) % 100 != 0 || (y + 1) % 400 == 0)
  }

  function ShiftedYear(d: YearMonthDay): int {
    d.year + 4800 - (if d.month <= 2 then 1 else 0)
  }

  function ShiftedMonth(d: YearMonthDay): int {
    if d.month <= 2 then d.month + 9 else d.month - 3
  }

  lemma JdnShifted(d: YearMonthDay)
    requires InRange(d)
    ensures ShiftedYear(d) >= 0 && 0 <= ShiftedMonth(d) <= 11
    ensures Jdn(d) == d.day - 1 + MonthStart(ShiftedMonth(d)) + YearStart(ShiftedYear(d)) - 32044
  {
    assert TruncDiv(14 - d.month, 12) == if d.month <= 2 then 1 else 0;
  }

  lemma MonthTable()
    ensures MonthStart(0) == 0 && MonthStart(1) == 31 && MonthStart(2) == 61 && MonthStart(3) == 92
    ensures MonthStart(4) == 122 && MonthStart(5) == 153 && MonthStart(6) == 184 && MonthStart(7) == 214
    ensures MonthStart(8) == 245 && MonthStart(9) == 275 && MonthStart(10) == 306 && MonthStart(11) == 337
  {
  }

  /** The month lengths of the shifted year; only its last month, February, depends on the year. */
  lemma MonthLengths(d: YearMonthDay)
    requires IsDate(d)
    ensures var m := ShiftedMonth(d);
            DaysInMonth(d.year, d.month) ==
              if m == 11 then 28 + (if ShiftedLeap(ShiftedYear(d)) then 1 else 0) else MonthStart(m + 1) - MonthStart(m)
  {
    var m := ShiftedMonth(d);
    if m == 11 {
      assert ShiftedYear(d) + 1 == d.year + 4800;
      assert (d.year + 4800) % 4 == d.year % 4 && (d.year + 4800) % 100 == d.year % 100
             && (d.year + 4800) % 400 == d.year % 400;
    } else {
      MonthTable();
    }
  }

  lemma YearLength(y: nat)
    ensures YearStart(y + 1) - YearStart(y) == if ShiftedLeap(y) then 366 else 365
  {
    assert (y + 1) / 4 - y / 4 == if (y + 1) % 4 == 0 then 1 else 0;
    assert (y + 1) / 100 - y / 100 == if (y + 1) % 100 == 0 then 1 else 0;
    assert (y + 1) / 400 - y / 400 == if (y + 1) % 400 == 0 then 1 else 0;
  }

  /** The number goes up by exactly one from each date to the next. */
  lemma SuccessorAddsOne(d: YearMonthDay)
    requires InRange(d)
    ensures InRange(Successor(d)) && Jdn(Successor(d)) == Jdn(d) + 1
  {
    var n := Successor(d);
    assert InRange(n);
    JdnShifted(d);
    JdnShifted(n);
    MonthLengths(d);
    YearLength(ShiftedYear(d));
    if n.day == 1 {
      var m := ShiftedMonth(d);
      if m == 11 {
        assert MonthStart(11) == 337 && MonthStart(0) == 0;
        assert ShiftedYear(n) == ShiftedYear(d) + 1 && ShiftedMonth(n) == 0;
      } else {
        assert ShiftedYear(n) == ShiftedYear(d) && ShiftedMonth(n) == m + 1;
      }
    }
  }

  // ---------------------------------------------------------------- the two functions are inverse

  /** The day of the shifted year, from 0. */
  function DayOfYear(d: YearMonthDay): int
    requires IsDate(d)
  {
    MonthStart(ShiftedMonth(d)) + d.day - 1
  }

  lemma DayOfYearBounds(d: YearMonthDay)
    requires IsDate(d)
    ensures 0 <= DayOfYear(d) <= if ShiftedLeap(ShiftedYear(d)) then 365 else 364
  {
    MonthLengths(d);
    var m := ShiftedMonth(d);
    assert MonthStart(11) == 337;
    assert m < 11 ==> MonthStart(m + 1) <= 337;
  }

  lemma YearSplit(y: nat)
    ensures YearStart(y) == 36524 * (y / 100) + y / 100 / 4 + 365 * (y % 100) + y % 100 / 4
    ensures (y + 1) % 4 == (y % 100 + 1) % 4
  {
    assert y == 100 * (y / 100) + y % 100;
    assert y / 4 == 25 * (y / 100) + y % 100 / 4;
  }

  /** From the day number back to century, year of the century and day of the year. */
  lemma YearRecovered(y: nat, e: int)
    requires 0 <= e <= if ShiftedLeap(y) then 365 else 364
    ensures var a := YearStart(y) + e;
            var b := (4 * a + 3) / 146097;
            var c := a - b * 146097 / 4;
            var d := (4 * c + 3) / 1461;
            b == y / 100 && c >= 0 && d == y % 100 && c - 1461 * d / 4 == e
  {
    var q, r := y / 100, y % 100;
    var c := 365 * r + r / 4 + e;
    YearSplit(y);
    assert e == 365 ==> r % 4 == 3;
    CenturyRecovered(q, c, YearStart(y) + e, r, e);
    hide YearStart, ShiftedLeap;
    assert q * 146097 / 4 == 36524 * q + q / 4;
    assert 4 * c + 3 == 1461 * r + (4 * e + 3 - r % 4);
    assert 1461 * r / 4 == 365 * r + r / 4;
  }

  lemma LastOfCentury(q: nat, r: int, e: int)
    requires 0 <= r < 100 && 0 <= e <= if ShiftedLeap(100 * q + r) then 365 else 364
    ensures 0 <= 365 * r + r / 4 + e <= if q % 4 == 3 then 36524 else 36523
  {
    if r == 99 && e == 365 {
      assert (100 * q + 100) % 400 == 0;
    }
  }

  lemma CenturyRecovered(q: nat, c: int, a: int, r: int, e: int)
    requires 0 <= r < 100 && c == 365 * r + r / 4 + e && a == 36524 * q + q / 4 + c
    requires 0 <= e <= if ShiftedLeap(100 * q + r) then 365 else 364
    ensures (4 * a + 3) / 146097 == q
  {
    LastOfCentury(q, r, e);
    hide ShiftedLeap;
    assert 4 * a + 3 == 146097 * q + (4 * c + 3 - q % 4);
  }

  lemma MonthRecovered(d: YearMonthDay)
    requires IsDate(d)
    ensures (5 * DayOfYear(d) + 2) / 153 == ShiftedMonth(d)
  {
    MonthLengths(d);
    var m := ShiftedMonth(d);
    assert d.day <= if m == 11 then 29 else MonthStart(m + 1) - MonthStart(m);
    MonthOfDay(m, d.day);
  }

  lemma MonthOfDay(m: int, day: int)
    requires 0 <= m <= 11 && 1 <= day <= if m == 11 then 29 else MonthStart(m + 1) - MonthStart(m)
    ensures (5 * (MonthStart(m) + day - 1) + 2) / 153 == m
  {
  }

  /** Truncation does not matter for what is not negative. */
  lemma TruncDivNat(a: int, b: int)
    requires a >= 0 && b > 0
    ensures TruncDiv(a, b) == a / b && a / b >= 0
  {
  }

  /** The values getYearMonthDay computes for the number of `d`. */
  lemma DateValues(d: YearMonthDay)
    requires InRange(d)
    ensures var a := Jdn(d) + 32044;
            var b := TruncDiv(4 * a + 3, 146097);
            var c := a - TruncDiv(b * 146097, 4);
            var y := TruncDiv(4 * c + 3, 1461);
            var e := c - TruncDiv(1461 * y, 4);
            && a >= 0 && 0 <= b == ShiftedYear(d) / 100 && 0 <= c && 0 <= y == ShiftedYear(d) % 100
            && b * 100 + y == ShiftedYear(d)
            && e == DayOfYear(d) && TruncDiv(5 * e + 2, 153) == ShiftedMonth(d)
  {
    hide TruncDiv, Jdn, DayOfYear, ShiftedMonth, ShiftedYear, ShiftedLeap, YearStart, InRange;
    NumberSplit(d);
    InRangeIsDate(d);
    hide IsDate;
    YearRecovered(ShiftedYear(d), DayOfYear(d));
    MonthRecovered(d);
    SameValues(Jdn(d) + 32044);
    TruncDivNat(5 * DayOfYear(d) + 2, 153);
  }

  lemma NumberSplit(d: YearMonthDay)
    requires InRange(d)
    ensures Jdn(d) + 32044 == YearStart(ShiftedYear(d)) + DayOfYear(d) >= 0 && ShiftedYear(d) >= 0
    ensures 0 <= DayOfYear(d) <= if ShiftedLeap(ShiftedYear(d)) then 365 else 364
  {
    JdnShifted(d);
    DayOfYearBounds(d);
    hide Jdn, ShiftedYear, ShiftedMonth, ShiftedLeap, InRange, MonthStart;
  }

  /** The chain of divisions is the same with either kind of division. */
  lemma SameValues(a: int)
    requires a >= 0
    requires var b := (4 * a + 3) / 146097;
             var c := a - b * 146097 / 4;
             c >= 0
    ensures var b := (4 * a + 3) / 146097;
            var c := a - b * 146097 / 4;
            var y := (4 * c + 3) / 1461;
            && TruncDiv(4 * a + 3, 146097) == b && TruncDiv(b * 146097, 4) == b * 146097 / 4
            && TruncDiv(4 * c + 3, 1461) == y && TruncDiv(1461 * y, 4) == 1461 * y / 4
  {
    hide TruncDiv;
    var b := (4 * a + 3) / 146097;
    TruncDivNat(4 * a + 3, 146097);
    TruncDivNat(b * 146097, 4);
    var c := a - b * 146097 / 4;
    TruncDivNat(4 * c + 3, 1461);
    TruncDivNat(1461 * ((4 * c + 3) / 1461), 4);
  }

  lemma InRangeIsDate(d: YearMonthDay)
    requires InRange(d)
    ensures IsDate(d)
  {
  }

  /** The shifted month and day of the year, turned back. */
  lemma FieldsRecovered(d: YearMonthDay)
    requires InRange(d)
    ensures var m := ShiftedMonth(d);
            && m + 3 - 12 * TruncDiv(m, 10) == d.month
            && ShiftedYear(d) - 4800 + TruncDiv(m, 10) == d.year
            && DayOfYear(d) - TruncDiv(153 * m + 2, 5) + 1 == d.day
  {
    hide Before, DaysInMonth;
  }

  /** Every date in range is recovered from its number. */
  lemma DateRecovered(d: YearMonthDay)
    requires InRange(d)
    ensures Jdn(d) >= -32044 && GetYearMonthDay(Jdn(d)) == d
  {
    hide Jdn, InRange, TruncDiv, ShiftedYear, ShiftedMonth, DayOfYear;
    DateValues(d);
    FieldsRecovered(d);
  }

  /** Counting up from the first day reaches every number. */
  lemma {:induction false} NumberIsOfADate(n: int) returns (d: YearMonthDay)
    requires n >= -32044
    ensures InRange(d) && Jdn(d) == n
    decreases n + 32044
  {
    if n == -32044 {
      d := FIRST;
    } else {
      var e := NumberIsOfADate(n - 1);
      SuccessorAddsOne(e);
      d := Successor(e);
    }
  }

  /** Every number from -32044 on is the number of the date computed from it. */
  lemma NumberRecovered(n: int)
    requires n >= -32044
    ensures InRange(GetYearMonthDay(n)) && Jdn(GetYearMonthDay(n)) == n
  {
    var d := NumberIsOfADate(n);
    DateRecovered(d);
  }

  lemma {:induction false} YearStartGrows(y: nat, z: nat)
    requires y <= z
    ensures YearStart(z) >= YearStart(y) + 365 * (z - y)
    decreases z - y
  {
    if y < z {
      YearStartGrows(y, z - 1);
      YearLength(z - 1);
    }
  }

  lemma BeforeIsLess(a: YearMonthDay, b: YearMonthDay)
    requires InRange(a) && InRange(b) && Before(a, b)
    ensures Jdn(a) < Jdn(b)
  {
    JdnShifted(a);
    JdnShifted(b);
    DayOfYearBounds(a);
    DayOfYearBounds(b);
    BeforeShifted(a, b);
    hide InRange, Before, Jdn, YearStart, ShiftedYear, ShiftedMonth, MonthStart, ShiftedLeap;
    if ShiftedYear(a) < ShiftedYear(b) {
      YearLength(ShiftedYear(a));
      YearStartGrows(ShiftedYear(a) + 1, ShiftedYear(b));
    }
  }

  /** In the shifted calendar too, the earlier date has the earlier year, or an earlier day of the same year. */
  lemma BeforeShifted(a: YearMonthDay, b: YearMonthDay)
    requires InRange(a) && InRange(b) && Before(a, b)
    ensures ShiftedYear(a) < ShiftedYear(b) || (ShiftedYear(a) == ShiftedYear(b) && DayOfYear(a) < DayOfYear(b))
  {
    if ShiftedYear(a) >= ShiftedYear(b) {
      MonthLengths(a);
      assert ShiftedMonth(a) <= ShiftedMonth(b);
      hide InRange, IsLeap, ShiftedLeap;
    }
  }

  /** The numbers are in the order of the calendar. */
  lemma OrderPreserved(a: YearMonthDay, b: YearMonthDay)
    requires InRange(a) && InRange(b)
    ensures Before(a, b) <==> Jdn(a) < Jdn(b)
  {
    if Before(a, b) {
      BeforeIsLess(a, b);
    } else if a != b {
      BeforeIsLess(b, a);
    }
  }

  // ---------------------------------------------------------------- 32-bit arithmetic

  predicate FitsInt32(x: int) {
    -0x8000_0000 <= x <= 0x7FFF_FFFF
  }

  /** The last number whose date is computed without overflow. */
  const LAST := 536838867

  /** Every value computed on the way by getYearMonthDay fits in an int. */
  predicate YearMonthDayFits(n: int) {
    var a := n + 32044;
    var b := TruncDiv(4 * a + 3, 146097);
    var c := a - TruncDiv(b * 146097, 4);
    var d := TruncDiv(4 * c + 3, 1461);
    var e := c - TruncDiv(1461 * d, 4);
    var m := TruncDiv(5 * e + 2, 153);
    && FitsInt32(a) && FitsInt32(4 * a) && FitsInt32(4 * a + 3) && FitsInt32(b) && FitsInt32(b * 146097)
    && FitsInt32(c) && FitsInt32(4 * c) && FitsInt32(4 * c + 3) && FitsInt32(d) && FitsInt32(1461 * d)
    && FitsInt32(e) && FitsInt32(5 * e) && FitsInt32(5 * e + 2) && FitsInt32(m) && FitsInt32(153 * m + 2)
    && FitsInt32(b * 100) && FitsInt32(b * 100 + d) && FitsInt32(b * 100 + d - 4800 + m)
  }

  /** The terms of getJulianDayNumber's result, summed from left to right; `t` counts the months' days. */
  predicate SumsFit(day: int, t: int, y: int) {
    var s2 := day + t + y * 365;
    var s3 := s2 + TruncDiv(y, 4);
    var s4 := s3 - TruncDiv(y, 100);
    var s5 := s4 + TruncDiv(y, 400);
    && FitsInt32(day + t) && FitsInt32(y * 365)
    && FitsInt32(s2) && FitsInt32(s3) && FitsInt32(s4) && FitsInt32(s5) && FitsInt32(s5 - 32045)
  }

  /** Every value computed on the way by getJulianDayNumber fits in an int. */
  predicate JulianDayNumberFits(d: YearMonthDay) {
    var a := TruncDiv(14 - d.month, 12);
    var y := d.year + 4800 - a;
    var m := d.month + 12 * a - 3;
    && FitsInt32(a) && FitsInt32(d.year + 4800) && FitsInt32(y) && FitsInt32(m) && FitsInt32(153 * m + 2)
    && SumsFit(d.day, TruncDiv(153 * m + 2, 5), y)
  }

  /** The shifted year is about a 365th of the number. */
  lemma YearBound(d: YearMonthDay)
    requires InRange(d)
    ensures 365 * ShiftedYear(d) <= Jdn(d) + 32044
  {
    JdnShifted(d);
  }

  /** Bounds on what getYearMonthDay computes. */
  lemma ValueBounds(n: int)
    requires -32044 <= n <= LAST
    ensures var a := n + 32044;
            var b := TruncDiv(4 * a + 3, 146097);
            var c := a - TruncDiv(b * 146097, 4);
            var d := TruncDiv(4 * c + 3, 1461);
            var e := c - TruncDiv(1461 * d, 4);
            var m := TruncDiv(5 * e + 2, 153);
            && 0 <= b <= 20000 && 0 <= c <= 40000 && 0 <= d <= 99 && 0 <= e <= 365 && 0 <= m <= 11
            && b * 146097 <= 4 * a + 3
  {
    var date := NumberIsOfADate(n);
    DateValues(date);
    DayOfYearBounds(date);
    hide InRange, Jdn, DayOfYear, ShiftedYear, ShiftedMonth, ShiftedLeap;
  }

  /** No intermediate value of getYearMonthDay overflows exactly up to LAST; there 4 * a + 3 is the largest int. */
  lemma NoOverflowExactlyUpToLast(n: int)
    requires n >= -32044
    ensures YearMonthDayFits(n) <==> n <= LAST
  {
    if n <= LAST {
      ValueBounds(n);
      hide TruncDiv;
    }
  }

  lemma SumsAreBounded(day: int, t: int, y: int)
    requires 1 <= day <= 31 && 0 <= t <= 337 && 0 <= 365 * y <= 536870911
    ensures SumsFit(day, t, y)
  {
    assert 0 <= TruncDiv(y, 400) <= TruncDiv(y, 100) <= TruncDiv(y, 4) <= y;
    hide TruncDiv;
  }

  /** Nor does getJulianDayNumber overflow on any date in range up to that day. */
  lemma NumberDoesNotOverflow(d: YearMonthDay)
    requires InRange(d) && Jdn(d) <= LAST
    ensures JulianDayNumberFits(d)
  {
    hide InRange, Jdn, ShiftedYear, ShiftedMonth, SumsFit, TruncDiv;
    YearBound(d);
    ShiftedIs(d);
    SumsAreBounded(d.day, TruncDiv(153 * ShiftedMonth(d) + 2, 5), ShiftedYear(d));
  }

  /** The year and month that getJulianDayNumber computes with. */
  lemma ShiftedIs(d: YearMonthDay)
    requires InRange(d)
    ensures var a := TruncDiv(14 - d.month, 12);
            && 0 <= a <= 1 && d.year + 4800 - a == ShiftedYear(d) >= 0
            && d.month + 12 * a - 3 == ShiftedMonth(d) && 0 <= ShiftedMonth(d) <= 11
    ensures 1 <= d.day <= 31 && 0 <= TruncDiv(153 * ShiftedMonth(d) + 2, 5) <= 337
  {
    hide IsLeap;
  }

  /** Date::weekDay, whose remainder is C's. */
  function WeekDay(julianDayNumber: int): int {
    TruncMod(julianDayNumber + 1, 7)
  }

  /** It is the day of the week, Sunday being 0, exactly when the number is at least -1 or falls on a Sunday. */
  lemma WeekDayExact(n: int)
    ensures WeekDay(n) == (n + 1) % 7 <==> n >= -1 || (n + 1) % 7 == 0
    ensures n >= -1 ==> WeekDay(n + 1) == (WeekDay(n) + 1) % 7
  {
  }

  /** 1 January 1970 was a Thursday; a date before 23 November 4714 BC gets a negative day of the week. */
  lemma WeekDayExamples()
    ensures GetJulianDayNumber(1970, 1, 1) == 2440588 && WeekDay(2440588) == 4
    ensures WeekDay(-2) == -1
  {
  }
}
