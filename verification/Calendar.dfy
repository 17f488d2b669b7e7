/** Julian day numbers and UTC broken-down time, as muduo/base/Date.cc and muduo/base/TimeZone.cc compute them. */
module Calendar {
  import opened CInt

  datatype Date = Date(year: int, month: int, day: int)

  function JulianDayNumber(date: Date): int {
    var a := CDiv(14 - date.month, 12);
    var y := date.year + 4800 - a;
    var m := date.month + 12 * a - 3;
    date.day + CDiv(153 * m + 2, 5) + y * 365 + CDiv(y, 4) - CDiv(y, 100) + CDiv(y, 400) - 32045
  }

  function YearMonthDay(julianDayNumber: int): Date {
    var a := julianDayNumber + 32044;
    var b := CDiv(4 * a + 3, 146097);
    var c := a - CDiv(b * 146097, 4);
    var d := CDiv(4 * c + 3, 1461);
    var e := c - CDiv(1461 * d, 4);
    var m := CDiv(5 * e + 2, 153);
    Date(b * 100 + d - 4800 + CDiv(m, 10), m + 3 - 12 * CDiv(m, 10), e - CDiv(153 * m + 2, 5) + 1)
  }

  // ----- the Gregorian calendar -----

  predicate Leap(year: int) {
    year % 4 == 0 && (year % 100 != 0 || year % 400 == 0)
  }

  function DaysInMonth(year: int, month: int): nat {
    if month == 2 then (if Leap(year) then 29 else 28)
    else if month == 4 || month == 6 || month == 9 || month == 11 then 30
    else 31
  }

  predicate Valid(d: Date) {
    1 <= d.month <= 12 && 1 <= d.day <= DaysInMonth(d.year, d.month)
  }

  function NextDay(d: Date): (n: Date)
    requires Valid(d)
    ensures Valid(n)
  {
    if d.day < DaysInMonth(d.year, d.month) then d.(day := d.day + 1)
    else if d.month < 12 then Date(d.year, d.month + 1, 1)
    else Date(d.year + 1, 1, 1)
  }

  const FIRST := Date(-4800, 3, 1)
  const FIRST_JDN := -32044

  /** On or after 1 March 4801 BC. */
  predicate InRange(d: Date) {
    d.year > -4800 || (d.year == -4800 && d.month >= 3)
  }

  // ----- years that begin in March -----

  /** Days before the month `m` of a year that begins with March as month 0. */
  function MonthStart(m: nat): nat {
    (153 * m + 2) / 5
  }

  function YearStart(y: nat): int {
    365 * y + y / 4 - y / 100 + y / 400
  }

  function YearLength(y: nat): nat {
    if Leap(y + 1) then 366 else 365
  }

  /** How one division by a positive constant moves between neighbours. */
  lemma DivNext(y: nat, n: nat)
    requires 0 < n
    ensures (y + 1) / n == y / n + if (y + 1) % n == 0 then 1 else 0
  {
    var q, r := y / n, y % n;
    assert y == n * q + r;
    if r + 1 < n {
      DivModUnique(y + 1, n, q, r + 1);
    } else {
      assert y + 1 == n * (q + 1);
      DivModUnique(y + 1, n, q + 1, 0);
    }
  }

  lemma MultiplesNest(x: int)
    ensures x % 400 == 0 ==> x % 100 == 0
    ensures x % 100 == 0 ==> x % 4 == 0
  {
    if x % 400 == 0 {
      DivModUnique(x, 100, 4 * (x / 400), 0);
    }
    if x % 100 == 0 {
      DivModUnique(x, 4, 25 * (x / 100), 0);
    }
  }

  lemma YearStartNext(y: nat)
    ensures YearStart(y + 1) == YearStart(y) + YearLength(y)
  {
    DivNext(y, 4);
    DivNext(y, 100);
    DivNext(y, 400);
    MultiplesNest(y + 1);
  }

  lemma YearStartByCentury(b: nat, d: nat)
    requires d < 100
    ensures YearStart(100 * b + d) == 146097 * b / 4 + 1461 * d / 4
  {
    var y := 100 * b + d;
    DivModUnique(y, 100, b, d);
    DivModUnique(y, 4, 25 * b + d / 4, d % 4);
    DivModUnique(y, 400, b / 4, 100 * (b % 4) + d);
    DivModUnique(146097 * b, 4, 36524 * b + b / 4, b % 4);
    DivModUnique(1461 * d, 4, 365 * d + d / 4, d % 4);
  }

  lemma LeapShift(y: int)
    ensures Leap(y + 4800) == Leap(y)
  {
    DivModUnique(y + 4800, 4, y / 4 + 1200, y % 4);
    DivModUnique(y + 4800, 100, y / 100 + 48, y % 100);
    DivModUnique(y + 4800, 400, y / 400 + 12, y % 400);
  }

  /** A date in March-year coordinates. */
  function MarchYear(d: Date): int {
    if d.month <= 2 then d.year + 4799 else d.year + 4800
  }

  function MarchMonth(d: Date): int {
    if d.month <= 2 then d.month + 9 else d.month - 3
  }

  lemma MonthLengths(d: Date)
    requires Valid(d)
    ensures var m := MarchMonth(d);
            && 0 <= m < 12
            && (m < 11 ==> MonthStart(m) + DaysInMonth(d.year, d.month) == MonthStart(m + 1))
            && (m == 11 ==> MonthStart(m) == 337 && d.month == 2)
            && d.year == MarchYear(d) - 4800 + m / 10 && d.month == m + 3 - 12 * (m / 10)
  {
    hide Leap;
  }

  lemma Shifted(d: Date)
    requires Valid(d) && InRange(d)
    ensures var y, m := MarchYear(d), MarchMonth(d);
            var e := MonthStart(m) + d.day - 1;
            && 0 <= y && 0 <= m < 12
            && (m < 11 ==> e < MonthStart(m + 1)) && e < YearLength(y)
            && JulianDayNumber(d) == e + YearStart(y) - 32044
  {
    MonthLengths(d);
    LeapShift(d.year);
    MarchTerms(d.month);
    hide CDiv, Leap;
    var y := MarchYear(d);
    CDivNat(y, 4);
    CDivNat(y, 100);
    CDivNat(y, 400);
  }

  lemma MarchTerms(month: int)
    requires 1 <= month <= 12
    ensures var a := CDiv(14 - month, 12);
            && a == (if month <= 2 then 1 else 0)
            && CDiv(153 * (month + 12 * a - 3) + 2, 5) == MonthStart(month + 12 * a - 3)
  {
  }

  lemma CenturyOf(b: nat, c: nat)
    requires c < 36524 + if b % 4 == 3 then 1 else 0
    ensures CDiv(4 * (146097 * b / 4 + c) + 3, 146097) == b
  {
    hide CDiv;
    DivModUnique(146097 * b, 4, 36524 * b + b / 4, b % 4);
    var n := 4 * (146097 * b / 4 + c) + 3;
    DivModUnique(n, 146097, b, 4 * c + 3 - b % 4);
    CDivNat(n, 146097);
  }

  lemma YearOf(d: nat, e: nat)
    requires e < 365 + if d % 4 == 3 then 1 else 0
    ensures CDiv(4 * (1461 * d / 4 + e) + 3, 1461) == d
  {
    hide CDiv;
    DivModUnique(1461 * d, 4, 365 * d + d / 4, d % 4);
    var n := 4 * (1461 * d / 4 + e) + 3;
    DivModUnique(n, 1461, d, 4 * e + 3 - d % 4);
    CDivNat(n, 1461);
  }

  lemma MonthOf(m: nat, e: nat)
    requires m < 12 && MonthStart(m) <= e <= 365 && (m < 11 ==> e < MonthStart(m + 1))
    ensures CDiv(5 * e + 2, 153) == m
  {
  }

  /** Where the long years are: the last of four, except the last of a century unless it is the fourth. */
  lemma LongYear(b: nat, d: nat)
    requires d < 100 && Leap(100 * b + d + 1)
    ensures d % 4 == 3 && (d == 99 ==> b % 4 == 3)
  {
    var x := 100 * b + d + 1;
    DivModUnique(x, 4, 25 * b + (d + 1) / 4, (d + 1) % 4);
    if d == 99 {
      DivModUnique(x, 100, b + 1, 0);
      DivModUnique(x, 400, (b + 1) / 4, 100 * ((b + 1) % 4));
    }
  }

  lemma CenturyBound(b: nat, d: nat, e: nat)
    requires d < 100 && e < YearLength(100 * b + d)
    ensures e < 365 + if d % 4 == 3 then 1 else 0
    ensures 1461 * d / 4 + e < 36524 + if b % 4 == 3 then 1 else 0
  {
    if e == 365 {
      LongYear(b, d);
    }
  }

  /** The decoding of a day given by its March-year, month and day of the year. */
  lemma DecodeDay(y: nat, m: nat, e: nat)
    requires m < 12 && MonthStart(m) <= e < YearLength(y) && (m < 11 ==> e < MonthStart(m + 1))
    ensures YearMonthDay(e + YearStart(y) - 32044) == Date(y - 4800 + m / 10, m + 3 - 12 * (m / 10), e - MonthStart(m) + 1)
  {
    hide CDiv, MonthStart, YearStart, YearLength, YearMonthDay;
    var b, d := y / 100, y % 100;
    assert y == 100 * b + d;
    YearStartByCentury(b, d);
    CenturyBound(b, d, e);
    YearOf(d, e);
    CenturyOf(b, 1461 * d / 4 + e);
    MonthOf(m, e);
    DecodeWith(e + YearStart(y), b, d, e, m);
  }

  /** The formulas of getYearMonthDay once the four quotients are known. */
  lemma DecodeWith(n: int, b: nat, d: nat, e: nat, m: nat)
    requires n == 146097 * b / 4 + 1461 * d / 4 + e
    requires CDiv(4 * n + 3, 146097) == b && CDiv(4 * (1461 * d / 4 + e) + 3, 1461) == d && CDiv(5 * e + 2, 153) == m
    ensures YearMonthDay(n - 32044) == Date(100 * b + d - 4800 + m / 10, m + 3 - 12 * (m / 10), e - MonthStart(m) + 1)
  {
    hide CDiv, MonthStart;
    CDivNat(b * 146097, 4);
    CDivNat(1461 * d, 4);
    CDivNat(m, 10);
    MonthStartDiv(m);
  }

  lemma MonthStartDiv(m: nat)
    ensures CDiv(153 * m + 2, 5) == MonthStart(m)
  {
  }

  // ----- the laws -----

  /** getYearMonthDay inverts getJulianDayNumber on every date of the range. */
  lemma DateRoundTrip(d: Date)
    requires Valid(d) && InRange(d)
    ensures YearMonthDay(JulianDayNumber(d)) == d
    ensures FIRST_JDN <= JulianDayNumber(d)
  {
    hide JulianDayNumber, YearMonthDay, YearStart, YearLength, MonthStart, MarchYear, MarchMonth, Valid, InRange;
    DayPositive(d);
    Shifted(d);
    MonthLengths(d);
    var y, m := MarchYear(d), MarchMonth(d);
    YearStartGrows(y);
    DecodeDay(y, m, MonthStart(m) + d.day - 1);
  }

  lemma DayPositive(d: Date)
    requires Valid(d)
    ensures 1 <= d.day
  {
  }

  lemma YearStartGrows(y: nat)
    ensures 0 <= YearStart(y)
  {
    assert y / 100 <= y;
  }

  lemma MonthBoundary(d: Date)
    requires Valid(d) && InRange(d) && d.day == DaysInMonth(d.year, d.month)
    ensures InRange(NextDay(d)) && JulianDayNumber(NextDay(d)) == JulianDayNumber(d) + 1
  {
    hide JulianDayNumber, YearStart, Leap;
    Shifted(d);
    Shifted(NextDay(d));
    MonthLengths(d);
    if d.month == 2 {
      YearStartNext(MarchYear(d));
      LeapShift(d.year);
    }
  }

  /** Consecutive calendar days have consecutive numbers, across months, years and leap days. */
  lemma ConsecutiveDays(d: Date)
    requires Valid(d) && InRange(d)
    ensures InRange(NextDay(d)) && JulianDayNumber(NextDay(d)) == JulianDayNumber(d) + 1
  {
    if d.day == DaysInMonth(d.year, d.month) {
      MonthBoundary(d);
    }
  }

  /** Every number from the first day on is the number of a date. */
  lemma {:induction false} EveryNumberIsADate(j: int) returns (d: Date)
    requires FIRST_JDN <= j
    ensures Valid(d) && InRange(d) && JulianDayNumber(d) == j
    decreases j - FIRST_JDN
  {
    if j == FIRST_JDN {
      d := FIRST;
    } else {
      var p := EveryNumberIsADate(j - 1);
      ConsecutiveDays(p);
      d := NextDay(p);
    }
  }

  lemma NumberRoundTrip(j: int)
    requires FIRST_JDN <= j
    ensures var d := YearMonthDay(j); Valid(d) && InRange(d) && JulianDayNumber(d) == j
  {
    var d := EveryNumberIsADate(j);
    DateRoundTrip(d);
  }

  /** Before the range truncating division spoils both directions. */
  lemma EarlyNumber(d: Date)
    requires Valid(d) && !InRange(d)
    ensures JulianDayNumber(d) <= FIRST_JDN
  {
    var a := if d.month <= 2 then 1 else 0;
    var y := d.year + 4800 - a;
    var m := d.month + 12 * a - 3;
    assert MonthStart(m) + d.day - 1 <= 365;
    var n := -y;
    assert n / 100 <= n / 4;
  }

  lemma EarlyDay(j: int)
    requires j < FIRST_JDN
    ensures YearMonthDay(j).day <= 0
  {
    var a := j + 32044;
    var b := CDiv(4 * a + 3, 146097);
    assert 4 * a + 3 <= 146097 * b <= 0;
    var c := a - CDiv(b * 146097, 4);
    assert c <= -1;
    var d := CDiv(4 * c + 3, 1461);
    assert 4 * c + 3 <= 1461 * d <= 0;
    var e := c - CDiv(1461 * d, 4);
    assert e <= -1;
    var m := CDiv(5 * e + 2, 153);
    assert 5 * e + 2 <= 153 * m <= 0;
  }

  lemma FirstNumber()
    ensures JulianDayNumber(FIRST) == FIRST_JDN
  {
  }

  /** The round trip holds for a date exactly from 1 March 4801 BC on. */
  lemma DateRoundTripIff(d: Date)
    requires Valid(d)
    ensures YearMonthDay(JulianDayNumber(d)) == d <==> InRange(d)
  {
    hide JulianDayNumber, YearMonthDay;
    if InRange(d) {
      DateRoundTrip(d);
    } else {
      EarlyNumber(d);
      if JulianDayNumber(d) == FIRST_JDN {
        DateRoundTrip(FIRST);
        FirstNumber();
      } else {
        EarlyDay(JulianDayNumber(d));
      }
    }
  }

  predicate Int32(x: int) {
    -0x8000_0000 <= x < 0x8000_0000
  }

  /** Every int that getJulianDayNumber computes on the way, in its order, is a 32-bit int. */
  predicate EncodeFits(date: Date) {
    var a := CDiv(14 - date.month, 12);
    var y := date.year + 4800 - a;
    var m := date.month + 12 * a - 3;
    var months := date.day + CDiv(153 * m + 2, 5);
    var years := months + y * 365;
    && Int32(14 - date.month) && Int32(date.year + 4800) && Int32(y) && Int32(date.month + 12 * a) && Int32(153 * m + 2)
    && Int32(months) && Int32(y * 365) && Int32(years) && Int32(years + CDiv(y, 4))
    && Int32(years + CDiv(y, 4) - CDiv(y, 100)) && Int32(years + CDiv(y, 4) - CDiv(y, 100) + CDiv(y, 400))
    && Int32(JulianDayNumber(date))
  }

  /** The same for getYearMonthDay. */
  predicate DecodeFits(j: int) {
    var a := j + 32044;
    var b := CDiv(4 * a + 3, 146097);
    var c := a - CDiv(b * 146097, 4);
    var d := CDiv(4 * c + 3, 1461);
    var e := c - CDiv(1461 * d, 4);
    var m := CDiv(5 * e + 2, 153);
    && Int32(a) && Int32(4 * a) && Int32(4 * a + 3) && Int32(b * 146097) && Int32(c) && Int32(4 * c + 3)
    && Int32(1461 * d) && Int32(e) && Int32(5 * e + 2) && Int32(153 * m + 2) && Int32(b * 100 + d)
  }

  /** The last day number whose decoding fits, about the year 1,465,000. */
  const LAST_JDN := 0x7FFF_FFFF / 4 - 32044

  lemma DecodeFitsInt32(j: int)
    requires FIRST_JDN <= j <= LAST_JDN
    ensures DecodeFits(j)
  {
  }

  /** And the next one does not: four times it is out of range. */
  lemma DecodeOverflows()
    ensures !DecodeFits(LAST_JDN + 1)
  {
  }

  lemma MonthTerms(month: int)
    requires 1 <= month <= 12
    ensures var a := CDiv(14 - month, 12);
            var m := month + 12 * a - 3;
            0 <= a <= 1 && 0 <= m <= 11 && 0 <= CDiv(153 * m + 2, 5) <= 337
  {
  }

  lemma YearTerms(y: int)
    requires -1 <= y <= 5_804_800
    ensures 0 <= CDiv(y, 4) <= 1_451_200 && 0 <= CDiv(y, 100) <= 58_048 && 0 <= CDiv(y, 400) <= 14_512
  {
  }

  lemma EncodeFitsInt32(date: Date)
    requires Valid(date) && -4800 <= date.year <= 5_800_000
    ensures EncodeFits(date)
  {
    hide CDiv, Leap;
    MonthTerms(date.month);
    YearTerms(date.year + 4800 - CDiv(14 - date.month, 12));
  }

  // ----- seconds since the epoch -----

  const SECONDS_PER_DAY := 24 * 60 * 60
  const JDN_1970 := 2440588

  lemma EpochNumber()
    ensures JulianDayNumber(Date(1970, 1, 1)) == JDN_1970
  {
  }

  /** struct tm with the calendar year and month already shifted back to their usual origin. */
  datatype Tm = Tm(date: Date, hour: int, minute: int, second: int, wday: int, yday: int)

  /** The earliest second whose day has a date. */
  const FIRST_SECOND := (FIRST_JDN - JDN_1970) * SECONDS_PER_DAY

  /** toUtcTime's split of a second into a day and a second of the day, by truncating division and a correction. */
  function SplitSeconds(t: int): (r: (int, int))
    ensures t == r.0 * SECONDS_PER_DAY + r.1 && 0 <= r.1 < SECONDS_PER_DAY
  {
    var seconds, days := CMod(t, SECONDS_PER_DAY), CDiv(t, SECONDS_PER_DAY);
    if seconds < 0 then (days - 1, seconds + SECONDS_PER_DAY) else (days, seconds)
  }

  /** fillHMS, on the non-negative second of the day. */
  function FillHms(seconds: nat): (r: (nat, nat, nat))
    requires seconds < SECONDS_PER_DAY
    ensures r.0 < 24 && r.1 < 60 && r.2 < 60 && r.0 * 3600 + r.1 * 60 + r.2 == seconds
  {
    var minutes := seconds / 60;
    (minutes / 60, minutes % 60, seconds % 60)
  }

  /** toUtcTime(t, true). */
  function ToUtcTime(t: int): Tm {
    var (days, seconds) := SplitSeconds(t);
    var (hour, minute, second) := FillHms(seconds);
    var j := days + JDN_1970;
    var date := YearMonthDay(j);
    Tm(date, hour, minute, second, CMod(j + 1, 7), j - JulianDayNumber(Date(date.year, 1, 1)))
  }

  function FromUtcTime(tm: Tm): int {
    (JulianDayNumber(tm.date) - JDN_1970) * SECONDS_PER_DAY + tm.hour * 3600 + tm.minute * 60 + tm.second
  }

  predicate ClockTime(tm: Tm) {
    0 <= tm.hour < 24 && 0 <= tm.minute < 60 && 0 <= tm.second < 60
  }

  /** fromUtcTime inverts toUtcTime for positive and negative seconds, and the fields are a real date and time. */
  lemma UtcRoundTrip(t: int)
    requires FIRST_SECOND <= t
    ensures FromUtcTime(ToUtcTime(t)) == t
    ensures ClockTime(ToUtcTime(t)) && Valid(ToUtcTime(t).date) && InRange(ToUtcTime(t).date)
  {
    hide JulianDayNumber, YearMonthDay, SplitSeconds, FillHms, CMod, Valid, InRange;
    var (days, seconds) := SplitSeconds(t);
    NumberRoundTrip(days + JDN_1970);
  }

  /** The last second whose day number decodes without overflow. */
  const LAST_SECOND := (LAST_JDN - JDN_1970 + 1) * SECONDS_PER_DAY - 1

  lemma YearBelow(d: Date)
    requires Valid(d) && InRange(d) && JulianDayNumber(d) <= LAST_JDN
    ensures -4800 <= d.year <= 5_800_000
  {
    hide JulianDayNumber, Valid, InRange, Leap;
    Shifted(d);
    MonthLengths(d);
    DayPositive(d);
    var y := MarchYear(d);
    assert 365 * y <= YearStart(y) by {
      assert y / 100 <= y / 4;
    }
  }

  /**
   * With the ints of the code: on its whole range no int overflows in the split of the second, in either conversion or in
   * the day of the year, and the second comes back.
   */
  lemma UtcRoundTripInt32(t: int)
    requires FIRST_SECOND <= t <= LAST_SECOND
    ensures var days := SplitSeconds(t).0;
            var date := ToUtcTime(t).date;
            && Int32(days) && Int32(days + JDN_1970) && DecodeFits(days + JDN_1970)
            && EncodeFits(date) && EncodeFits(Date(date.year, 1, 1))
    ensures FromUtcTime(ToUtcTime(t)) == t
  {
    hide *;
    UtcRoundTrip(t);
    DayBelow(t);
    DecodeFitsInt32(SplitSeconds(t).0 + JDN_1970);
    var date := ToUtcTime(t).date;
    YearBelow(date);
    EncodeFitsInt32(date);
    JanuaryFirst(date.year);
    EncodeFitsInt32(Date(date.year, 1, 1));
  }

  lemma DayBelow(t: int)
    requires FIRST_SECOND <= t <= LAST_SECOND
    ensures var days := SplitSeconds(t).0;
            && Int32(days) && Int32(days + JDN_1970) && FIRST_JDN <= days + JDN_1970 <= LAST_JDN
            && JulianDayNumber(ToUtcTime(t).date) <= LAST_JDN
  {
    hide JulianDayNumber, YearMonthDay, SplitSeconds, FillHms, CMod, Valid, InRange;
    var (days, seconds) := SplitSeconds(t);
    NumberRoundTrip(days + JDN_1970);
  }

  lemma JanuaryFirst(year: int)
    ensures Valid(Date(year, 1, 1))
  {
  }

  /** And the other way round: every valid date and time is the broken-down form of its second. */
  lemma TmRoundTrip(tm: Tm)
    requires ClockTime(tm) && Valid(tm.date) && InRange(tm.date)
    ensures var back := ToUtcTime(FromUtcTime(tm));
            back.date == tm.date && back.hour == tm.hour && back.minute == tm.minute && back.second == tm.second
  {
    hide JulianDayNumber, YearMonthDay, SplitSeconds, FillHms, CMod, Valid, InRange;
    DateRoundTrip(tm.date);
    var (days, seconds) := SplitSeconds(FromUtcTime(tm));
    assert days == JulianDayNumber(tm.date) - JDN_1970;
    var (hour, minute, second) := FillHms(seconds);
    assert hour == tm.hour;
    assert minute == tm.minute;
  }

  // ----- the day of the year -----

  /** The days of a year before a month, counted by the calendar. */
  function DaysBefore(year: int, month: int): nat
    decreases month
  {
    if month <= 1 then 0 else DaysBefore(year, month - 1) + DaysInMonth(year, month - 1)
  }

  /** Days since the first of January, by the calendar. */
  function DayOfYear(d: Date): int {
    DaysBefore(d.year, d.month) + d.day - 1
  }

  /** January and February, then the months of a year that begins in March. */
  lemma {:induction false} DaysBeforeClosed(year: int, month: int)
    requires 1 <= month <= 12
    ensures DaysBefore(year, month) ==
            if month <= 2 then 31 * (month - 1) else MonthStart(month - 3) + if Leap(year) then 60 else 59
    decreases month
  {
    MonthStartTable();
    hide Leap, MonthStart;
    if 1 < month {
      DaysBeforeClosed(year, month - 1);
    }
  }

  lemma MonthStartTable()
    ensures MonthStart(0) == 0 && MonthStart(1) == 31 && MonthStart(2) == 61 && MonthStart(3) == 92
    ensures MonthStart(4) == 122 && MonthStart(5) == 153 && MonthStart(6) == 184 && MonthStart(7) == 214
    ensures MonthStart(8) == 245 && MonthStart(9) == 275 && MonthStart(10) == 306 && MonthStart(11) == 337
  {
  }

  lemma DaysIntoYear(d: Date)
    requires Valid(d) && InRange(Date(d.year, 1, 1))
    ensures JulianDayNumber(d) - JulianDayNumber(Date(d.year, 1, 1)) == DayOfYear(d)
  {
    hide JulianDayNumber, YearStart, Leap;
    Shifted(d);
    Shifted(Date(d.year, 1, 1));
    YearStartNext(d.year + 4799);
    LeapShift(d.year);
    DaysBeforeClosed(d.year, d.month);
  }

  /** In the first year of the range truncating division loses the leap day of its January. */
  lemma DaysIntoFirstYear(d: Date)
    requires Valid(d) && InRange(d) && d.year == -4800
    ensures JulianDayNumber(d) - JulianDayNumber(Date(d.year, 1, 1)) == DayOfYear(d) - 1
  {
    FirstJanuary();
    assert Leap(-4800) && YearStart(0) == 0;
    hide JulianDayNumber, Leap, YearStart, MonthStart, YearLength, DaysInMonth;
    Shifted(d);
    DaysBeforeClosed(d.year, d.month);
  }

  lemma FirstJanuary()
    ensures JulianDayNumber(Date(-4800, 1, 1)) == -32103
  {
  }

  /** tm_yday is the day of the year exactly outside the first year of the range. */
  lemma YdayIff(t: int)
    requires FIRST_SECOND <= t
    ensures var tm := ToUtcTime(t); tm.yday == DayOfYear(tm.date) <==> tm.date.year != -4800
  {
    hide JulianDayNumber, YearMonthDay, SplitSeconds, FillHms, CMod, Leap, Valid, DayOfYear;
    UtcRoundTrip(t);
    var (days, seconds) := SplitSeconds(t);
    NumberRoundTrip(days + JDN_1970);
    var date := ToUtcTime(t).date;
    if date.year == -4800 {
      DaysIntoFirstYear(date);
    } else {
      DaysIntoYear(date);
    }
  }

  /** And the day of the year stays within the year. */
  lemma DayOfYearInYear(d: Date)
    requires Valid(d)
    ensures 0 <= DayOfYear(d) < if Leap(d.year) then 366 else 365
  {
    hide Leap;
    DaysBeforeClosed(d.year, d.month);
  }

  // ----- the day of the week -----

  /** Sunday is 0; every day number counts, negative ones too. */
  function Weekday(j: int): nat {
    (j + 1) % 7
  }

  /** The week goes round, and 1 January 1970 is a Thursday. */
  lemma WeekdaysCycle(j: int)
    ensures Weekday(j + 1) == (Weekday(j) + 1) % 7 && Weekday(JDN_1970) == 4
  {
  }

  lemma TruncatedWeek(x: int)
    ensures CMod(x, 7) == x % 7 <==> 0 <= x || x % 7 == 0
  {
  }

  /** tm_wday is the day of the week exactly from day number -1 on, and on Sundays before: the remainder truncates. */
  lemma WeekdayIff(t: int)
    ensures var j := SplitSeconds(t).0 + JDN_1970;
            ToUtcTime(t).wday == Weekday(j) <==> -1 <= j || Weekday(j) == 0
  {
    hide JulianDayNumber, YearMonthDay, SplitSeconds, FillHms, CMod;
    TruncatedWeek(SplitSeconds(t).0 + JDN_1970 + 1);
  }

  // ----- what the fields are -----

  /** The fields are those of the day and the second of the day, whatever reads them back. */
  lemma UtcFields(t: int)
    requires FIRST_SECOND <= t
    ensures var tm := ToUtcTime(t);
            var (days, seconds) := SplitSeconds(t);
            && Valid(tm.date) && JulianDayNumber(tm.date) == days + JDN_1970
            && ClockTime(tm) && tm.hour * 3600 + tm.minute * 60 + tm.second == seconds
  {
    hide JulianDayNumber, YearMonthDay, SplitSeconds, FillHms, CMod, Valid, InRange;
    var (days, seconds) := SplitSeconds(t);
    NumberRoundTrip(days + JDN_1970);
  }

  /** The epoch itself, and a second before it. */
  lemma EpochFields()
    ensures ToUtcTime(0).date == Date(1970, 1, 1) && ToUtcTime(0).hour == 0
    ensures ToUtcTime(-1).date == Date(1969, 12, 31) && ToUtcTime(-1).hour == 23 && ToUtcTime(-1).second == 59
  {
    hide JulianDayNumber, YearMonthDay, SplitSeconds, CMod, CDiv;
    EpochSplits();
    EpochNumber();
    DateRoundTrip(Date(1970, 1, 1));
    DateRoundTrip(Date(1969, 12, 31));
    ConsecutiveDays(Date(1969, 12, 31));
  }

  lemma EpochSplits()
    ensures SplitSeconds(0) == (0, 0) && SplitSeconds(-1) == (-1, 86399)
  {
  }
}
