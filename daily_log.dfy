/** The clock of the daily log (src/components/DailyLog.tsx): instants are
    milliseconds since 1970-01-01T00:00Z, shifted back a fixed five hours and
    read with the UTC getters, which count days in the proleptic Gregorian
    calendar. Parsing the ISO string into an instant is not modelled: the
    caller passes the instant, or `None` for a string `new Date` cannot read
    (its getters then give NaN). */
module DailyLog {
  import opened Text
  import opened Clock
  import opened Optional

  const MsPerMinute := 60000
  const MsPerHour := 3600000
  const MsPerDay := 86400000

  /** `-5 * 60 * 60 * 1000`. */
  const EstOffsetMs := -5 * 60 * 60 * 1000

  // ---- Calendar ----

  predicate IsLeap(y: int) {
    y % 4 == 0 && (y % 100 != 0 || y % 400 == 0)
  }

  function YearLength(y: int): nat {
    if IsLeap(y) then 366 else 365
  }

  function DaysInMonth(m: nat, leap: bool): nat {
    if m == 2 then (if leap then 29 else 28)
    else if m == 4 || m == 6 || m == 9 || m == 11 then 30
    else 31
  }

  /** The day number of January 1 of year `y`, counting 1970-01-01 as 0. */
  function YearStart(y: int): int
    decreases if y < 1970 then 1970 - y else y - 1970
  {
    if y == 1970 then 0
    else if y > 1970 then YearStart(y - 1) + YearLength(y - 1)
    else YearStart(y + 1) - YearLength(y)
  }

  /** The days of the months before month `m`. */
  function DaysBefore(m: nat, leap: bool): nat
    requires 1 <= m <= 12
  {
    if m == 1 then 0 else DaysBefore(m - 1, leap) + DaysInMonth(m - 1, leap)
  }

  /** The days of months `m` to 12. */
  function DaysFrom(m: nat, leap: bool): nat
    requires 1 <= m <= 12
    decreases 12 - m
  {
    if m == 12 then 31 else DaysInMonth(m, leap) + DaysFrom(m + 1, leap)
  }

  lemma {:induction false} DaysSplit(m: nat, leap: bool)
    requires 1 <= m <= 12
    ensures DaysBefore(m, leap) + DaysFrom(m, leap) == (if leap then 366 else 365)
    decreases 12 - m
  {
    if m < 12 {
      DaysSplit(m + 1, leap);
    } else {
      var feb := if leap then 29 else 28;
      assert DaysBefore(2, leap) == 31;
      assert DaysBefore(3, leap) == 31 + feb;
      assert DaysBefore(4, leap) == 62 + feb;
      assert DaysBefore(5, leap) == 92 + feb;
      assert DaysBefore(6, leap) == 123 + feb;
      assert DaysBefore(7, leap) == 153 + feb;
      assert DaysBefore(8, leap) == 184 + feb;
      assert DaysBefore(9, leap) == 215 + feb;
      assert DaysBefore(10, leap) == 245 + feb;
      assert DaysBefore(11, leap) == 276 + feb;
      assert DaysBefore(12, leap) == 306 + feb;
    }
  }

  /** The year and the zero-based day of that year of the day `days` after
      January 1 of year `y`. */
  function YearAndDay(days: int, y: int): (r: (int, nat))
    ensures r.1 < YearLength(r.0)
    decreases if days < 0 then 1 else 0, if days < 0 then -days else days
  {
    if days < 0 then YearAndDay(days + YearLength(y - 1), y - 1)
    else if days < YearLength(y) then (y, days)
    else YearAndDay(days - YearLength(y), y + 1)
  }

  lemma {:induction false} YearAndDayStart(days: int, y: int)
    ensures var r := YearAndDay(days, y); YearStart(r.0) + r.1 == YearStart(y) + days
    decreases if days < 0 then 1 else 0, if days < 0 then -days else days
  {
    if days < 0 {
      YearAndDayStart(days + YearLength(y - 1), y - 1);
      YearStartStep(y);
    } else if days >= YearLength(y) {
      YearAndDayStart(days - YearLength(y), y + 1);
      YearStartStep(y + 1);
    }
  }

  /** January 1 of year `y` comes a year after January 1 of `y - 1`. */
  lemma YearStartStep(y: int)
    ensures YearStart(y) == YearStart(y - 1) + YearLength(y - 1)
  {
  }

  /** The month and the day of the month of the zero-based day `doy` counted
      from the first of month `m`. */
  function MonthAndDay(doy: nat, m: nat, leap: bool): (r: (nat, nat))
    requires 1 <= m <= 12 && doy < DaysFrom(m, leap)
    ensures m <= r.0 <= 12 && 1 <= r.1 <= DaysInMonth(r.0, leap)
    ensures DaysBefore(r.0, leap) + r.1 - 1 == DaysBefore(m, leap) + doy
    decreases 12 - m
  {
    if m == 12 || doy < DaysInMonth(m, leap) then (m, doy + 1)
    else MonthAndDay(doy - DaysInMonth(m, leap), m + 1, leap)
  }

  datatype Date = Date(year: int, month: nat, day: nat)

  predicate IsValidDate(d: Date) {
    1 <= d.month <= 12 && 1 <= d.day <= DaysInMonth(d.month, IsLeap(d.year))
  }

  /** The day number of a date, counting 1970-01-01 as 0. */
  function DayNumber(d: Date): int
    requires IsValidDate(d)
  {
    YearStart(d.year) + DaysBefore(d.month, IsLeap(d.year)) + d.day - 1
  }

  /** The date of day number `days`, as `getUTCFullYear`, `getUTCMonth() + 1`
      and `getUTCDate` read it. */
  function CivilDate(days: int): (d: Date)
    ensures IsValidDate(d)
  {
    var (y, doy) := YearAndDay(days, 1970);
    DaysSplit(1, IsLeap(y));
    var (m, dd) := MonthAndDay(doy, 1, IsLeap(y));
    Date(y, m, dd)
  }

  /** The calendar is a numbering: the date of a day number gives that day
      number back, so distinct days get distinct dates. */
  lemma CivilDateRoundTrip(days: int)
    ensures DayNumber(CivilDate(days)) == days
  {
    YearAndDayStart(days, 1970);
  }

  lemma CivilDateInjective(a: int, b: int)
    requires CivilDate(a) == CivilDate(b)
    ensures a == b
  {
    CivilDateRoundTrip(a);
    CivilDateRoundTrip(b);
  }

  // ---- formatTimeInIndianapolis ----

  /** The minute of the UTC day of an instant. */
  function UtcMinuteOfDay(ms: int): (r: nat)
    ensures r < 1440
  {
    (ms % MsPerDay) / MsPerMinute
  }

  /** The "HH:MM" of the instant `t` on a clock five hours behind UTC. */
  function EstClock(t: int): (clock: string)
    ensures IsTimeOfDay(clock)
  {
    var est := t + EstOffsetMs;
    var msOfDay := est % MsPerDay;
    FormatClock(msOfDay / MsPerHour, (msOfDay / MsPerMinute) % 60)
  }

  /** `formatTimeInIndianapolis(isoString, includeDate)` for the instant the
      string denotes. */
  function FormatLogTime(instant: Option<int>, includeDate: bool): (r: string)
    ensures instant.Some? ==> |r| >= 5 && IsTimeOfDay(r[|r| - 5..])
    ensures instant.Some? && !includeDate ==> IsTimeOfDay(r)
  {
    if instant.None? then
      (if includeDate then "NaN/NaN NaN:NaN" else "NaN:NaN")
    else
      var clock := EstClock(instant.value);
      if includeDate then
        var date := CivilDate((instant.value + EstOffsetMs) / MsPerDay);
        DateAndClock(date.month, date.day, clock);
        Pad2(date.month) + "/" + Pad2(date.day) + " " + clock
      else
        clock
  }

  /** The time shown is the UTC time of day five hours earlier, the same shift
      on every date. */
  lemma FormatLogTimeShift(t: int)
    ensures var r := FormatLogTime(Some(t), false);
      IsTimeOfDay(r) && MinutesOf(r) == (UtcMinuteOfDay(t) + 1140) % 1440
  {
    var a := t % MsPerDay;
    var u := a / MsPerMinute;
    var est := t + EstOffsetMs;
    var msOfDay := est % MsPerDay;
    assert t == (t / MsPerDay) * MsPerDay + a;
    if u >= 300 {
      assert msOfDay == a - 18000000;
      assert msOfDay / MsPerMinute == u - 300;
    } else {
      assert msOfDay == a - 18000000 + MsPerDay;
      assert msOfDay / MsPerMinute == u + 1140;
    }
    var minute := msOfDay / MsPerMinute;
    assert msOfDay / MsPerHour == minute / 60;
  }

  /** Whole days added to the instant leave the time shown unchanged. */
  lemma FormatLogTimePeriodic(t: int, k: int)
    ensures FormatLogTime(Some(t + k * MsPerDay), false) == FormatLogTime(Some(t), false)
  {
    var est := t + EstOffsetMs;
    assert t + k * MsPerDay + EstOffsetMs == est + k * MsPerDay;
    WholeDays(est, k);
  }

  lemma WholeDays(a: int, k: int)
    ensures (a + k * MsPerDay) % MsPerDay == a % MsPerDay
  {
    var q := a / MsPerDay;
    assert a + k * MsPerDay == (q + k) * MsPerDay + a % MsPerDay;
  }

  /** With the date, the output is "MM/DD HH:MM": the month and day of the
      shifted instant's date, a space and the time shown without the date. */
  lemma FormatLogTimeWithDate(t: int)
    ensures var r := FormatLogTime(Some(t), true);
      var d := CivilDate((t + EstOffsetMs) / MsPerDay);
      && |r| == 11 && r[2] == '/' && r[5] == ' '
      && ParseDigits(r[..2]) == d.month && ParseDigits(r[3..5]) == d.day
      && r[6..] == FormatLogTime(Some(t), false)
      && DayNumber(d) == (t + EstOffsetMs) / MsPerDay
  {
    var d := CivilDate((t + EstOffsetMs) / MsPerDay);
    CivilDateRoundTrip((t + EstOffsetMs) / MsPerDay);
    var clock := FormatLogTime(Some(t), false);
    FormatLogTimeShift(t);
    DateAndClock(d.month, d.day, clock);
  }

  /** The layout of "MM/DD HH:MM". */
  lemma DateAndClock(month: nat, day: nat, clock: string)
    requires month < 100 && day < 100 && |clock| == 5
    ensures var r := Pad2(month) + "/" + Pad2(day) + " " + clock;
      && |r| == 11 && r[2] == '/' && r[5] == ' ' && r[6..] == clock
      && r[..2] == Pad2(month) && r[3..5] == Pad2(day)
  {
  }

  // ---- getCurrentDateInIndianapolis ----

  /** "YYYY-MM-DD" with the month and the day padded to two digits and the
      year as `String` writes it. */
  function DateString(d: Date): string {
    IntToString(d.year) + "-" + Pad2(d.month) + "-" + Pad2(d.day)
  }

  /** `getCurrentDateInIndianapolis()` for the instant `now` on a browser whose
      `getTimezoneOffset()` is `tzOffset` minutes: the local getters read the
      instant `tzOffset` minutes earlier in UTC terms. */
  function CurrentDate(now: int, tzOffset: int): (r: string)
  {
    var estDate := now + tzOffset * MsPerMinute - 5 * MsPerHour;
    var local := estDate - tzOffset * MsPerMinute;
    DateString(CivilDate(local / MsPerDay))
  }

  /** The browser's own offset cancels out: the date is that of the instant
      five hours earlier, the date whose month and day the log shows. */
  lemma CurrentDateIsEasternDate(now: int, tzOffset: int)
    ensures CurrentDate(now, tzOffset) == DateString(CivilDate((now + EstOffsetMs) / MsPerDay))
  {
    var shift := tzOffset * MsPerMinute;
    assert now + shift - 5 * MsPerHour - shift == now + EstOffsetMs;
  }

  /** For a four-digit year the date is "YYYY-MM-DD", ten characters. */
  lemma DateStringShape(d: Date)
    requires 1000 <= d.year <= 9999 && IsValidDate(d)
    ensures var r := DateString(d);
      && |r| == 10 && r[4] == '-' && r[7] == '-' && AllDigits(r[..4]) && ParseDigits(r[..4]) == d.year
      && ParseDigits(r[5..7]) == d.month && ParseDigits(r[8..]) == d.day
  {
    var y := NatToString(d.year);
    NatToStringFourDigits(d.year);
    ParseNatToString(d.year);
    var r := DateString(d);
    assert r == y + "-" + Pad2(d.month) + "-" + Pad2(d.day);
    assert r[..4] == y;
    assert r[5..7] == Pad2(d.month);
    assert r[8..] == Pad2(d.day);
  }

  lemma NatToStringFourDigits(n: nat)
    requires 1000 <= n <= 9999
    ensures |NatToString(n)| == 4
  {
    assert NatToString(n) == NatToString(n / 10) + [DigitChar(n % 10)];
    assert NatToString(n / 10) == NatToString(n / 100) + [DigitChar((n / 10) % 10)];
    assert NatToString(n / 100) == NatToString(n / 1000) + [DigitChar((n / 100) % 10)];
  }
}
