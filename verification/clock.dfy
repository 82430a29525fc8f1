/** Wall-clock time as the panel uses it. A timestamp is a whole number of
    minutes on the tenant's local clock, counted from 1970-01-01 00:00; a
    day is a whole number of days from that date, which was a Thursday.
    Time zones, daylight-saving shifts and seconds are outside the model. */
module Clock {
  import opened Values
  import opened Text

  const MinutesPerDay: int := 1440

  /** A time of day written `HH:MM`, as minutes after midnight; `24:00`
      (the end of the day) is included. */
  type ClockMinute = m: int | 0 <= m <= MinutesPerDay

  /** The timestamp of midnight opening day `day`. */
  function DayStart(day: int): int {
    day * 1440
  }

  /** The calendar day a local timestamp falls on. */
  function DayOf(t: int): (d: int)
    ensures DayStart(d) <= t < DayStart(d + 1)
  {
    t / 1440
  }

  /** The time of day of a local timestamp (`getHours() * 60 + getMinutes()`). */
  function MinuteOfDay(t: int): (m: int)
    ensures 0 <= m < MinutesPerDay
    ensures t == DayStart(DayOf(t)) + m
  {
    t % 1440
  }

  /** A time `m` minutes into day `day` falls on that day, at `m`. */
  lemma MinuteOfDayAt(day: int, m: int)
    requires 0 <= m < MinutesPerDay
    ensures DayOf(DayStart(day) + m) == day
    ensures MinuteOfDay(DayStart(day) + m) == m
  {
  }

  /** `new Date(`${date}T00:00:00`).getDay()`: 0 is Sunday, 6 Saturday. */
  function WeekdayOf(day: int): (w: int)
    ensures 0 <= w < 7
    ensures day == 0 ==> w == 4
  {
    (day + 4) % 7
  }

  /** Consecutive days have consecutive weekdays, and the week repeats. */
  lemma WeekdayStep(day: int)
    ensures WeekdayOf(day + 1) == (WeekdayOf(day) + 1) % 7
    ensures WeekdayOf(day + 7) == WeekdayOf(day)
  {
  }

  /** Text of the form `HH:MM`. */
  predicate IsHourText(s: string) {
    |s| == 5 && s[2] == ':' && AllDigits(s[..2]) && AllDigits(s[3..])
  }

  function ParseHour(s: string): int
    requires IsHourText(s)
  {
    DigitsValue(s[..2]) * 60 + DigitsValue(s[3..])
  }

  /** `formatHourLocal` (and the `pt-BR` two-digit `toLocaleTimeString`):
      zero-padded hours, a colon, zero-padded minutes. */
  function FormatHour(m: int): (r: string)
    requires 0 <= m < MinutesPerDay
    ensures |r| == 5 && r[2] == ':'
  {
    PadStart2(m / 60) + ":" + PadStart2(m % 60)
  }

  /** The label is `HH:MM` text from which the time of day reads back. */
  lemma FormatHourReadsBack(m: int)
    requires 0 <= m < MinutesPerDay
    ensures IsHourText(FormatHour(m))
    ensures ParseHour(FormatHour(m)) == m
  {
    var hh := PadStart2(m / 60);
    var mm := PadStart2(m % 60);
    var r := FormatHour(m);
    assert r[..2] == hh && r[3..] == mm;
  }

  /** Different times of day never print alike. */
  lemma FormatHourInjective(a: int, b: int)
    requires 0 <= a < MinutesPerDay && 0 <= b < MinutesPerDay
    requires FormatHour(a) == FormatHour(b)
    ensures a == b
  {
    FormatHourReadsBack(a);
    FormatHourReadsBack(b);
  }

  /** A local calendar date as JavaScript's `getFullYear`, `getMonth() + 1`
      and `getDate` report it. */
  datatype CivilDate = CivilDate(year: int, month: int, day: int)

  /** A calendar date a JavaScript `Date` can report: a real month and a
      day that month has in that (proleptic Gregorian) year. */
  predicate ValidCivil(d: CivilDate) {
    1 <= d.month <= 12 && 1 <= d.day <= DaysInMonth(d.year, d.month)
  }

  predicate LeapYear(y: int) {
    (y % 4 == 0 && y % 100 != 0) || y % 400 == 0
  }

  function DaysInMonth(y: int, month: int): (r: int)
    requires 1 <= month <= 12
    ensures 28 <= r <= 31
    ensures r == 31 <==> month in {1, 3, 5, 7, 8, 10, 12}
    ensures month == 2 ==> (r == 29 <==> LeapYear(y))
  {
    if month == 2 then (if LeapYear(y) then 29 else 28)
    else if month in {4, 6, 9, 11} then 30
    else 31
  }

  function Pow10(k: nat): nat {
    if k == 0 then 1 else 10 * Pow10(k - 1)
  }

  lemma {:induction false} NatToStringLength(n: nat, k: nat)
    requires Pow10(k) <= n < Pow10(k + 1)
    ensures |NatToString(n)| == k + 1
  {
    if k > 0 {
      NatToStringLength(n / 10, k - 1);
    }
  }

  /** Text that starts with `YYYY-MM-DD` (the regular expression
      `^(\d{4})-(\d{2})-(\d{2})`). */
  predicate IsIsoDatePrefix(s: string) {
    && |s| >= 10 && s[4] == '-' && s[7] == '-'
    && AllDigits(s[..4]) && AllDigits(s[5..7]) && AllDigits(s[8..10])
  }

  function ReadIsoDate(s: string): CivilDate
    requires IsIsoDatePrefix(s)
  {
    CivilDate(DigitsValue(s[..4]), DigitsValue(s[5..7]), DigitsValue(s[8..10]))
  }

  /** `dateKey`: `""` for an invalid date, otherwise `Y-MM-DD` with the year
      unpadded; a four-digit year gives text that reads back as the date. */
  function DateKey(d: Option<CivilDate>): (r: string)
    requires d.Some? ==> ValidCivil(d.value)
    ensures r == "" <==> d.None?
    ensures d.Some? && 1000 <= d.value.year <= 9999 ==>
      |r| == 10 && IsIsoDatePrefix(r) && ReadIsoDate(r) == d.value
  {
    match d
    case None => ""
    case Some(c) =>
      var y := IntToString(c.year);
      var mm := PadStart2(c.month);
      var dd := PadStart2(c.day);
      var r := y + "-" + mm + "-" + dd;
      assert 1000 <= c.year <= 9999 ==> |r| == 10 && IsIsoDatePrefix(r) && ReadIsoDate(r) == c by {
        if 1000 <= c.year <= 9999 {
          NatToStringLength(c.year, 3);
          NatToStringValue(c.year);
          assert r[..4] == y && r[5..7] == mm && r[8..10] == dd;
        }
      }
      r
  }
}
