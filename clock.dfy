/** Naive local wall-clock time as the billing code uses Python's datetime: hour truncation,
    the calendar date of an instant, and that date's "MM-DD" text. */
module Clock {

  /** Microseconds since 1970-01-01 00:00:00, naive local time (datetime's finest unit). */
  type Timestamp = int

  const MicrosPerHour: int := 3_600_000_000
  const MicrosPerDay: int := 24 * MicrosPerHour

  /** `t.replace(minute=0, second=0, microsecond=0)`: the o'clock instant at or before t. */
  function HourFloor(t: Timestamp): (r: Timestamp)
    ensures r <= t < r + MicrosPerHour
    ensures r % MicrosPerHour == 0
  {
    t - t % MicrosPerHour
  }

  /** The next o'clock boundary strictly after t (`HourFloor(t) + timedelta(hours=1)`). */
  function NextHour(t: Timestamp): (r: Timestamp)
    ensures t < r <= t + MicrosPerHour
    ensures r % MicrosPerHour == 0
  {
    HourFloor(t) + MicrosPerHour
  }

  /** Within the hour that starts at an o'clock instant, the next boundary is one hour on. */
  lemma NextHourWithin(base: Timestamp, offset: int)
    requires base % MicrosPerHour == 0 && 0 <= offset < MicrosPerHour
    ensures NextHour(base + offset) == base + MicrosPerHour
  {
    var q := base / MicrosPerHour;
    assert base == q * MicrosPerHour;
    assert (base + offset) % MicrosPerHour == offset;
  }

  /** `dt.date()`, as a day number: day 0 is 1970-01-01. */
  function DayOf(t: Timestamp): (d: int)
    ensures d * MicrosPerDay <= t < (d + 1) * MicrosPerDay
  {
    t / MicrosPerDay
  }

  predicate IsLeapYear(y: int) {
    y % 4 == 0 && (y % 100 != 0 || y % 400 == 0)
  }

  function DaysInYear(y: int): int {
    if IsLeapYear(y) then 366 else 365
  }

  function DaysInMonth(m: int, leap: bool): int
    requires 1 <= m <= 12
  {
    if m == 2 then (if leap then 29 else 28)
    else if m == 4 || m == 6 || m == 9 || m == 11 then 30
    else 31
  }

  /** Days from the first of month m to the end of the year. */
  function DaysFromMonth(m: int, leap: bool): int
    requires 1 <= m <= 12
    decreases 12 - m
  {
    if m == 12 then DaysInMonth(12, leap) else DaysInMonth(m, leap) + DaysFromMonth(m + 1, leap)
  }

  lemma MonthsFillYear(y: int)
    ensures DaysFromMonth(1, IsLeapYear(y)) == DaysInYear(y)
  {
    var leap := IsLeapYear(y);
    assert DaysFromMonth(10, leap) == 92;
    assert DaysFromMonth(7, leap) == 184;
    assert DaysFromMonth(4, leap) == 275;
  }

  datatype Date = Date(year: int, month: int, day: int)

  /** The year and zero-based day of year of the date n days after 1 January of year y. */
  function YearAndOrdinal(y: int, n: nat): (r: (int, nat))
    ensures y <= r.0 && r.1 <= n && r.1 < DaysInYear(r.0)
    decreases n
  {
    if n < DaysInYear(y) then (y, n) else YearAndOrdinal(y + 1, n - DaysInYear(y))
  }

  /** The month and day of month of the zero-based day n counted from the first of month m. */
  function MonthAndDay(m: int, n: nat, leap: bool): (r: (int, int))
    requires 1 <= m <= 12 && n < DaysFromMonth(m, leap)
    ensures m <= r.0 <= 12 && 1 <= r.1 <= DaysInMonth(r.0, leap)
    decreases 12 - m
  {
    if n < DaysInMonth(m, leap) then (m, n + 1)
    else MonthAndDay(m + 1, n - DaysInMonth(m, leap), leap)
  }

  /** Days from 1970-01-01 to 2000-01-01, and the length of a Gregorian 400-year cycle. */
  const DaysTo2000: int := 10957
  const DaysPer400Years: int := 146097

  /** The proleptic Gregorian date of day number d. */
  function CivilDate(d: int): (r: Date)
    ensures 1 <= r.month <= 12 && 1 <= r.day <= DaysInMonth(r.month, IsLeapYear(r.year))
  {
    var z := d - DaysTo2000;
    var yo := YearAndOrdinal(2000 + 400 * (z / DaysPer400Years), z % DaysPer400Years);
    MonthsFillYear(yo.0);
    var md := MonthAndDay(1, yo.1, IsLeapYear(yo.0));
    Date(yo.0, md.0, md.1)
  }

  function Digit(n: int): char
    requires 0 <= n < 10
  {
    ('0' as int + n) as char
  }

  function TwoDigits(n: int): string
    requires 0 <= n < 100
  {
    [Digit(n / 10), Digit(n % 10)]
  }

  /** A decimal digit character. */
  predicate IsDigit(c: char) {
    '0' <= c <= '9'
  }

  /** The number two digit characters spell, most significant first. */
  function DigitsValue(hi: char, lo: char): int {
    (hi as int - '0' as int) * 10 + (lo as int - '0' as int)
  }

  /** The "MM-DD" text of a month and a day, zero-padded as strftime("%m-%d") writes it:
      two digits spelling the month, a dash, two digits spelling the day. */
  function MonthDayText(month: int, day: int): (k: string)
    requires 1 <= month <= 12 && 1 <= day <= 31
    ensures |k| == 5 && k[2] == '-'
    ensures IsDigit(k[0]) && IsDigit(k[1]) && IsDigit(k[3]) && IsDigit(k[4])
    ensures DigitsValue(k[0], k[1]) == month && DigitsValue(k[3], k[4]) == day
  {
    TwoDigits(month) + "-" + TwoDigits(day)
  }

  /** `dt.strftime("%m-%d")` for the date of day number d. */
  function MonthDayKey(d: int): (k: string)
    ensures |k| == 5 && k[2] == '-'
    ensures IsDigit(k[0]) && IsDigit(k[1]) && IsDigit(k[3]) && IsDigit(k[4])
    ensures DigitsValue(k[0], k[1]) == CivilDate(d).month && DigitsValue(k[3], k[4]) == CivilDate(d).day
  {
    var c := CivilDate(d);
    MonthDayText(c.month, c.day)
  }

  /** Distinct month-days have distinct "MM-DD" texts. */
  lemma MonthDayTextInjective(m1: int, d1: int, m2: int, d2: int)
    requires 1 <= m1 <= 12 && 1 <= d1 <= 31 && 1 <= m2 <= 12 && 1 <= d2 <= 31
    ensures MonthDayText(m1, d1) == MonthDayText(m2, d2) <==> m1 == m2 && d1 == d2
  {
    if MonthDayText(m1, d1) == MonthDayText(m2, d2) {
      assert MonthDayText(m1, d1)[0] == MonthDayText(m2, d2)[0];
      assert MonthDayText(m1, d1)[1] == MonthDayText(m2, d2)[1];
      assert MonthDayText(m1, d1)[3] == MonthDayText(m2, d2)[3];
      assert MonthDayText(m1, d1)[4] == MonthDayText(m2, d2)[4];
    }
  }

  /** Two days share their "MM-DD" key exactly when they fall on the same month and day,
      whatever their years: a special month-day recurs every year. */
  lemma SameKeyIffSameMonthDay(d1: int, d2: int)
    ensures MonthDayKey(d1) == MonthDayKey(d2) <==>
            CivilDate(d1).month == CivilDate(d2).month && CivilDate(d1).day == CivilDate(d2).day
  {
    var c1, c2 := CivilDate(d1), CivilDate(d2);
    MonthDayTextInjective(c1.month, c1.day, c2.month, c2.day);
  }

  /** 2000 is a leap year: its 29 February exists and 1 March follows it. */
  lemma LeapDayOf2000()
    ensures CivilDate(DaysTo2000) == Date(2000, 1, 1)
    ensures CivilDate(DaysTo2000 + 59) == Date(2000, 2, 29)
    ensures CivilDate(DaysTo2000 + 60) == Date(2000, 3, 1) && MonthDayKey(DaysTo2000 + 60) == "03-01"
  {
  }
}
