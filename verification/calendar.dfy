/**
  The few calendar operations of `java.time.LocalDateTime` the calculation uses: subtracting
  one hour (which may cross into the previous day, month or year) and the day of the year,
  over the proleptic Gregorian calendar.
*/
module Calendar {

  datatype DateTime = DateTime(year: int, month: int, day: int, hour: int, minute: int)

  predicate IsLeapYear(year: int) {
    year % 4 == 0 && (year % 100 != 0 || year % 400 == 0)
  }

  function DaysInYear(year: int): int {
    if IsLeapYear(year) then 366 else 365
  }

  function DaysInMonth(year: int, month: int): (n: int)
    requires 1 <= month <= 12
    ensures 28 <= n <= 31
    ensures month == 2 ==> (n == 29 <==> IsLeapYear(year))
  {
    if month == 2 then (if IsLeapYear(year) then 29 else 28)
    else if month == 4 || month == 6 || month == 9 || month == 11 then 30
    else 31
  }

  /** A date and time `LocalDateTime` can hold (seconds are always zero in the weather data). */
  predicate Valid(t: DateTime) {
    && 1 <= t.month <= 12
    && 1 <= t.day <= DaysInMonth(t.year, t.month)
    && 0 <= t.hour < 24
    && 0 <= t.minute < 60
  }

  /** The values of `LocalDateTime`: only valid dates and times exist. */
  type LocalDateTime = t: DateTime | Valid(t) witness DateTime(2000, 1, 1, 0, 0)

  /** The same time of day on the previous calendar day. */
  function PreviousDay(t: DateTime): (r: DateTime)
    requires Valid(t)
    ensures Valid(r)
  {
    if t.day > 1 then t.(day := t.day - 1)
    else if t.month > 1 then t.(month := t.month - 1, day := DaysInMonth(t.year, t.month - 1))
    else t.(year := t.year - 1, month := 12, day := 31)
  }

  /** The same time of day on the next calendar day. */
  function NextDay(t: DateTime): (r: DateTime)
    requires Valid(t)
    ensures Valid(r)
  {
    if t.day < DaysInMonth(t.year, t.month) then t.(day := t.day + 1)
    else if t.month < 12 then t.(month := t.month + 1, day := 1)
    else t.(year := t.year + 1, month := 1, day := 1)
  }

  /** `localDateTime.minusHours(1)`. */
  function MinusOneHour(t: DateTime): (r: DateTime)
    requires Valid(t)
    ensures Valid(r)
    ensures r.minute == t.minute
    ensures 1 <= t.hour ==> r == t.(hour := t.hour - 1)
    ensures t.hour == 0 ==> r.hour == 23
  {
    if t.hour > 0 then t.(hour := t.hour - 1)
    else PreviousDay(t).(hour := 23)
  }

  /** `localDateTime.plusHours(1)`, the inverse of `MinusOneHour`. */
  function PlusOneHour(t: DateTime): (r: DateTime)
    requires Valid(t)
    ensures Valid(r)
    ensures r.minute == t.minute
  {
    if t.hour < 23 then t.(hour := t.hour + 1)
    else NextDay(t).(hour := 0)
  }

  lemma {:induction false} PreviousNextDay(t: DateTime)
    requires Valid(t)
    ensures PreviousDay(NextDay(t)) == t
    ensures NextDay(PreviousDay(t)) == t
  {
  }

  /** Subtracting an hour and adding it back again are inverse to each other. */
  lemma {:induction false} HourRoundTrip(t: DateTime)
    requires Valid(t)
    ensures PlusOneHour(MinusOneHour(t)) == t
    ensures MinusOneHour(PlusOneHour(t)) == t
  {
    PreviousNextDay(t);
  }

  /** Days of the year that precede the first day of `month`. */
  function DaysBeforeMonth(year: int, month: int): (n: int)
    requires 1 <= month <= 12
  {
    var common := [0, 31, 59, 90, 120, 151, 181, 212, 243, 273, 304, 334][month - 1];
    if month > 2 && IsLeapYear(year) then common + 1 else common
  }

  /** The cumulative table agrees with the month lengths, and the last month ends the year. */
  lemma {:induction false} DaysBeforeMonthConsistent(year: int, month: int)
    requires 1 <= month <= 12
    ensures month < 12 ==> DaysBeforeMonth(year, month + 1) == DaysBeforeMonth(year, month) + DaysInMonth(year, month)
    ensures month == 12 ==> DaysBeforeMonth(year, month) + DaysInMonth(year, month) == DaysInYear(year)
  {
  }

  /** `localDateTime.getDayOfYear()`. */
  function DayOfYear(t: DateTime): (n: int)
    requires Valid(t)
    ensures 1 <= n <= DaysInYear(t.year)
    ensures t.month == 1 ==> n == t.day
  {
    DaysBeforeMonthConsistent(t.year, t.month);
    DaysBeforeMonth(t.year, t.month) + t.day
  }

  /** The day of the year counts calendar days: it grows by one from one day to the next,
      and restarts at 1 on New Year's day. */
  lemma {:induction false} DayOfYearNextDay(t: DateTime)
    requires Valid(t)
    ensures NextDay(t).year == t.year ==> DayOfYear(NextDay(t)) == DayOfYear(t) + 1
    ensures NextDay(t).year != t.year ==> DayOfYear(NextDay(t)) == 1 && DayOfYear(t) == DaysInYear(t.year)
  {
    DaysBeforeMonthConsistent(t.year, t.month);
  }
}
