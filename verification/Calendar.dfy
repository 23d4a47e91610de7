/** Civil dates and moments in UTC, ordered as `datetime` orders them, and the months they fall in. */
module Calendar {
  datatype Date = Date(year: int, month: int, day: int)
  datatype Moment = Moment(date: Date, micros: nat)

  const DAY_MICROS: nat := 86_400_000_000

  predicate IsLeap(year: int) {
    year % 4 == 0 && (year % 100 != 0 || year % 400 == 0)
  }

  function DaysIn(year: int, month: int): int {
    if month == 2 then if IsLeap(year) then 29 else 28
    else if month in {4, 6, 9, 11} then 30
    else 31
  }

  predicate IsDate(d: Date) {
    1 <= d.month <= 12 && 1 <= d.day <= DaysIn(d.year, d.month)
  }

  predicate IsMoment(m: Moment) {
    IsDate(m.date) && m.micros < DAY_MICROS
  }

  predicate Before(a: Date, b: Date) {
    a.year < b.year
    || (a.year == b.year && (a.month < b.month || (a.month == b.month && a.day < b.day)))
  }

  predicate NotAfter(a: Date, b: Date) {
    a == b || Before(a, b)
  }

  predicate Earlier(a: Moment, b: Moment) {
    Before(a.date, b.date) || (a.date == b.date && a.micros < b.micros)
  }

  predicate NotLater(a: Moment, b: Moment) {
    a == b || Earlier(a, b)
  }

  function NextDay(d: Date): Date {
    if d.day < DaysIn(d.year, d.month) then Date(d.year, d.month, d.day + 1)
    else if d.month < 12 then Date(d.year, d.month + 1, 1)
    else Date(d.year + 1, 1, 1)
  }

  function MonthStart(now: Moment): Moment {
    Moment(Date(now.date.year, now.date.month, 1), 0)
  }

  function NextMonth(start: Moment): Moment {
    if start.date.month == 12 then Moment(Date(start.date.year + 1, 1, 1), 0)
    else Moment(Date(start.date.year, start.date.month + 1, 1), 0)
  }

  predicate IsMonthStart(m: Moment) {
    IsMoment(m) && m == MonthStart(m)
  }

  /** A moment lies in exactly one month: the one that starts at `MonthStart` of it, and in no other. */
  lemma MonthsPartitionTime(now: Moment, start: Moment)
    requires IsMoment(now) && IsMonthStart(start)
    ensures NotLater(start, now) && Earlier(now, NextMonth(start)) <==> start == MonthStart(now)
  {
  }

  lemma NowIsInItsMonth(now: Moment)
    requires IsMoment(now)
    ensures NotLater(MonthStart(now), now) && Earlier(now, NextMonth(MonthStart(now)))
    ensures IsMonthStart(MonthStart(now)) && IsMonthStart(NextMonth(MonthStart(now)))
  {
  }

  /** The Gregorian calendar: leap years and the lengths of the months; a day has 24 hours. */
  lemma Gregorian(year: int, month: int, m: Moment)
    ensures IsLeap(year) <==> year % 400 == 0 || (year % 4 == 0 && year % 100 != 0)
    ensures 1 <= month <= 12 ==>
      DaysIn(year, month) == [31, if IsLeap(year) then 29 else 28, 31, 30, 31, 30, 31, 31, 30, 31, 30, 31][month - 1]
    ensures IsMoment(m) <==> IsDate(m.date) && m.micros < 24 * 60 * 60 * 1_000_000
  {
  }
}
