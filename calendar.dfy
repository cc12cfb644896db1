/** Gregorian dates as the date picker produces them, the creation timestamps
    the email table assigns, and the one-day step `get_emails_by_date` takes to
    turn an inclusive end date into an exclusive bound. */
module Calendar {
  import opened Common

  datatype Date = Date(year: int, month: int, day: int)

  /** A creation time: a date and the second of that day. */
  datatype Timestamp = Timestamp(date: Date, second: int)

  predicate IsLeapYear(y: int)
  {
    y % 4 == 0 && (y % 100 != 0 || y % 400 == 0)
  }

  function DaysInMonth(y: int, m: int): int
    requires 1 <= m <= 12
  {
    if m == 2 then (if IsLeapYear(y) then 29 else 28)
    else if m == 4 || m == 6 || m == 9 || m == 11 then 30
    else 31
  }

  /** A date Python's `datetime` can represent (years 1 to 9999). */
  predicate ValidDate(d: Date)
  {
    1 <= d.year <= 9999 && 1 <= d.month <= 12 && 1 <= d.day <= DaysInMonth(d.year, d.month)
  }

  predicate ValidTimestamp(t: Timestamp)
  {
    ValidDate(t.date) && 0 <= t.second < 86400
  }

  /** A number that orders valid dates as the calendar does. */
  function DayKey(d: Date): int
  {
    (d.year * 13 + d.month) * 32 + d.day
  }

  /** A number that orders valid timestamps as time does. */
  function InstantKey(t: Timestamp): int
  {
    DayKey(t.date) * 86400 + t.second
  }

  /** The first instant of a day: how the database reads a bare `YYYY-MM-DD`
      compared with a timestamp. */
  function Midnight(d: Date): Timestamp
  {
    Timestamp(d, 0)
  }

  /** `datetime.strptime(end, '%Y-%m-%d') + timedelta(days=1)`; None where Python
      raises OverflowError, past 9999-12-31. The result is the immediate
      successor: a valid date comes before it exactly when it is not after d. */
  function NextDay(d: Date): (n: Option<Date>)
    requires ValidDate(d)
    ensures n.None? <==> d == Date(9999, 12, 31)
    ensures n.Some? ==> ValidDate(n.value) && DayKey(d) < DayKey(n.value)
    ensures n.Some? ==> forall x :: ValidDate(x) ==> (DayKey(x) < DayKey(n.value) <==> DayKey(x) <= DayKey(d))
  {
    if d.day < DaysInMonth(d.year, d.month) then Some(Date(d.year, d.month, d.day + 1))
    else if d.month < 12 then Some(Date(d.year, d.month + 1, 1))
    else if d.year < 9999 then Some(Date(d.year + 1, 1, 1))
    else None
  }

  /** For a valid timestamp, being before the first instant of day n is being
      on an earlier day, and not being before the first instant of day s is
      being on day s or later. */
  lemma MidnightBounds(t: Timestamp, d: Date)
    requires ValidTimestamp(t)
    ensures InstantKey(t) < InstantKey(Midnight(d)) <==> DayKey(t.date) < DayKey(d)
    ensures InstantKey(Midnight(d)) <= InstantKey(t) <==> DayKey(d) <= DayKey(t.date)
  {
    var k := DayKey(t.date);
    var m := DayKey(d);
    if k < m {
      assert k * 86400 + 86400 <= m * 86400;
    } else {
      assert m * 86400 <= k * 86400;
    }
  }
}
