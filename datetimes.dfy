/** Naive civil date-times, as Python's `datetime.datetime` without tzinfo:
    the range checks of its constructor and its lexicographic ordering. */
module DateTimes {
  import opened Base

  datatype DateTime = DateTime(year: int, month: int, day: int,
                               hour: int, minute: int, second: int,
                               microsecond: int)

  const MinYear := 1
  const MaxYear := 9999

  /** Proleptic Gregorian leap years. */
  predicate IsLeapYear(y: int) {
    y % 4 == 0 && (y % 100 != 0 || y % 400 == 0)
  }

  function DaysInMonth(y: int, m: int): (n: int)
    requires 1 <= m <= 12
    ensures 28 <= n <= 31
    ensures n == 29 <==> m == 2 && IsLeapYear(y)
  {
    if m == 2 then (if IsLeapYear(y) then 29 else 28)
    else if m == 4 || m == 6 || m == 9 || m == 11 then 30
    else 31
  }

  /** The field ranges `datetime.datetime` accepts. */
  predicate Valid(d: DateTime) {
    && MinYear <= d.year <= MaxYear
    && 1 <= d.month <= 12
    && 1 <= d.day <= DaysInMonth(d.year, d.month)
    && 0 <= d.hour < 24
    && 0 <= d.minute < 60
    && 0 <= d.second < 60
    && 0 <= d.microsecond < 1000000
  }

  /** The constructor `datetime.datetime(y, mo, d, hour=h, minute=mi, second=s)`:
      None where Python raises ValueError. */
  function MakeDateTime(y: int, mo: int, d: int, h: int, mi: int, s: int): (r: Option<DateTime>)
    ensures r.Some? ==> Valid(r.value) && r.value.microsecond == 0
    ensures r.Some? ==> r.value == DateTime(y, mo, d, h, mi, s, 0)
    ensures r.None? <==>
      (|| !(MinYear <= y <= MaxYear) || !(1 <= mo <= 12)
       || !(1 <= d <= DaysInMonth(y, mo)) || !(0 <= h < 24)
       || !(0 <= mi < 60) || !(0 <= s < 60))
  {
    var dt := DateTime(y, mo, d, h, mi, s, 0);
    if Valid(dt) then Some(dt) else None
  }

  /** Python's `<` on two naive datetimes: fields compared left to right. */
  predicate Before(a: DateTime, b: DateTime)
    ensures Before(a, b) ==> a != b && a.year <= b.year
  {
    if a.year != b.year then a.year < b.year
    else if a.month != b.month then a.month < b.month
    else if a.day != b.day then a.day < b.day
    else if a.hour != b.hour then a.hour < b.hour
    else if a.minute != b.minute then a.minute < b.minute
    else if a.second != b.second then a.second < b.second
    else a.microsecond < b.microsecond
  }

  predicate AtMost(a: DateTime, b: DateTime) {
    a == b || Before(a, b)
  }

  /** `<` is a strict total order, so a least element of a finite set is unique. */
  lemma BeforeIsStrictTotalOrder(a: DateTime, b: DateTime, c: DateTime)
    ensures !Before(a, a)
    ensures Before(a, b) ==> !Before(b, a)
    ensures Before(a, b) && Before(b, c) ==> Before(a, c)
    ensures a == b || Before(a, b) || Before(b, a)
  {
  }

  lemma AtMostAntisymmetric(a: DateTime, b: DateTime)
    requires AtMost(a, b) && AtMost(b, a)
    ensures a == b
  {
  }

  /** Boundary behaviour of the validity checks: leap days and month ends. */
  lemma CalendarExamples()
    ensures MakeDateTime(2016, 2, 29, 0, 0, 0).Some?
    ensures MakeDateTime(2000, 2, 29, 0, 0, 0).Some?
    ensures MakeDateTime(1900, 2, 29, 0, 0, 0).None?
    ensures MakeDateTime(2019, 2, 30, 12, 0, 0).None?
    ensures MakeDateTime(2019, 4, 31, 12, 0, 0).None?
    ensures MakeDateTime(0, 1, 1, 0, 0, 0).None?
    ensures MakeDateTime(2019, 13, 1, 0, 0, 0).None?
    ensures MakeDateTime(2019, 8, 15, 24, 0, 0).None?
    ensures MakeDateTime(9999, 12, 31, 23, 59, 59).Some?
  {
  }
}
