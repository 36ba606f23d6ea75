/**
  Calendar dates as Python's `datetime.date` holds them (years 1 to 9999), the
  date comparison the evaluator uses, and `relativedelta(months=+/-12)`:
  twelve months normalise to one year, so the month is kept, the year moves by
  one and the day is clamped to the end of the target month.
 */
module Dates {
  import opened Wrappers

  const MinYear: int := 1
  const MaxYear: int := 9999

  datatype Date = Date(year: int, month: int, day: int)

  /** The Gregorian leap-year rule of `calendar.isleap`. */
  predicate IsLeapYear(y: int) {
    y % 4 == 0 && (y % 100 != 0 || y % 400 == 0)
  }

  function DaysInMonth(y: int, m: int): (n: int)
    requires 1 <= m <= 12
    ensures 28 <= n <= 31
    ensures n == 29 <==> m == 2 && IsLeapYear(y)
  {
    if m == 2 then (if IsLeapYear(y) then 29 else 28)
    else if m == 4 || m == 6 || m == 9 || m == 11 then 30
    else 31
  }

  /** A date `datetime.date` accepts. */
  predicate IsValid(d: Date) {
    && MinYear <= d.year <= MaxYear
    && 1 <= d.month <= 12
    && 1 <= d.day <= DaysInMonth(d.year, d.month)
  }

  type PyDate = d: Date | IsValid(d) witness Date(1, 1, 1)

  /** `a <= b` on dates: year, then month, then day. */
  predicate NotAfter(a: Date, b: Date) {
    || a.year < b.year
    || (a.year == b.year && (a.month < b.month || (a.month == b.month && a.day <= b.day)))
  }

  /** `a < b` on dates. */
  predicate Precedes(a: Date, b: Date) {
    NotAfter(a, b) && a != b
  }

  lemma NotAfterIsTotalOrder(a: Date, b: Date, c: Date)
    ensures NotAfter(a, a)
    ensures NotAfter(a, b) && NotAfter(b, a) ==> a == b
    ensures NotAfter(a, b) && NotAfter(b, c) ==> NotAfter(a, c)
    ensures NotAfter(a, b) || NotAfter(b, a)
  {
  }

  /**
    `d + relativedelta(years=n)`: the month is kept and the day clamped to the
    length of that month in the target year; a target year outside what
    `datetime.date` holds raises, which is `None` here.
   */
  function AddYears(d: PyDate, n: int): (r: Option<PyDate>)
    ensures r.Some? <==> MinYear <= d.year + n <= MaxYear
    ensures r.Some? ==> r.value.year == d.year + n && r.value.month == d.month
    ensures r.Some? ==>
      r.value.day == if d.month == 2 && d.day == 29 && !IsLeapYear(d.year + n) then 28 else d.day
  {
    var y := d.year + n;
    if y < MinYear || MaxYear < y then None
    else
      var last := DaysInMonth(y, d.month);
      Some(Date(y, d.month, if d.day <= last then d.day else last))
  }

  /** The bounds `test - relativedelta(months=12)` and `test + relativedelta(months=12)`. */
  datatype Window = Window(lo: PyDate, hi: PyDate)

  function TwelveMonthWindow(test: PyDate): (w: Option<Window>)
    ensures w.Some? <==> MinYear < test.year < MaxYear
    ensures w.Some? ==> NotAfter(w.value.lo, test) && NotAfter(test, w.value.hi)
    ensures w.Some? ==> w.value.lo.year == test.year - 1 && w.value.hi.year == test.year + 1
    ensures w.Some? ==> AddYears(test, -1) == Some(w.value.lo) && AddYears(test, 1) == Some(w.value.hi)
  {
    match (AddYears(test, -1), AddYears(test, 1))
    case (Some(lo), Some(hi)) => Some(Window(lo, hi))
    case _ => None
  }

  /** `lo <= d <= hi`, inclusive at both ends; false when the bounds cannot be computed. */
  predicate InWindow(test: PyDate, d: PyDate) {
    var w := TwelveMonthWindow(test);
    w.Some? && NotAfter(w.value.lo, d) && NotAfter(d, w.value.hi)
  }

  /** The calendar day after `d`, if `datetime.date` holds it. */
  function NextDay(d: PyDate): (r: Option<PyDate>)
    ensures r.None? <==> d == Date(MaxYear, 12, 31)
    ensures r.Some? ==> Precedes(d, r.value)
  {
    if d.day < DaysInMonth(d.year, d.month) then Some(Date(d.year, d.month, d.day + 1))
    else if d.month < 12 then Some(Date(d.year, d.month + 1, 1))
    else if d.year < MaxYear then Some(Date(d.year + 1, 1, 1))
    else None
  }

  /** No valid date lies strictly between a date and the next day. */
  lemma NextDayIsImmediate(d: PyDate, e: PyDate)
    requires NextDay(d).Some? && Precedes(d, e)
    ensures NotAfter(NextDay(d).value, e)
  {
  }

  /** The window contains both of its bounds and nothing one day beyond them. */
  lemma WindowIsInclusive(test: PyDate, before: PyDate)
    requires TwelveMonthWindow(test).Some?
    ensures InWindow(test, TwelveMonthWindow(test).value.lo)
    ensures InWindow(test, TwelveMonthWindow(test).value.hi)
    ensures NextDay(before) == Some(TwelveMonthWindow(test).value.lo) ==> !InWindow(test, before)
    ensures var hi := TwelveMonthWindow(test).value.hi;
            NextDay(hi).Some? ==> !InWindow(test, NextDay(hi).value)
  {
  }

  /** Twelve months either side of 29 February clamp to 28 February. */
  lemma LeapDayClamps()
    ensures AddYears(Date(2024, 2, 29), 1) == Some(Date(2025, 2, 28))
    ensures AddYears(Date(2024, 2, 29), -1) == Some(Date(2023, 2, 28))
    ensures TwelveMonthWindow(Date(2024, 2, 29)) == Some(Window(Date(2023, 2, 28), Date(2025, 2, 28)))
  {
  }

  /** Because of clamping the window relation is not symmetric. */
  lemma WindowIsNotSymmetric()
    ensures !InWindow(Date(2023, 2, 28), Date(2024, 2, 29))
    ensures InWindow(Date(2024, 2, 29), Date(2023, 2, 28))
  {
  }
}
