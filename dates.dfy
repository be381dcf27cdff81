/** Calendar dates as Python's `datetime` sees them: proleptic Gregorian, years 1 to 9999. */
module Dates {
  import opened Results
  import opened Numerals

  const MinYear := 1
  const MaxYear := 9999

  datatype Date = Date(year: int, month: int, day: int)

  /** The first and last day of one calendar month. */
  datatype MonthSpan = MonthSpan(start: Date, end: Date)

  predicate IsLeapYear(y: int)
  {
    y % 4 == 0 && (y % 100 != 0 || y % 400 == 0)
  }

  function DaysInMonth(y: int, m: int): (n: int)
    requires 1 <= m <= 12
    ensures 28 <= n <= 31
    ensures m == 2 ==> (n == 29 <==> IsLeapYear(y))
  {
    if m == 2 then (if IsLeapYear(y) then 29 else 28)
    else if m == 4 || m == 6 || m == 9 || m == 11 then 30
    else 31
  }

  /** The dates `datetime(year, month, day)` accepts without raising ValueError. */
  predicate ValidDate(d: Date)
  {
    MinYear <= d.year <= MaxYear && 1 <= d.month <= 12 && 1 <= d.day <= DaysInMonth(d.year, d.month)
  }

  function LastDayOfMonth(y: int, m: int): Date
    requires 1 <= m <= 12
  {
    Date(y, m, DaysInMonth(y, m))
  }

  /** `d + timedelta(days=1)`. */
  function NextDay(d: Date): Date
    requires ValidDate(d)
  {
    if d.day < DaysInMonth(d.year, d.month) then Date(d.year, d.month, d.day + 1)
    else if d.month < 12 then Date(d.year, d.month + 1, 1)
    else Date(d.year + 1, 1, 1)
  }

  /** `d - timedelta(days=1)`: the valid date whose next day is d (none exists before 0001-01-01). */
  function PrevDay(d: Date): (p: Date)
    requires ValidDate(d) && d != Date(MinYear, 1, 1)
    ensures ValidDate(p) && NextDay(p) == d
  {
    if d.day > 1 then Date(d.year, d.month, d.day - 1)
    else if d.month > 1 then LastDayOfMonth(d.year, d.month - 1)
    else Date(d.year - 1, 12, 31)
  }

  /**
   * The range the month helpers compute: `datetime(year, month, 1)` and the first day of the
   * following month (`datetime(year + 1, 1, 1)` in December) minus one day. Either constructor
   * raises ValueError outside years 1..9999, so December 9999 has no range.
   */
  function MonthRange(year: int, month: int): (r: Result<MonthSpan>)
    ensures r.Ok? <==> 1 <= month <= 12 && MinYear <= year <= MaxYear && !(year == MaxYear && month == 12)
    ensures r.Err? ==> r.error == DateOutOfRange
    ensures r.Ok? ==> r.value == MonthSpan(Date(year, month, 1), LastDayOfMonth(year, month))
    ensures r.Ok? ==> ValidDate(r.value.start) && ValidDate(r.value.end)
  {
    if !(1 <= month <= 12 && MinYear <= year <= MaxYear) then Err(DateOutOfRange)
    else if month == 12 then
      if year + 1 > MaxYear then Err(DateOutOfRange)
      else Ok(MonthSpan(Date(year, 12, 1), PrevDay(Date(year + 1, 1, 1))))
    else Ok(MonthSpan(Date(year, month, 1), PrevDay(Date(year, month + 1, 1))))
  }

  /** The month before (year, month), as (year, month). */
  function PrevMonth(year: int, month: int): (int, int)
  {
    if month == 1 then (year - 1, 12) else (year, month - 1)
  }

  /** `f"{year}-{month:02d}"`, the key the editor and the reports use for a month. */
  function MonthKey(year: int, month: nat): string
  {
    IntToString(year) + "-" + PadZeros(month, 2)
  }

  /** `d.strftime('%Y-%m-%d')`; the C library prints years below 1000 without padding. */
  function IsoDate(d: Date): string
    requires ValidDate(d)
  {
    NatToString(d.year) + "-" + PadZeros(d.month, 2) + "-" + PadZeros(d.day, 2)
  }

  /** The first of a month prints as its month key followed by "-01". */
  lemma IsoFirstOfMonth(y: int, m: int)
    requires ValidDate(Date(y, m, 1))
    ensures IsoDate(Date(y, m, 1)) == MonthKey(y, m) + "-01"
  {
    assert PadZeros(1, 2) == "01";
  }
}
