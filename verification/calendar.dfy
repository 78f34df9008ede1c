/**
 * The naive date-time value the widget edits, the fallible chrono setters it
 * relies on, the lexicographic order the range clamp uses, and the calendar
 * adjuster that steps the year or the month without leaving the calendar.
 */
module Calendar {
  import opened Wrappers

  /** A time-zone-less date-time at second precision (chrono's NaiveDateTime). */
  datatype NaiveDateTime = NaiveDateTime(year: int, month: int, day: int, hour: int, minute: int, second: int)

  /** The editable fields, in the order the widget lays them out. */
  datatype Field = Year | Month | Day | Hour | Minute | Second

  /** Proleptic Gregorian leap-year rule. */
  predicate IsLeapYear(y: int)
  {
    y % 4 == 0 && (y % 100 != 0 || y % 400 == 0)
  }

  /** Month lengths of a common year, indexed 1..12; index 0 is unused. */
  const MonthEndDays: seq<int> := [0, 31, 28, 31, 30, 31, 30, 31, 31, 30, 31, 30, 31]

  /** Number of days of month `m` of year `y`. */
  function DaysInMonth(y: int, m: int): (n: int)
    requires 1 <= m <= 12
    ensures 28 <= n <= 31
    ensures n == 29 <==> m == 2 && IsLeapYear(y)
    ensures MonthEndDays[m] <= n
  {
    if m == 2 && IsLeapYear(y) then 29 else MonthEndDays[m]
  }

  predicate IsValidDate(y: int, m: int, d: int)
  {
    1 <= m <= 12 && 1 <= d <= DaysInMonth(y, m)
  }

  /** A calendar instant: an existing date and a time of day in 00:00:00..23:59:59. */
  predicate IsValid(v: NaiveDateTime)
  {
    IsValidDate(v.year, v.month, v.day)
    && 0 <= v.hour < 24 && 0 <= v.minute < 60 && 0 <= v.second < 60
  }

  predicate SameTime(a: NaiveDateTime, b: NaiveDateTime)
  {
    a.hour == b.hour && a.minute == b.minute && a.second == b.second
  }

  function Get(v: NaiveDateTime, f: Field): int
  {
    match f
    case Year => v.year
    case Month => v.month
    case Day => v.day
    case Hour => v.hour
    case Minute => v.minute
    case Second => v.second
  }

  /** `v` with field `f` replaced by `n`, valid or not. */
  function Put(v: NaiveDateTime, f: Field, n: int): NaiveDateTime
  {
    match f
    case Year => v.(year := n)
    case Month => v.(month := n)
    case Day => v.(day := n)
    case Hour => v.(hour := n)
    case Minute => v.(minute := n)
    case Second => v.(second := n)
  }

  /**
   * chrono's `with_year`, `with_month`, `with_day`, `with_hour`, `with_minute`
   * and `with_second`: the value with one field replaced, or None when that
   * would not be a calendar instant.
   */
  function With(v: NaiveDateTime, f: Field, n: int): (r: Option<NaiveDateTime>)
    requires IsValid(v)
    ensures r.Some? ==> IsValid(r.value) && Get(r.value, f) == n
    ensures f == Year ==> (r.Some? <==> !(v.month == 2 && v.day == 29) || IsLeapYear(n))
    ensures f == Month ==> (r.Some? <==> 1 <= n <= 12 && v.day <= DaysInMonth(v.year, n))
    ensures f == Day ==> (r.Some? <==> 1 <= n <= DaysInMonth(v.year, v.month))
    ensures f == Hour ==> (r.Some? <==> 0 <= n < 24)
    ensures f == Minute || f == Second ==> (r.Some? <==> 0 <= n < 60)
  {
    var w := Put(v, f, n);
    if IsValid(w) then Some(w) else None
  }

  /** A setter that succeeds leaves every other field as it was. */
  lemma WithKeepsOtherFields(v: NaiveDateTime, f: Field, n: int)
    requires IsValid(v) && With(v, f, n).Some?
    ensures forall g :: g != f ==> Get(With(v, f, n).value, g) == Get(v, g)
  {
  }

  // ---------------------------------------------------------------------------
  // Order: NaiveDateTime compares date first, then time; on valid values that is
  // the lexicographic order on (year, month, day, hour, minute, second).

  predicate Lt(a: NaiveDateTime, b: NaiveDateTime)
  {
    if a.year != b.year then a.year < b.year
    else if a.month != b.month then a.month < b.month
    else if a.day != b.day then a.day < b.day
    else if a.hour != b.hour then a.hour < b.hour
    else if a.minute != b.minute then a.minute < b.minute
    else a.second < b.second
  }

  predicate Le(a: NaiveDateTime, b: NaiveDateTime)
  {
    !Lt(b, a)
  }

  lemma LeIsTotalOrder(a: NaiveDateTime, b: NaiveDateTime, c: NaiveDateTime)
    ensures Le(a, a)
    ensures Le(a, b) && Le(b, a) ==> a == b
    ensures Le(a, b) && Le(b, c) ==> Le(a, c)
    ensures Le(a, b) || Le(b, a)
    ensures Lt(a, b) <==> Le(a, b) && a != b
  {
  }

  // ---------------------------------------------------------------------------
  // The calendar adjuster (the source's DateAdjust trait).

  /** No two consecutive years are both leap years. */
  lemma NeighbourOfLeapYear(y: int)
    requires IsLeapYear(y)
    ensures !IsLeapYear(y + 1) && !IsLeapYear(y - 1)
  {
  }

  /** The fallback of the year steps runs only on 29 February. */
  lemma YearStepFallsBackOnlyOnLeapDay(v: NaiveDateTime, y: int)
    requires y == v.year + 1 || y == v.year - 1
    requires IsValid(v) && With(v, Year, y).None?
    ensures v.month == 2 && v.day == 29 && IsLeapYear(v.year) && !IsLeapYear(y)
  {
  }

  /** Moves to the same month and day of the next year; 29 February becomes the 28th. */
  function IncrementYear(v: NaiveDateTime): (r: NaiveDateTime)
    requires IsValid(v)
    ensures IsValid(r) && r.year == v.year + 1 && r.month == v.month && SameTime(r, v)
    ensures IsValid(v.(year := v.year + 1)) ==> r == v.(year := v.year + 1)
    ensures !IsValid(v.(year := v.year + 1)) ==>
              v.month == 2 && v.day == 29 && r == v.(year := v.year + 1, day := 28)
  {
    match With(v, Year, v.year + 1)
    case Some(w) => w
    case None =>
      assert v.month == 2 && v.day == 29;
      With(With(v, Day, 28).value, Year, v.year + 1).value
  }

  /** Moves to the same month and day of the previous year; 29 February becomes the 28th. */
  function DecrementYear(v: NaiveDateTime): (r: NaiveDateTime)
    requires IsValid(v)
    ensures IsValid(r) && r.year == v.year - 1 && r.month == v.month && SameTime(r, v)
    ensures IsValid(v.(year := v.year - 1)) ==> r == v.(year := v.year - 1)
    ensures !IsValid(v.(year := v.year - 1)) ==>
              v.month == 2 && v.day == 29 && r == v.(year := v.year - 1, day := 28)
  {
    match With(v, Year, v.year - 1)
    case Some(w) => w
    case None =>
      assert v.month == 2 && v.day == 29;
      With(With(v, Day, 28).value, Year, v.year - 1).value
  }

  /**
   * The fallback of the month steps runs only when the current day is past the
   * common-year length of the target month, so the day can be lowered to it.
   */
  lemma MonthStepFallsBackOnlyPastMonthEnd(v: NaiveDateTime, m: int)
    requires IsValid(v) && 1 <= m <= 12 && With(v, Month, m).None?
    ensures v.day > MonthEndDays[m]
  {
  }

  /**
   * Moves to the next month, carrying into the year after December. A day the
   * target month cannot hold is lowered to that month's common-year length.
   */
  function IncrementMonth(v: NaiveDateTime): (r: NaiveDateTime)
    requires IsValid(v)
    ensures IsValid(r) && SameTime(r, v)
    ensures v.month == 12 ==> r == v.(year := v.year + 1, month := 1)
    ensures v.month < 12 ==> r.year == v.year && r.month == v.month + 1
    ensures v.month < 12 && v.day <= DaysInMonth(v.year, v.month + 1) ==> r.day == v.day
    ensures v.month < 12 && v.day > DaysInMonth(v.year, v.month + 1) ==> r.day == MonthEndDays[v.month + 1]
  {
    var newMonth := v.month + 1;
    if newMonth > 12 then
      With(With(v, Year, v.year + 1).value, Month, 1).value
    else
      match With(v, Month, newMonth)
      case Some(w) => w
      case None =>
        assert v.day > MonthEndDays[newMonth];
        With(With(v, Day, MonthEndDays[newMonth]).value, Month, newMonth).value
  }

  /**
   * Moves to the previous month, borrowing from the year before January. A day
   * the target month cannot hold is lowered to that month's common-year length.
   */
  function DecrementMonth(v: NaiveDateTime): (r: NaiveDateTime)
    requires IsValid(v)
    ensures IsValid(r) && SameTime(r, v)
    ensures v.month == 1 ==> r == v.(year := v.year - 1, month := 12)
    ensures v.month > 1 ==> r.year == v.year && r.month == v.month - 1
    ensures v.month > 1 && v.day <= DaysInMonth(v.year, v.month - 1) ==> r.day == v.day
    ensures v.month > 1 && v.day > DaysInMonth(v.year, v.month - 1) ==> r.day == MonthEndDays[v.month - 1]
  {
    var newMonth := v.month - 1;
    if newMonth < 1 then
      With(With(v, Year, v.year - 1).value, Month, 12).value
    else
      match With(v, Month, newMonth)
      case Some(w) => w
      case None =>
        assert v.day > MonthEndDays[newMonth];
        With(With(v, Day, MonthEndDays[newMonth]).value, Month, newMonth).value
  }
}
