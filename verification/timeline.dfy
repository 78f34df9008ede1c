/**
 * The day, hour, minute and second steps: chrono adds or subtracts a plain
 * Duration of one unit, carrying across day, month and year ends. Each step is
 * written here with an explicit carry and proved against a linear timeline:
 * `Instant` counts the seconds since 0000-01-01 00:00:00.
 */
module Timeline {
  import opened Calendar

  // ---------------------------------------------------------------------------
  // One-unit steps with carry.

  function NextDay(v: NaiveDateTime): (r: NaiveDateTime)
    requires IsValid(v)
    ensures IsValid(r) && SameTime(r, v)
  {
    if v.day < DaysInMonth(v.year, v.month) then v.(day := v.day + 1)
    else if v.month < 12 then v.(month := v.month + 1, day := 1)
    else v.(year := v.year + 1, month := 1, day := 1)
  }

  function PrevDay(v: NaiveDateTime): (r: NaiveDateTime)
    requires IsValid(v)
    ensures IsValid(r) && SameTime(r, v)
  {
    if v.day > 1 then v.(day := v.day - 1)
    else if v.month > 1 then v.(month := v.month - 1, day := DaysInMonth(v.year, v.month - 1))
    else v.(year := v.year - 1, month := 12, day := 31)
  }

  function NextHour(v: NaiveDateTime): (r: NaiveDateTime)
    requires IsValid(v)
    ensures IsValid(r) && r.minute == v.minute && r.second == v.second
  {
    if v.hour < 23 then v.(hour := v.hour + 1) else NextDay(v.(hour := 0))
  }

  function PrevHour(v: NaiveDateTime): (r: NaiveDateTime)
    requires IsValid(v)
    ensures IsValid(r) && r.minute == v.minute && r.second == v.second
  {
    if v.hour > 0 then v.(hour := v.hour - 1) else PrevDay(v.(hour := 23))
  }

  function NextMinute(v: NaiveDateTime): (r: NaiveDateTime)
    requires IsValid(v)
    ensures IsValid(r) && r.second == v.second
  {
    if v.minute < 59 then v.(minute := v.minute + 1) else NextHour(v.(minute := 0))
  }

  function PrevMinute(v: NaiveDateTime): (r: NaiveDateTime)
    requires IsValid(v)
    ensures IsValid(r) && r.second == v.second
  {
    if v.minute > 0 then v.(minute := v.minute - 1) else PrevHour(v.(minute := 59))
  }

  function NextSecond(v: NaiveDateTime): (r: NaiveDateTime)
    requires IsValid(v)
    ensures IsValid(r)
  {
    if v.second < 59 then v.(second := v.second + 1) else NextMinute(v.(second := 0))
  }

  function PrevSecond(v: NaiveDateTime): (r: NaiveDateTime)
    requires IsValid(v)
    ensures IsValid(r)
  {
    if v.second > 0 then v.(second := v.second - 1) else PrevMinute(v.(second := 59))
  }

  // ---------------------------------------------------------------------------
  // The linear timeline.

  /** Days from 0000-01-01 to January 1st of year `y` (negative before year 0). */
  function DaysBeforeYear(y: int): int
  {
    365 * y + (y + 3) / 4 - (y + 99) / 100 + (y + 399) / 400
  }

  function DaysInYear(y: int): int
  {
    if IsLeapYear(y) then 366 else 365
  }

  /** Days from January 1st to the first of month `m` of year `y`. */
  function DaysBeforeMonth(y: int, m: int): int
    requires 1 <= m <= 12
  {
    [0, 31, 59, 90, 120, 151, 181, 212, 243, 273, 304, 334][m - 1]
    + (if m > 2 && IsLeapYear(y) then 1 else 0)
  }

  function DayNumber(v: NaiveDateTime): int
    requires 1 <= v.month <= 12
  {
    DaysBeforeYear(v.year) + DaysBeforeMonth(v.year, v.month) + v.day - 1
  }

  function SecondOfDay(v: NaiveDateTime): int
  {
    v.hour * 3600 + v.minute * 60 + v.second
  }

  /** Seconds from 0000-01-01 00:00:00 to `v`. */
  function Instant(v: NaiveDateTime): int
    requires 1 <= v.month <= 12
  {
    DayNumber(v) * 86400 + SecondOfDay(v)
  }

  /** Counting the multiples of 4 below a year moves by one exactly at a multiple of 4. */
  lemma MultiplesOf4(y: int)
    ensures (y + 4) / 4 - (y + 3) / 4 == if y % 4 == 0 then 1 else 0
  {
    var q, r := (y + 3) / 4, (y + 3) % 4;
    assert y + 4 == 4 * q + r + 1;
  }

  lemma MultiplesOf100(y: int)
    ensures (y + 100) / 100 - (y + 99) / 100 == if y % 100 == 0 then 1 else 0
  {
    var q, r := (y + 99) / 100, (y + 99) % 100;
    assert y + 100 == 100 * q + r + 1;
  }

  lemma MultiplesOf400(y: int)
    ensures (y + 400) / 400 - (y + 399) / 400 == if y % 400 == 0 then 1 else 0
  {
    var q, r := (y + 399) / 400, (y + 399) % 400;
    assert y + 400 == 400 * q + r + 1;
  }

  /** A multiple of 400 is a multiple of 100, and a multiple of 100 a multiple of 4. */
  lemma DivisibilityChain(y: int)
    ensures y % 400 == 0 ==> y % 100 == 0
    ensures y % 100 == 0 ==> y % 4 == 0
  {
    var q, a, b := y / 400, y / 100, y / 4;
    assert y == 400 * q + y % 400 && y == 100 * a + y % 100 && y == 4 * b + y % 4;
    if y % 400 == 0 {
      assert y % 100 == 100 * (4 * q - a);
    }
    if y % 100 == 0 {
      assert y % 4 == 4 * (25 * a - b);
    }
  }

  /** Consecutive years are `DaysInYear` apart on the timeline. */
  lemma YearLength(y: int)
    ensures DaysBeforeYear(y + 1) == DaysBeforeYear(y) + DaysInYear(y)
  {
    MultiplesOf4(y);
    MultiplesOf100(y);
    MultiplesOf400(y);
    DivisibilityChain(y);
    var d4 := (y + 4) / 4 - (y + 3) / 4;
    var d100 := (y + 100) / 100 - (y + 99) / 100;
    var d400 := (y + 400) / 400 - (y + 399) / 400;
    assert DaysBeforeYear(y + 1) - DaysBeforeYear(y) == 365 + d4 - d100 + d400;
    assert d4 - d100 + d400 == if IsLeapYear(y) then 1 else 0;
  }

  lemma DaysBeforeYearGrows(a: int, b: int)
    requires a <= b
    ensures DaysBeforeYear(a) + 365 * (b - a) <= DaysBeforeYear(b)
    decreases b - a
  {
    if a < b {
      DaysBeforeYearGrows(a, b - 1);
      YearLength(b - 1);
    }
  }

  /** The first of the next month is `DaysInMonth` after the first of this one. */
  lemma MonthLength(y: int, m: int)
    requires 1 <= m <= 12
    ensures m < 12 ==> DaysBeforeMonth(y, m + 1) == DaysBeforeMonth(y, m) + DaysInMonth(y, m)
    ensures m == 12 ==> DaysBeforeMonth(y, m) + DaysInMonth(y, m) == DaysInYear(y)
  {
  }

  lemma DaysBeforeMonthGrows(y: int, m: int, n: int)
    requires 1 <= m < n <= 12
    ensures DaysBeforeMonth(y, m) + DaysInMonth(y, m) <= DaysBeforeMonth(y, n)
    decreases n - m
  {
    MonthLength(y, m);
    if m + 1 < n {
      DaysBeforeMonthGrows(y, m + 1, n);
    }
  }

  /** A day number stays inside its year. */
  lemma DayNumberInYear(v: NaiveDateTime)
    requires IsValid(v)
    ensures DaysBeforeYear(v.year) <= DayNumber(v) < DaysBeforeYear(v.year + 1)
  {
    YearLength(v.year);
    MonthLength(v.year, 12);
    if v.month < 12 {
      DaysBeforeMonthGrows(v.year, v.month, 12);
    }
  }

  /** Strictly earlier in the lexicographic order means strictly earlier on the timeline. */
  lemma InstantMonotone(a: NaiveDateTime, b: NaiveDateTime)
    requires IsValid(a) && IsValid(b) && Lt(a, b)
    ensures Instant(a) < Instant(b)
  {
    if a.year < b.year {
      DayNumberInYear(a);
      DayNumberInYear(b);
      DaysBeforeYearGrows(a.year + 1, b.year);
    } else if a.month < b.month {
      DaysBeforeMonthGrows(a.year, a.month, b.month);
    } else if a.day == b.day {
      assert SecondOfDay(a) < SecondOfDay(b);
    }
  }

  /** On calendar instants the lexicographic order is the order of the timeline. */
  lemma InstantOrderIsomorphism(a: NaiveDateTime, b: NaiveDateTime)
    requires IsValid(a) && IsValid(b)
    ensures Lt(a, b) <==> Instant(a) < Instant(b)
    ensures a == b <==> Instant(a) == Instant(b)
  {
    LeIsTotalOrder(a, b, a);
    if Lt(a, b) {
      InstantMonotone(a, b);
    } else if Lt(b, a) {
      InstantMonotone(b, a);
    }
  }

  // ---------------------------------------------------------------------------
  // Each step moves the timeline by exactly its unit.

  lemma {:induction false} NextDayIsOneDayLater(v: NaiveDateTime)
    requires IsValid(v)
    ensures Instant(NextDay(v)) == Instant(v) + 86400
  {
    MonthLength(v.year, v.month);
    if v.month == 12 && v.day == 31 {
      YearLength(v.year);
    }
  }

  lemma {:induction false} PrevDayIsOneDayEarlier(v: NaiveDateTime)
    requires IsValid(v)
    ensures Instant(PrevDay(v)) == Instant(v) - 86400
  {
    if v.day == 1 {
      if v.month > 1 {
        MonthLength(v.year, v.month - 1);
      } else {
        YearLength(v.year - 1);
        MonthLength(v.year - 1, 12);
      }
    }
  }

  lemma {:induction false} NextHourIsOneHourLater(v: NaiveDateTime)
    requires IsValid(v)
    ensures Instant(NextHour(v)) == Instant(v) + 3600
  {
    if v.hour == 23 {
      NextDayIsOneDayLater(v.(hour := 0));
    }
  }

  lemma {:induction false} PrevHourIsOneHourEarlier(v: NaiveDateTime)
    requires IsValid(v)
    ensures Instant(PrevHour(v)) == Instant(v) - 3600
  {
    if v.hour == 0 {
      PrevDayIsOneDayEarlier(v.(hour := 23));
    }
  }

  lemma {:induction false} NextMinuteIsOneMinuteLater(v: NaiveDateTime)
    requires IsValid(v)
    ensures Instant(NextMinute(v)) == Instant(v) + 60
  {
    if v.minute == 59 {
      NextHourIsOneHourLater(v.(minute := 0));
    }
  }

  lemma {:induction false} PrevMinuteIsOneMinuteEarlier(v: NaiveDateTime)
    requires IsValid(v)
    ensures Instant(PrevMinute(v)) == Instant(v) - 60
  {
    if v.minute == 0 {
      PrevHourIsOneHourEarlier(v.(minute := 59));
    }
  }

  lemma {:induction false} NextSecondIsOneSecondLater(v: NaiveDateTime)
    requires IsValid(v)
    ensures Instant(NextSecond(v)) == Instant(v) + 1
  {
    if v.second == 59 {
      NextMinuteIsOneMinuteLater(v.(second := 0));
    }
  }

  lemma {:induction false} PrevSecondIsOneSecondEarlier(v: NaiveDateTime)
    requires IsValid(v)
    ensures Instant(PrevSecond(v)) == Instant(v) - 1
  {
    if v.second == 0 {
      PrevMinuteIsOneMinuteEarlier(v.(second := 59));
    }
  }
}
