/**
 * The step dispatch of the editor (one calendar unit up or down in a given
 * field) and the laws the adjuster obeys.
 */
module Adjust {
  import opened Calendar
  import opened Timeline

  /** One unit up in field `f`: the adjuster for year and month, a Duration for the rest. */
  function Increase(v: NaiveDateTime, f: Field): (r: NaiveDateTime)
    requires IsValid(v)
    ensures IsValid(r)
  {
    match f
    case Year => IncrementYear(v)
    case Month => IncrementMonth(v)
    case Day => NextDay(v)
    case Hour => NextHour(v)
    case Minute => NextMinute(v)
    case Second => NextSecond(v)
  }

  /** One unit down in field `f`. */
  function Decrease(v: NaiveDateTime, f: Field): (r: NaiveDateTime)
    requires IsValid(v)
    ensures IsValid(r)
  {
    match f
    case Year => DecrementYear(v)
    case Month => DecrementMonth(v)
    case Day => PrevDay(v)
    case Hour => PrevHour(v)
    case Minute => PrevMinute(v)
    case Second => PrevSecond(v)
  }

  /** Length in seconds of the Duration stepped for a day or time field. */
  function UnitSeconds(f: Field): int
  {
    match f
    case Day => 86400
    case Hour => 3600
    case Minute => 60
    case Second => 1
    case _ => 0
  }

  predicate IsDurationField(f: Field)
  {
    f == Day || f == Hour || f == Minute || f == Second
  }

  /** A day, hour, minute or second step moves the timeline by exactly its unit. */
  lemma DurationShift(v: NaiveDateTime, f: Field)
    requires IsValid(v) && IsDurationField(f)
    ensures Instant(Increase(v, f)) == Instant(v) + UnitSeconds(f)
    ensures Instant(Decrease(v, f)) == Instant(v) - UnitSeconds(f)
  {
    match f {
      case Day => NextDayIsOneDayLater(v); PrevDayIsOneDayEarlier(v);
      case Hour => NextHourIsOneHourLater(v); PrevHourIsOneHourEarlier(v);
      case Minute => NextMinuteIsOneMinuteLater(v); PrevMinuteIsOneMinuteEarlier(v);
      case Second => NextSecondIsOneSecondLater(v); PrevSecondIsOneSecondEarlier(v);
    }
  }

  /**
   * A day, hour, minute or second step is plain Duration arithmetic: the result
   * is the one calendar instant that lies exactly one unit later (earlier).
   */
  lemma DurationStep(v: NaiveDateTime, f: Field)
    requires IsValid(v) && IsDurationField(f)
    ensures Instant(Increase(v, f)) == Instant(v) + UnitSeconds(f)
    ensures Instant(Decrease(v, f)) == Instant(v) - UnitSeconds(f)
    ensures forall w :: IsValid(w) && Instant(w) == Instant(v) + UnitSeconds(f) ==> w == Increase(v, f)
    ensures forall w :: IsValid(w) && Instant(w) == Instant(v) - UnitSeconds(f) ==> w == Decrease(v, f)
  {
    DurationShift(v, f);
    forall w | IsValid(w) && Instant(w) == Instant(v) + UnitSeconds(f)
      ensures w == Increase(v, f)
    {
      InstantOrderIsomorphism(w, Increase(v, f));
    }
    forall w | IsValid(w) && Instant(w) == Instant(v) - UnitSeconds(f)
      ensures w == Decrease(v, f)
    {
      InstantOrderIsomorphism(w, Decrease(v, f));
    }
  }

  /** Stepping a day or time field down undoes stepping it up, and the other way round. */
  lemma DurationStepRoundTrip(v: NaiveDateTime, f: Field)
    requires IsValid(v) && IsDurationField(f)
    ensures Decrease(Increase(v, f), f) == v
    ensures Increase(Decrease(v, f), f) == v
  {
    var up, down := Increase(v, f), Decrease(v, f);
    DurationShift(v, f);
    DurationShift(up, f);
    DurationShift(down, f);
    InstantOrderIsomorphism(Decrease(up, f), v);
    InstantOrderIsomorphism(Increase(down, f), v);
  }

  /** Every step moves strictly up (down) in the order the range clamp uses. */
  lemma StepDirection(v: NaiveDateTime, f: Field)
    requires IsValid(v)
    ensures Lt(v, Increase(v, f))
    ensures Lt(Decrease(v, f), v)
  {
    if IsDurationField(f) {
      DurationShift(v, f);
      InstantOrderIsomorphism(v, Increase(v, f));
      InstantOrderIsomorphism(Decrease(v, f), v);
    }
  }

  /**
   * A year step down undoes a year step up, except that 29 February comes back
   * as the 28th; the same holds in the other order.
   */
  lemma YearStepRoundTrip(v: NaiveDateTime)
    requires IsValid(v)
    ensures DecrementYear(IncrementYear(v)) == if v.month == 2 && v.day == 29 then v.(day := 28) else v
    ensures IncrementYear(DecrementYear(v)) == if v.month == 2 && v.day == 29 then v.(day := 28) else v
  {
    if v.month == 2 && v.day == 29 {
      NeighbourOfLeapYear(v.year);
    }
  }

  /** A month step down undoes a month step up (and conversely) for days every month has. */
  lemma MonthStepRoundTrip(v: NaiveDateTime)
    requires IsValid(v) && v.day <= 28
    ensures DecrementMonth(IncrementMonth(v)) == v
    ensures IncrementMonth(DecrementMonth(v)) == v
  {
  }

  /** A month step up and back down never raises the day, and keeps everything else. */
  lemma MonthStepRoundTripLowersDay(v: NaiveDateTime)
    requires IsValid(v)
    ensures DecrementMonth(IncrementMonth(v)).(day := v.day) == v
    ensures DecrementMonth(IncrementMonth(v)).day <= v.day
  {
  }

  /** `n` month steps up. */
  function IncrementMonthTimes(v: NaiveDateTime, n: nat): (r: NaiveDateTime)
    requires IsValid(v)
    ensures IsValid(r) && SameTime(r, v)
    decreases n
  {
    if n == 0 then v else IncrementMonth(IncrementMonthTimes(v, n - 1))
  }

  /** Months since January of year 0. */
  function MonthIndex(v: NaiveDateTime): int
  {
    12 * v.year + v.month - 1
  }

  /** For a day every month has, `n` month steps land exactly `n` months later on the same day. */
  lemma {:induction false} MonthsAhead(v: NaiveDateTime, n: nat)
    requires IsValid(v) && v.day <= 28
    ensures MonthIndex(IncrementMonthTimes(v, n)) == MonthIndex(v) + n
    ensures IncrementMonthTimes(v, n).day == v.day
  {
    if n > 0 {
      MonthsAhead(v, n - 1);
    }
  }

  /** A month index names one year and month: moving it by `12 * k` moves the year by `k`. */
  lemma MonthIndexYears(a: NaiveDateTime, b: NaiveDateTime, k: int)
    requires 1 <= a.month <= 12 && 1 <= b.month <= 12
    requires MonthIndex(b) == MonthIndex(a) + 12 * k
    ensures b.year == a.year + k && b.month == a.month
  {
    var e := b.year - a.year - k;
    assert 12 * e == a.month - b.month;
    assert -12 < 12 * e < 12;
  }

  /** On a day every month has, the year step only changes the year. */
  lemma YearStepOnCommonDay(v: NaiveDateTime)
    requires IsValid(v) && v.day <= 28
    ensures IncrementYear(v) == v.(year := v.year + 1)
  {
    assert DaysInMonth(v.year + 1, v.month) >= 28;
  }

  /**
   * For a day every month has, twelve month steps are a year step: `12 * k`
   * month steps move the year by `k`, and with `k` = 1 that is IncrementYear.
   */
  lemma TwelveMonthsMakeAYear(v: NaiveDateTime, k: nat)
    requires IsValid(v) && v.day <= 28
    ensures IncrementMonthTimes(v, 12 * k) == v.(year := v.year + k)
    ensures k == 1 ==> IncrementMonthTimes(v, 12 * k) == IncrementYear(v)
  {
    var r := IncrementMonthTimes(v, 12 * k);
    MonthsAhead(v, 12 * k);
    MonthIndexYears(v, r, k);
    YearStepOnCommonDay(v);
  }

  /**
   * The month step lowers an overflowing day to the common-year table, so in a
   * leap year 30 and 31 January both go to 28 February while 29 January goes
   * to 29 February; 31 March goes back to 28 February.
   */
  lemma LeapYearMonthStepUsesCommonYearTable()
    ensures IncrementMonth(NaiveDateTime(2024, 1, 31, 8, 0, 0)) == NaiveDateTime(2024, 2, 28, 8, 0, 0)
    ensures IncrementMonth(NaiveDateTime(2024, 1, 30, 8, 0, 0)) == NaiveDateTime(2024, 2, 28, 8, 0, 0)
    ensures IncrementMonth(NaiveDateTime(2024, 1, 29, 8, 0, 0)) == NaiveDateTime(2024, 2, 29, 8, 0, 0)
    ensures DecrementMonth(NaiveDateTime(2024, 3, 31, 8, 0, 0)) == NaiveDateTime(2024, 2, 28, 8, 0, 0)
  {
  }
}
