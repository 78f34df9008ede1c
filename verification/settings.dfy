/**
 * The configuration of a date-time selection (already-parsed values), its
 * `min <= max` invariant, the cursor layout each granularity implies, and the
 * range clamp applied to the edited value.
 */
module Settings {
  import opened Wrappers
  import opened Calendar

  /** Which fields the selection edits. */
  datatype DateType = Date | Time | DateTime

  /**
   * The selection's options. `default` is the starting value, `min` and `max`
   * the inclusive range; the three flags only steer what is drawn.
   */
  datatype Config = Config(
    default: Option<NaiveDateTime>,
    weekday: bool,
    dateType: DateType,
    min: NaiveDateTime,
    max: NaiveDateTime,
    clear: bool,
    showMatch: bool)

  /** A value an RFC 3339 date-time can name: a calendar instant with a four-digit year. */
  predicate IsRfc3339Value(v: NaiveDateTime)
  {
    IsValid(v) && 0 <= v.year <= 9999
  }

  predicate ConfigValid(cfg: Config)
  {
    && IsRfc3339Value(cfg.min)
    && IsRfc3339Value(cfg.max)
    && Le(cfg.min, cfg.max)
    && (cfg.default.Some? ==> IsValid(cfg.default.value))
  }

  /** The options a new selection starts with. */
  function DefaultConfig(): (cfg: Config)
    ensures ConfigValid(cfg)
    ensures cfg.dateType == DateTime && cfg.default == None && cfg.weekday && cfg.clear && !cfg.showMatch
    ensures cfg.min == NaiveDateTime(0, 1, 1, 0, 0, 0) && cfg.max == NaiveDateTime(9999, 12, 31, 23, 59, 59)
  {
    Config(None, true, DateTime, NaiveDateTime(0, 1, 1, 0, 0, 0), NaiveDateTime(9999, 12, 31, 23, 59, 59), true, false)
  }

  /** Sets the lower bound; None stands for the failed `max >= min` assertion. */
  function WithMin(cfg: Config, v: NaiveDateTime): (r: Option<Config>)
    ensures r.Some? <==> Le(v, cfg.max)
    ensures r.Some? ==> r.value == cfg.(min := v)
    ensures r.Some? && ConfigValid(cfg) && IsRfc3339Value(v) ==> ConfigValid(r.value)
  {
    var updated := cfg.(min := v);
    if Le(updated.min, updated.max) then Some(updated) else None
  }

  /** Sets the upper bound; None stands for the failed `max >= min` assertion. */
  function WithMax(cfg: Config, v: NaiveDateTime): (r: Option<Config>)
    ensures r.Some? <==> Le(cfg.min, v)
    ensures r.Some? ==> r.value == cfg.(max := v)
    ensures r.Some? && ConfigValid(cfg) && IsRfc3339Value(v) ==> ConfigValid(r.value)
  {
    var updated := cfg.(max := v);
    if Le(updated.min, updated.max) then Some(updated) else None
  }

  /** The value editing starts from: the configured default, else today at midnight. */
  function StartValue(cfg: Config, today: NaiveDateTime): (v: NaiveDateTime)
    requires ConfigValid(cfg) && IsValid(today)
    ensures IsValid(v)
    ensures cfg.default.None? ==> v == today.(hour := 0, minute := 0, second := 0)
    ensures cfg.default.Some? ==> v == cfg.default.value
  {
    cfg.default.GetOr(today.(hour := 0, minute := 0, second := 0))
  }

  // ---------------------------------------------------------------------------
  // Cursor layout.

  /** Index of the last field: three fields for a date or a time, six for both. */
  function MaxPos(t: DateType): nat
  {
    match t
    case Date => 2
    case Time => 2
    case DateTime => 5
  }

  /** The field under the cursor; None where the source panics ("stepped out of bounds"). */
  function FieldAt(t: DateType, pos: int): Option<Field>
  {
    match (t, pos)
    case (DateTime, 0) => Some(Year)
    case (Date, 0) => Some(Year)
    case (DateTime, 1) => Some(Month)
    case (Date, 1) => Some(Month)
    case (DateTime, 2) => Some(Day)
    case (Date, 2) => Some(Day)
    case (DateTime, 3) => Some(Hour)
    case (Time, 0) => Some(Hour)
    case (DateTime, 4) => Some(Minute)
    case (Time, 1) => Some(Minute)
    case (DateTime, 5) => Some(Second)
    case (Time, 2) => Some(Second)
    case _ => None
  }

  /**
   * Every cursor position from 0 to MaxPos names a field and no other does; the
   * year is the field at position 0 of a date or date-time and nowhere else;
   * date positions name date fields and time positions time fields.
   */
  lemma CursorLayout(t: DateType, pos: int)
    ensures FieldAt(t, pos).Some? <==> 0 <= pos <= MaxPos(t)
    ensures FieldAt(t, pos) == Some(Year) <==> pos == 0 && t != Time
    ensures t == Date && FieldAt(t, pos).Some? ==> FieldAt(t, pos).value in {Year, Month, Day}
    ensures t == Time && FieldAt(t, pos).Some? ==> FieldAt(t, pos).value in {Hour, Minute, Second}
  {
  }

  // ---------------------------------------------------------------------------
  // Range clamp.

  predicate InRange(cfg: Config, v: NaiveDateTime)
  {
    Le(cfg.min, v) && Le(v, cfg.max)
  }

  /** `std::cmp::max`: the second argument unless the first is greater. */
  function Max(a: NaiveDateTime, b: NaiveDateTime): (r: NaiveDateTime)
    ensures r == a || r == b
    ensures Le(a, r) && Le(b, r)
  {
    LeIsTotalOrder(a, b, a);
    if Lt(b, a) then a else b
  }

  /** `std::cmp::min`: the first argument unless the second is smaller. */
  function Min(a: NaiveDateTime, b: NaiveDateTime): (r: NaiveDateTime)
    ensures r == a || r == b
    ensures Le(r, a) && Le(r, b)
  {
    LeIsTotalOrder(a, b, a);
    if Lt(b, a) then b else a
  }

  /**
   * The source's `check_date`: values below `min` become `min`, values above
   * `max` become `max`, values in range are kept.
   */
  function CheckDate(cfg: Config, v: NaiveDateTime): (r: NaiveDateTime)
    ensures r == v || r == cfg.min || r == cfg.max
    ensures Le(cfg.min, cfg.max) ==> InRange(cfg, r)
    ensures InRange(cfg, v) ==> r == v
    ensures Lt(v, cfg.min) && Le(cfg.min, cfg.max) ==> r == cfg.min
    ensures Lt(cfg.max, v) ==> r == cfg.max
  {
    LeIsTotalOrder(v, cfg.min, cfg.max);
    LeIsTotalOrder(cfg.min, cfg.max, v);
    LeIsTotalOrder(cfg.max, v, cfg.min);
    Min(Max(v, cfg.min), cfg.max)
  }

  /** Clamping twice is clamping once. */
  lemma CheckDateIdempotent(cfg: Config, v: NaiveDateTime)
    requires Le(cfg.min, cfg.max)
    ensures CheckDate(cfg, CheckDate(cfg, v)) == CheckDate(cfg, v)
  {
  }

  /** The clamp preserves the order of its inputs. */
  lemma CheckDateMonotone(cfg: Config, v: NaiveDateTime, w: NaiveDateTime)
    requires Le(cfg.min, cfg.max) && Le(v, w)
    ensures Le(CheckDate(cfg, v), CheckDate(cfg, w))
  {
    var a, b := CheckDate(cfg, v), CheckDate(cfg, w);
    LeIsTotalOrder(v, w, cfg.min);
    LeIsTotalOrder(v, w, cfg.max);
    LeIsTotalOrder(cfg.min, v, w);
    LeIsTotalOrder(a, cfg.max, b);
    LeIsTotalOrder(a, cfg.min, b);
    LeIsTotalOrder(a, w, b);
    LeIsTotalOrder(a, v, b);
  }

  /** The source's own range example: kept in range, raised to min, lowered to max. */
  lemma CheckDateExample()
    ensures var cfg := DefaultConfig().(min := NaiveDateTime(2020, 2, 20, 2, 20, 25), max := NaiveDateTime(2022, 11, 30, 0, 0, 0));
      && CheckDate(cfg, NaiveDateTime(2020, 7, 8, 17, 1, 30)) == NaiveDateTime(2020, 7, 8, 17, 1, 30)
      && CheckDate(cfg, NaiveDateTime(2000, 1, 1, 0, 0, 0)) == cfg.min
      && CheckDate(cfg, NaiveDateTime(2030, 1, 1, 0, 0, 0)) == cfg.max
  {
  }
}
