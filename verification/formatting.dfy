/**
 * The strings the widget returns on confirmation: `%Y-%m-%d` for a date,
 * `%H:%M:%S` for a time, and the RFC 3339 UTC timestamp with second precision
 * (`YYYY-MM-DDTHH:MM:SSZ`) for a date-time. Each format comes with a reader
 * that recovers the fields from it.
 */
module Formatting {
  import opened Wrappers
  import opened Calendar

  predicate IsDigitChar(c: char)
  {
    '0' <= c <= '9'
  }

  predicate AllDigits(s: string)
  {
    forall i :: 0 <= i < |s| ==> IsDigitChar(s[i])
  }

  /** Rust's `char::to_digit(10)` on a decimal digit. */
  function DigitValue(c: char): (d: int)
    requires IsDigitChar(c)
    ensures 0 <= d < 10
  {
    c as int - '0' as int
  }

  function DigitChar(d: int): (c: char)
    requires 0 <= d < 10
    ensures IsDigitChar(c) && DigitValue(c) == d
  {
    ('0' as int + d) as char
  }

  function Pow10(w: nat): (p: nat)
    ensures p >= 1
  {
    if w == 0 then 1 else 10 * Pow10(w - 1)
  }

  /** The last `width` decimal digits of `n`, zero-padded on the left. */
  function Pad(n: nat, width: nat): (s: string)
    ensures |s| == width && AllDigits(s)
  {
    if width == 0 then [] else Pad(n / 10, width - 1) + [DigitChar(n % 10)]
  }

  /** The number a string of decimal digits spells. */
  function Decimal(s: string): nat
    requires AllDigits(s)
  {
    if s == [] then 0 else Decimal(s[..|s| - 1]) * 10 + DigitValue(s[|s| - 1])
  }

  lemma DropLastDigit(n: nat, p: nat)
    requires n < 10 * p
    ensures n / 10 < p && n == n / 10 * 10 + n % 10
  {
  }

  /** Reading a zero-padded number back gives the number, when it fits the width. */
  lemma {:induction false} DecimalOfPad(n: nat, width: nat)
    requires n < Pow10(width)
    ensures Decimal(Pad(n, width)) == n
  {
    if width > 0 {
      var s, prefix, last := Pad(n, width), Pad(n / 10, width - 1), DigitChar(n % 10);
      assert s == prefix + [last];
      assert s[..|s| - 1] == prefix;
      DropLastDigit(n, Pow10(width - 1));
      DecimalOfPad(n / 10, width - 1);
      assert Decimal(s) == Decimal(prefix) * 10 + DigitValue(last);
    }
  }

  function FormatDate(v: NaiveDateTime): (s: string)
    requires IsValid(v) && 0 <= v.year <= 9999
    ensures |s| == 10
  {
    Pad(v.year, 4) + "-" + Pad(v.month, 2) + "-" + Pad(v.day, 2)
  }

  function FormatTime(v: NaiveDateTime): (s: string)
    requires IsValid(v)
    ensures |s| == 8
  {
    Pad(v.hour, 2) + ":" + Pad(v.minute, 2) + ":" + Pad(v.second, 2)
  }

  /** RFC 3339 timestamp in UTC, whole seconds, `Z` for the offset. */
  function FormatRfc3339(v: NaiveDateTime): (s: string)
    requires IsValid(v) && 0 <= v.year <= 9999
    ensures |s| == 20
  {
    FormatDate(v) + "T" + FormatTime(v) + "Z"
  }

  /** Years, months and days are zero-padded to four, two and two digits. */
  lemma FormatDateExample()
    ensures FormatDate(NaiveDateTime(2020, 2, 20, 0, 0, 0)) == "2020-02-20"
  {
    assert Pad(2020, 4) == "2020" && Pad(2, 2) == "02" && Pad(20, 2) == "20";
  }

  /** Reads `YYYY-MM-DD` into (year, month, day). */
  function ParseDate(s: string): Option<(int, int, int)>
  {
    if |s| == 10 && s[4] == '-' && s[7] == '-'
       && AllDigits(s[..4]) && AllDigits(s[5..7]) && AllDigits(s[8..])
    then Some((Decimal(s[..4]), Decimal(s[5..7]), Decimal(s[8..])))
    else None
  }

  /** Reads `HH:MM:SS` into (hour, minute, second). */
  function ParseTime(s: string): Option<(int, int, int)>
  {
    if |s| == 8 && s[2] == ':' && s[5] == ':'
       && AllDigits(s[..2]) && AllDigits(s[3..5]) && AllDigits(s[6..])
    then Some((Decimal(s[..2]), Decimal(s[3..5]), Decimal(s[6..])))
    else None
  }

  /** Reads `YYYY-MM-DDTHH:MM:SSZ` into a date-time. */
  function ParseRfc3339(s: string): Option<NaiveDateTime>
  {
    if |s| == 20 && s[10] == 'T' && s[19] == 'Z' then
      match (ParseDate(s[..10]), ParseTime(s[11..19]))
      case (Some((y, mo, d)), Some((h, mi, se))) => Some(NaiveDateTime(y, mo, d, h, mi, se))
      case _ => None
    else None
  }

  lemma DateRoundTrip(v: NaiveDateTime)
    requires IsValid(v) && 0 <= v.year <= 9999
    ensures ParseDate(FormatDate(v)) == Some((v.year, v.month, v.day))
  {
    var s := FormatDate(v);
    assert s[..4] == Pad(v.year, 4);
    assert s[5..7] == Pad(v.month, 2);
    assert s[8..] == Pad(v.day, 2);
    DecimalOfPad(v.year, 4);
    DecimalOfPad(v.month, 2);
    DecimalOfPad(v.day, 2);
  }

  lemma TimeRoundTrip(v: NaiveDateTime)
    requires IsValid(v)
    ensures ParseTime(FormatTime(v)) == Some((v.hour, v.minute, v.second))
  {
    var s := FormatTime(v);
    assert s[..2] == Pad(v.hour, 2);
    assert s[3..5] == Pad(v.minute, 2);
    assert s[6..] == Pad(v.second, 2);
    DecimalOfPad(v.hour, 2);
    DecimalOfPad(v.minute, 2);
    DecimalOfPad(v.second, 2);
  }

  /** The timestamp names exactly the date-time it was made from. */
  lemma Rfc3339RoundTrip(v: NaiveDateTime)
    requires IsValid(v) && 0 <= v.year <= 9999
    ensures ParseRfc3339(FormatRfc3339(v)) == Some(v)
  {
    var s := FormatRfc3339(v);
    assert s[..10] == FormatDate(v);
    assert s[11..19] == FormatTime(v);
    DateRoundTrip(v);
    TimeRoundTrip(v);
  }
}
