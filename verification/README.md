# Date-time selection of dialoguer, modelled in Dafny

dialoguer's `DateTimeSelect` lets a user pick a date, a time or a date-time
on the terminal. The value starts at a configured default (or today at
midnight), is clamped into the configured `[min, max]` range, and is then
edited key by key:

- Left and Right (or `h` and `l`) move a cursor over the fields.
- Up and Down (or `j` and `k`) step the field under the cursor by one unit.
- Digits are typed into a small buffer. Four digits set the year; two digits
  set any other field.
- Backspace drops the last buffered digit.
- Enter returns the value as text.

After every key except Enter the value goes back through the range clamp.

The model has eight modules:

- `Calendar`: the naive date-time value and its validity, the chrono
  setters (`with_year`, `with_month`, ...) as fallible functions, and the
  lexicographic order. It also holds the `DateAdjust` year and month steps,
  with their common-year `MONTH_END_DAYS` fallback.
- `Timeline`: the day, hour, minute and second Duration steps, written as
  explicit carries. It also has a linear timeline (`Instant`, seconds since
  0000-01-01) that they are proved against.
- `Adjust`: the step dispatch (`Increase` and `Decrease` for each field) and
  the laws of the adjuster: round trips, direction, and twelve month steps
  making a year step.
- `Formatting`: the `%Y-%m-%d`, `%H:%M:%S` and RFC 3339 (section 5.6 of
  RFC 3339, UTC, whole seconds, `Z`) output strings, each with a reader that
  recovers the value.
- `Settings`: the configuration, its `min <= max` invariant, the builder
  defaults and range setters, the cursor layout, and `check_date`.
- `Editor`: one turn of the loop as a function (`Arm` is the key match,
  `Transition` the arm followed by the clamp). It also holds the loop
  invariant, the unreachability of every panic, the effect of each key, and
  `Run`, which folds the turn over a key sequence.
- `Session`: the loop as the source writes it. The class `Selector` holds
  `date_val`, `pos` and `digits` and updates them in place. `Step` is proved
  to do what `Transition` says, and `Interact` is proved to return what
  `Run` says.
- `Wrappers`: `Option`, with `GetOr` for Rust's `unwrap_or`.

The month step follows the code. Described loosely, it lowers an
overflowing day to the target month's last valid day, which would be
29 February in a leap year. The fallback actually writes
`MONTH_END_DAYS[new_month]`, a common-year table. So 30 and 31 January go
to 28 February even in a leap year, while 29 January goes to 29 February.
`Adjust.LeapYearMonthStepUsesCommonYearTable` states this on concrete dates.

## Model

| member | source | states |
|---|---|---|
| Calendar.DaysInMonth | src/datetime.rs:15 | month lengths are 28..31, 29 exactly for February of a leap year, and never below the common-year table entry |
| Calendar.With | src/datetime.rs:316-326 | a chrono setter succeeds exactly when the replaced field gives a calendar instant (a per-field condition for year, month, day, hour, minute and second), and then carries the new field value |
| Calendar.WithKeepsOtherFields | src/datetime.rs:316-326 | a successful setter leaves every other field unchanged |
| Calendar.LeIsTotalOrder | src/datetime.rs:169-171 | the order `max`/`min` compare by is reflexive, antisymmetric, transitive and total, and `<` is `<=` without equality |
| Calendar.NeighbourOfLeapYear | src/datetime.rs:21-39 | the year before and after a leap year are common years |
| Calendar.YearStepFallsBackOnlyOnLeapDay | src/datetime.rs:22-27 | `with_year(y ± 1)` fails only on 29 February of a leap year, so the asserts in the fallback never fire |
| Calendar.IncrementYear | src/datetime.rs:21-29 | the result is valid, one year later, same month and time; same day when that is valid, otherwise it was 29 February and becomes the 28th |
| Calendar.DecrementYear | src/datetime.rs:31-39 | the same for one year earlier |
| Calendar.MonthStepFallsBackOnlyPastMonthEnd | src/datetime.rs:47-54 | `with_month` fails only when the day exceeds `MONTH_END_DAYS[new_month]`, so the assert never fires |
| Calendar.IncrementMonth | src/datetime.rs:41-57 | December goes to January of the next year, with day and time unchanged; otherwise the month rises by one, and the day is kept if the target month holds it, else lowered to `MONTH_END_DAYS[new_month]` |
| Calendar.DecrementMonth | src/datetime.rs:59-75 | January goes to December of the previous year; otherwise the month drops by one with the same day rule |
| Timeline.NextDay | src/datetime.rs:273 | adding one day gives a calendar instant at the same time of day |
| Timeline.PrevDay | src/datetime.rs:288 | subtracting one day gives a calendar instant at the same time of day |
| Timeline.NextHour | src/datetime.rs:274 | adding one hour gives a calendar instant with the same minute and second |
| Timeline.PrevHour | src/datetime.rs:289 | subtracting one hour gives a calendar instant with the same minute and second |
| Timeline.NextMinute | src/datetime.rs:275 | adding one minute gives a calendar instant with the same second |
| Timeline.PrevMinute | src/datetime.rs:290 | subtracting one minute gives a calendar instant with the same second |
| Timeline.NextSecond | src/datetime.rs:276 | adding one second gives a calendar instant |
| Timeline.PrevSecond | src/datetime.rs:291 | subtracting one second gives a calendar instant |
| Timeline.InstantOrderIsomorphism | src/datetime.rs:169-171 | on calendar instants, the lexicographic order the clamp uses is the order of seconds on the timeline, and equal instants are equal values |
| Timeline.NextDayIsOneDayLater | src/datetime.rs:273 | the day step lands exactly 86400 seconds later on the timeline |
| Timeline.PrevDayIsOneDayEarlier | src/datetime.rs:288 | the day step down lands exactly 86400 seconds earlier |
| Timeline.NextHourIsOneHourLater | src/datetime.rs:274 | the hour step lands exactly 3600 seconds later |
| Timeline.PrevHourIsOneHourEarlier | src/datetime.rs:289 | the hour step down lands exactly 3600 seconds earlier |
| Timeline.NextMinuteIsOneMinuteLater | src/datetime.rs:275 | the minute step lands exactly 60 seconds later |
| Timeline.PrevMinuteIsOneMinuteEarlier | src/datetime.rs:290 | the minute step down lands exactly 60 seconds earlier |
| Timeline.NextSecondIsOneSecondLater | src/datetime.rs:276 | the second step lands exactly one second later |
| Timeline.PrevSecondIsOneSecondEarlier | src/datetime.rs:291 | the second step down lands exactly one second earlier |
| Adjust.Increase | src/datetime.rs:270-280 | the Up dispatch for every field yields a calendar instant |
| Adjust.Decrease | src/datetime.rs:285-295 | the Down dispatch for every field yields a calendar instant |
| Adjust.DurationShift | src/datetime.rs:273-276 | each day/hour/minute/second step moves the timeline by exactly its unit, up or down |
| Adjust.DurationStep | src/datetime.rs:273-276 | the Duration step is the unique calendar instant exactly one unit later (earlier) |
| Adjust.DurationStepRoundTrip | src/datetime.rs:288-291 | stepping a day or time field down undoes stepping it up, and the reverse |
| Adjust.StepDirection | src/datetime.rs:270-295 | every Up step is strictly later and every Down step strictly earlier in the clamp's order |
| Adjust.YearStepRoundTrip | src/datetime.rs:21-39 | a year step down undoes a year step up (and the reverse) except that 29 February comes back as the 28th |
| Adjust.MonthStepRoundTrip | src/datetime.rs:41-75 | for days 1..28 a month step down undoes a month step up, and the reverse |
| Adjust.MonthStepRoundTripLowersDay | src/datetime.rs:47-54 | a month step up and back keeps every field but the day, and never raises the day |
| Adjust.MonthsAhead | src/datetime.rs:41-57 | for days 1..28, `n` month steps land exactly `n` months later on the same day |
| Adjust.TwelveMonthsMakeAYear | src/datetime.rs:41-57 | for days 1..28, `12k` month steps move the year by `k` and change nothing else; twelve of them equal one year step |
| Adjust.LeapYearMonthStepUsesCommonYearTable | src/datetime.rs:47-54 | in 2024, 30 and 31 January step to 28 February, 29 January to 29 February, and 31 March steps down to 28 February |
| Formatting.DecimalOfPad | src/datetime.rs:254-255 | reading a zero-padded number back gives the number when it fits the width |
| Formatting.DigitValue | src/datetime.rs:300 | `to_digit(10)` on a decimal digit character gives its value 0..9; `DigitChar` is its inverse |
| Formatting.FormatDate | src/datetime.rs:254 | `%Y-%m-%d` is ten characters for a four-digit year |
| Formatting.FormatTime | src/datetime.rs:255 | `%H:%M:%S` is eight characters |
| Formatting.FormatRfc3339 | src/datetime.rs:256 | the UTC timestamp with whole seconds is twenty characters |
| Formatting.FormatDateExample | src/datetime.rs:254 | 2020-02-20 prints as `2020-02-20`, padded to four, two and two digits |
| Formatting.DateRoundTrip | src/datetime.rs:254 | the date text reads back as the year, month and day it was made from |
| Formatting.TimeRoundTrip | src/datetime.rs:255 | the time text reads back as the hour, minute and second |
| Formatting.Rfc3339RoundTrip | src/datetime.rs:256 | the timestamp reads back as exactly the date-time it was made from |
| Settings.DefaultConfig | src/datetime.rs:113-125 | a new selection is a date-time with weekday and clear on, no default, no match display, and range 0000-01-01 00:00:00 .. 9999-12-31 23:59:59, which satisfies `min <= max` |
| Settings.WithMin | src/datetime.rs:147-151 | setting `min` succeeds exactly when it does not exceed `max`, changes only `min`, and keeps the configuration valid |
| Settings.WithMax | src/datetime.rs:153-157 | setting `max` succeeds exactly when it is not below `min`, changes only `max`, and keeps the configuration valid |
| Settings.StartValue | src/datetime.rs:207-210 | the start value is the configured default, or today at midnight when none is set |
| Settings.MaxPos | src/datetime.rs:217-221 | the index of the last field, 2 for Date and Time and 5 for DateTime; `Settings.CursorLayout` shows it is exactly the last position that names a field |
| Settings.FieldAt | src/datetime.rs:270-279 | the `(date_type, pos)` dispatch shared by the step arms and the field entry (316-324), with None for the panic arms; `Settings.CursorLayout` states which positions name which fields |
| Settings.CursorLayout | src/datetime.rs:270-279 | a position names a field exactly when it lies in `0..max_pos` (2 for Date and Time, 5 for DateTime); the year is at position 0 of a date or date-time only; Date positions name date fields and Time positions time fields |
| Settings.CheckDate | src/datetime.rs:169-171 | the clamp returns the value when it is in range, `min` when below, `max` when above, and always a value in range when `min <= max` |
| Settings.Max | src/datetime.rs:170 | `std::cmp::max` in the clamp: the result is one of the two arguments and is at least both |
| Settings.Min | src/datetime.rs:170 | `std::cmp::min` in the clamp: the result is one of the two arguments and is at most both |
| Settings.CheckDateIdempotent | src/datetime.rs:169-171 | clamping twice is clamping once |
| Settings.CheckDateMonotone | src/datetime.rs:169-171 | the clamp preserves the order of its inputs |
| Settings.CheckDateExample | src/datetime.rs:383-399 | with range 2020-02-20 02:20:25 .. 2022-11-30, 2020-07-08 17:01:30 is kept, 2000-01-01 becomes `min` and 2030-01-01 becomes `max` |
| Editor.Initial | src/datetime.rs:207-222 | the loop starts with the clamped start value (unchanged when in range), cursor 0 and an empty buffer, and satisfies the loop invariant |
| Editor.Classify | src/datetime.rs:243-336 | the order of the key match: Enter, Right or `l`, Left or `h`, Up or `j`, Down or `k`, any other character, Backspace, anything else; `Editor.KeyAliases` and `Editor.NonDigitClears` state the alias and fall-through behaviour |
| Editor.TypeDigit | src/datetime.rs:299-332 | the digit arm before the clamp; `Editor.TypeDigitCompletesYear`, `Editor.TypeDigitCompletesField` and `Editor.DigitBuffered` state its three outcomes, and `Editor.TypeDigitKeepsShape` that it never panics under the invariant |
| Editor.Arm | src/datetime.rs:243-337 | the key match before the clamp, with `Panic` for the `panic!` arms; `Editor.ArmKeepsShape` shows no arm panics under the invariant and each leaves a valid value, cursor and buffer |
| Editor.Settle | src/datetime.rs:338 | the re-clamp after the key match; `Editor.SettleRestoresInvariant` shows it restores the range part of the invariant |
| Editor.Transition | src/datetime.rs:243-338 | one pass of the loop body: the key match, then the re-clamp unless the key returned text or panicked; `Editor.TransitionKeepsInvariant` and the per-key lemmas below state its effect |
| Editor.Output | src/datetime.rs:253-257 | the text returned on Enter for each granularity; `Editor.ConfirmOutput` shows it reads back as the value |
| Editor.SettleRestoresInvariant | src/datetime.rs:338 | the clamp after the key match brings any valid value back into range, restoring the loop invariant |
| Editor.TransitionKeepsInvariant | src/datetime.rs:243-338 | from a state satisfying the invariant (valid in-range value, cursor in `0..max_pos`, buffer digits 0..9 and shorter than 4 on the year, 2 elsewhere) no key panics, and the next state satisfies it again |
| Editor.ArmKeepsShape | src/datetime.rs:243-337 | under the invariant no arm of the key match panics, and each arm that continues leaves a valid value, a cursor in range and a short buffer |
| Editor.TypeDigitKeepsShape | src/datetime.rs:299-332 | under the invariant the digit arm never panics (in Time mode the buffer never reaches four digits) |
| Editor.PanicsOutsideInvariant | src/datetime.rs:270-308 | the panics are real outside the invariant: Up and Down with the cursor past the last field, and a fourth digit at position 0 in Time mode |
| Editor.KeyAliases | src/datetime.rs:260-299 | `l`, `h`, `j` and `k` act exactly as Right, Left, Up and Down |
| Editor.CursorWraps | src/datetime.rs:260-267 | Right moves the cursor to `(pos + 1) mod (max_pos + 1)` and Left to `(pos - 1) mod (max_pos + 1)`, so Right from the last field gives 0 and Left from 0 gives the last; both keep the value and clear the buffer |
| Editor.StepUpKey | src/datetime.rs:269-282 | Up steps the field under the cursor by one unit, re-clamps and clears the buffer, and never lowers the value |
| Editor.StepDownKey | src/datetime.rs:284-297 | Down steps the field under the cursor down by one unit, re-clamps and clears the buffer, and never raises the value |
| Editor.TypeDigitCompletesYear | src/datetime.rs:303-312 | the fourth digit on the year field sets the year to the four-digit number when that gives a calendar instant and otherwise keeps the value; the buffer empties |
| Editor.YearEntry | src/datetime.rs:303-312 | the same through the key dispatch and the clamp |
| Editor.TypeDigitCompletesField | src/datetime.rs:314-327 | the second digit on any other field sets it to the two-digit number when that gives a calendar instant, otherwise keeps the value; the buffer empties |
| Editor.FieldEntry | src/datetime.rs:314-327 | the same through the key dispatch and the clamp, with the field named by the cursor never the year |
| Editor.DigitTransition | src/datetime.rs:299-338 | a digit key is the digit arm followed by the clamp |
| Editor.DigitBuffered | src/datetime.rs:300-302 | a digit that completes no field is appended to the buffer and the value stays |
| Editor.NonDigitClears | src/datetime.rs:329-331 | any other character clears the buffer and keeps the value |
| Editor.EraseAndIgnore | src/datetime.rs:333-336 | Backspace drops only the last buffered digit (nothing when empty), and unknown keys change nothing |
| Editor.ConfirmOutput | src/datetime.rs:244-258 | Enter returns the value in the granularity's format, and that text reads back as the value's fields |
| Editor.Run | src/datetime.rs:224-343 | running the loop over keys never panics from a state satisfying the invariant, and a run that continues ends in such a state |
| Editor.RunStep | src/datetime.rs:224-343 | a turn that continues hands the remaining keys to the state it leads to |
| Editor.RunEnds | src/datetime.rs:244-258 | a turn that returns text ends the run with that text |
| Editor.RunOutputInRange | src/datetime.rs:244-258 | any text a session returns is the format of a value inside `[min, max]`; for a date-time it reads back as that value |
| Editor.BufferStep | src/datetime.rs:300-302 | a digit that completes nothing is buffered, and the run continues from there |
| Editor.LastKey | src/datetime.rs:224-343 | a single continuing key ends the run in the state it leads to |
| Editor.LastYearDigit | src/datetime.rs:303-312 | the fourth year digit ends a run as YearEntry says |
| Editor.YearDigitStep | src/datetime.rs:300-302 | a year digit that is not the fourth is buffered, and the buffer with the remaining digits still spells the same year |
| Editor.TypingAYear | src/datetime.rs:300-312 | typing the rest of a four-digit year on the year field sets the year to the number the digits spell when that gives a calendar instant, otherwise keeps the value; then the clamp, and the buffer is empty |
| Editor.TypingMonthThirteen | src/datetime.rs:314-327 | typing 1, 3 on the month field keeps the value and empties the buffer |
| Editor.DownAtMinimum | src/datetime.rs:284-297 | at the lower bound with an empty buffer Down changes nothing, and Enter after it returns the lower bound |
| Editor.ClampedDateSession | src/datetime.rs:207-212 | a date selection over 2020-02-20 .. 2022-11-30 that starts on 2000-01-01 opens on 2020-02-20; Down keeps it; Down then Enter returns `2020-02-20` |
| Editor.DefaultSessionConfirmsToday | src/datetime.rs:207-258 | with the default options Enter at once returns today at midnight as an RFC 3339 timestamp |
| Session.Selector.constructor | src/datetime.rs:207-222 | the selector starts in the loop's initial state and satisfies its invariant |
| Session.Selector.Step | src/datetime.rs:243-338 | one pass of the loop body updates value, cursor and buffer in place exactly as Transition says, returns the text on Enter, and keeps the invariant |
| Session.Selector.PushDigit | src/datetime.rs:299-332 | the digit arm, updating the buffer and value in place, does what the digit arm of Transition says and leaves a valid value |
| Session.RunUnfold | src/datetime.rs:224-343 | one turn of the loop at key `i`: text ends the run, a new state carries on with the keys after `i` |
| Session.Interact | src/datetime.rs:206-343 | driving a selector over a key sequence returns what Run says: the text of the first Enter, or the state reached when the keys run out |

## Left out

- Terminal I/O is not modelled: reading keys, rendering, clearing lines, and the io errors they can raise. `Interact` takes the keys as a sequence. When the keys run out it returns the state the loop would wait in.
- The styling of `terminal_format`, the weekday suffix and the `show_match` line only affect what is drawn. The `weekday`, `clear` and `show_match` flags are kept as configuration fields without effect.
- The prompt, the theme and the plain field setters (`with_prompt`, `weekday`, `date_type`, `clear`, `show_match`) are not modelled; a configuration is built as a datatype value instead.
- chrono's `parse_from_rfc3339` in `default`, `min` and `max` is not modelled. The configuration holds already-parsed values. A failed `max >= min` assertion in `min`/`max` is `None` from `WithMin`/`WithMax`. The parse of a string without a four-digit year is not modelled, so configured bounds are taken to have years 0..9999.
- `Utc::today()` is a clock read. `StartValue` and `Interact` take today's date as a parameter.
- chrono's `to_rfc3339_opts` is modelled by its output shape for second precision and UTC (`YYYY-MM-DDTHH:MM:SSZ`); chrono's own code is not.
- A configured default, min or max with a fractional second or a leap second (`:60`), both of which chrono's RFC 3339 parser accepts, is not modelled: the model holds whole seconds only. On such values the real clamp also compares nanoseconds, and the date-time output cuts the value to whole seconds, so `Formatting.Rfc3339RoundTrip` covers whole-second values only.
- Years are unbounded integers. chrono's year limit (about ±262143) is not modelled. The clamp keeps every value the loop holds within years 0..9999, and one step leaves that range by at most one year.
- The asserts inside the adjuster's fallbacks are modelled as proof obligations. The lemmas above show they never fire on valid input.
- The `panic!` arms are modelled as `Panic` outcomes of `Transition`. `Step` and `PushDigit` require the invariant, under which those arms are proved unreachable.
