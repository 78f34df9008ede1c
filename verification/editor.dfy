/**
 * One turn of the interactive loop, as a function of the configuration, the
 * editing state and the key read: the cursor, the digit buffer, the step and
 * entry dispatch, the re-clamp after every key, and the string returned on
 * Enter. `Run` folds it over a sequence of keys.
 */
module Editor {
  import opened Wrappers
  import opened Calendar
  import opened Adjust
  import opened Formatting
  import opened Settings

  /** The keys the loop tells apart; every other key is `Other`. */
  datatype Key = Enter | ArrowLeft | ArrowRight | ArrowUp | ArrowDown | Char(c: char) | Backspace | Other

  /** What a key asks for. */
  datatype Action = Confirm | MoveNext | MovePrev | StepUp | StepDown | Type(c: char) | Erase | Ignore

  /** The editing state the loop carries from one key to the next. */
  datatype State = State(value: NaiveDateTime, pos: int, digits: seq<int>)

  /** A turn either returns the formatted value, continues in a new state, or panics. */
  datatype Outcome = Done(output: string) | Next(state: State) | Panic(message: string)

  /** The arms of the key match, in order: `l`, `h`, `j` and `k` are taken before any other character. */
  function Classify(k: Key): Action
  {
    match k
    case Enter => Confirm
    case ArrowRight => MoveNext
    case ArrowLeft => MovePrev
    case ArrowUp => StepUp
    case ArrowDown => StepDown
    case Char(c) =>
      if c == 'l' then MoveNext
      else if c == 'h' then MovePrev
      else if c == 'j' then StepUp
      else if c == 'k' then StepDown
      else Type(c)
    case Backspace => Erase
    case Other => Ignore
  }

  /** What every turn relies on: a valid configuration and a valid value within its range. */
  predicate Admissible(cfg: Config, s: State)
  {
    ConfigValid(cfg) && IsValid(s.value) && InRange(cfg, s.value)
  }

  /**
   * How many digits the buffer holds between keys: fewer than 4 on the year
   * field, fewer than 2 on any other field.
   */
  function BufferLimit(t: DateType, pos: int): nat
  {
    if pos == 0 && t != Time then 4 else 2
  }

  /** The invariant of the loop. */
  predicate SessionInv(cfg: Config, s: State)
  {
    && Admissible(cfg, s)
    && 0 <= s.pos <= MaxPos(cfg.dateType)
    && (forall i :: 0 <= i < |s.digits| ==> 0 <= s.digits[i] < 10)
    && |s.digits| < BufferLimit(cfg.dateType, s.pos)
  }

  /** The state at the start of the loop: the start value clamped, cursor on the first field. */
  function Initial(cfg: Config, start: NaiveDateTime): (s: State)
    requires ConfigValid(cfg) && IsValid(start)
    ensures SessionInv(cfg, s) && s.pos == 0 && s.digits == []
    ensures InRange(cfg, start) ==> s.value == start
  {
    State(CheckDate(cfg, start), 0, [])
  }

  /** The end of every turn but Enter: the value goes back through the range clamp. */
  function Settle(cfg: Config, s: State): State
  {
    s.(value := CheckDate(cfg, s.value))
  }

  /** The string returned on Enter. */
  function Output(t: DateType, v: NaiveDateTime): string
    requires IsRfc3339Value(v)
  {
    match t
    case Date => FormatDate(v)
    case Time => FormatTime(v)
    case DateTime => FormatRfc3339(v)
  }

  function OutOfBounds(t: DateType): string
  {
    match t
    case Date => "stepped out of bounds on Date"
    case Time => "stepped out of bounds on Time"
    case DateTime => "stepped out of bounds on DateTime"
  }

  /** A typed digit: buffer it, and apply the buffer when it completes a year or another field. */
  function TypeDigit(cfg: Config, s: State, d: int): Outcome
    requires Admissible(cfg, s)
  {
    var digits := s.digits + [d];
    if s.pos == 0 && |digits| == 4 then
      var year := digits[0] * 1000 + digits[1] * 100 + digits[2] * 10 + digits[3];
      if cfg.dateType == Time then Panic("Time not supported for 4 digits")
      else Next(State(With(s.value, Year, year).GetOr(s.value), s.pos, []))
    else if |digits| == 2 && (s.pos > 0 || cfg.dateType == Time) then
      var n := digits[0] * 10 + digits[1];
      match FieldAt(cfg.dateType, s.pos)
      case Some(f) =>
        if f == Year then Panic(OutOfBounds(cfg.dateType))
        else Next(State(With(s.value, f, n).GetOr(s.value), s.pos, []))
      case None => Panic(OutOfBounds(cfg.dateType))
    else Next(s.(digits := digits))
  }

  /** The arm of the key match for action `a`, before the re-clamp. */
  function Arm(cfg: Config, s: State, a: Action): Outcome
    requires Admissible(cfg, s)
  {
    var t := cfg.dateType;
    match a
    case Confirm => Done(Output(t, s.value))
    case MoveNext => Next(State(s.value, if s.pos == MaxPos(t) then 0 else s.pos + 1, []))
    case MovePrev => Next(State(s.value, if s.pos == 0 then MaxPos(t) else s.pos - 1, []))
    case StepUp =>
      (match FieldAt(t, s.pos)
       case Some(f) => Next(State(Increase(s.value, f), s.pos, []))
       case None => Panic(OutOfBounds(t)))
    case StepDown =>
      (match FieldAt(t, s.pos)
       case Some(f) => Next(State(Decrease(s.value, f), s.pos, []))
       case None => Panic(OutOfBounds(t)))
    case Type(c) =>
      if IsDigitChar(c) then TypeDigit(cfg, s, DigitValue(c))
      else Next(s.(digits := []))
    case Erase => Next(s.(digits := if s.digits == [] then [] else s.digits[..|s.digits| - 1]))
    case Ignore => Next(s)
  }

  /** One turn of the loop for key `k`: the arm, then the re-clamp unless the turn returned or panicked. */
  function Transition(cfg: Config, s: State, k: Key): Outcome
    requires Admissible(cfg, s)
  {
    match Arm(cfg, s, Classify(k))
    case Next(s') => Next(Settle(cfg, s'))
    case other => other
  }

  // ---------------------------------------------------------------------------
  // The loop invariant, and with it the unreachability of every panic.

  /** The invariant without the range: what every arm leaves behind for the clamp. */
  predicate Shape(cfg: Config, s: State)
  {
    && IsValid(s.value)
    && 0 <= s.pos <= MaxPos(cfg.dateType)
    && (forall i :: 0 <= i < |s.digits| ==> 0 <= s.digits[i] < 10)
    && |s.digits| < BufferLimit(cfg.dateType, s.pos)
  }

  /** The clamp turns what an arm leaves behind back into a state satisfying the invariant. */
  lemma SettleRestoresInvariant(cfg: Config, s: State)
    requires ConfigValid(cfg) && Shape(cfg, s)
    ensures SessionInv(cfg, Settle(cfg, s))
  {
  }

  /** From a state satisfying the invariant no key panics, and the next state satisfies it too. */
  lemma TransitionKeepsInvariant(cfg: Config, s: State, k: Key)
    requires SessionInv(cfg, s)
    ensures !Transition(cfg, s, k).Panic?
    ensures Transition(cfg, s, k).Next? ==> SessionInv(cfg, Transition(cfg, s, k).state)
  {
    ArmKeepsShape(cfg, s, Classify(k));
    if Arm(cfg, s, Classify(k)).Next? {
      SettleRestoresInvariant(cfg, Arm(cfg, s, Classify(k)).state);
    }
  }

  /** Under the invariant no arm panics, and every arm that continues leaves a valid value and cursor. */
  lemma ArmKeepsShape(cfg: Config, s: State, a: Action)
    requires SessionInv(cfg, s)
    ensures !Arm(cfg, s, a).Panic?
    ensures Arm(cfg, s, a).Next? ==> Shape(cfg, Arm(cfg, s, a).state)
  {
    CursorLayout(cfg.dateType, s.pos);
    match a
    case Type(c) =>
      if IsDigitChar(c) {
        TypeDigitKeepsShape(cfg, s, DigitValue(c));
      }
    case _ =>
  }

  /** The digit arm on its own: it never panics under the invariant and keeps the shape. */
  lemma TypeDigitKeepsShape(cfg: Config, s: State, d: int)
    requires SessionInv(cfg, s) && 0 <= d < 10
    ensures TypeDigit(cfg, s, d).Next? && Shape(cfg, TypeDigit(cfg, s, d).state)
  {
    CursorLayout(cfg.dateType, s.pos);
  }

  /** The panics are real outside the invariant: a cursor past the last field, four digits in Time. */
  lemma PanicsOutsideInvariant(cfg: Config, s: State, c: char)
    requires Admissible(cfg, s) && IsDigitChar(c)
    ensures s.pos > MaxPos(cfg.dateType) ==> Transition(cfg, s, ArrowUp).Panic? && Transition(cfg, s, ArrowDown).Panic?
    ensures cfg.dateType == Time && s.pos == 0 && |s.digits| == 3 ==> Transition(cfg, s, Char(c)).Panic?
  {
    CursorLayout(cfg.dateType, s.pos);
  }

  // ---------------------------------------------------------------------------
  // What each key does.

  /** `l`, `h`, `j` and `k` act as Right, Left, Up and Down. */
  lemma KeyAliases(cfg: Config, s: State)
    requires Admissible(cfg, s)
    ensures Transition(cfg, s, Char('l')) == Transition(cfg, s, ArrowRight)
    ensures Transition(cfg, s, Char('h')) == Transition(cfg, s, ArrowLeft)
    ensures Transition(cfg, s, Char('j')) == Transition(cfg, s, ArrowUp)
    ensures Transition(cfg, s, Char('k')) == Transition(cfg, s, ArrowDown)
  {
    assert Classify(Char('l')) == Classify(ArrowRight);
    assert Classify(Char('h')) == Classify(ArrowLeft);
    assert Classify(Char('j')) == Classify(ArrowUp);
    assert Classify(Char('k')) == Classify(ArrowDown);
  }

  /**
   * Right and Left move the cursor circularly over the fields, from the last
   * back to the first and from the first to the last, clearing the buffer and
   * keeping the value.
   */
  lemma CursorWraps(cfg: Config, s: State)
    requires SessionInv(cfg, s)
    ensures var n := MaxPos(cfg.dateType) + 1;
      && Transition(cfg, s, ArrowRight) == Next(State(s.value, (s.pos + 1) % n, []))
      && Transition(cfg, s, ArrowLeft) == Next(State(s.value, (s.pos + n - 1) % n, []))
    ensures s.pos == MaxPos(cfg.dateType) ==> Transition(cfg, s, ArrowRight).state.pos == 0
    ensures s.pos == 0 ==> Transition(cfg, s, ArrowLeft).state.pos == MaxPos(cfg.dateType)
  {
    var m := MaxPos(cfg.dateType);
    var right, left := if s.pos == m then 0 else s.pos + 1, if s.pos == 0 then m else s.pos - 1;
    assert Arm(cfg, s, MoveNext) == Next(State(s.value, right, []));
    assert Arm(cfg, s, MovePrev) == Next(State(s.value, left, []));
    assert right == (s.pos + 1) % (m + 1) && left == (s.pos + m) % (m + 1);
  }

  /**
   * Up steps the field under the cursor by one unit, re-clamps, and clears the
   * buffer; it never lowers the value.
   */
  lemma StepUpKey(cfg: Config, s: State)
    requires SessionInv(cfg, s)
    ensures FieldAt(cfg.dateType, s.pos).Some?
    ensures var f := FieldAt(cfg.dateType, s.pos).value;
      Transition(cfg, s, ArrowUp) == Next(State(CheckDate(cfg, Increase(s.value, f)), s.pos, []))
    ensures Le(s.value, Transition(cfg, s, ArrowUp).state.value)
  {
    CursorLayout(cfg.dateType, s.pos);
    var f := FieldAt(cfg.dateType, s.pos).value;
    var v := Increase(s.value, f);
    assert Arm(cfg, s, StepUp) == Next(State(v, s.pos, []));
    StepDirection(s.value, f);
    LeIsTotalOrder(s.value, v, s.value);
    CheckDateMonotone(cfg, s.value, v);
  }

  /**
   * Down steps the field under the cursor by one unit, re-clamps, and clears the
   * buffer; it never raises the value.
   */
  lemma StepDownKey(cfg: Config, s: State)
    requires SessionInv(cfg, s)
    ensures FieldAt(cfg.dateType, s.pos).Some?
    ensures var f := FieldAt(cfg.dateType, s.pos).value;
      Transition(cfg, s, ArrowDown) == Next(State(CheckDate(cfg, Decrease(s.value, f)), s.pos, []))
    ensures Le(Transition(cfg, s, ArrowDown).state.value, s.value)
  {
    CursorLayout(cfg.dateType, s.pos);
    var f := FieldAt(cfg.dateType, s.pos).value;
    var v := Decrease(s.value, f);
    assert Arm(cfg, s, StepDown) == Next(State(v, s.pos, []));
    StepDirection(s.value, f);
    LeIsTotalOrder(v, s.value, s.value);
    CheckDateMonotone(cfg, v, s.value);
  }

  /** The year a full four-digit buffer spells. */
  function YearOf(ds: seq<int>): int
    requires |ds| == 4
  {
    ds[0] * 1000 + ds[1] * 100 + ds[2] * 10 + ds[3]
  }

  /** The year completion inside TypeDigit, apart from the key dispatch. */
  lemma TypeDigitCompletesYear(cfg: Config, s: State, d: int)
    requires SessionInv(cfg, s) && cfg.dateType != Time && s.pos == 0 && |s.digits| == 3 && 0 <= d < 10
    ensures var year := YearOf(s.digits + [d]);
      && 0 <= year <= 9999
      && TypeDigit(cfg, s, d)
         == Next(State(if IsValid(s.value.(year := year)) then s.value.(year := year) else s.value, 0, []))
  {
    var digits := s.digits + [d];
    assert digits[0] == s.digits[0] && digits[1] == s.digits[1] && digits[2] == s.digits[2] && digits[3] == d;
    assert 0 <= s.digits[0] < 10 && 0 <= s.digits[1] < 10 && 0 <= s.digits[2] < 10;
  }

  /**
   * The fourth digit typed on the year field of a date or date-time sets the
   * year to the four-digit number the buffer then spells when that gives a
   * calendar instant, and otherwise keeps the value; either way the buffer is
   * emptied.
   */
  lemma YearEntry(cfg: Config, s: State, c: char)
    requires SessionInv(cfg, s) && cfg.dateType != Time && s.pos == 0 && |s.digits| == 3 && IsDigitChar(c)
    ensures var year := YearOf(s.digits + [DigitValue(c)]);
      && 0 <= year <= 9999
      && Transition(cfg, s, Char(c))
         == Next(State(CheckDate(cfg, if IsValid(s.value.(year := year)) then s.value.(year := year) else s.value), 0, []))
  {
    var year := YearOf(s.digits + [DigitValue(c)]);
    TypeDigitCompletesYear(cfg, s, DigitValue(c));
    DigitTransition(cfg, s, c, State(if IsValid(s.value.(year := year)) then s.value.(year := year) else s.value, 0, []));
  }

  /**
   * The second digit typed on any other field sets that field to the two-digit
   * number when the result is a calendar instant and otherwise keeps the value
   * (month 13, day 32, hour 24, ...); either way the buffer is emptied.
   */
  lemma FieldEntry(cfg: Config, s: State, c: char)
    requires SessionInv(cfg, s) && (s.pos > 0 || cfg.dateType == Time) && |s.digits| == 1 && IsDigitChar(c)
    ensures FieldAt(cfg.dateType, s.pos).Some? && FieldAt(cfg.dateType, s.pos).value != Year
    ensures var f, n := FieldAt(cfg.dateType, s.pos).value, s.digits[0] * 10 + DigitValue(c);
      && 0 <= n < 100
      && Transition(cfg, s, Char(c))
         == Next(State(CheckDate(cfg, if IsValid(Put(s.value, f, n)) then Put(s.value, f, n) else s.value), s.pos, []))
  {
    CursorLayout(cfg.dateType, s.pos);
    var f, d := FieldAt(cfg.dateType, s.pos).value, DigitValue(c);
    var n := s.digits[0] * 10 + d;
    var w := if IsValid(Put(s.value, f, n)) then Put(s.value, f, n) else s.value;
    TypeDigitCompletesField(cfg, s, d, f);
    DigitTransition(cfg, s, c, State(w, s.pos, []));
  }

  /** A digit key is TypeDigit followed by the clamp. */
  lemma DigitTransition(cfg: Config, s: State, c: char, t: State)
    requires Admissible(cfg, s) && IsDigitChar(c) && TypeDigit(cfg, s, DigitValue(c)) == Next(t)
    ensures Transition(cfg, s, Char(c)) == Next(Settle(cfg, t))
  {
    assert Classify(Char(c)) == Type(c);
  }

  /** The field completion inside TypeDigit, apart from the key dispatch. */
  lemma TypeDigitCompletesField(cfg: Config, s: State, d: int, f: Field)
    requires SessionInv(cfg, s) && (s.pos > 0 || cfg.dateType == Time) && |s.digits| == 1 && 0 <= d < 10
    requires FieldAt(cfg.dateType, s.pos) == Some(f) && f != Year
    ensures var n := s.digits[0] * 10 + d;
      && 0 <= n < 100
      && TypeDigit(cfg, s, d)
         == Next(State(if IsValid(Put(s.value, f, n)) then Put(s.value, f, n) else s.value, s.pos, []))
  {
    var digits := s.digits + [d];
    assert digits[0] == s.digits[0] && digits[1] == d;
  }

  /** A digit that completes nothing is appended to the buffer; the value stays. */
  lemma DigitBuffered(cfg: Config, s: State, c: char)
    requires SessionInv(cfg, s) && IsDigitChar(c) && |s.digits| + 1 < BufferLimit(cfg.dateType, s.pos)
    ensures Transition(cfg, s, Char(c)) == Next(State(s.value, s.pos, s.digits + [DigitValue(c)]))
  {
    assert TypeDigit(cfg, s, DigitValue(c)) == Next(State(s.value, s.pos, s.digits + [DigitValue(c)]));
    DigitTransition(cfg, s, c, State(s.value, s.pos, s.digits + [DigitValue(c)]));
  }

  /** Any other character empties the buffer and keeps the value. */
  lemma NonDigitClears(cfg: Config, s: State, c: char)
    requires SessionInv(cfg, s) && !IsDigitChar(c) && c !in {'h', 'j', 'k', 'l'}
    ensures Transition(cfg, s, Char(c)) == Next(State(s.value, s.pos, []))
  {
  }

  /** Backspace drops the last buffered digit, if any; other keys change nothing. */
  lemma EraseAndIgnore(cfg: Config, s: State)
    requires SessionInv(cfg, s)
    ensures s.digits != [] ==> Transition(cfg, s, Backspace) == Next(State(s.value, s.pos, s.digits[..|s.digits| - 1]))
    ensures s.digits == [] ==> Transition(cfg, s, Backspace) == Next(s)
    ensures Transition(cfg, s, Other) == Next(s)
  {
  }

  /** Enter returns the value in the granularity's format, and that text reads back as the value. */
  lemma ConfirmOutput(cfg: Config, s: State)
    requires SessionInv(cfg, s)
    ensures IsRfc3339Value(s.value)
    ensures Transition(cfg, s, Enter) == Done(Output(cfg.dateType, s.value))
    ensures cfg.dateType == Date ==> ParseDate(Output(Date, s.value)) == Some((s.value.year, s.value.month, s.value.day))
    ensures cfg.dateType == Time ==> ParseTime(Output(Time, s.value)) == Some((s.value.hour, s.value.minute, s.value.second))
    ensures cfg.dateType == DateTime ==> ParseRfc3339(Output(DateTime, s.value)) == Some(s.value)
  {
    LeIsTotalOrder(cfg.min, s.value, cfg.max);
    DateRoundTrip(s.value);
    TimeRoundTrip(s.value);
    Rfc3339RoundTrip(s.value);
  }

  // ---------------------------------------------------------------------------
  // Whole sessions.

  /**
   * The loop over a sequence of keys: the text returned by the first Enter, or
   * the state reached when the keys run out (the loop then waits for more).
   */
  function Run(cfg: Config, s: State, keys: seq<Key>): (r: Outcome)
    requires SessionInv(cfg, s)
    ensures !r.Panic?
    ensures r.Next? ==> SessionInv(cfg, r.state)
    decreases |keys|
  {
    if keys == [] then Next(s)
    else
      TransitionKeepsInvariant(cfg, s, keys[0]);
      match Transition(cfg, s, keys[0])
      case Next(s') => Run(cfg, s', keys[1..])
      case other => other
  }

  /** A turn that continues hands the rest of the keys to the next state. */
  lemma RunStep(cfg: Config, s: State, keys: seq<Key>, s': State)
    requires SessionInv(cfg, s) && keys != [] && Transition(cfg, s, keys[0]) == Next(s')
    ensures SessionInv(cfg, s')
    ensures Run(cfg, s, keys) == Run(cfg, s', keys[1..])
  {
    TransitionKeepsInvariant(cfg, s, keys[0]);
  }

  /**
   * Whatever text a session returns is the formatted form of a value inside
   * the configured range; for a date-time it reads back as that value.
   */
  lemma {:induction false} RunOutputInRange(cfg: Config, s: State, keys: seq<Key>)
    requires SessionInv(cfg, s)
    ensures var r := Run(cfg, s, keys);
      r.Done? ==> exists v :: IsRfc3339Value(v) && InRange(cfg, v) && r.output == Output(cfg.dateType, v)
    ensures var r := Run(cfg, s, keys);
      r.Done? && cfg.dateType == DateTime ==> ParseRfc3339(r.output).Some? && InRange(cfg, ParseRfc3339(r.output).value)
    decreases |keys|
  {
    if keys != [] {
      TransitionKeepsInvariant(cfg, s, keys[0]);
      match Transition(cfg, s, keys[0])
      case Next(s') => RunOutputInRange(cfg, s', keys[1..]);
      case Done(o) =>
        ConfirmOutput(cfg, s);
        assert Classify(keys[0]) == Confirm;
        assert o == Output(cfg.dateType, s.value);
      case Panic(_) =>
    }
  }

  /** Keys that are all decimal digit characters. */
  predicate AllDigitKeys(keys: seq<Key>)
  {
    forall i :: 0 <= i < |keys| ==> keys[i].Char? && IsDigitChar(keys[i].c)
  }

  /** The digits such keys type. */
  function DigitsOf(keys: seq<Key>): (ds: seq<int>)
    requires AllDigitKeys(keys)
    ensures |ds| == |keys|
  {
    if keys == [] then [] else [DigitValue(keys[0].c)] + DigitsOf(keys[1..])
  }

  /** A digit that completes nothing is buffered, and the run goes on from there. */
  lemma BufferStep(cfg: Config, s: State, keys: seq<Key>)
    requires SessionInv(cfg, s) && keys != [] && keys[0].Char? && IsDigitChar(keys[0].c)
    requires |s.digits| + 1 < BufferLimit(cfg.dateType, s.pos)
    ensures var s' := State(s.value, s.pos, s.digits + [DigitValue(keys[0].c)]);
      SessionInv(cfg, s') && Run(cfg, s, keys) == Run(cfg, s', keys[1..])
  {
    DigitBuffered(cfg, s, keys[0].c);
    RunStep(cfg, s, keys, State(s.value, s.pos, s.digits + [DigitValue(keys[0].c)]));
  }

  /** A single key that continues ends the run in the state it leads to. */
  lemma LastKey(cfg: Config, s: State, k: Key, t: State)
    requires SessionInv(cfg, s) && Transition(cfg, s, k) == Next(t)
    ensures Run(cfg, s, [k]) == Next(t)
  {
    RunStep(cfg, s, [k], t);
    assert [k][1..] == [];
  }

  /** A turn that returns text ends the run with that text. */
  lemma RunEnds(cfg: Config, s: State, keys: seq<Key>)
    requires SessionInv(cfg, s) && keys != [] && Transition(cfg, s, keys[0]).Done?
    ensures Run(cfg, s, keys) == Transition(cfg, s, keys[0])
  {
    TransitionKeepsInvariant(cfg, s, keys[0]);
  }

  /** The fourth digit of a year ends the run as YearEntry says. */
  lemma LastYearDigit(cfg: Config, s: State, c: char)
    requires SessionInv(cfg, s) && cfg.dateType != Time && s.pos == 0 && |s.digits| == 3 && IsDigitChar(c)
    ensures var year := YearOf(s.digits + [DigitValue(c)]);
      && 0 <= year <= 9999
      && Run(cfg, s, [Char(c)])
         == Next(State(CheckDate(cfg, if IsValid(s.value.(year := year)) then s.value.(year := year) else s.value), 0, []))
  {
    var year := YearOf(s.digits + [DigitValue(c)]);
    YearEntry(cfg, s, c);
    LastKey(cfg, s, Char(c), State(CheckDate(cfg, if IsValid(s.value.(year := year)) then s.value.(year := year) else s.value), 0, []));
  }

  /**
   * Typing the rest of a four-digit year on the year field of a date or
   * date-time sets the year to the number the buffer then spells when that
   * gives a calendar instant, and otherwise keeps the value; the value then
   * goes through the clamp and the buffer is empty.
   */
  lemma {:induction false} TypingAYear(cfg: Config, s: State, keys: seq<Key>)
    requires SessionInv(cfg, s) && cfg.dateType != Time && s.pos == 0
    requires keys != [] && AllDigitKeys(keys) && |s.digits| + |keys| == 4
    ensures var year := YearOf(s.digits + DigitsOf(keys));
      && 0 <= year <= 9999
      && Run(cfg, s, keys)
         == Next(State(CheckDate(cfg, if IsValid(s.value.(year := year)) then s.value.(year := year) else s.value), 0, []))
    decreases |keys|
  {
    if |keys| == 1 {
      assert DigitsOf(keys) == [DigitValue(keys[0].c)];
      assert keys == [Char(keys[0].c)];
      LastYearDigit(cfg, s, keys[0].c);
    } else {
      var s' := YearDigitStep(cfg, s, keys);
      TypingAYear(cfg, s', keys[1..]);
    }
  }

  /** A year digit that is not the last is buffered; the digits typed so far spell the same prefix. */
  lemma YearDigitStep(cfg: Config, s: State, keys: seq<Key>) returns (s': State)
    requires SessionInv(cfg, s) && cfg.dateType != Time && s.pos == 0
    requires |keys| > 1 && AllDigitKeys(keys) && |s.digits| + |keys| == 4
    ensures SessionInv(cfg, s') && s'.value == s.value && s'.pos == 0
    ensures AllDigitKeys(keys[1..]) && |s'.digits| + |keys[1..]| == 4
    ensures s'.digits + DigitsOf(keys[1..]) == s.digits + DigitsOf(keys)
    ensures Run(cfg, s, keys) == Run(cfg, s', keys[1..])
  {
    s' := State(s.value, 0, s.digits + [DigitValue(keys[0].c)]);
    BufferStep(cfg, s, keys);
    DigitsOfFirst(s.digits, keys);
  }

  /** Moving the first key's digit into the buffer keeps the digits spelled. */
  lemma DigitsOfFirst(ds: seq<int>, keys: seq<Key>)
    requires keys != [] && AllDigitKeys(keys)
    ensures AllDigitKeys(keys[1..])
    ensures (ds + [DigitValue(keys[0].c)]) + DigitsOf(keys[1..]) == ds + DigitsOf(keys)
  {
    assert DigitsOf(keys) == [DigitValue(keys[0].c)] + DigitsOf(keys[1..]);
  }

  /** Typing 1, 3 on the month field keeps the value (there is no month 13) and empties the buffer. */
  lemma TypingMonthThirteen(cfg: Config, s: State)
    requires SessionInv(cfg, s) && cfg.dateType != Time && s.pos == 1 && s.digits == []
    ensures Run(cfg, s, [Char('1'), Char('3')]) == Next(State(s.value, 1, []))
  {
    var keys := [Char('1'), Char('3')];
    var s1 := State(s.value, 1, [1]);
    DigitBuffered(cfg, s, '1');
    RunStep(cfg, s, keys, s1);
    FieldEntry(cfg, s1, '3');
    RunStep(cfg, s1, keys[1..], State(s.value, 1, []));
    assert keys[1..][1..] == [];
  }

  /** At the lower bound Down changes nothing, and Enter after it returns the lower bound. */
  lemma DownAtMinimum(cfg: Config, s: State)
    requires SessionInv(cfg, s) && s.value == cfg.min && s.digits == []
    ensures Run(cfg, s, [ArrowDown]) == Next(s)
    ensures Run(cfg, s, [ArrowDown, Enter]) == Done(Output(cfg.dateType, cfg.min))
  {
    StepDownKey(cfg, s);
    var t := Transition(cfg, s, ArrowDown).state;
    LeIsTotalOrder(cfg.min, t.value, cfg.min);
    assert t == s;
    LastKey(cfg, s, ArrowDown, s);
    RunStep(cfg, s, [ArrowDown, Enter], s);
    ConfirmOutput(cfg, s);
    RunEnds(cfg, s, [ArrowDown, Enter][1..]);
  }

  /**
   * A date selection limited to 2020-02-20 .. 2022-11-30 that starts on
   * 2000-01-01 opens on 2020-02-20 whatever the day; Down on the year field
   * stays there, and Enter returns "2020-02-20".
   */
  lemma ClampedDateSession(cfg: Config, today: NaiveDateTime)
    requires cfg == DefaultConfig().(dateType := Date, default := Some(NaiveDateTime(2000, 1, 1, 0, 0, 0)),
                                     min := NaiveDateTime(2020, 2, 20, 0, 0, 0), max := NaiveDateTime(2022, 11, 30, 0, 0, 0))
    requires IsValid(today)
    ensures var s := Initial(cfg, StartValue(cfg, today));
      && s == State(NaiveDateTime(2020, 2, 20, 0, 0, 0), 0, [])
      && Run(cfg, s, [ArrowDown]) == Next(s)
      && Run(cfg, s, [ArrowDown, Enter]) == Done("2020-02-20")
  {
    var s := Initial(cfg, StartValue(cfg, today));
    assert s == State(cfg.min, 0, []);
    DownAtMinimum(cfg, s);
    FormatDateExample();
  }

  /** With the default options, Enter at once returns today at midnight as an RFC 3339 timestamp. */
  lemma DefaultSessionConfirmsToday(today: NaiveDateTime)
    requires IsRfc3339Value(today)
    ensures var cfg := DefaultConfig();
      Run(cfg, Initial(cfg, StartValue(cfg, today)), [Enter])
      == Done(FormatRfc3339(today.(hour := 0, minute := 0, second := 0)))
  {
    var cfg := DefaultConfig();
    var v := today.(hour := 0, minute := 0, second := 0);
    assert InRange(cfg, v);
  }
}
