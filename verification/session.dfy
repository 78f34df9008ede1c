/**
 * The interactive loop as the source writes it: three variables (the value,
 * the cursor and the digit buffer) updated in place key after key. `Selector`
 * holds them; `Step` is one pass of the loop body and is proved to do what
 * `Editor.Transition` says, and `Interact` drives a selector over a sequence
 * of keys and is proved to return what `Editor.Run` says.
 */
module Session {
  import opened Wrappers
  import opened Calendar
  import opened Adjust
  import opened Formatting
  import opened Settings
  import opened Editor

  class Selector {
    const config: Config
    var value: NaiveDateTime
    var pos: int
    var digits: seq<int>

    /** The loop variables as one editing state. */
    function Current(): State
      reads this
    {
      State(value, pos, digits)
    }

    ghost predicate Valid()
      reads this
    {
      SessionInv(config, Current())
    }

    /** The set-up before the loop: the start value is clamped and the cursor is on the first field. */
    constructor (config: Config, start: NaiveDateTime)
      requires ConfigValid(config) && IsValid(start)
      ensures this.config == config && Current() == Initial(config, start)
      ensures Valid()
    {
      this.config := config;
      value := CheckDate(config, start);
      pos := 0;
      digits := [];
    }

    /**
     * One pass of the loop body for `key`: Some(text) when the key is Enter,
     * otherwise None with the variables updated and the value re-clamped.
     */
    method Step(key: Key) returns (output: Option<string>)
      requires Valid()
      modifies this
      ensures Valid()
      ensures Transition(config, old(Current()), key) == if output.Some? then Done(output.value) else Next(Current())
    {
      ghost var s := Current();
      TransitionKeepsInvariant(config, s, key);
      CursorLayout(config.dateType, pos);
      var maxPos := MaxPos(config.dateType);
      match Classify(key) {
        case Confirm =>
          ConfirmOutput(config, s);
          return Some(Output(config.dateType, value));
        case MoveNext =>
          pos := if pos == maxPos then 0 else pos + 1;
          digits := [];
        case MovePrev =>
          pos := if pos == 0 then maxPos else pos - 1;
          digits := [];
        case StepUp =>
          match FieldAt(config.dateType, pos) {
            case Some(f) => value := Increase(value, f);
            case None => assert false;
          }
          digits := [];
        case StepDown =>
          match FieldAt(config.dateType, pos) {
            case Some(f) => value := Decrease(value, f);
            case None => assert false;
          }
          digits := [];
        case Type(c) =>
          if IsDigitChar(c) {
            PushDigit(DigitValue(c));
          } else {
            digits := [];
          }
        case Erase =>
          if digits != [] {
            digits := digits[..|digits| - 1];
          }
        case Ignore =>
      }
      value := CheckDate(config, value);
      output := None;
    }

    /**
     * The digit arm of the loop body, before the re-clamp: the digit joins the
     * buffer, and a full buffer is written into the field under the cursor
     * when that gives a calendar instant, and is emptied either way.
     */
    method PushDigit(d: int)
      requires Valid() && 0 <= d < 10
      modifies this
      ensures IsValid(value)
      ensures TypeDigit(config, old(Current()), d) == Next(Current())
    {
      CursorLayout(config.dateType, pos);
      digits := digits + [d];
      if pos == 0 && |digits| == 4 {
        var num := digits[0] * 1000 + digits[1] * 100 + digits[2] * 10 + digits[3];
        if config.dateType == Time {
          assert false;
        } else {
          value := With(value, Year, num).GetOr(value);
          digits := [];
        }
      } else if |digits| == 2 && (pos > 0 || config.dateType == Time) {
        var num := digits[0] * 10 + digits[1];
        match FieldAt(config.dateType, pos) {
          case Some(f) =>
            if f == Year {
              assert false;
            } else {
              value := With(value, f, num).GetOr(value);
              digits := [];
            }
          case None => assert false;
        }
      }
    }
  }

  /** A turn that returns text ends the session with it; one that continues hands on the rest of the keys. */
  lemma RunUnfold(cfg: Config, s: State, keys: seq<Key>, i: nat)
    requires SessionInv(cfg, s) && i < |keys|
    ensures Transition(cfg, s, keys[i]).Done? ==> Run(cfg, s, keys[i..]) == Transition(cfg, s, keys[i])
    ensures Transition(cfg, s, keys[i]).Next? ==>
              && SessionInv(cfg, Transition(cfg, s, keys[i]).state)
              && Run(cfg, s, keys[i..]) == Run(cfg, Transition(cfg, s, keys[i]).state, keys[i + 1..])
  {
    TransitionKeepsInvariant(cfg, s, keys[i]);
    assert keys[i..][0] == keys[i];
    assert keys[i..][1..] == keys[i + 1..];
  }

  /**
   * The whole selection over the keys typed: the text of the first Enter, or
   * the state the loop waits in once the keys run out. `today` stands for the
   * clock reading used when no default is configured.
   */
  method Interact(config: Config, today: NaiveDateTime, keys: seq<Key>) returns (outcome: Outcome)
    requires ConfigValid(config) && IsValid(today)
    ensures outcome == Run(config, Initial(config, StartValue(config, today)), keys)
  {
    var selector := new Selector(config, StartValue(config, today));
    var i := 0;
    while i < |keys|
      invariant 0 <= i <= |keys|
      invariant selector.config == config && selector.Valid()
      invariant Run(config, Initial(config, StartValue(config, today)), keys) == Run(config, selector.Current(), keys[i..])
      decreases |keys| - i
    {
      RunUnfold(config, selector.Current(), keys, i);
      var output := selector.Step(keys[i]);
      if output.Some? {
        return Done(output.value);
      }
      i := i + 1;
    }
    return Next(selector.Current());
  }
}
