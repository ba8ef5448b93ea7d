/**
 * The target scope shown beside each message: everyone for text chat and for
 * the few chat-wheel lines the game broadcasts globally, allies only for every
 * other chat-wheel line.
 */
module TargetScope {
  import opened Wrappers
  import opened Events

  datatype Scope = All | Allies

  /** `chatwheelAll`: the voice-line ids heard by all players. */
  const BroadcastIds: seq<nat> := [75, 76, 108, 109, 110]

  predicate IsDigit(c: char) {
    '0' <= c <= '9'
  }

  predicate AllDigits(t: string) {
    forall i :: 0 <= i < |t| ==> IsDigit(t[i])
  }

  /** The value of a string of decimal digits, leading zeros allowed. */
  function DigitsValue(t: string): nat
    requires AllDigits(t)
  {
    if t == [] then 0 else DigitsValue(t[..|t| - 1]) * 10 + (t[|t| - 1] as int - '0' as int)
  }

  /**
   * `Number(key)` for keys that are decimal integers between optional white
   * space (an empty or blank key is 0); `None` stands for `NaN`.
   */
  function NumberOf(key: string): Option<nat> {
    var t := Trim(key);
    if AllDigits(t) then Some(DigitsValue(t)) else None
  }

  /** `chatwheelAll.includes(Number(key))`; `NaN` is never included. */
  predicate IsBroadcast(key: string) {
    var n := NumberOf(key);
    n.Some? && n.value in BroadcastIds
  }

  /** The target of a message, as the rendering chooses it. */
  function Target(e: Event): Scope {
    if e.kind == ChatWheel && !IsBroadcast(e.key) then Allies else All
  }

  function DigitChar(d: nat): char
    requires d < 10
  {
    ('0' as int + d) as char
  }

  /** The decimal numeral of `n`, as the match data writes a voice-line id. */
  function DecimalString(n: nat): (t: string)
    ensures |t| > 0 && AllDigits(t)
  {
    if n < 10 then [DigitChar(n)] else DecimalString(n / 10) + [DigitChar(n % 10)]
  }

  /** Reading back the numeral of `n` gives `n`. */
  lemma {:induction false} DigitsValueOfDecimal(n: nat)
    ensures DigitsValue(DecimalString(n)) == n
  {
    var t := DecimalString(n);
    if n >= 10 {
      DigitsValueOfDecimal(n / 10);
      assert t[..|t| - 1] == DecimalString(n / 10);
    }
  }

  /** `Number` of the numeral of `n` is `n`. */
  lemma NumberOfDecimal(n: nat)
    ensures NumberOf(DecimalString(n)) == Some(n)
  {
    var t := DecimalString(n);
    assert !IsWhiteSpace(t[0]) && !IsWhiteSpace(t[|t| - 1]) by {
      assert IsDigit(t[0]) && IsDigit(t[|t| - 1]);
    }
    TrimOfTrimmed(t);
    DigitsValueOfDecimal(n);
  }

  /** A chat-wheel line with id `n` is heard by all exactly when `n` is one of 75, 76, 108, 109, 110. */
  lemma ChatWheelTarget(e: Event, n: nat)
    requires e.kind == ChatWheel && e.key == DecimalString(n)
    ensures Target(e) == All <==> n in {75, 76, 108, 109, 110}
    ensures Target(e) == Allies <==> n !in {75, 76, 108, 109, 110}
  {
    NumberOfDecimal(n);
  }

  /** Text chat is always shown as heard by all. */
  lemma ChatTarget(e: Event)
    requires e.kind == Chat
    ensures Target(e) == All
  {
  }

  /** A chat-wheel key that is not a number is shown as heard by allies only. */
  lemma NonNumericTarget(e: Event)
    requires e.kind == ChatWheel && NumberOf(e.key) == None
    ensures Target(e) == Allies
  {
  }

  /** Voice line 76 is heard by all, voice line 12 by allies only. */
  lemma TargetExamples(e76: Event, e12: Event)
    requires e76.kind == ChatWheel && e76.key == "76"
    requires e12.kind == ChatWheel && e12.key == "12"
    ensures Target(e76) == All && Target(e12) == Allies
  {
    assert DecimalString(76) == "76";
    assert DecimalString(12) == "12";
    ChatWheelTarget(e76, 76);
    ChatWheelTarget(e12, 12);
  }
}
