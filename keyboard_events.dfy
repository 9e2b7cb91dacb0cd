/**
 * Keyboard events (src/game/events/KeyboardEvent.ts).
 *
 * An event's fields are fixed at construction, so an event is a value. The
 * key is normalised once, by a small table of special keys; any other key is
 * lower-cased. The event's timestamp and the browser event it wraps are not
 * part of this model.
 */
module KeyboardEvents {
  import opened Strings
  import opened Wrappers

  datatype KeyState = Pressed | Released | Held

  const KEY_PRESSED: string := "KeyPressed"
  const KEY_RELEASED: string := "KeyReleased"
  const KEY_HELD: string := "KeyHeld"

  datatype KeyboardEvent = KeyboardEvent(eventType: string, key: string, code: string, state: KeyState)

  /** The special keys and the names they are normalised to. */
  const KeyMap: map<string, string> := map[
    " " := "Space",
    "ArrowUp" := "Up",
    "ArrowDown" := "Down",
    "ArrowLeft" := "Left",
    "ArrowRight" := "Right",
    "Enter" := "Return",
    "Escape" := "Escape"
  ]

  /** `normalizeKey`: the table's name for a special key, the lower-cased key otherwise. */
  function NormalizeKey(key: string): (k: string)
    ensures key in KeyMap ==> k == KeyMap[key]
    ensures key !in KeyMap ==> k == ToLower(key) && HasNoUpper(k)
  {
    ToLowerIdempotent(key);
    if key in KeyMap then KeyMap[key] else ToLower(key)
  }

  /** Every name in the table starts with an upper-case letter. */
  lemma KeyMapNamesCapitalised(key: string)
    requires key in KeyMap
    ensures |KeyMap[key]| > 0 && IsAsciiUpper(KeyMap[key][0])
  {
  }

  function Create(eventType: string, key: string, code: string, state: KeyState): (e: KeyboardEvent)
    ensures e.key == NormalizeKey(key) && e.code == code
    ensures e.eventType == eventType && e.state == state
  {
    KeyboardEvent(eventType, NormalizeKey(key), code, state)
  }

  /** `createPressed`: type "KeyPressed" and state pressed. */
  function CreatePressed(key: string, code: string): (e: KeyboardEvent)
    ensures WellTyped(e) && IsPressed(e)
    ensures e.key == NormalizeKey(key) && e.code == code
  {
    Create(KEY_PRESSED, key, code, Pressed)
  }

  /** `createReleased`: type "KeyReleased" and state released. */
  function CreateReleased(key: string, code: string): (e: KeyboardEvent)
    ensures WellTyped(e) && IsReleased(e)
    ensures e.key == NormalizeKey(key) && e.code == code
  {
    Create(KEY_RELEASED, key, code, Released)
  }

  /** `createHeld`: type "KeyHeld" and state held. */
  function CreateHeld(key: string, code: string): (e: KeyboardEvent)
    ensures WellTyped(e) && IsHeld(e)
    ensures e.key == NormalizeKey(key) && e.code == code
  {
    Create(KEY_HELD, key, code, Held)
  }

  /** The event type names the state, as the three factories make it. */
  predicate WellTyped(e: KeyboardEvent) {
    match e.state
    case Pressed => e.eventType == KEY_PRESSED
    case Released => e.eventType == KEY_RELEASED
    case Held => e.eventType == KEY_HELD
  }

  predicate IsPressed(e: KeyboardEvent) { e.state == Pressed }
  predicate IsReleased(e: KeyboardEvent) { e.state == Released }
  predicate IsHeld(e: KeyboardEvent) { e.state == Held }

  /** Exactly one of the three state tests holds, and on a factory-made event the type tells which. */
  lemma ExactlyOneState(e: KeyboardEvent)
    ensures IsPressed(e) || IsReleased(e) || IsHeld(e)
    ensures !(IsPressed(e) && IsReleased(e)) && !(IsPressed(e) && IsHeld(e)) && !(IsReleased(e) && IsHeld(e))
    ensures WellTyped(e) ==> (IsPressed(e) <==> e.eventType == KEY_PRESSED)
    ensures WellTyped(e) ==> (IsReleased(e) <==> e.eventType == KEY_RELEASED)
    ensures WellTyped(e) ==> (IsHeld(e) <==> e.eventType == KEY_HELD)
  {
  }

  /** `isKey`: the normalised key equals the lower-cased argument, or the raw code equals the argument. */
  function IsKey(e: KeyboardEvent, k: string): (b: bool)
    ensures b <==> e.key == ToLower(k) || e.code == k
  {
    e.key == ToLower(k) || e.code == k
  }

  /** An ordinary key is recognised by its own raw name, in any letter case. */
  lemma IsKeyOfOrdinaryKey(key: string, code: string, k: string)
    requires key !in KeyMap && ToLower(k) == ToLower(key)
    ensures IsKey(CreatePressed(key, code), k)
  {
  }

  /**
   * A special key is never recognised through its normalised name: that name
   * starts with an upper-case letter, while `isKey` lower-cases its argument.
   * Only the raw code can match.
   */
  lemma {:induction false} IsKeyOfSpecialKey(key: string, code: string, k: string)
    requires key in KeyMap
    ensures IsKey(CreatePressed(key, code), k) <==> code == k
  {
    var e := CreatePressed(key, code);
    KeyMapNamesCapitalised(key);
    ToLowerIdempotent(k);
  }

  /** `isNumber`: the normalised key is exactly one decimal digit. */
  predicate IsNumber(e: KeyboardEvent) {
    |e.key| == 1 && IsDigit(e.key[0])
  }

  /** `getNumber`: the digit's value, or null when the key is not a digit. */
  function GetNumber(e: KeyboardEvent): (r: Option<int>)
    ensures r.Some? <==> IsNumber(e)
    ensures r.Some? ==> 0 <= r.value <= 9 && NatToString(r.value) == e.key
  {
    if IsNumber(e) then Some(DigitValue(e.key[0])) else None
  }

  /** Pressing a digit key gives back that digit. */
  lemma GetNumberOfDigitKey(d: nat, code: string)
    requires d < 10
    ensures GetNumber(CreatePressed(NatToString(d), code)) == Some(d)
  {
    var s := NatToString(d);
    assert s == [DigitChar(d)];
    assert NatToString(d) !in KeyMap;
    assert ToLower(s) == s;
  }
}
