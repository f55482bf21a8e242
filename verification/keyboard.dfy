/**
  Key events, the keycode-name table, the OS keymap, and the decisions made
  about a key event before any matching: whether it resets the buffer, whether
  it is a Backspace, and which character (if any) it types.
 */
module Keyboard {
  import opened Optional

  /** A raw key-down event as delivered by the keyboard hook. */
  datatype KeyEvent = KeyEvent(
    keycode: int,
    shiftKey: bool,
    altKey: bool,
    ctrlKey: bool,
    metaKey: bool)

  /** The characters one physical key produces under each modifier combination; a missing variant is `None`. */
  datatype KeymapEntry = KeymapEntry(
    value: Option<string>,
    withShift: Option<string>,
    withAltGr: Option<string>,
    withShiftAltGr: Option<string>)

  /** Keycode to logical key name (the `chars` table). */
  type CharTable = map<int, string>

  /** Logical key name to its entry, as reported by the OS for the current layout. */
  type Keymap = map<string, KeymapEntry>

  const KeyBackspace: string := "Backspace"
  const KeyTab: string := "Tab"
  const KeyArrows: seq<string> := ["ArrowUp", "ArrowDown", "ArrowLeft", "ArrowRight"]

  /** The logical name of a keycode; a keycode missing from the table has none. */
  function CharName(chars: CharTable, keycode: int): (r: Option<string>)
    ensures r.Some? <==> keycode in chars
    ensures r.Some? ==> r.value == chars[keycode]
  {
    if keycode in chars then Some(chars[keycode]) else None
  }

  /** A keycode is a Backspace exactly when the table names it "Backspace". */
  function IsBackspace(chars: CharTable, keycode: int): (r: bool)
    ensures r <==> keycode in chars && chars[keycode] == KeyBackspace
  {
    CharName(chars, keycode) == Some(KeyBackspace)
  }

  /**
    Alt+Backspace, Tab and the four arrow keys invalidate the buffer. Only the
    key's name and Alt matter; a keycode the table does not know never resets.
   */
  function ShouldResetBuffer(chars: CharTable, e: KeyEvent): (r: bool)
    ensures r ==> e.keycode in chars
    ensures IsBackspace(chars, e.keycode) ==> (r <==> e.altKey)
    ensures e.keycode in chars && chars[e.keycode] == KeyTab ==> r
    ensures e.keycode in chars && chars[e.keycode] in KeyArrows ==> r
    ensures r ==> chars[e.keycode] == KeyBackspace || chars[e.keycode] == KeyTab || chars[e.keycode] in KeyArrows
  {
    var pressed := CharName(chars, e.keycode);
    || (pressed == Some(KeyBackspace) && e.altKey)
    || pressed == Some(KeyTab)
    || (pressed.Some? && pressed.value in KeyArrows)
  }

  /** Shift, Ctrl and Meta never change whether a key resets the buffer. */
  lemma ResetIgnoresOtherModifiers(chars: CharTable, e1: KeyEvent, e2: KeyEvent)
    requires e1.keycode == e2.keycode && e1.altKey == e2.altKey
    ensures ShouldResetBuffer(chars, e1) == ShouldResetBuffer(chars, e2)
  {
  }

  /** A variant counts only when it is present and not the empty string. */
  function Printable(v: Option<string>): Option<string> {
    if v.Some? && v.value != [] then v else None
  }

  /**
    The character typed by `e`, or `None` for "not printable". Each modifier
    branch tests Ctrl and Meta again, and the variant picked by the first
    branch that applies is final: a missing or empty variant is not replaced
    by another one.
   */
  function EventToUnicode(chars: CharTable, keymap: Keymap, e: KeyEvent): (r: Option<string>)
    ensures e.ctrlKey || e.metaKey ==> r.None?
    ensures EntryFor(chars, keymap, e.keycode).None? ==> r.None?
    ensures r == Resolve(chars, keymap, e)
  {
    var name := CharName(chars, e.keycode);
    if name.None? || name.value == [] || name.value !in keymap then None
    else
      var entry := keymap[name.value];
      var value :=
        if e.shiftKey && e.altKey && !e.ctrlKey && !e.metaKey then entry.withShiftAltGr
        else if e.shiftKey && !e.ctrlKey && !e.metaKey then entry.withShift
        else if e.altKey && !e.ctrlKey && !e.metaKey then entry.withAltGr
        else if !e.ctrlKey && !e.metaKey then entry.value
        else None;
      Printable(value)
  }

  // Reference definition of the resolution rule, stated as a priority over variants.

  datatype Variant = Base | WithShift | WithAltGr | WithShiftAltGr

  /** The variant a modifier combination selects, first rule first; `None` when a control modifier is held. */
  function SelectedVariant(e: KeyEvent): Option<Variant> {
    if e.ctrlKey || e.metaKey then None
    else if e.shiftKey && e.altKey then Some(WithShiftAltGr)
    else if e.shiftKey then Some(WithShift)
    else if e.altKey then Some(WithAltGr)
    else Some(Base)
  }

  function VariantValue(entry: KeymapEntry, v: Variant): Option<string> {
    match v
    case Base => entry.value
    case WithShift => entry.withShift
    case WithAltGr => entry.withAltGr
    case WithShiftAltGr => entry.withShiftAltGr
  }

  /** The keymap entry of a keycode whose name is known, non-empty and present in the keymap. */
  function EntryFor(chars: CharTable, keymap: Keymap, keycode: int): Option<KeymapEntry> {
    var name := CharName(chars, keycode);
    if name.Some? && name.value != [] && name.value in keymap then Some(keymap[name.value]) else None
  }

  /** The selected variant of the key's entry, with no fallback to a lower-priority variant. */
  function Resolve(chars: CharTable, keymap: Keymap, e: KeyEvent): Option<string> {
    match EntryFor(chars, keymap, e.keycode)
    case None => None
    case Some(entry) =>
      match SelectedVariant(e)
      case None => None
      case Some(v) => Printable(VariantValue(entry, v))
  }

  /** A selected variant that is missing or empty makes the key not printable, whatever the other variants hold. */
  lemma NoFallback(chars: CharTable, keymap: Keymap, e: KeyEvent, entry: KeymapEntry, v: Variant)
    requires EntryFor(chars, keymap, e.keycode) == Some(entry)
    requires SelectedVariant(e) == Some(v)
    requires VariantValue(entry, v).None? || VariantValue(entry, v) == Some([])
    ensures EventToUnicode(chars, keymap, e).None?
  {
  }

  // Keymaps whose every value is a single character.

  predicate AtMostOneChar(v: Option<string>) {
    v.None? || |v.value| <= 1
  }

  predicate SingleCharEntry(entry: KeymapEntry) {
    AtMostOneChar(entry.value) && AtMostOneChar(entry.withShift)
    && AtMostOneChar(entry.withAltGr) && AtMostOneChar(entry.withShiftAltGr)
  }

  predicate SingleCharKeymap(keymap: Keymap) {
    forall name :: name in keymap ==> SingleCharEntry(keymap[name])
  }

  /** Under a single-character keymap every printable key types exactly one character. */
  lemma SingleCharTyping(chars: CharTable, keymap: Keymap, e: KeyEvent)
    requires SingleCharKeymap(keymap)
    requires EventToUnicode(chars, keymap, e).Some?
    ensures |EventToUnicode(chars, keymap, e).value| == 1
  {
    var entry := EntryFor(chars, keymap, e.keycode).value;
    assert SingleCharEntry(entry);
  }
}
