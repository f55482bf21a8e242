# Snippet engine model

A Dafny model of the snippet engine of QuickWords, a text expander. The engine
watches global key and mouse events and keeps a rolling buffer of recently
typed characters. When the end of the buffer matches a configured snippet's
trigger, it deletes the trigger with simulated backspaces and pastes the
replacement through the clipboard. It sends an analytics record as soon as the
clipboard holds the replacement; the paste tap follows 50 ms later and the
restore of the old clipboard 500 ms later.

The model is functional. The engine's mutable part is a `State`
(buffer, `shouldMatch`). Everything the engine reads from its collaborators is an `Env` value: the
keycode-name table, the OS keymap, the stored snippets, `bufferLength`, the user
id, the clipboard content, notification support, the pattern engine and the
evaluator of `js` snippets. A key or mouse event is a pure step from one state
to the next. It also returns the ordered trace of side effects the event causes.

Modules, leaf first:

- `Optional`, `Strings`: an option type and the suffix test.
- `Snippets`: the stored record. `active`, `regex` and `type` may be absent in old
  records. The startup normaliser fills in their defaults.
- `Keyboard`: key events, keymap entries, the Backspace and reset tests, and the
  modifier-priority keycode resolver. A separate priority-over-variants
  definition serves as a reference, and the resolver is proved equal to it.
- `InputBuffer`: shortening, trimming, and the window of the last `n` characters.
- `LiteralPattern`: the search the engine's pattern `.*(key)$` performs for an
  escaped literal key. The search tries each start position in turn. At each
  one, the wildcard first takes the longest run it can (it stops at line
  terminators) and then gives characters back. The model proves that this
  search captures the key exactly when the buffer ends with it.
- `Matcher`: the walk over the snippets in stored order. Inactive snippets are
  skipped. The first snippet that captures a non-empty suffix wins. A pattern
  that cannot be compiled throws inside the loop and abandons the search.
- `Effects`: the effect trace (key taps, clipboard reads and writes,
  notifications, analytics) and the clipboard content that a trace leaves.
- `Replacement`: `replace`, the `js` failure fallback, the analytics payload,
  and the full trace of one match.
- `Engine`: `State`, `Event`, the key-down and mouse-click handlers, the step
  function, runs of many events, and the run-level invariants.

The effects of a match are listed in the order they take place:

1. one backspace tap per matched character;
2. the error notification of a failed `js` snippet, if any;
3. the clipboard read and the write of the replacement;
4. the analytics record, which is sent as soon as `replace` returns;
5. the paste tap (scheduled after 50 ms);
6. the clipboard restore (scheduled after 500 ms).

The paste tap always uses the `command` modifier, as `replace` does
(src/main/modules/SnippetsManager.js:220). The platform-aware `paste` method is
not called on this path.

Two behaviours of the code that the model keeps as written:

- A replacement does not clear the buffer.
- A multi-character keymap value can push the buffer more than one character
  past its bound, because the trim step drops only one character. `OnKeyDown`
  states the exact length after an append. The bound `|buffer| <= bufferLength`
  is proved for keymaps whose values are single characters.

## Model

| member | source | states |
|---|---|---|
| Snippets.FillDefaults | src/main/modules/SnippetsManager.js:38-40 | the record ends with `active`, `regex` and a non-empty `type`; missing `active` becomes true, missing `regex` false, missing or empty `type` "plain"; present fields and id, key, value are unchanged |
| Snippets.EnsureAllFieldsArePresent | src/main/modules/SnippetsManager.js:36-44 | the normalised collection has the same length and order, each record normalised in place, and every record has all fields |
| Snippets.NormaliseFixesComplete | src/main/modules/SnippetsManager.js:36-44 | on a collection whose records all have their fields the normaliser writes back identical content |
| Snippets.NormaliseIdempotent | src/main/modules/SnippetsManager.js:36-44 | running the normaliser twice equals running it once |
| Keyboard.CharName | src/main/modules/SnippetsManager.js:55-57 | a keycode has a name iff the table holds it, and the name is the table's entry |
| Keyboard.IsBackspace | src/main/modules/SnippetsManager.js:51-53 | a keycode is a Backspace iff the table names it "Backspace" |
| Keyboard.ShouldResetBuffer | src/main/modules/SnippetsManager.js:96-102 | Tab and the four arrows always reset; a Backspace resets iff Alt is held; a reset key is one of these and a keycode missing from the table never resets |
| Keyboard.ResetIgnoresOtherModifiers | src/main/modules/SnippetsManager.js:96-102 | two events with the same keycode and Alt state agree on resetting, whatever Shift, Ctrl and Meta are |
| Keyboard.EventToUnicode | src/main/modules/SnippetsManager.js:59-86 | Ctrl or Meta, an unknown or empty key name, or a name missing from the keymap give "not printable"; otherwise the result equals the priority rule shift+alt, shift, alt, base; a result is never empty |
| Keyboard.NoFallback | src/main/modules/SnippetsManager.js:67-83 | a missing or empty selected variant gives "not printable" even when lower-priority variants exist |
| InputBuffer.ShortenBy | src/main/modules/SnippetsManager.js:254-256 | the result is a prefix of the buffer, `amount` characters shorter, clamped at empty |
| InputBuffer.ShortenIfNecessary | src/main/modules/SnippetsManager.js:258-262 | the result is a suffix of the buffer; exactly one character is dropped iff the length exceeds the bound; a buffer at most one over the bound ends within it |
| InputBuffer.AppendOneKeepsWindow | src/main/modules/SnippetsManager.js:250-262 | appending one character to a buffer within bound and trimming keeps exactly the last `bufferLength` characters |
| LiteralPattern.Exec | src/main/modules/SnippetsManager.js:190-195 | `.*(escaped key)$` captures the key iff the buffer ends with the key, and finds nothing otherwise, line terminators included |
| Matcher.Capture | src/main/modules/SnippetsManager.js:188-195 | a literal trigger captures its key when the buffer ends with it and the empty string otherwise; a pattern trigger gives what the pattern engine gives |
| Matcher.FindFrom | src/main/modules/SnippetsManager.js:182-213 | the chosen snippet is active with a non-empty capture and every earlier snippet was skipped; no result means every snippet was skipped; an invalid pattern of an active snippet stops the search |
| Matcher.LaterSnippetsIgnored | src/main/modules/SnippetsManager.js:197-211 | once a snippet decides the search, appending snippets after the collection changes nothing |
| Matcher.LiteralSelection | src/main/modules/SnippetsManager.js:183-197 | with literal triggers the winner is the first active snippet with a non-empty key the buffer ends with, the matched text is that key, an empty key never fires, and nothing aborts |
| Replacement.HandleJavascriptSnippet | src/main/modules/SnippetsManager.js:224-236 | a success yields its text; a failure yields "" and a "QWError" notification with the message when notifications are supported, else "QWError " followed by the message |
| Replacement.ResolveReplacement | src/main/modules/SnippetsManager.js:202-206 | a snippet whose type is not "js" is replaced by its value with no other effect; a "js" snippet's value is code, evaluated on the matched text and passed through the failure fallback; resolution raises only notifications |
| Replacement.Replace | src/main/modules/SnippetsManager.js:215-222 | before returning, exactly two effects: the clipboard read, then the write of the text; exactly two scheduled effects: the paste tap, then the write of the old content; so the clipboard holds the text when `replace` returns and when the paste tap fires, and the old content afterwards |
| Replacement.ReportToAnalytics | src/main/modules/SnippetsManager.js:128-134 | the record is "snippet-replacement" with exactly the user, the snippet's regex flag and its type |
| Replacement.ReportOmitsTriggerAndValue | src/main/modules/SnippetsManager.js:128-134 | the record does not depend on the snippet's trigger, value, id or active flag |
| Replacement.MatchEffects | src/main/modules/SnippetsManager.js:197-210 | exactly as many backspace taps as matched characters come first and none later; then exactly the resolution's notifications; then the clipboard read and the write of the replacement text; the trace has no other effects; the report precedes the paste tap and is the only report; the clipboard holds the replacement at the paste; the last effect restores the clipboard |
| Engine.ReplaceSnippetIfMatchFound | src/main/modules/SnippetsManager.js:182-213 | effects occur iff the search finds a snippet, they are that match's trace, and the clipboard ends as it began |
| Engine.OnKeyDown | src/main/modules/SnippetsManager.js:104-126 | disabled matching ignores the event; reset keys empty the buffer with no effects; another Backspace drops one character, or none on an empty buffer, with no matching; a non-printable key changes nothing; a printable key leaves a suffix of old buffer plus character, one character shorter iff over the bound, with effects iff a match is found on the new buffer, and those effects are the match trace of the new buffer |
| Engine.OnMouseClick | src/main/modules/SnippetsManager.js:92-94 | a click empties the buffer whatever `shouldMatch` is, and has no effects |
| Engine.Step | src/main/modules/SnippetsManager.js:92-126 | no event changes `shouldMatch`, and every event, taken as one atomic step, leaves the clipboard as it found it |
| Engine.RunRestoresClipboard | src/main/modules/SnippetsManager.js:215-222 | after any sequence of events, each handled atomically against one fixed environment, the clipboard holds its original content |
| Engine.StepKeepsBound | src/main/modules/SnippetsManager.js:250-262 | with single-character keymap values, from a buffer within its bound, one event keeps `|buffer| <= bufferLength` |
| Engine.RunKeepsBound | src/main/modules/SnippetsManager.js:250-262 | with single-character keymap values, from a buffer within its bound, no sequence of events lets the buffer exceed `bufferLength` |
| Engine.TypingStep | src/main/modules/SnippetsManager.js:119-123 | with single-character keymap values, from a buffer within its bound, one plain key press leaves the window of the old buffer followed by the typed character |
| Engine.TypingKeepsWindow | src/main/modules/SnippetsManager.js:119-123 | with single-character keymap values, from a buffer within its bound, after plain typing the buffer is the last `min(n, bufferLength)` characters of the old buffer followed by everything typed, whatever matched on the way |
| Engine.BtwScenario | src/main/modules/SnippetsManager.js:182-222 | typing b, t, w into an empty buffer with one active literal snippet "btw" emits exactly three backspace taps, the clipboard read, the write of "by the way", the analytics record, the command+v paste tap and the restore of the old clipboard |

## Left out

- `_evaluate` (src/main/modules/SnippetsManager.js:136-180) evaluates user code with `eval`, promises and a 5000 ms timer. Its outcome is an `Evaluator` parameter that yields text or a failure message, the failure already converted with `String(error)`. A number result is taken as already converted to text.
- Pattern triggers (`regex: true`): the host's regular-expression semantics are not modelled. A `PatternOracle` parameter gives the capture, or reports a pattern that cannot be compiled.
- Replacement.HandleJavascriptSnippet: an `Evaluation` carries text only. The code does not check the type of the value a `js` snippet's promise resolves to (src/main/modules/SnippetsManager.js:172-173), so an object or `undefined` can reach `writeText` (:218). The model cannot express such a value.
- Engine.RunRestoresClipboard: holds only because the model handles each replacement atomically and reads one fixed `Env` for the whole run. In the code the restore runs 500 ms after `replace` (src/main/modules/SnippetsManager.js:221). A second replacement inside that window reads the first replacement's text as the old content (:216) and restores that text later, so the user's clipboard is lost. The code also re-reads the keymap, snippets, clipboard and `bufferLength` on every event (:61, :183, :216, :259), and these may change during a run.
- Timers and asynchrony: the 50 ms and 500 ms delays of `replace` and the un-awaited match call are not modelled. A match is one atomic step that emits an ordered trace, so keys pressed while a `js` evaluation is pending, and overlapping replacements, are not modelled.
- Simulated backspace and paste taps are not fed back into the key handler, although the OS hook may observe them.
- Native collaborators are parameters of `Env` or left out: the keyboard hook, the keyboard simulator, `native-keymap`, the `chars` table contents, `Notification`, `PlatformAware`, `fix-path` and the analytics transport.
- The constructor and `destructor` wiring (hook start/stop, keyboard delay) is left out. `Engine.Initial` is the state the constructor sets.
- `paste` (src/main/modules/SnippetsManager.js:238-244) is left out because nothing on the replacement path calls it.
- The configuration store (src/back/Modules/Store.ts) is plain field access in `Env`. Its default `bufferLength` of 20 is not fixed by the model. `bufferLength` is a natural number.
- `src/common/store.ts` only declares types. `Snippets.Snippet` follows it, with absent fields as `None`.
- Lengths count Unicode scalar values rather than UTF-16 code units. This covers the buffer length and its bound (src/main/modules/SnippetsManager.js:259), the one-unit trim `substring(1)` (:260), and the backspace count `matchedString.length` (:198). A character outside the Basic Multilingual Plane would count twice in the code.
- JavaScript truthiness on non-boolean field values (`null`, numbers) is not modelled. `active` and `regex` count as set only when they are exactly `true`.
- Engine.RunKeepsBound: the bound `|buffer| <= bufferLength` is proved only for keymaps whose values are single characters. For longer values `Engine.OnKeyDown` states the exact buffer length after an append instead. The bound is also taken as fixed for the whole run. The code re-reads `bufferLength` on every key press (src/main/modules/SnippetsManager.js:259). If it is lowered during a run, the buffer is left over the new bound, and trimming one character per key press does not bring it back within the bound.
- Engine.TypingKeepsWindow: proved only for single-character keymap values, from a buffer within its bound, and with `bufferLength` fixed for the whole run. With a multi-character value, or a bound lowered during the run, the code keeps more than the window: keymap value "ab", buffer "x" and bound 1 leave "ab" (src/main/modules/SnippetsManager.js:251, :259-260).
- Lodash path quirks are not modelled: key names containing dots, and names that are `Object.prototype` properties, which the `in` test accepts.
