/**
  The snippet engine as a state machine: a key or mouse event takes the
  engine state to a new state and an ordered trace of side effects.
 */
module Engine {
  import opened Optional
  import opened Strings
  import opened Snippets
  import opened Keyboard
  import opened InputBuffer
  import opened Matcher
  import opened Effects
  import opened Replacement

  /** The mutable part of an engine instance. */
  datatype State = State(buffer: string, shouldMatch: bool)

  /** A freshly constructed engine: empty buffer, matching enabled. */
  const Initial: State := State([], true)

  datatype Event = KeyDown(key: KeyEvent) | MouseClick

  /**
    Everything the engine reads from its collaborators while handling an event:
    the keycode-name table, the current keymap, the store's snippets, buffer
    length and user, the clipboard content, whether notifications are
    supported, the pattern engine and the evaluator of `js` snippets.
   */
  datatype Env = Env(
    chars: CharTable,
    keymap: Keymap,
    snippets: seq<Snippet>,
    bufferLength: nat,
    user: string,
    clipboard: string,
    notificationsSupported: bool,
    pattern: PatternOracle,
    evaluate: Evaluator)

  datatype Transition = Transition(next: State, effects: seq<Effect>)

  /**
    Search the snippets against `buffer` and, on a match, perform the
    replacement; with no match nothing happens.
   */
  function ReplaceSnippetIfMatchFound(env: Env, buffer: string): (r: seq<Effect>)
    ensures r != [] <==> FindMatch(env.snippets, buffer, env.pattern).Found?
    ensures FindMatch(env.snippets, buffer, env.pattern).Found? ==>
              var found := FindMatch(env.snippets, buffer, env.pattern);
              r == MatchEffects(env.snippets[found.index], found.matched, env.evaluate,
                                env.notificationsSupported, env.user, env.clipboard)
    ensures ClipboardAfter(env.clipboard, r) == env.clipboard
  {
    match FindMatch(env.snippets, buffer, env.pattern)
    case Found(i, matched) =>
      MatchEffects(env.snippets[i], matched, env.evaluate, env.notificationsSupported, env.user, env.clipboard)
    case _ => []
  }

  /**
    A key press. Ignored while matching is disabled; Tab, arrows and
    Alt+Backspace empty the buffer; any other Backspace drops one character;
    a printable key is appended, the oldest character is trimmed if the buffer
    outgrew its bound, and the matcher runs on the result.
   */
  function OnKeyDown(env: Env, s: State, e: KeyEvent): (t: Transition)
    ensures t.next.shouldMatch == s.shouldMatch
    ensures !s.shouldMatch ==> t == Transition(s, [])
    ensures s.shouldMatch && ShouldResetBuffer(env.chars, e) ==> t == Transition(s.(buffer := []), [])
    ensures s.shouldMatch && !ShouldResetBuffer(env.chars, e) && IsBackspace(env.chars, e.keycode) ==>
              t.effects == [] && t.next.buffer <= s.buffer
              && |t.next.buffer| == if s.buffer == [] then 0 else |s.buffer| - 1
    ensures s.shouldMatch && !ShouldResetBuffer(env.chars, e) && !IsBackspace(env.chars, e.keycode) ==>
              match EventToUnicode(env.chars, env.keymap, e)
              case None => t == Transition(s, [])
              case Some(c) =>
                && EndsWith(s.buffer + c, t.next.buffer)
                && |t.next.buffer| == |s.buffer| + |c| - (if |s.buffer| + |c| > env.bufferLength then 1 else 0)
                && t.effects == ReplaceSnippetIfMatchFound(env, t.next.buffer)
    ensures ClipboardAfter(env.clipboard, t.effects) == env.clipboard
  {
    if !s.shouldMatch then Transition(s, [])
    else if ShouldResetBuffer(env.chars, e) then Transition(s.(buffer := []), [])
    else if IsBackspace(env.chars, e.keycode) then Transition(s.(buffer := ShortenBy(s.buffer, 1)), [])
    else
      match EventToUnicode(env.chars, env.keymap, e)
      case None => Transition(s, [])
      case Some(c) =>
        var buffer := ShortenIfNecessary(s.buffer + c, env.bufferLength);
        Transition(s.(buffer := buffer), ReplaceSnippetIfMatchFound(env, buffer))
  }

  /** A mouse click always empties the buffer, even while matching is disabled. */
  function OnMouseClick(s: State): (t: Transition)
    ensures t.next.buffer == [] && t.next.shouldMatch == s.shouldMatch
    ensures t.effects == []
  {
    Transition(s.(buffer := []), [])
  }

  function Step(env: Env, s: State, ev: Event): (t: Transition)
    ensures t.next.shouldMatch == s.shouldMatch
    ensures ClipboardAfter(env.clipboard, t.effects) == env.clipboard
  {
    match ev
    case KeyDown(e) => OnKeyDown(env, s, e)
    case MouseClick => OnMouseClick(s)
  }

  /** A sequence of events handled one after the other; the effects are concatenated in order. */
  function Run(env: Env, s: State, events: seq<Event>): (t: Transition)
    ensures t.next.shouldMatch == s.shouldMatch
    decreases |events|
  {
    if events == [] then Transition(s, [])
    else
      var first := Step(env, s, events[0]);
      var rest := Run(env, first.next, events[1..]);
      Transition(rest.next, first.effects + rest.effects)
  }

  /** Every replacement restores the clipboard, so a whole run leaves it as it found it. */
  lemma {:induction false} RunRestoresClipboard(env: Env, s: State, events: seq<Event>)
    ensures ClipboardAfter(env.clipboard, Run(env, s, events).effects) == env.clipboard
    decreases |events|
  {
    if events != [] {
      var first := Step(env, s, events[0]);
      RunRestoresClipboard(env, first.next, events[1..]);
      ClipboardAfterConcat(env.clipboard, first.effects, Run(env, first.next, events[1..]).effects);
    }
  }

  /** With single-character keymap values one step keeps the buffer within its bound. */
  lemma StepKeepsBound(env: Env, s: State, ev: Event)
    requires SingleCharKeymap(env.keymap)
    requires |s.buffer| <= env.bufferLength
    ensures |Step(env, s, ev).next.buffer| <= env.bufferLength
  {
    if ev.KeyDown? && EventToUnicode(env.chars, env.keymap, ev.key).Some? {
      SingleCharTyping(env.chars, env.keymap, ev.key);
    }
  }

  /** With single-character keymap values no sequence of events lets the buffer exceed its bound. */
  lemma {:induction false} RunKeepsBound(env: Env, s: State, events: seq<Event>)
    requires SingleCharKeymap(env.keymap)
    requires |s.buffer| <= env.bufferLength
    ensures |Run(env, s, events).next.buffer| <= env.bufferLength
    decreases |events|
  {
    if events != [] {
      StepKeepsBound(env, s, events[0]);
      RunKeepsBound(env, Step(env, s, events[0]).next, events[1..]);
    }
  }

  /** A key press that neither resets the buffer nor is a Backspace. */
  predicate PlainTyping(env: Env, ev: Event) {
    ev.KeyDown? && !ShouldResetBuffer(env.chars, ev.key) && !IsBackspace(env.chars, ev.key.keycode)
  }

  /** The characters one event types: the resolved character of a printable key press, else nothing. */
  function TypedBy(env: Env, ev: Event): string {
    if ev.KeyDown? && EventToUnicode(env.chars, env.keymap, ev.key).Some? then EventToUnicode(env.chars, env.keymap, ev.key).value else []
  }

  /** The characters a sequence of key presses types, in order. */
  function TypedText(env: Env, events: seq<Event>): string
    decreases |events|
  {
    if events == [] then [] else TypedBy(env, events[0]) + TypedText(env, events[1..])
  }

  /** One plain key press appends what it types to the buffer and keeps the window. */
  lemma TypingStep(env: Env, s: State, ev: Event)
    requires s.shouldMatch
    requires SingleCharKeymap(env.keymap)
    requires |s.buffer| <= env.bufferLength
    requires PlainTyping(env, ev)
    ensures Step(env, s, ev).next.buffer == Window(s.buffer + TypedBy(env, ev), env.bufferLength)
  {
    match EventToUnicode(env.chars, env.keymap, ev.key)
    case None =>
      assert s.buffer + [] == s.buffer;
    case Some(c) =>
      SingleCharTyping(env.chars, env.keymap, ev.key);
      AppendOneKeepsWindow(s.buffer, c, env.bufferLength);
  }

  /** A run of at least one event is its first step followed by the run of the rest. */
  lemma RunUnfolds(env: Env, s: State, events: seq<Event>)
    requires events != []
    ensures Run(env, s, events).next == Run(env, Step(env, s, events[0]).next, events[1..]).next
    ensures Run(env, s, events).effects
            == Step(env, s, events[0]).effects + Run(env, Step(env, s, events[0]).next, events[1..]).effects
  {
  }

  /**
    Typing without resets or backspaces leaves in the buffer exactly the last
    `bufferLength` characters of the old buffer followed by what was typed, or
    all of them if there are fewer; matches do not change the buffer.
   */
  lemma {:induction false} TypingKeepsWindow(env: Env, s: State, events: seq<Event>)
    requires s.shouldMatch
    requires SingleCharKeymap(env.keymap)
    requires |s.buffer| <= env.bufferLength
    requires forall k :: 0 <= k < |events| ==> PlainTyping(env, events[k])
    ensures Run(env, s, events).next.buffer == Window(s.buffer + TypedText(env, events), env.bufferLength)
    decreases |events|
  {
    if events == [] {
      assert s.buffer + [] == s.buffer;
    } else {
      var first := Step(env, s, events[0]).next;
      var rest := events[1..];
      assert forall k :: 0 <= k < |rest| ==> PlainTyping(env, rest[k]) by {
        forall k | 0 <= k < |rest| ensures PlainTyping(env, rest[k]) {
          assert rest[k] == events[k + 1];
        }
      }
      TypingStep(env, s, events[0]);
      StepKeepsBound(env, s, events[0]);
      TypingKeepsWindow(env, first, rest);
      RunUnfolds(env, s, events);
      WindowChain(s.buffer, TypedBy(env, events[0]), TypedText(env, rest), env.bufferLength);
    }
  }

  /** Windowing after each step and once at the end agree. */
  lemma WindowChain(b: string, here: string, later: string, n: nat)
    ensures Window(Window(b + here, n) + later, n) == Window(b + (here + later), n)
  {
    WindowAbsorbs(b + here, later, n);
    assert b + here + later == b + (here + later);
  }

  // A worked scenario: a literal snippet "btw" typed on a plain keyboard.

  const KeyB := KeyEvent(66, false, false, false, false)
  const KeyT := KeyEvent(84, false, false, false, false)
  const KeyW := KeyEvent(87, false, false, false, false)

  const Btw := Snippet(1, Some(true), "btw", "by the way", Some(false), Some(PlainKind))

  function LetterEntry(c: char): KeymapEntry {
    KeymapEntry(Some([c]), None, None, None)
  }

  function BtwEnv(clipboard: string): Env {
    Env(map[66 := "KeyB", 84 := "KeyT", 87 := "KeyW"],
        map["KeyB" := LetterEntry('b'), "KeyT" := LetterEntry('t'), "KeyW" := LetterEntry('w')],
        [Btw], 20, "u1", clipboard, true,
        (key, buffer) => Group([]),
        (matched, code) => Failed("unused"))
  }

  /** Each of the three letter keys is plain typing of its letter. */
  lemma BtwKeysType(clipboard: string)
    ensures !ShouldResetBuffer(BtwEnv(clipboard).chars, KeyB) && !IsBackspace(BtwEnv(clipboard).chars, KeyB.keycode)
    ensures !ShouldResetBuffer(BtwEnv(clipboard).chars, KeyT) && !IsBackspace(BtwEnv(clipboard).chars, KeyT.keycode)
    ensures !ShouldResetBuffer(BtwEnv(clipboard).chars, KeyW) && !IsBackspace(BtwEnv(clipboard).chars, KeyW.keycode)
    ensures EventToUnicode(BtwEnv(clipboard).chars, BtwEnv(clipboard).keymap, KeyB) == Some("b")
    ensures EventToUnicode(BtwEnv(clipboard).chars, BtwEnv(clipboard).keymap, KeyT) == Some("t")
    ensures EventToUnicode(BtwEnv(clipboard).chars, BtwEnv(clipboard).keymap, KeyW) == Some("w")
  {
    var env := BtwEnv(clipboard);
    assert CharName(env.chars, 66) == Some("KeyB") && "KeyB" in env.keymap && "KeyB" !in KeyArrows;
    assert CharName(env.chars, 84) == Some("KeyT") && "KeyT" in env.keymap && "KeyT" !in KeyArrows;
    assert CharName(env.chars, 87) == Some("KeyW") && "KeyW" in env.keymap && "KeyW" !in KeyArrows;
  }

  /** The first key only fills the buffer. */
  lemma BtwFirstKey(clipboard: string)
    ensures Step(BtwEnv(clipboard), Initial, KeyDown(KeyB)) == Transition(State("b", true), [])
  {
    var env := BtwEnv(clipboard);
    BtwKeysType(clipboard);
    assert ShortenIfNecessary([] + "b", 20) == "b";
    assert !EndsWith("b", "btw");
    assert Capture(Btw, "b", env.pattern) == Group([]);
    assert FindMatch(env.snippets, "b", env.pattern) == NotFound;
  }

  /** The second key only fills the buffer. */
  lemma BtwSecondKey(clipboard: string)
    ensures Step(BtwEnv(clipboard), State("b", true), KeyDown(KeyT)) == Transition(State("bt", true), [])
  {
    var env := BtwEnv(clipboard);
    BtwKeysType(clipboard);
    assert ShortenIfNecessary("b" + "t", 20) == "bt";
    assert !EndsWith("bt", "btw");
    assert Capture(Btw, "bt", env.pattern) == Group([]);
    assert FindMatch(env.snippets, "bt", env.pattern) == NotFound;
  }

  /** The third key completes the trigger and performs the replacement. */
  lemma BtwLastKey(clipboard: string)
    ensures Step(BtwEnv(clipboard), State("bt", true), KeyDown(KeyW)).effects
            == [BackspaceTap, BackspaceTap, BackspaceTap,
                ReadClipboard, WriteClipboard("by the way"),
                Report(ReplacementEvent, Payload("u1", Some(false), Some(PlainKind))),
                PasteTap, WriteClipboard(clipboard)]
  {
    var env := BtwEnv(clipboard);
    BtwKeysType(clipboard);
    assert ShortenIfNecessary("bt" + "w", 20) == "btw";
    assert EndsWith("btw", "btw");
    assert Capture(Btw, "btw", env.pattern) == Group("btw");
    assert FindMatch(env.snippets, "btw", env.pattern) == Found(0, "btw");
    assert Backspaces(3) == [BackspaceTap, BackspaceTap, BackspaceTap];
  }

  /** The last key, run on its own from "bt". */
  lemma BtwRunLast(clipboard: string)
    ensures Run(BtwEnv(clipboard), State("bt", true), [KeyDown(KeyW)]).effects
            == [BackspaceTap, BackspaceTap, BackspaceTap,
                ReadClipboard, WriteClipboard("by the way"),
                Report(ReplacementEvent, Payload("u1", Some(false), Some(PlainKind))),
                PasteTap, WriteClipboard(clipboard)]
  {
    BtwLastKey(clipboard);
    RunUnfolds(BtwEnv(clipboard), State("bt", true), [KeyDown(KeyW)]);
    assert [KeyDown(KeyW)][1..] == [];
  }

  /** The last two keys, run from "b". */
  lemma BtwRunLastTwo(clipboard: string)
    ensures Run(BtwEnv(clipboard), State("b", true), [KeyDown(KeyT), KeyDown(KeyW)]).effects
            == [BackspaceTap, BackspaceTap, BackspaceTap,
                ReadClipboard, WriteClipboard("by the way"),
                Report(ReplacementEvent, Payload("u1", Some(false), Some(PlainKind))),
                PasteTap, WriteClipboard(clipboard)]
  {
    BtwSecondKey(clipboard);
    BtwRunLast(clipboard);
    RunUnfolds(BtwEnv(clipboard), State("b", true), [KeyDown(KeyT), KeyDown(KeyW)]);
    assert [KeyDown(KeyT), KeyDown(KeyW)][1..] == [KeyDown(KeyW)];
  }

  /**
    Typing b, t, w with an empty buffer deletes the three characters, pastes
    "by the way" through the clipboard, reports, and restores the clipboard.
   */
  lemma BtwScenario(clipboard: string)
    ensures Run(BtwEnv(clipboard), Initial, [KeyDown(KeyB), KeyDown(KeyT), KeyDown(KeyW)]).effects
            == [BackspaceTap, BackspaceTap, BackspaceTap,
                ReadClipboard, WriteClipboard("by the way"),
                Report(ReplacementEvent, Payload("u1", Some(false), Some(PlainKind))),
                PasteTap, WriteClipboard(clipboard)]
  {
    BtwFirstKey(clipboard);
    BtwRunLastTwo(clipboard);
    RunUnfolds(BtwEnv(clipboard), Initial, [KeyDown(KeyB), KeyDown(KeyT), KeyDown(KeyW)]);
    assert [KeyDown(KeyB), KeyDown(KeyT), KeyDown(KeyW)][1..] == [KeyDown(KeyT), KeyDown(KeyW)];
  }
}
