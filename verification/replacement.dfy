/**
  What happens once a snippet has matched: the replacement text is resolved
  (evaluating `js` snippets, with a fallback on failure), the trigger is
  deleted with backspaces, the text is pasted through the clipboard, the
  clipboard is restored, and an analytics record is sent.
 */
module Replacement {
  import opened Optional
  import opened Snippets
  import opened Effects

  /**
    The outcome of evaluating a `js` snippet's code on the matched text: its
    result as text, or the failure converted to a string.
   */
  datatype Evaluation = Evaluated(text: string) | Failed(message: string)

  /** Evaluation of user code, supplied by the caller: (matched text, code) to outcome. */
  type Evaluator = (string, string) -> Evaluation

  /** Replacement text together with the effects its resolution caused. */
  datatype Resolved = Resolved(text: string, effects: seq<Effect>)

  const ErrorTitle: string := "QWError"
  const ReplacementEvent: string := "snippet-replacement"

  /**
    A `js` snippet's replacement. A failure never propagates: with
    notifications it is shown under the title "QWError" and the replacement is
    empty; without them the replacement is "QWError " followed by the message.
   */
  function HandleJavascriptSnippet(outcome: Evaluation, notificationsSupported: bool): (r: Resolved)
    ensures outcome.Evaluated? ==> r == Resolved(outcome.text, [])
    ensures outcome.Failed? && notificationsSupported ==>
              r.text == [] && r.effects == [Notify(ErrorTitle, outcome.message)]
    ensures outcome.Failed? && !notificationsSupported ==>
              r.effects == [] && r.text == ErrorTitle + " " + outcome.message
    ensures forall k :: 0 <= k < |r.effects| ==> r.effects[k].Notify?
  {
    match outcome
    case Evaluated(text) => Resolved(text, [])
    case Failed(message) =>
      if !notificationsSupported then Resolved(ErrorTitle + " " + message, [])
      else Resolved([], [Notify(ErrorTitle, message)])
  }

  /** A plain snippet's value is its replacement; a `js` snippet's value is code to evaluate. */
  function ResolveReplacement(s: Snippet, matched: string, evaluate: Evaluator, notificationsSupported: bool): (r: Resolved)
    ensures s.kind != Some(JsKind) ==> r == Resolved(s.value, [])
    ensures s.kind == Some(JsKind) ==>
              r == HandleJavascriptSnippet(evaluate(matched, s.value), notificationsSupported)
    ensures forall k :: 0 <= k < |r.effects| ==> r.effects[k].Notify?
  {
    if s.kind == Some(JsKind) then HandleJavascriptSnippet(evaluate(matched, s.value), notificationsSupported)
    else Resolved(s.value, [])
  }

  /**
    `replace`: what happens before it returns (read the old clipboard, write
    the text) and what it schedules to run later (the paste tap after 50 ms,
    the restore after 500 ms).
   */
  datatype Choreography = Choreography(immediate: seq<Effect>, scheduled: seq<Effect>)

  function Replace(text: string, previous: string): (r: Choreography)
    ensures |r.immediate| == 2 && r.immediate[0] == ReadClipboard && r.immediate[1] == WriteClipboard(text)
    ensures ClipboardAfter(previous, r.immediate) == text
    ensures |r.scheduled| == 2 && r.scheduled[0] == PasteTap && r.scheduled[1] == WriteClipboard(previous)
    ensures ClipboardAfter(text, r.scheduled[..1]) == text
    ensures ClipboardAfter(text, r.scheduled) == previous
  {
    var immediate := [ReadClipboard, WriteClipboard(text)];
    var scheduled := [PasteTap, WriteClipboard(previous)];
    assert immediate[1..] == [WriteClipboard(text)];
    assert scheduled[1..] == [WriteClipboard(previous)];
    assert ClipboardAfter(previous, [WriteClipboard(text)]) == ClipboardAfter(text, []) == text;
    assert ClipboardAfter(text, [WriteClipboard(previous)]) == ClipboardAfter(previous, []) == previous;
    Choreography(immediate, scheduled)
  }

  /** The analytics record carries only the user, the pattern flag and the type of the snippet. */
  function ReportToAnalytics(user: string, s: Snippet): (r: Effect)
    ensures r.Report? && r.event == ReplacementEvent
    ensures r.payload.user == user && r.payload.regex == s.regex && r.payload.kind == s.kind
  {
    Report(ReplacementEvent, Payload(user, s.regex, s.kind))
  }

  /** Two snippets that differ only in id, trigger, value or active flag produce the same record. */
  lemma ReportOmitsTriggerAndValue(user: string, s1: Snippet, s2: Snippet)
    requires s1.regex == s2.regex && s1.kind == s2.kind
    ensures ReportToAnalytics(user, s1) == ReportToAnalytics(user, s2)
  {
  }

  /**
    The whole trace of a match, in the order the effects take place: the
    backspaces, any notification raised while resolving the replacement, the
    synchronous part of `replace`, the analytics record (sent as soon as
    `replace` returns), then the scheduled paste and restore.
   */
  function MatchEffects(s: Snippet, matched: string, evaluate: Evaluator, notificationsSupported: bool,
                        user: string, clipboard: string): (r: seq<Effect>)
    ensures var resolved := ResolveReplacement(s, matched, evaluate, notificationsSupported);
            && |r| == |matched| + |resolved.effects| + 5
            && r[|matched|..|r| - 5] == resolved.effects
            && r[|r| - 5] == ReadClipboard
            && r[|r| - 4] == WriteClipboard(resolved.text)
    ensures forall k :: 0 <= k < |matched| ==> r[k] == BackspaceTap
    ensures forall k :: |matched| <= k < |r| ==> r[k] != BackspaceTap
    ensures r[|r| - 3] == ReportToAnalytics(user, s)
    ensures forall k :: 0 <= k < |r| - 3 ==> !r[k].Report?
    ensures r[|r| - 2] == PasteTap
    ensures ClipboardAfter(clipboard, r[..|r| - 2])
            == ResolveReplacement(s, matched, evaluate, notificationsSupported).text
    ensures r[|r| - 1] == WriteClipboard(clipboard)
    ensures ClipboardAfter(clipboard, r) == clipboard
  {
    Trace(|matched|, ResolveReplacement(s, matched, evaluate, notificationsSupported),
          ReportToAnalytics(user, s), clipboard)
  }

  /** `n` backspaces, the resolution's notifications, then `replace` around the report. */
  function Trace(n: nat, resolved: Resolved, report: Effect, clipboard: string): (r: seq<Effect>)
    requires forall k :: 0 <= k < |resolved.effects| ==> resolved.effects[k].Notify?
    requires report.Report?
    ensures |r| == n + |resolved.effects| + 5
    ensures r[n..|r| - 5] == resolved.effects
    ensures r[|r| - 5] == ReadClipboard && r[|r| - 4] == WriteClipboard(resolved.text)
    ensures forall k :: 0 <= k < n ==> r[k] == BackspaceTap
    ensures forall k :: n <= k < |r| ==> r[k] != BackspaceTap
    ensures r[|r| - 3] == report
    ensures forall k :: 0 <= k < |r| - 3 ==> !r[k].Report?
    ensures r[|r| - 2] == PasteTap
    ensures ClipboardAfter(clipboard, r[..|r| - 2]) == resolved.text
    ensures r[|r| - 1] == WriteClipboard(clipboard)
    ensures ClipboardAfter(clipboard, r) == clipboard
  {
    var choreography := Replace(resolved.text, clipboard);
    var tail := choreography.immediate + [report] + choreography.scheduled;
    assert tail == [ReadClipboard, WriteClipboard(resolved.text), report, PasteTap, WriteClipboard(clipboard)];
    var before := Backspaces(n) + resolved.effects;
    TraceShape(n, resolved.effects, tail);
    TraceFrame(n, resolved.effects, tail);
    TraceClipboard(clipboard, before, resolved.text, report);
    before + tail
  }

  /** Where backspaces and reports sit in a match trace. */
  lemma TraceShape(n: nat, notes: seq<Effect>, tail: seq<Effect>)
    requires forall k :: 0 <= k < |notes| ==> notes[k].Notify?
    requires |tail| == 5 && tail[2].Report? && tail[3] == PasteTap
    requires forall k :: 0 <= k < 5 ==> tail[k] != BackspaceTap
    requires !tail[0].Report? && !tail[1].Report?
    ensures var r := Backspaces(n) + notes + tail;
            && (forall k :: 0 <= k < n ==> r[k] == BackspaceTap)
            && (forall k :: n <= k < |r| ==> r[k] != BackspaceTap)
            && (forall k :: 0 <= k < |r| - 3 ==> !r[k].Report?)
  {
    var r := Backspaces(n) + notes + tail;
    forall k | n <= k < |r|
      ensures r[k] != BackspaceTap
    {
      if k < n + |notes| {
        assert r[k] == notes[k - n];
      } else {
        assert r[k] == tail[k - n - |notes|];
      }
    }
    forall k | 0 <= k < |r| - 3
      ensures !r[k].Report?
    {
      if k < n {
        assert r[k] == BackspaceTap;
      } else if k < n + |notes| {
        assert r[k] == notes[k - n];
      } else {
        assert r[k] == tail[k - n - |notes|];
      }
    }
  }

  /** Between the backspaces and the last five effects lie exactly the resolution's effects. */
  lemma TraceFrame(n: nat, notes: seq<Effect>, tail: seq<Effect>)
    requires |tail| == 5
    ensures var r := Backspaces(n) + notes + tail;
            && |r| == n + |notes| + 5
            && r[n..|r| - 5] == notes
            && r[|r| - 5..] == tail
  {
    var r := Backspaces(n) + notes + tail;
    assert r[n..|r| - 5] == notes;
    assert r[|r| - 5..] == tail;
  }

  /**
    No clipboard write before the replacement's own: the clipboard holds the
    text when the paste tap fires, and the final write restores it.
   */
  lemma TraceClipboard(clipboard: string, before: seq<Effect>, text: string, report: Effect)
    requires forall k :: 0 <= k < |before| ==> !before[k].WriteClipboard?
    requires !report.WriteClipboard?
    ensures var tail := [ReadClipboard, WriteClipboard(text), report, PasteTap, WriteClipboard(clipboard)];
            var r := before + tail;
            && ClipboardAfter(clipboard, r[..|r| - 2]) == text
            && ClipboardAfter(clipboard, r) == clipboard
  {
    var head := [ReadClipboard, WriteClipboard(text), report];
    var last := [PasteTap, WriteClipboard(clipboard)];
    var r := before + (head + last);
    assert [ReadClipboard, WriteClipboard(text), report, PasteTap, WriteClipboard(clipboard)] == head + last;
    assert r[..|r| - 2] == before + head;
    ClipboardUntouched(clipboard, before);
    ClipboardAfterConcat(clipboard, before, head);
    ClipboardAfterLastWrite(clipboard, [report], text);
    assert head[1..] == [WriteClipboard(text)] + [report];
    assert ClipboardAfter(clipboard, head) == ClipboardAfter(clipboard, head[1..]);
    ClipboardAfterConcat(clipboard, before + head, last);
    assert r == before + head + last;
    ClipboardAfterLastWrite(text, [], clipboard);
    assert last[1..] == [WriteClipboard(clipboard)] + [];
    assert ClipboardAfter(text, last) == ClipboardAfter(text, last[1..]);
  }
}
