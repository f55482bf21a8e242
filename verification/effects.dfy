/**
  The observable side effects of the engine, in the order they take place,
  and the clipboard content an effect trace leaves behind.
 */
module Effects {
  import opened Optional

  /** The analytics record: who replaced, whether the trigger was a pattern, and the snippet type. */
  datatype Payload = Payload(user: string, regex: Option<bool>, kind: Option<string>)

  datatype Effect =
    | KeyTap(key: string, modifier: Option<string>)
    | ReadClipboard
    | WriteClipboard(text: string)
    | Notify(title: string, body: string)
    | Report(event: string, payload: Payload)

  const BackspaceTap: Effect := KeyTap("backspace", None)
  const PasteTap: Effect := KeyTap("v", Some("command"))

  /** The clipboard content after `effects`, starting from `clip`. */
  function ClipboardAfter(clip: string, effects: seq<Effect>): string
    decreases |effects|
  {
    if effects == [] then clip
    else
      var next := if effects[0].WriteClipboard? then effects[0].text else clip;
      ClipboardAfter(next, effects[1..])
  }

  /** Running two traces one after the other threads the clipboard through both. */
  lemma {:induction false} ClipboardAfterConcat(clip: string, a: seq<Effect>, b: seq<Effect>)
    ensures ClipboardAfter(clip, a + b) == ClipboardAfter(ClipboardAfter(clip, a), b)
    decreases |a|
  {
    if a != [] {
      assert (a + b)[0] == a[0];
      assert (a + b)[1..] == a[1..] + b;
      var next := if a[0].WriteClipboard? then a[0].text else clip;
      ClipboardAfterConcat(next, a[1..], b);
    } else {
      assert a + b == b;
    }
  }

  /** A trace that never writes the clipboard leaves it as it was. */
  lemma {:induction false} ClipboardUntouched(clip: string, effects: seq<Effect>)
    requires forall k :: 0 <= k < |effects| ==> !effects[k].WriteClipboard?
    ensures ClipboardAfter(clip, effects) == clip
    decreases |effects|
  {
    if effects != [] {
      ClipboardUntouched(clip, effects[1..]);
    }
  }

  /** The clipboard after a trace whose last write is `text` holds `text`. */
  lemma ClipboardAfterLastWrite(clip: string, effects: seq<Effect>, text: string)
    requires forall k :: 0 <= k < |effects| ==> !effects[k].WriteClipboard?
    ensures ClipboardAfter(clip, [WriteClipboard(text)] + effects) == text
  {
    ClipboardUntouched(text, effects);
  }

  /** `n` backspace taps. */
  function Backspaces(n: nat): (r: seq<Effect>)
    ensures |r| == n
    ensures forall k :: 0 <= k < n ==> r[k] == BackspaceTap
  {
    seq(n, _ => BackspaceTap)
  }
}
