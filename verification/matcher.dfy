/**
  The snippet matcher: walks the collection in stored order and picks the
  first active snippet whose trigger captures a non-empty suffix of the buffer.
 */
module Matcher {
  import opened Optional
  import opened Strings
  import opened Snippets
  import LiteralPattern

  /**
    What running a snippet's pattern on the buffer gives: the pattern could not
    be compiled, or the captured group, where the empty string also stands for
    "no match" (both are falsy to the caller).
   */
  datatype PatternResult = InvalidPattern | Group(text: string)

  /**
    Pattern triggers (`regex: true`) are interpreted by the host's regular
    expression engine; the model takes that engine as a function of the trigger
    and the buffer.
   */
  type PatternOracle = (string, string) -> PatternResult

  predicate IsActive(s: Snippet) {
    s.active == Some(true)
  }

  predicate IsPattern(s: Snippet) {
    s.regex == Some(true)
  }

  /** A literal trigger captures its own text exactly when the buffer ends with it. */
  function Capture(s: Snippet, buffer: string, pattern: PatternOracle): (r: PatternResult)
    ensures !IsPattern(s) ==> r == Group(if EndsWith(buffer, s.key) then s.key else [])
    ensures IsPattern(s) ==> r == pattern(s.key, buffer)
  {
    if IsPattern(s) then pattern(s.key, buffer)
    else
      match LiteralPattern.Exec(buffer, s.key)
      case Some(m) => Group(m)
      case None => Group([])
  }

  /** `s` is chosen: it is active and captures something non-empty. */
  predicate Fires(s: Snippet, buffer: string, pattern: PatternOracle) {
    IsActive(s) && Capture(s, buffer, pattern).Group? && Capture(s, buffer, pattern).text != []
  }

  /** `s` is active but its pattern cannot be compiled, which abandons the search. */
  predicate Throws(s: Snippet, buffer: string, pattern: PatternOracle) {
    IsActive(s) && Capture(s, buffer, pattern) == InvalidPattern
  }

  /** The search moves past `s`. */
  predicate Passes(s: Snippet, buffer: string, pattern: PatternOracle) {
    !Fires(s, buffer, pattern) && !Throws(s, buffer, pattern)
  }

  datatype Search =
    | Found(index: nat, matched: string)
    | NotFound
    | Aborted(index: nat)

  /** The search from position `from` of the collection onwards. */
  function FindFrom(ss: seq<Snippet>, buffer: string, pattern: PatternOracle, from: nat): (r: Search)
    requires from <= |ss|
    ensures r.Found? ==> from <= r.index < |ss| && IsActive(ss[r.index])
                         && r.matched != [] && Capture(ss[r.index], buffer, pattern) == Group(r.matched)
    ensures r.Aborted? ==> from <= r.index < |ss| && Throws(ss[r.index], buffer, pattern)
    ensures r.Found? || r.Aborted? ==> forall j :: from <= j < r.index ==> Passes(ss[j], buffer, pattern)
    ensures r.NotFound? ==> forall j :: from <= j < |ss| ==> Passes(ss[j], buffer, pattern)
    decreases |ss| - from
  {
    if from == |ss| then NotFound
    else if !IsActive(ss[from]) then FindFrom(ss, buffer, pattern, from + 1)
    else
      match Capture(ss[from], buffer, pattern)
      case InvalidPattern => Aborted(from)
      case Group(m) => if m != [] then Found(from, m) else FindFrom(ss, buffer, pattern, from + 1)
  }

  function FindMatch(ss: seq<Snippet>, buffer: string, pattern: PatternOracle): Search {
    FindFrom(ss, buffer, pattern, 0)
  }

  /** Snippets after the one that decides the search are never examined. */
  lemma {:induction false} LaterSnippetsIgnored(ss: seq<Snippet>, rest: seq<Snippet>, buffer: string,
                                                pattern: PatternOracle, from: nat)
    requires from <= |ss|
    requires FindFrom(ss, buffer, pattern, from).Found? || FindFrom(ss, buffer, pattern, from).Aborted?
    ensures FindFrom(ss + rest, buffer, pattern, from) == FindFrom(ss, buffer, pattern, from)
    decreases |ss| - from
  {
    var r := FindFrom(ss, buffer, pattern, from);
    assert (ss + rest)[from] == ss[from];
    if from < r.index {
      LaterSnippetsIgnored(ss, rest, buffer, pattern, from + 1);
    }
  }

  /** A literal snippet that fires, written without the pattern machinery. */
  predicate LiteralFires(s: Snippet, buffer: string) {
    IsActive(s) && s.key != [] && EndsWith(buffer, s.key)
  }

  /**
    For a collection of literal triggers the search picks the first active
    snippet with a non-empty key the buffer ends with, and the matched text is
    that key; an empty key never fires and nothing aborts.
   */
  lemma LiteralSelection(ss: seq<Snippet>, buffer: string, pattern: PatternOracle)
    requires forall j :: 0 <= j < |ss| ==> !IsPattern(ss[j])
    ensures !FindMatch(ss, buffer, pattern).Aborted?
    ensures FindMatch(ss, buffer, pattern).NotFound? <==> forall j :: 0 <= j < |ss| ==> !LiteralFires(ss[j], buffer)
    ensures FindMatch(ss, buffer, pattern).Found? ==>
              var i := FindMatch(ss, buffer, pattern).index;
              && LiteralFires(ss[i], buffer)
              && FindMatch(ss, buffer, pattern).matched == ss[i].key
              && forall j :: 0 <= j < i ==> !LiteralFires(ss[j], buffer)
  {
  }
}
