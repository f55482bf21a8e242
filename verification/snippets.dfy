/**
  The persisted snippet record and the startup normaliser that migrates
  records written by older versions to the current schema.
 */
module Snippets {
  import opened Optional

  /**
    A snippet as read from the configuration store. `active`, `regex` and
    `type` were added by later versions of the schema, so a stored record may
    lack them (`None`). `kind` stands for the record's `type` field.
   */
  datatype Snippet = Snippet(
    id: int,
    active: Option<bool>,
    key: string,
    value: string,
    regex: Option<bool>,
    kind: Option<string>)

  const PlainKind: string := "plain"
  const JsKind: string := "js"

  /** Every field the matcher reads is present, and the type is not empty. */
  predicate HasAllFields(s: Snippet) {
    s.active.Some? && s.regex.Some? && s.kind.Some? && s.kind.value != []
  }

  /**
    One record with its defaults filled in. A missing `active` becomes true, a
    missing `regex` becomes false, and a missing or empty `type` becomes "plain":
    an empty type counts as missing.
   */
  function FillDefaults(s: Snippet): (r: Snippet)
    ensures HasAllFields(r)
    ensures r.id == s.id && r.key == s.key && r.value == s.value
    ensures s.active.Some? ==> r.active == s.active
    ensures s.active.None? ==> r.active == Some(true)
    ensures s.regex.Some? ==> r.regex == s.regex
    ensures s.regex.None? ==> r.regex == Some(false)
    ensures s.kind.Some? && s.kind.value != [] ==> r.kind == s.kind
    ensures s.kind.None? || s.kind == Some([]) ==> r.kind == Some(PlainKind)
  {
    s.(active := if s.active.None? then Some(true) else s.active,
       regex := if s.regex.None? then Some(false) else s.regex,
       kind := if s.kind.None? || s.kind.value == [] then Some(PlainKind) else s.kind)
  }

  /** The whole collection normalised, record by record, in the stored order. */
  function EnsureAllFieldsArePresent(ss: seq<Snippet>): (r: seq<Snippet>)
    ensures |r| == |ss|
    ensures forall i :: 0 <= i < |ss| ==> r[i] == FillDefaults(ss[i])
    ensures forall i :: 0 <= i < |r| ==> HasAllFields(r[i])
    decreases |ss|
  {
    if ss == [] then []
    else [FillDefaults(ss[0])] + EnsureAllFieldsArePresent(ss[1..])
  }

  /** Normalising an already normalised collection writes back identical content. */
  lemma NormaliseFixesComplete(ss: seq<Snippet>)
    requires forall i :: 0 <= i < |ss| ==> HasAllFields(ss[i])
    ensures EnsureAllFieldsArePresent(ss) == ss
  {
  }

  /** Running the normaliser twice gives the same collection as running it once. */
  lemma NormaliseIdempotent(ss: seq<Snippet>)
    ensures EnsureAllFieldsArePresent(EnsureAllFieldsArePresent(ss)) == EnsureAllFieldsArePresent(ss)
  {
  }
}
