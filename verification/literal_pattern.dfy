/**
  How the engine's pattern `.*(lit)$` finds a literal trigger in the buffer,
  when the trigger has had every pattern metacharacter escaped.

  Matching searches start positions from left to right; at each start `.*`
  first consumes as much as it can (the wildcard matches anything but a line
  terminator) and then gives characters back one at a time until the literal
  group followed by the end-of-input anchor fits. The capture is the group.
 */
module LiteralPattern {
  import opened Optional
  import opened Strings

  /** The characters the wildcard refuses to match. */
  predicate IsLineTerminator(c: char) {
    c == '\n' || c == '\r' || c == '\U{2028}' || c == '\U{2029}'
  }

  /** Where the greedy `.*` run that starts at `p` stops. */
  function GreedyEnd(s: string, p: nat): (q: nat)
    requires p <= |s|
    ensures p <= q <= |s|
    ensures forall k :: p <= k < q ==> !IsLineTerminator(s[k])
    ensures q < |s| ==> IsLineTerminator(s[q])
    decreases |s| - p
  {
    if p == |s| || IsLineTerminator(s[p]) then p else GreedyEnd(s, p + 1)
  }

  /**
    The wildcard gives back characters, trying the group at `q`, `q - 1`, ...,
    `p`; the group followed by the anchor fits at `q` exactly when `s[q..]` is
    the literal.
   */
  function Backtrack(s: string, lit: string, p: nat, q: nat): (r: Option<string>)
    requires p <= q <= |s|
    ensures r.Some? ==> r.value == lit && EndsWith(s, lit) && p + |lit| <= |s| <= q + |lit|
    ensures r.None? ==> !(EndsWith(s, lit) && p + |lit| <= |s| <= q + |lit|)
    decreases q - p
  {
    if s[q..] == lit then Some(s[q..])
    else if q == p then None
    else Backtrack(s, lit, p, q - 1)
  }

  /** The search proper, from start position `p` onwards. */
  function ExecFrom(s: string, lit: string, p: nat): (r: Option<string>)
    requires p <= |s|
    ensures r.Some? ==> r.value == lit && EndsWith(s, lit)
    ensures r.None? ==> !(EndsWith(s, lit) && p + |lit| <= |s|)
    decreases |s| - p
  {
    match Backtrack(s, lit, p, GreedyEnd(s, p))
    case Some(m) => Some(m)
    case None => if p == |s| then None else ExecFrom(s, lit, p + 1)
  }

  /**
    The capture of `.*(lit)$` on `s`: the literal itself exactly when `s` ends
    with it, and no match otherwise. Line terminators in the buffer do not
    hide a trigger, because the search also starts after them.
   */
  function Exec(s: string, lit: string): (r: Option<string>)
    ensures r == if EndsWith(s, lit) then Some(lit) else None
  {
    ExecFrom(s, lit, 0)
  }
}
