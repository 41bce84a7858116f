/**
 * The blocked-token filters the engines run on every expression and template
 * input: a case-insensitive regular-expression search whose alternatives all
 * take one of four shapes. The search is over the lower-cased text with
 * lower-case patterns.
 */
module Patterns {
  import opened Strings

  datatype Pat =
    | Lit(text: string)                              // the text itself
    | Call(name: string)                             // name\s*\(
    | WordThenSpace(word: string)                    // word\s
    | Spread(first: string, space: bool, last: string) // first.*last, or first\s.*last when `space`

  /** The first position at or after `i` that is not whitespace. */
  function SkipSpaces(t: string, i: nat): (j: nat)
    requires i <= |t|
    ensures i <= j <= |t|
    ensures forall k | i <= k < j :: IsSpace(t[k])
    ensures j == |t| || !IsSpace(t[j])
    decreases |t| - i
  {
    if i == |t| || !IsSpace(t[i]) then i else SkipSpaces(t, i + 1)
  }

  /** `.*last` from position `j`: `last` occurs at or after `j` with no newline in between. */
  predicate LaterOnLine(t: string, j: nat, last: string) {
    exists k | j <= k <= |t| :: OccursAt(t, last, k) && NoNewline(t, j, k)
  }

  predicate NoNewline(t: string, j: nat, k: nat) {
    forall m | j <= m < k && m < |t| :: t[m] != '\n'
  }

  /** A match of `p` starts at position `i` of `t`. */
  predicate MatchAt(p: Pat, t: string, i: nat) {
    match p
    case Lit(text) => OccursAt(t, text, i)
    case Call(name) =>
      OccursAt(t, name, i) && var j := SkipSpaces(t, i + |name|); j < |t| && t[j] == '('
    case WordThenSpace(word) =>
      OccursAt(t, word, i) && i + |word| < |t| && IsSpace(t[i + |word|])
    case Spread(first, space, last) =>
      OccursAt(t, first, i) &&
      var j := i + |first|;
      if space then j < |t| && IsSpace(t[j]) && LaterOnLine(t, j + 1, last)
      else LaterOnLine(t, j, last)
  }

  /** `pattern.search(value)` succeeds, the pattern being the alternation `pats` with IGNORECASE. */
  predicate Blocked(pats: seq<Pat>, value: string) {
    exists p, i | p in pats && 0 <= i <= |value| :: MatchAt(p, Lower(value), i)
  }

  /** Any occurrence of a literal alternative blocks the value. */
  lemma LiteralBlocks(pats: seq<Pat>, value: string, text: string, i: nat)
    requires Lit(text) in pats
    requires OccursAt(Lower(value), text, i)
    ensures Blocked(pats, value)
  {
    assert MatchAt(Lit(text), Lower(value), i);
  }

  /** A value that is not blocked holds no literal alternative anywhere. */
  lemma UnblockedHasNoLiteral(pats: seq<Pat>, value: string)
    ensures !Blocked(pats, value) ==>
      forall t, i | Lit(t) in pats && 0 <= i <= |value| :: !OccursAt(Lower(value), t, i)
  {
    forall t, i | Lit(t) in pats && 0 <= i <= |value| && OccursAt(Lower(value), t, i)
      ensures Blocked(pats, value)
    {
      LiteralBlocks(pats, value, t, i);
    }
  }

  /** `first\s.*last` blocks the value where `first`, a blank, and later on the same line `last` occur. */
  lemma SpreadBlocks(pats: seq<Pat>, value: string, first: string, last: string, i: nat, k: nat)
    requires Spread(first, true, last) in pats
    requires OccursAt(Lower(value), first, i)
    requires i + |first| < |value| && IsSpace(Lower(value)[i + |first|])
    requires i + |first| + 1 <= k && OccursAt(Lower(value), last, k)
    requires NoNewline(Lower(value), i + |first| + 1, k)
    ensures Blocked(pats, value)
  {
    assert LaterOnLine(Lower(value), i + |first| + 1, last);
    assert MatchAt(Spread(first, true, last), Lower(value), i);
  }

  /** A value with no occurrence of any alternative's leading text is never blocked. */
  lemma {:induction false} UnblockedWithoutLeads(pats: seq<Pat>, value: string)
    requires forall p, i | p in pats && 0 <= i <= |value| :: !OccursAt(Lower(value), Lead(p), i)
    ensures !Blocked(pats, value)
  {
    forall p, i | p in pats && 0 <= i <= |value| ensures !MatchAt(p, Lower(value), i) {
      assert !OccursAt(Lower(value), Lead(p), i);
    }
  }

  /** The literal text every match of `p` starts with. */
  function Lead(p: Pat): string {
    match p
    case Lit(text) => text
    case Call(name) => name
    case WordThenSpace(word) => word
    case Spread(first, _, _) => first
  }
}
