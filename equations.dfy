/**
 * Equation detection shared by the engines: an "=" counts as the equation's
 * equals sign when the pattern `(?<![B])=(?!=)` matches it, i.e. it is not
 * preceded by a character of B and not followed by another "=".
 */
module Equations {
  import opened Wrappers
  import opened Strings

  /** The look-behind sets of the engines' equation patterns. */
  const SYMPY_BEFORE: set<char> := {'<', '>', '!', '\\'}
  const MATLAB_BEFORE: set<char> := {'<', '>', '!', ':', '='}
  const MAXIMA_BEFORE: set<char> := {'<', '>', '!', ':'}
  const SAGE_BEFORE: set<char> := {'<', '>', '!', '='}

  predicate StandaloneAt(s: string, i: int, before: set<char>) {
    && 0 <= i < |s|
    && s[i] == '='
    && (i == 0 || s[i - 1] !in before)
    && (i + 1 == |s| || s[i + 1] != '=')
  }

  /** `re.search` succeeds. */
  predicate HasStandalone(s: string, before: set<char>) {
    exists i | 0 <= i < |s| :: StandaloneAt(s, i, before)
  }

  /** The leftmost match at or after `from`. */
  function FindStandalone(s: string, before: set<char>, from: nat): (r: Option<nat>)
    ensures r.Some? ==> from <= r.value && StandaloneAt(s, r.value, before)
    ensures r.Some? ==> forall k | from <= k < r.value :: !StandaloneAt(s, k, before)
    ensures r.None? ==> forall k | from <= k < |s| :: !StandaloneAt(s, k, before)
    decreases |s| - from
  {
    if from >= |s| then None
    else if StandaloneAt(s, from, before) then Some(from)
    else FindStandalone(s, before, from + 1)
  }

  lemma FindIffHas(s: string, before: set<char>)
    ensures FindStandalone(s, before, 0).Some? <==> HasStandalone(s, before)
  {
    if HasStandalone(s, before) {
      var i :| 0 <= i < |s| && StandaloneAt(s, i, before);
      assert FindStandalone(s, before, 0).Some?;
    }
  }

  /** A wider look-behind set recognises fewer equations. */
  lemma WiderBeforeFindsLess(s: string, small: set<char>, large: set<char>)
    requires small <= large
    ensures HasStandalone(s, large) ==> HasStandalone(s, small)
  {
    if HasStandalone(s, large) {
      var i :| 0 <= i < |s| && StandaloneAt(s, i, large);
      assert StandaloneAt(s, i, small);
    }
  }

  /**
   * "a==b" is no equation where the look-behind excludes "=" (MATLAB, Sage),
   * but SymPy's and Maxima's patterns match its second "=".
   */
  lemma DoubleEquals()
    ensures !HasStandalone("a==b", MATLAB_BEFORE) && !HasStandalone("a==b", SAGE_BEFORE)
    ensures HasStandalone("a==b", SYMPY_BEFORE) && HasStandalone("a==b", MAXIMA_BEFORE)
    ensures FindStandalone("a==b", SYMPY_BEFORE, 0) == Some(2)
  {
    assert StandaloneAt("a==b", 2, SYMPY_BEFORE);
    assert StandaloneAt("a==b", 2, MAXIMA_BEFORE);
  }

  /** `s.split("=", 1)` on a text holding "=": the parts before and after the FIRST "=", which need not be the standalone one. */
  function SplitAtFirstEquals(s: string): (parts: (string, string))
    requires '=' in s
    ensures s == parts.0 + "=" + parts.1 && '=' !in parts.0
  {
    var i := IndexOf(s, '=').value;
    assert s == s[..i] + "=" + s[i + 1..];
    (s[..i], s[i + 1..])
  }
}
