/**
 * The four-phase LaTeX clean-up applied before validation: strip math
 * environments, drop typographical commands and unwrap font commands,
 * map synonyms, collapse whitespace and drop one redundant outer brace
 * pair. Each phase is a left fold of its table, in the table's order.
 */
module Preprocessing {
  import opened Wrappers
  import opened Strings

  /** The regular-expression shapes the tables use. */
  datatype Rx =
    | Lit(text: string)       // a literal text
    | OptStar(head: string)   // `head\*?\}`: head, an optional "*", then "}"
    | Braced(command: string) // `command\{([^}]*)\}`: group 1 is the brace content

  /** A match of `rx` at the start of `s`: its length and its group 1 ("" when there is none). */
  function MatchAt(rx: Rx, s: string): (m: Option<(nat, string)>)
    ensures m.Some? ==> 0 < m.value.0 <= |s|
    ensures m.Some? ==> |m.value.1| < m.value.0
  {
    match rx
    case Lit(t) => if t != [] && StartsWith(s, t) then Some((|t|, "")) else None
    case OptStar(h) =>
      if StartsWith(s, h + "*}") then Some((|h| + 2, ""))
      else if StartsWith(s, h + "}") then Some((|h| + 1, ""))
      else None
    case Braced(c) =>
      if StartsWith(s, c + "{") then
        match IndexOf(s[|c| + 1..], '}')
        case Some(j) => Some((|c| + 2 + j, s[|c| + 1..|c| + 1 + j]))
        case None => None
      else None
  }

  /** A match's group is a piece of the text matched, without its closing brace. */
  lemma GroupInside(rx: Rx, s: string)
    requires MatchAt(rx, s).Some?
    ensures forall c | c in MatchAt(rx, s).value.1 :: c in s && c != '}'
  {
    if rx.Braced? {
      var c := rx.command;
      var j := IndexOf(s[|c| + 1..], '}').value;
      assert s[|c| + 1..|c| + 1 + j] == s[|c| + 1..][..j];
    }
  }

  /**
   * `re.sub(rx, "" or r"\1", s)`: every non-overlapping match, left to right,
   * replaced; a match is never shorter than its group, so the text never grows.
   */
  function Sub(s: string, rx: Rx, keepGroup: bool): (r: string)
    ensures |r| <= |s|
    decreases |s|
  {
    if s == [] then []
    else match MatchAt(rx, s)
      case Some((n, g)) => (if keepGroup then g else []) + Sub(s[n..], rx, keepGroup)
      case None => [s[0]] + Sub(s[1..], rx, keepGroup)
  }

  /** A substitution introduces no character that was not already there. */
  lemma {:induction false} SubKeepsAbsent(s: string, rx: Rx, keepGroup: bool, c: char)
    requires c !in s
    ensures c !in Sub(s, rx, keepGroup)
    decreases |s|
  {
    if s != [] {
      match MatchAt(rx, s) {
        case Some((n, g)) =>
          GroupInside(rx, s);
          assert forall d | d in s[n..] :: d in s;
          SubKeepsAbsent(s[n..], rx, keepGroup, c);
        case None =>
          assert forall d | d in s[1..] :: d in s;
          SubKeepsAbsent(s[1..], rx, keepGroup, c);
      }
    }
  }

  /** Removing a one-character literal removes every occurrence of it. */
  lemma {:induction false} SubRemovesChar(s: string, c: char)
    ensures c !in Sub(s, Lit([c]), false)
    decreases |s|
  {
    if s != [] {
      if s[0] == c {
        assert StartsWith(s, [c]);
      } else {
        assert !StartsWith(s, [c]);
      }
      SubRemovesChar(s[1..], c);
    }
  }

  /** Applying a font pattern to a whole wrapper gives back the brace content. */
  lemma UnwrapsFont(command: string, content: string)
    requires '}' !in content
    ensures Sub(command + "{" + content + "}", Braced(command), true) == content
  {
    var s := command + "{" + content + "}";
    assert s[..|command + "{"|] == command + "{";
    assert s[|command| + 1..] == content + "}";
    assert IndexOf(content + "}", '}') == Some(|content|) by { IndexOfAfter(content, '}', "}"); }
    assert s[|command| + 1..|command| + 1 + |content|] == content;
    assert s[|command| + 2 + |content|..] == [];
  }

  /** The left fold of `re.sub` over a table, in the table's order. */
  function SubAll(s: string, table: seq<Rx>, keepGroup: bool): (r: string)
    ensures |r| <= |s|
  {
    if table == [] then s
    else Sub(SubAll(s, table[..|table| - 1], keepGroup), table[|table| - 1], keepGroup)
  }

  lemma {:induction false} SubAllKeepsAbsent(s: string, table: seq<Rx>, keepGroup: bool, c: char)
    requires c !in s
    ensures c !in SubAll(s, table, keepGroup)
    decreases |table|
  {
    if table != [] {
      SubAllKeepsAbsent(s, table[..|table| - 1], keepGroup, c);
      SubKeepsAbsent(SubAll(s, table[..|table| - 1], keepGroup), table[|table| - 1], keepGroup, c);
    }
  }

  /** Folding one more pattern applies it to the fold so far. */
  lemma SubAllSnoc(s: string, init: seq<Rx>, last: Rx, keepGroup: bool)
    ensures SubAll(s, init + [last], keepGroup) == Sub(SubAll(s, init, keepGroup), last, keepGroup)
  {
    assert (init + [last])[..|init|] == init;
  }

  /** Once a fold has removed a character, the rest of a table cannot bring it back. */
  lemma {:induction false} SubAllAfterRemoval(s: string, front: seq<Rx>, back: seq<Rx>, c: char)
    requires c !in SubAll(s, front, false)
    ensures c !in SubAll(s, front + back, false)
    decreases |back|
  {
    if back != [] {
      var b0, last := back[..|back| - 1], back[|back| - 1];
      assert front + back == (front + b0) + [last];
      SubAllAfterRemoval(s, front, b0, c);
      SubKeepsAbsent(SubAll(s, front + b0, false), last, false, c);
      SubAllSnoc(s, front + b0, last, false);
    } else {
      assert front + back == front;
    }
  }

  // ----- phase 1 -----

  const ENV_PATTERNS: seq<Rx> := [
    OptStar("\\begin{equation"), OptStar("\\end{equation"),
    OptStar("\\begin{align"), OptStar("\\end{align"),
    OptStar("\\begin{gather"), OptStar("\\end{gather"),
    OptStar("\\begin{multline"), OptStar("\\end{multline"),
    OptStar("\\begin{eqnarray"), OptStar("\\end{eqnarray"),
    Lit("\\["), Lit("\\]"),
    Lit("$$"), Lit("$")]

  /** `strip_environments`; no "$" survives, since the last pattern removes each one. */
  function StripEnvironments(latex: string): (r: string)
    ensures '$' !in r
  {
    var r := SubAll(latex, ENV_PATTERNS, false);
    assert ENV_PATTERNS[..|ENV_PATTERNS| - 1] + [Lit("$")] == ENV_PATTERNS;
    SubRemovesChar(SubAll(latex, ENV_PATTERNS[..|ENV_PATTERNS| - 1], false), '$');
    r
  }

  // ----- phase 2 -----

  const STRIP_COMMANDS: seq<Rx> := [
    Lit("\\left"), Lit("\\right"),
    Lit("\\displaystyle"), Lit("\\textstyle"), Lit("\\scriptstyle"),
    Lit("\\Big"), Lit("\\big"), Lit("\\bigg"), Lit("\\Bigg"),
    Lit("\\,"), Lit("\\;"), Lit("\\:"), Lit("\\!"), Lit("\\quad"), Lit("\\qquad"),
    Lit("&"), Lit("\\\\"), Lit("\\nonumber"), Braced("\\label"),
    Braced("\\tag")]

  const FONT_COMMANDS: seq<Rx> := [
    Braced("\\mathrm"), Braced("\\mathbf"), Braced("\\mathit"), Braced("\\text"),
    Braced("\\textit"), Braced("\\boldsymbol"), Braced("\\operatorname")]

  /** `remove_typographical`: the strip table, then the font table keeping each brace content. */
  function RemoveTypographical(latex: string): (r: string)
    ensures '&' !in r
  {
    var stripped := SubAll(latex, STRIP_COMMANDS, false);
    assert '&' !in stripped by {
      var front := STRIP_COMMANDS[..16];
      assert front[..15] + [Lit("&")] == front;
      SubRemovesChar(SubAll(latex, front[..15], false), '&');
      assert front + STRIP_COMMANDS[16..] == STRIP_COMMANDS;
      SubAllAfterRemoval(latex, front, STRIP_COMMANDS[16..], '&');
    }
    SubAllKeepsAbsent(stripped, FONT_COMMANDS, true, '&');
    SubAll(stripped, FONT_COMMANDS, true)
  }

  // ----- phase 3 -----

  /**
   * The synonym table, in insertion order. Its keys are raw strings holding
   * TWO backslashes (`\\dfrac`), so they never match a single-backslash command.
   */
  const SYNONYMS: seq<(string, string)> := [
    ("\\\\dfrac", "\\\\frac"), ("\\\\tfrac", "\\\\frac"),
    ("\\\\ge", "\\\\geq"), ("\\\\le", "\\\\leq"), ("\\\\ne", "\\\\neq"),
    ("\\\\to", "\\\\rightarrow"), ("\\\\gets", "\\\\leftarrow"),
    ("\\\\land", "\\\\wedge"), ("\\\\lor", "\\\\vee"), ("\\\\lnot", "\\\\neg"),
    ("\\\\cdot", "*"), ("\\\\times", "*")]

  /**
   * The left fold of `str.replace` over a table of pairs with non-empty keys.
   * A text without two consecutive backslashes passes unchanged through a
   * table whose keys all hold them.
   */
  function ReplaceAll(s: string, table: seq<(string, string)>): (r: string)
    requires forall i | 0 <= i < |table| :: table[i].0 != []
    ensures (forall i | 0 <= i < |table| :: Contains(table[i].0, "\\\\")) && !Contains(s, "\\\\") ==> r == s
  {
    if table == [] then s
    else
      var prev := ReplaceAll(s, table[..|table| - 1]);
      ReplaceUntouched(prev, table[|table| - 1].0, table[|table| - 1].1);
      Replace(prev, table[|table| - 1].0, table[|table| - 1].1)
  }

  /** A key holding two backslashes does not occur in a text without them. */
  lemma ReplaceUntouched(s: string, key: string, rep: string)
    requires key != []
    ensures Contains(key, "\\\\") && !Contains(s, "\\\\") ==> Replace(s, key, rep) == s
  {
    if Contains(key, "\\\\") && !Contains(s, "\\\\") {
      ContainsNarrower(s, key, "\\\\");
      ReplaceAbsent(s, key, rep);
    }
  }

  /** Every synonym key starts with two backslashes. */
  lemma SynonymKeysDoubled()
    ensures forall i | 0 <= i < |SYNONYMS| :: SYNONYMS[i].0 != [] && Contains(SYNONYMS[i].0, "\\\\")
  {
    forall i | 0 <= i < |SYNONYMS| ensures Contains(SYNONYMS[i].0, "\\\\") {
      assert OccursAt(SYNONYMS[i].0, "\\\\", 0);
    }
  }

  /**
   * `normalize_synonyms`. Single-backslash LaTeX is left exactly as it is,
   * since every key holds two backslashes.
   */
  function NormalizeSynonyms(latex: string): (r: string)
    ensures !Contains(latex, "\\\\") ==> r == latex
  {
    SynonymKeysDoubled();
    ReplaceAll(latex, SYNONYMS)
  }

  /** A table whose replacements lack `c` brings in no `c`. */
  lemma {:induction false} ReplaceAllKeepsAbsent(s: string, table: seq<(string, string)>, c: char)
    requires forall i | 0 <= i < |table| :: table[i].0 != [] && c !in table[i].1
    requires c !in s
    ensures c !in ReplaceAll(s, table)
    decreases |table|
  {
    if table != [] {
      ReplaceAllKeepsAbsent(s, table[..|table| - 1], c);
      ReplaceKeepsAbsent(ReplaceAll(s, table[..|table| - 1]), table[|table| - 1].0, table[|table| - 1].1, c);
    }
  }

  /** A text that holds `outer` holds everything `outer` holds. */
  lemma ContainsNarrower(s: string, outer: string, inner: string)
    requires Contains(outer, inner)
    ensures Contains(s, outer) ==> Contains(s, inner)
  {
    if Contains(s, outer) {
      var i :| 0 <= i <= |s| && OccursAt(s, outer, i);
      var j :| 0 <= j <= |outer| && OccursAt(outer, inner, j);
      var w := s[i..i + |outer|];
      var piece := s[i + j..i + j + |inner|];
      forall k | 0 <= k < |inner| ensures piece[k] == inner[k] {
        assert piece[k] == w[j + k];
        assert outer[j..j + |inner|][k] == outer[j + k];
      }
      assert OccursAt(s, inner, i + j);
    }
  }

  // ----- phase 4 -----

  /** `re.sub(r"\s+", " ", s)`: each maximal run of whitespace becomes one space. */
  function Collapse(s: string): (r: string)
    ensures s != [] && !IsSpace(s[0]) ==> r != [] && r[0] == s[0]
    ensures s != [] && IsSpace(s[0]) ==> r != [] && r[0] == ' '
    decreases |s|
  {
    if s == [] then []
    else if IsSpace(s[0]) then " " + Collapse(TrimStart(s, IsSpace))
    else [s[0]] + Collapse(s[1..])
  }

  /** Collapsing whitespace brings in no character but the space. */
  lemma {:induction false} CollapseKeepsAbsent(s: string, c: char)
    requires c !in s && c != ' '
    ensures c !in Collapse(s)
    decreases |s|
  {
    if s != [] {
      if IsSpace(s[0]) {
        var t := TrimStart(s, IsSpace);
        assert c !in t;
        CollapseKeepsAbsent(t, c);
      } else {
        CollapseKeepsAbsent(s[1..], c);
      }
    }
  }

  /** No two whitespace characters are adjacent. */
  predicate NoDoubleSpace(s: string) {
    forall i | 0 <= i < |s| - 1 :: !(IsSpace(s[i]) && IsSpace(s[i + 1]))
  }

  lemma {:induction false} CollapseNoDoubleSpace(s: string)
    ensures NoDoubleSpace(Collapse(s))
    decreases |s|
  {
    if s != [] {
      if IsSpace(s[0]) {
        var t := TrimStart(s, IsSpace);
        CollapseNoDoubleSpace(t);
        assert t == [] || !IsSpace(t[0]);
      } else {
        CollapseNoDoubleSpace(s[1..]);
      }
    }
  }

  lemma SliceNoDoubleSpace(s: string, i: nat, j: nat)
    requires i <= j <= |s| && NoDoubleSpace(s)
    ensures NoDoubleSpace(s[i..j])
  {
    forall k | 0 <= k < |s[i..j]| - 1 ensures !(IsSpace(s[i..j][k]) && IsSpace(s[i..j][k + 1])) {
      assert s[i..j][k] == s[i + k] && s[i..j][k + 1] == s[i + k + 1];
    }
  }

  lemma StripNoDoubleSpace(s: string)
    requires NoDoubleSpace(s)
    ensures NoDoubleSpace(Strip(s))
  {
    var t := TrimStart(s, IsSpace);
    SliceNoDoubleSpace(s, |s| - |t|, |s|);
    SliceNoDoubleSpace(t, 0, |TrimEnd(t, IsSpace)|);
  }

  /** Python's `s.count(c)` for one character. */
  function Count(s: string, c: char): nat {
    multiset(s)[c]
  }

  /** The collapsed, stripped text is wrapped in braces whose inside has as many "{" as "}". */
  predicate OuterPairRemovable(t: string) {
    |t| >= 2 && t[0] == '{' && t[|t| - 1] == '}' && Count(t[1..|t| - 1], '{') == Count(t[1..|t| - 1], '}')
  }

  /**
   * `clean_whitespace`: collapse and strip, then drop one outer brace pair
   * when its inside is balanced in count; the result never holds two
   * adjacent whitespace characters.
   */
  function CleanWhitespace(latex: string): (r: string)
    ensures NoDoubleSpace(r)
    ensures var t := Collapsed(latex);
      r == if OuterPairRemovable(t) then t[1..|t| - 1] else t
  {
    var t := Collapsed(latex);
    BracedIff(t);
    if StartsWith(t, "{") && EndsWith(t, "}") && Count(t[1..|t| - 1], '{') == Count(t[1..|t| - 1], '}') then
      t[1..|t| - 1]
    else t
  }

  lemma BracedIff(t: string)
    ensures StartsWith(t, "{") && EndsWith(t, "}") <==> |t| >= 2 && t[0] == '{' && t[|t| - 1] == '}'
  {
    if StartsWith(t, "{") && EndsWith(t, "}") {
      assert t[0] == '{' && t[|t| - 1] == '}';
    }
    if |t| >= 2 && t[0] == '{' && t[|t| - 1] == '}' {
      assert t[..1] == "{" && t[|t| - 1..] == "}";
    }
  }

  /** `re.sub(r"\s+", " ", latex).strip()`. */
  function Collapsed(latex: string): (t: string)
    ensures NoDoubleSpace(t) && (|t| >= 2 ==> NoDoubleSpace(t[1..|t| - 1]))
  {
    CollapseNoDoubleSpace(latex);
    StripNoDoubleSpace(Collapse(latex));
    var t := Strip(Collapse(latex));
    if |t| >= 2 then
      SliceNoDoubleSpace(t, 1, |t| - 1);
      t
    else t
  }

  /** "{x} + {y}" loses its outer braces, since the inside "x} + {y" counts one of each. */
  lemma UnbalancedInsideStillUnwrapped()
    ensures OuterPairRemovable("{x} + {y}")
  {
    var inner := "{x} + {y}"[1..8];
    assert inner == "x} + {y";
    assert multiset(inner)['{'] == 1 && multiset(inner)['}'] == 1;
  }

  /** `preprocess_latex`: the four phases in order. */
  function Preprocess(latex: string): (r: string)
    ensures NoDoubleSpace(r)
  {
    CleanWhitespace(NormalizeSynonyms(RemoveTypographical(StripEnvironments(latex))))
  }

  /** No "$" and no "&" survives the pipeline: later phases never bring back what earlier ones removed. */
  lemma PreprocessDropsDelimiters(latex: string)
    ensures '$' !in Preprocess(latex) && '&' !in Preprocess(latex)
  {
    var env := StripEnvironments(latex);
    SubAllKeepsAbsent(env, STRIP_COMMANDS, false, '$');
    SubAllKeepsAbsent(SubAll(env, STRIP_COMMANDS, false), FONT_COMMANDS, true, '$');
    var typo := RemoveTypographical(env);
    var syn := NormalizeSynonyms(typo);
    NormalizeKeepsDelimiters(typo);
    CleanKeepsAbsent(syn, '$');
    CleanKeepsAbsent(syn, '&');
  }

  /** No synonym replacement holds "$" or "&", so the synonym phase brings neither in. */
  lemma NormalizeKeepsDelimiters(s: string)
    ensures '$' !in s ==> '$' !in NormalizeSynonyms(s)
    ensures '&' !in s ==> '&' !in NormalizeSynonyms(s)
  {
    if '$' !in s {
      ReplaceAllKeepsAbsent(s, SYNONYMS, '$');
    }
    if '&' !in s {
      ReplaceAllKeepsAbsent(s, SYNONYMS, '&');
    }
  }

  /** The whitespace phase only removes characters and turns whitespace into spaces. */
  lemma CleanKeepsAbsent(s: string, c: char)
    requires c !in s && c != ' '
    ensures c !in CleanWhitespace(s)
  {
    CollapseKeepsAbsent(s, c);
    StripKeepsAbsent(Collapse(s), c);
  }
}
