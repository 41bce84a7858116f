/**
 * The Maxima setup step: the version is read from `maxima --version` as the
 * first "digits.digits" in its output, the step requires at least 5.44, and
 * the step remembers the path that passed.
 */
module SetupMaxima {
  import opened Wrappers
  import opened Strings
  import opened Executor

  const NAME := "Maxima"
  const MIN_MAJOR := 5
  const MIN_MINOR := 44

  /** The end of the run of digits that starts at `i` (`i` itself when `t[i]` is no digit). */
  function RunEnd(t: string, i: nat): (j: nat)
    requires i <= |t|
    ensures i <= j <= |t| && (forall k | i <= k < j :: IsAsciiDigit(t[k])) && (j < |t| ==> !IsAsciiDigit(t[j]))
    decreases |t| - i
  {
    if i < |t| && IsAsciiDigit(t[i]) then RunEnd(t, i + 1) else i
  }

  /** `(\d+)\.(\d+)` matches at `i`; since `\d+` is greedy and a dot is no digit, the first group is the whole run. */
  predicate VersionAt(t: string, i: nat) {
    i < |t| && IsAsciiDigit(t[i]) &&
    var j := RunEnd(t, i); j + 1 < |t| && t[j] == '.' && IsAsciiDigit(t[j + 1])
  }

  function VersionFrom(t: string, i: nat): (v: (nat, nat))
    requires VersionAt(t, i)
  {
    var j := RunEnd(t, i);
    var k := RunEnd(t, j + 1);
    assert AllDigits(t[i..j]) && AllDigits(t[j + 1..k]);
    (DigitsValue(t[i..j]), DigitsValue(t[j + 1..k]))
  }

  /** Where `re.search(r"(\d+)\.(\d+)", t)` finds its leftmost match, searching from `i` on. */
  function SearchFrom(t: string, i: nat): (p: Option<nat>)
    requires i <= |t|
    ensures p.Some? ==> i <= p.value < |t| && VersionAt(t, p.value)
    decreases |t| - i
  {
    if i == |t| then None
    else if VersionAt(t, i) then Some(i)
    else SearchFrom(t, i + 1)
  }

  /** The search finds the leftmost match, and finds none only when there is none. */
  lemma {:induction false} SearchFromLeftmost(t: string, i: nat)
    requires i <= |t|
    ensures SearchFrom(t, i).None? <==> forall q | i <= q < |t| :: !VersionAt(t, q)
    ensures SearchFrom(t, i).Some? ==> forall q | i <= q < SearchFrom(t, i).value :: !VersionAt(t, q)
    decreases |t| - i
  {
    if i < |t| && !VersionAt(t, i) {
      SearchFromLeftmost(t, i + 1);
    }
  }

  /** The two groups of the leftmost match, as integers. */
  function SearchVersion(t: string): (v: Option<(nat, nat)>)
    ensures v.None? <==> forall q | 0 <= q < |t| :: !VersionAt(t, q)
    ensures v.Some? ==> exists p | 0 <= p < |t| ::
      && VersionAt(t, p) && v.value == VersionFrom(t, p)
      && forall q | 0 <= q < p :: !VersionAt(t, q)
  {
    SearchFromLeftmost(t, 0);
    match SearchFrom(t, 0)
    case Some(p) => Some(VersionFrom(t, p))
    case None => None
  }

  /**
   * `_get_version`: the probe's exit code is not looked at; a timeout, a
   * missing binary or any other exception gives None.
   */
  function GetVersion(probe: ProcessOutcome): (v: Option<(nat, nat)>)
    ensures !probe.Exited? ==> v.None?
    ensures probe.Exited? ==>
      (v.Some? <==> exists q | 0 <= q < |Strip(probe.out)| :: VersionAt(Strip(probe.out), q))
  {
    match probe
    case Exited(_, out, _) => SearchVersion(Strip(out))
    case _ => None
  }

  /** The gate `version and version >= MIN_VERSION`. */
  function Passes(v: Option<(nat, nat)>): (b: bool)
    ensures b ==> v.Some? && v.value.0 >= MIN_MAJOR
    ensures v.Some? && v.value.0 > MIN_MAJOR ==> b
    ensures v.Some? && v.value.0 == MIN_MAJOR ==> (b <==> v.value.1 >= MIN_MINOR)
  {
    v.Some? && (v.value.0 > MIN_MAJOR || (v.value.0 == MIN_MAJOR && v.value.1 >= MIN_MINOR))
  }

  /** Text in front of the version that holds no digit is skipped over. */
  lemma {:induction false} SkipNonDigits(t: string, i: nat, k: nat)
    requires i <= k <= |t| && forall p | i <= p < k :: !IsAsciiDigit(t[p])
    ensures SearchFrom(t, i) == SearchFrom(t, k)
    decreases k - i
  {
    if i < k {
      SkipNonDigits(t, i + 1, k);
    }
  }

  /** A run of digits followed by no digit ends where the run does. */
  lemma {:induction false} RunEndOf(pre: string, d: string, post: string)
    requires AllDigits(d) && (post == [] || !IsAsciiDigit(post[0]))
    ensures RunEnd(pre + d + post, |pre|) == |pre| + |d|
    decreases |d|
  {
    var t := pre + d + post;
    if d == [] {
      assert t == pre + post;
      if post != [] {
        assert t[|pre|] == post[0];
      }
    } else {
      assert t == (pre + [d[0]]) + d[1..] + post;
      assert t[|pre|] == d[0];
      RunEndOf(pre + [d[0]], d[1..], post);
    }
  }

  /** Digits `a`, a dot and digits `b`, with no digit right after `b`, are a match with groups `a` and `b`. */
  lemma MatchLayout(pre: string, a: string, b: string, post: string)
    requires a != [] && b != [] && AllDigits(a) && AllDigits(b)
    requires post == [] || !IsAsciiDigit(post[0])
    ensures var t := pre + a + "." + b + post;
      VersionAt(t, |pre|) && VersionFrom(t, |pre|) == (DigitsValue(a), DigitsValue(b))
  {
    var t := pre + a + "." + b + post;
    var j := |pre| + |a|;
    var k := j + 1 + |b|;
    LayoutRuns(pre, a, b, post);
    LayoutChars(pre, a, b, post);
    MatchAt(t, |pre|, j, k, a, b);
  }

  lemma LayoutRuns(pre: string, a: string, b: string, post: string)
    requires AllDigits(a) && AllDigits(b)
    requires post == [] || !IsAsciiDigit(post[0])
    ensures var t := pre + a + "." + b + post;
      && RunEnd(t, |pre|) == |pre| + |a|
      && RunEnd(t, |pre| + |a| + 1) == |pre| + |a| + 1 + |b|
  {
    FirstRun(pre, a, b, post);
    SecondRun(pre + a + ".", b, post);
  }

  lemma FirstRun(pre: string, a: string, b: string, post: string)
    requires AllDigits(a)
    ensures RunEnd(pre + a + "." + b + post, |pre|) == |pre| + |a|
  {
    var rest := "." + b + post;
    assert pre + a + "." + b + post == pre + a + rest;
    RunEndOf(pre, a, rest);
  }

  lemma SecondRun(pre: string, b: string, post: string)
    requires AllDigits(b) && (post == [] || !IsAsciiDigit(post[0]))
    ensures RunEnd(pre + b + post, |pre|) == |pre| + |b|
  {
    RunEndOf(pre, b, post);
  }

  lemma LayoutChars(pre: string, a: string, b: string, post: string)
    requires a != [] && b != []
    ensures var t := pre + a + "." + b + post; var j := |pre| + |a|;
      && t[|pre|..j] == a && t[j + 1..j + 1 + |b|] == b && t[j] == '.'
      && t[|pre|] == a[0] && t[j + 1] == b[0]
  {
  }

  lemma MatchAt(t: string, i: nat, j: nat, k: nat, a: string, b: string)
    requires i < j && j + 1 < k <= |t| && RunEnd(t, i) == j && RunEnd(t, j + 1) == k
    requires t[j] == '.' && IsAsciiDigit(t[i]) && IsAsciiDigit(t[j + 1])
    requires t[i..j] == a && t[j + 1..k] == b
    ensures VersionAt(t, i) && AllDigits(a) && AllDigits(b)
    ensures VersionFrom(t, i) == (DigitsValue(a), DigitsValue(b))
  {
  }

  /**
   * The version is read back from a line like "Maxima 5.47.0": whatever
   * comes before it holds no digit, and whatever follows it does not start
   * with a digit.
   */
  lemma ReadsPrintedVersion(prefix: string, major: nat, minor: nat, suffix: string)
    requires forall p | 0 <= p < |prefix| :: !IsAsciiDigit(prefix[p])
    requires suffix == [] || !IsAsciiDigit(suffix[0])
    ensures SearchVersion(prefix + NatToString(major) + "." + NatToString(minor) + suffix) == Some((major, minor))
  {
    var a := NatToString(major);
    var b := NatToString(minor);
    var t := prefix + a + "." + b + suffix;
    NatStringDigits(major);
    NatStringDigits(minor);
    assert forall p | 0 <= p < |prefix| :: t[p] == prefix[p];
    SkipNonDigits(t, 0, |prefix|);
    MatchLayout(prefix, a, b, suffix);
    DigitsValueOfNat(major);
    DigitsValueOfNat(minor);
  }

  /** A candidate path: non-empty, found by `shutil.which`, and at a version that passes. */
  predicate Accepts(path: string, which: string -> Option<string>, probe: string -> ProcessOutcome) {
    path != "" && which(path).Some? && which(path).value != "" && Passes(GetVersion(probe(path)))
  }

  /**
   * `check`: the configured path first, then `which("maxima")`; the
   * version probe runs on the configured text itself, and on the path
   * `which` found for "maxima".
   */
  function CheckSpec(configured: Option<string>, which: string -> Option<string>,
                     probe: string -> ProcessOutcome): (found: Option<string>)
    ensures found.Some? ==> Passes(GetVersion(probe(found.value)))
    ensures configured.Some? && Accepts(configured.value, which, probe) ==> found == configured
    ensures found.None? <==>
      !(configured.Some? && Accepts(configured.value, which, probe)) &&
      !(which("maxima").Some? && which("maxima").value != "" && Passes(GetVersion(probe(which("maxima").value))))
    ensures found.Some? ==> found == configured || found == which("maxima")
  {
    if configured.Some? && Accepts(configured.value, which, probe) then configured
    else match which("maxima")
      case Some(path) => if path != "" && Passes(GetVersion(probe(path))) then Some(path) else None
      case None => None
  }

  class MaximaStep {
    var foundPath: Option<string>

    constructor()
      ensures foundPath == None
    {
      foundPath := None;
    }

    /** `check`; the path that passed is remembered, and nothing is forgotten on failure. */
    method Check(configured: Option<string>, which: string -> Option<string>,
                 probe: string -> ProcessOutcome) returns (ok: bool)
      modifies this
      ensures ok == CheckSpec(configured, which, probe).Some?
      ensures foundPath == if ok then CheckSpec(configured, which, probe) else old(foundPath)
    {
      if configured.Some? && configured.value != "" {
        var resolved := which(configured.value);
        if resolved.Some? && resolved.value != "" {
          var version := GetVersion(probe(configured.value));
          if Passes(version) {
            assert Accepts(configured.value, which, probe);
            foundPath := configured;
            return true;
          }
        }
      }
      assert !(configured.Some? && Accepts(configured.value, which, probe));
      var path := which("maxima");
      if path.Some? && path.value != "" {
        var version := GetVersion(probe(path.value));
        if Passes(version) {
          assert CheckSpec(configured, which, probe) == path;
          foundPath := path;
          return true;
        }
      }
      assert CheckSpec(configured, which, probe).None?;
      return false;
    }

    /** `verify`: the remembered path is probed again; without one, `check` runs. */
    method Verify(configured: Option<string>, which: string -> Option<string>,
                  probe: string -> ProcessOutcome) returns (ok: bool)
      modifies this
      ensures old(foundPath).Some? && old(foundPath).value != "" ==>
        ok == Passes(GetVersion(probe(old(foundPath).value))) && foundPath == old(foundPath)
      ensures !(old(foundPath).Some? && old(foundPath).value != "") ==>
        ok == CheckSpec(configured, which, probe).Some?
      ensures !(old(foundPath).Some? && old(foundPath).value != "") ==>
        foundPath == if ok then CheckSpec(configured, which, probe) else old(foundPath)
    {
      if foundPath.Some? && foundPath.value != "" {
        var version := GetVersion(probe(foundPath.value));
        return Passes(version);
      }
      ok := Check(configured, which, probe);
    }
  }
}
