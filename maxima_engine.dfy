/**
 * The Maxima engine: validation only, by running
 * `maxima --very-quiet --batch-string "ratsimp(...);"` and reading the last
 * output line Maxima prints.
 */
module MaximaEngine {
  import opened Wrappers
  import opened Strings
  import opened Equations
  import opened Base
  import Executor

  const NAME: string := "maxima"
  const DEFAULT_PATH: string := "/usr/bin/maxima"
  const DEFAULT_TIMEOUT: int := 10
  const VERSION_PROBE_TIMEOUT: int := 5

  datatype MaximaConfig = MaximaConfig(path: string, timeout: int)

  function DefaultConfig(): MaximaConfig {
    MaximaConfig(DEFAULT_PATH, DEFAULT_TIMEOUT)
  }

  // ----- reading Maxima's output -----

  predicate IsDigit(c: char) {
    '0' <= c <= '9'
  }

  /** The number of leading digits of `s`. */
  function DigitRun(s: string): (n: nat)
    ensures n <= |s| && (forall k | 0 <= k < n :: IsDigit(s[k])) && (n == |s| || !IsDigit(s[n]))
  {
    if s != [] && IsDigit(s[0]) then 1 + DigitRun(s[1..]) else 0
  }

  /** The length of a leading `(%oN)` output label (N one or more digits), if `line` starts with one. */
  function LabelLength(line: string): (r: Option<nat>)
    ensures r.Some? ==> 5 <= r.value <= |line|
  {
    if StartsWith(line, "(%o") then
      var n := DigitRun(line[3..]);
      if n > 0 && 3 + n < |line| && line[3 + n] == ')' then Some(4 + n) else None
    else None
  }

  /** A line `_run_maxima` skips: blank once stripped, or an input echo `(%i...`; never an output line. */
  function Skipped(line: string): (b: bool)
    ensures Strip(line) == "" ==> b
    ensures StartsWith(Strip(line), "(%i") ==> b
    ensures b ==> LabelLength(Strip(line)).None?
  {
    var l := Strip(line);
    EchoIsNoLabel(l);
    l == "" || StartsWith(l, "(%i")
  }

  lemma EchoIsNoLabel(l: string)
    ensures StartsWith(l, "(%i") ==> LabelLength(l).None?
  {
    if StartsWith(l, "(%i") {
      assert l[2] == 'i';
    }
  }

  /**
   * What one usable line contributes: its text after the output label, or the
   * stripped line itself; either way without surrounding whitespace.
   */
  function Cleaned(line: string): (r: string)
    ensures r == [] || (!IsSpace(r[0]) && !IsSpace(r[|r| - 1]))
    ensures LabelLength(Strip(line)).None? ==> r == Strip(line)
    ensures LabelLength(Strip(line)).Some? ==> |r| + 5 <= |Strip(line)|
  {
    var l := Strip(line);
    match LabelLength(l)
    case Some(n) => Strip(l[n..])
    case None => l
  }

  /** The index of the last line before `end` that `skip` does not reject. */
  function LastKept(lines: seq<string>, end: nat, skip: string -> bool): (r: Option<nat>)
    requires end <= |lines|
    ensures r.Some? ==> r.value < end && !skip(lines[r.value])
    ensures r.Some? ==> forall j | r.value < j < end :: skip(lines[j])
    ensures r.None? ==> forall j | 0 <= j < end :: skip(lines[j])
  {
    if end == 0 then None
    else if !skip(lines[end - 1]) then Some(end - 1)
    else LastKept(lines, end - 1, skip)
  }

  /** The text `_run_maxima` returns for a successful run's stdout, or None for "no parseable output". */
  function Extract(stdout: string): (r: Option<string>)
    ensures Strip(stdout) == "" ==> r.None?
    ensures r.Some? ==> r.value == [] || (!IsSpace(r.value[0]) && !IsSpace(r.value[|r.value| - 1]))
  {
    var lines := Split(Strip(stdout), '\n');
    assert Strip(stdout) == "" ==> lines == [[]] && Skipped(lines[0]);
    LastValue(lines)
  }

  /** The cleaned text of the last line that is not skipped; None when every line is skipped. */
  function LastValue(lines: seq<string>): (r: Option<string>)
    ensures r.Some? <==> exists k | 0 <= k < |lines| :: !Skipped(lines[k])
    ensures r.Some? ==> exists k | 0 <= k < |lines| ::
      && !Skipped(lines[k]) && r.value == Cleaned(lines[k])
      && forall j | k < j < |lines| :: Skipped(lines[j])
  {
    match LastKept(lines, |lines|, Skipped)
    case Some(k) => Some(Cleaned(lines[k]))
    case None => None
  }

  /** The reversed scan of `_run_maxima`: the last line it does not skip, cleaned. */
  method ExtractLoop(stdout: string) returns (r: Option<string>)
    ensures r == Extract(stdout)
  {
    var lines := Split(Strip(stdout), '\n');
    var k := ScanBack(lines, Skipped);
    match k
    case Some(j) => r := Some(Cleaned(lines[j]));
    case None => r := None;
  }

  /** The loop over `reversed(lines)`, with the test for a line to pass over as `skip`. */
  method ScanBack(lines: seq<string>, skip: string -> bool) returns (k: Option<nat>)
    ensures k == LastKept(lines, |lines|, skip)
  {
    var i := |lines|;
    while i > 0
      invariant 0 <= i <= |lines|
      invariant LastKept(lines, |lines|, skip) == LastKept(lines, i, skip)
    {
      LastKeptStep(lines, i, skip);
      if !skip(lines[i - 1]) {
        return Some(i - 1);
      }
      i := i - 1;
    }
    return None;
  }

  /** One step of the backward scan: a kept line is the answer, a skipped one passes the search on. */
  lemma LastKeptStep(lines: seq<string>, i: nat, skip: string -> bool)
    requires 0 < i <= |lines|
    ensures !skip(lines[i - 1]) ==> LastKept(lines, i, skip) == Some(i - 1)
    ensures skip(lines[i - 1]) ==> LastKept(lines, i, skip) == LastKept(lines, i - 1, skip)
  {
  }

  /** An output line `(%oN) value` gives back the value, stripped. */
  lemma LabelledLineGivesValue(digits: string, value: string)
    requires digits != [] && forall k | 0 <= k < |digits| :: IsDigit(digits[k])
    requires value != [] && !IsSpace(value[0]) && !IsSpace(value[|value| - 1])
    ensures Cleaned("(%o" + digits + ")" + (" " + value)) == value
  {
    var prefix := "(%o" + digits + ")";
    var rest := " " + value;
    var line := prefix + rest;
    assert |prefix| == 4 + |digits| && prefix[0] == '(';
    assert line[0] == '(' && line[|line| - 1] == rest[|rest| - 1] == value[|value| - 1];
    StripKeeps(line);
    LabelOf(digits, rest);
    CleanedLabelled(line, 4 + |digits|);
    assert line[4 + |digits|..] == rest;
    StripSpaceCons(' ', value);
    StripKeeps(value);
  }

  /** A stripped line with a label of length `n` cleans to what follows the label, stripped. */
  lemma CleanedLabelled(line: string, n: nat)
    requires Strip(line) == line && LabelLength(line) == Some(n)
    ensures n <= |line| && Cleaned(line) == Strip(line[n..])
  {
  }

  lemma LabelOf(digits: string, rest: string)
    requires digits != [] && forall k | 0 <= k < |digits| :: IsDigit(digits[k])
    ensures LabelLength("(%o" + digits + ")" + rest) == Some(4 + |digits|)
  {
    var line := "(%o" + digits + ")" + rest;
    assert line[..3] == "(%o";
    assert line[3..] == digits + ")" + rest;
    DigitRunOf(digits, ")" + rest);
    assert line[3 + |digits|] == ')';
  }

  lemma {:induction false} DigitRunOf(digits: string, rest: string)
    requires forall k | 0 <= k < |digits| :: IsDigit(digits[k])
    requires rest == [] || !IsDigit(rest[0])
    ensures DigitRun(digits + rest) == |digits|
    decreases |digits|
  {
    if digits != [] {
      assert (digits + rest)[1..] == digits[1..] + rest;
      DigitRunOf(digits[1..], rest);
    }
  }

  /** Input echoes and blank lines after the last output line do not change what is read. */
  lemma {:induction false} TrailingSkippedIgnored(lines: seq<string>, tail: seq<string>, skip: string -> bool)
    requires forall j | 0 <= j < |tail| :: skip(tail[j])
    ensures LastKept(lines + tail, |lines + tail|, skip) == LastKept(lines, |lines|, skip)
    decreases |tail|
  {
    if tail != [] {
      var shorter := lines + tail[..|tail| - 1];
      assert (lines + tail)[|lines + tail| - 1] == tail[|tail| - 1];
      assert shorter == (lines + tail)[..|shorter|];
      LastKeptPrefix(lines + tail, shorter, |shorter|, skip);
      assert forall j | 0 <= j < |tail| - 1 :: tail[..|tail| - 1][j] == tail[j];
      TrailingSkippedIgnored(lines, tail[..|tail| - 1], skip);
    } else {
      assert lines + tail == lines;
    }
  }

  lemma {:induction false} LastKeptPrefix(long: seq<string>, short: seq<string>, end: nat, skip: string -> bool)
    requires end <= |short| <= |long| && short == long[..|short|]
    ensures LastKept(long, end, skip) == LastKept(short, end, skip)
    decreases end
  {
    if end > 0 {
      assert long[end - 1] == short[end - 1];
      LastKeptPrefix(long, short, end - 1, skip);
    }
  }

  /** What `_run_maxima` returns or raises. */
  datatype Raise = TimeoutExpired | Error(message: string)
  datatype RunResult = Output(text: string) | Threw(raised: Raise)

  /** `_run_maxima` once the process outcome is known. */
  function RunMaxima(path: string, outcome: Executor.ProcessOutcome): (r: RunResult)
    ensures r.Output? ==> outcome.Exited? && outcome.rc == 0 && Extract(outcome.out) == Some(r.text)
    ensures outcome.Exited? && outcome.rc == 0 && Extract(outcome.out).Some? ==> r.Output?
    ensures r == Threw(TimeoutExpired) <==> outcome.Expired?
  {
    match outcome
    case Exited(rc, out, err) =>
      if rc != 0 then Threw(Error("non-zero exit (" + IntToString(rc) + "): " + Strip(err)))
      else if Strip(out) == "" then Threw(Error("no output"))
      else
        (match Extract(out)
         case Some(text) => Output(text)
         case None => Threw(Error("no parseable output")))
    case Expired => Threw(TimeoutExpired)
    case NotFound => Threw(Error("[Errno 2] No such file or directory: '" + path + "'"))
    case Raised(m) => Threw(Error(m))
  }

  /** A blank stdout has no usable line. */
  lemma BlankHasNothing(out: string)
    requires Strip(out) == ""
    ensures Extract(out) == None
  {
    var lines := Split(Strip(out), '\n');
    assert Strip(out) == [] && Split([], '\n') == [[]];
    assert Skipped(lines[0]);
  }

  /** A clean exit yields output exactly when some line of the stripped stdout is neither blank nor an input echo. */
  lemma RunOutputIffKeptLine(path: string, out: string, err: string, lines: seq<string>)
    requires lines == Split(Strip(out), '\n')
    ensures RunMaxima(path, Executor.Exited(0, out, err)).Output? <==> exists k | 0 <= k < |lines| :: !Skipped(lines[k])
  {
    var r := RunMaxima(path, Executor.Exited(0, out, err));
    assert Extract(out) == LastValue(lines);
    assert r.Output? <==> LastValue(lines).Some?;
  }

  /** The output of a clean exit is the last line that is neither blank nor an input echo, cleaned. */
  lemma RunReadsLastOutputLine(path: string, out: string, err: string, lines: seq<string>)
    requires lines == Split(Strip(out), '\n')
    ensures var r := RunMaxima(path, Executor.Exited(0, out, err));
      var last := LastKept(lines, |lines|, Skipped);
      r.Output? ==> last.Some? && r.text == Cleaned(lines[last.value])
  {
    var r := RunMaxima(path, Executor.Exited(0, out, err));
    assert Extract(out) == LastValue(lines);
  }

  // ----- validate -----

  /** The Maxima command for a converted expression. */
  function Command(expr: string): (cmd: string)
    ensures HasStandalone(expr, MAXIMA_BEFORE) ==>
      var (l, r) := SplitAtFirstEquals(expr);
      cmd == "ratsimp(" + Strip(l) + " - (" + Strip(r) + "));"
    ensures !HasStandalone(expr, MAXIMA_BEFORE) ==> cmd == "ratsimp(" + expr + ");"
  {
    if HasStandalone(expr, MAXIMA_BEFORE) then
      var (l, r) := SplitAtFirstEquals(expr);
      "ratsimp(" + Strip(l) + " - (" + Strip(r) + "));"
    else "ratsimp(" + expr + ");"
  }

  /** One Maxima run: the binary, the command and the timeout. */
  datatype MaximaRun = MaximaRun(path: string, command: string, timeoutS: int)

  /** `validate` as a function of the conversion and of the process outcome. */
  function ValidateSpec(cfg: MaximaConfig, latex: string, toMaxima: string -> string,
                        run: MaximaRun -> Executor.ProcessOutcome, elapsed: int): (r: EngineResult)
    ensures r.engine == NAME
    ensures toMaxima(latex) == "" ==> !r.success && r.error == Some("empty expression after conversion")
    ensures r.success <==>
      toMaxima(latex) != "" && RunMaxima(cfg.path, run(MaximaRun(cfg.path, Command(toMaxima(latex)), cfg.timeout))).Output?
    ensures r.success ==>
      && r.error.None? && r.originalParsed == Some(toMaxima(latex)) && r.simplified.Some? && r.isValid.Some?
      && (HasStandalone(toMaxima(latex), MAXIMA_BEFORE) ==> (r.isValid.value <==> r.simplified.value == "0"))
      && (!HasStandalone(toMaxima(latex), MAXIMA_BEFORE) ==> r.isValid.value)
    ensures toMaxima(latex) != "" ==>
      var out := RunMaxima(cfg.path, run(MaximaRun(cfg.path, Command(toMaxima(latex)), cfg.timeout)));
      && (out.Output? ==> r.simplified == Some(Strip(out.text)))
      && (out == Threw(TimeoutExpired) ==> !r.success && r.error == Some("timeout"))
      && (out.Threw? && out.raised.Error? ==> !r.success && r.error == Some("maxima error: " + out.raised.message))
  {
    var expr := toMaxima(latex);
    if expr == "" then EngineFailure(NAME, "empty expression after conversion", elapsed)
    else
      var isEq := HasStandalone(expr, MAXIMA_BEFORE);
      match RunMaxima(cfg.path, run(MaximaRun(cfg.path, Command(expr), cfg.timeout)))
      case Threw(TimeoutExpired) => EngineFailure(NAME, "timeout", elapsed)
      case Threw(Error(m)) => EngineFailure(NAME, "maxima error: " + m, elapsed)
      case Output(output) =>
        var simplified := Strip(output);
        EngineResult(NAME, true, Some(if isEq then simplified == "0" else true), Some(simplified), Some(expr), None, elapsed)
  }

  /** `is_available`: the binary is found by `shutil.which`. */
  function IsAvailable(cfg: MaximaConfig, which: string -> bool): (ok: bool)
    ensures ok <==> which(cfg.path)
  {
    which(cfg.path)
  }

  /** `get_version`: the first line of the stripped stdout, or "unknown" when the probe raised. */
  function GetVersion(probe: Executor.ProcessOutcome): (v: string)
    ensures !probe.Exited? ==> v == "unknown"
    ensures probe.Exited? ==> '\n' !in v && StartsWith(Strip(probe.out), v)
    ensures probe.Exited? ==> v == Split(Strip(probe.out), '\n')[0]
  {
    if probe.Exited? then
      var parts := Split(Strip(probe.out), '\n');
      FirstPieceIsPrefix(Strip(probe.out), '\n');
      parts[0]
    else "unknown"
  }

  lemma FirstPieceIsPrefix(s: string, sep: char)
    ensures StartsWith(s, Split(s, sep)[0])
  {
    match IndexOf(s, sep) {
      case None =>
      case Some(i) =>
        assert Split(s, sep)[0] == s[..i];
    }
  }
}
