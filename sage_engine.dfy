/**
 * The SageMath engine: LaTeX validation and template compute, both run as a
 * `sage --python -c <script>` subprocess through the executor, with a
 * payload on standard input and tagged `SAGE_*:` lines on standard output.
 */
module SageEngine {
  import opened Wrappers
  import opened Strings
  import opened Patterns
  import opened Equations
  import opened Base
  import opened Admission
  import Executor

  const NAME: string := "sage"
  const MAX_INPUT_LEN: int := 500
  const MAX_OUTPUT: int := 64 * 1024
  const DEFAULT_TIMEOUT: int := 30
  const VERSION_PROBE_TIMEOUT: int := 10
  const UNAVAILABLE: string := "SageMath binary not found"

  /** The blocked tokens, lower-cased; "Popen" and "popen" are both listed, as in the source. */
  const BLOCKED: seq<Pat> := [
    Lit("__import__"), Call("exec"), Call("eval"), Call("compile"), Call("open"),
    Lit("os."), Lit("sys."), Lit("subprocess"), WordThenSpace("import"), Spread("from", true, "import"),
    Lit("globals"), Lit("locals"), Lit("getattr"), Lit("setattr"), Lit("delattr"),
    Lit("__builtins__"), Lit("__class__"), Lit("__subclasses__"),
    Lit("popen"), Lit("system("), Lit("popen")]

  /**
   * `_validate_input`. An accepted value is non-empty, within the length
   * limit, and holds no literal alternative of the blocked pattern in any
   * letter case.
   */
  function InputOk(value: string): (ok: bool)
    ensures ok ==> value != [] && |value| <= MAX_INPUT_LEN
    ensures ok ==> forall t, i | Lit(t) in BLOCKED && 0 <= i <= |value| :: !OccursAt(Lower(value), t, i)
    ensures ok ==> '\0' !in value
  {
    UnblockedHasNoLiteral(BLOCKED, value);
    && value != []
    && |value| <= MAX_INPUT_LEN
    && !Blocked(BLOCKED, value)
    && '\0' !in value
  }

  /** `__import__` is refused in any letter case. */
  lemma SanitizerBlocksImport()
    ensures !InputOk("__IMPORT__(1)")
  {
    assert Lower("__IMPORT__(1)")[..10] == "__import__";
    LiteralBlocks(BLOCKED, "__IMPORT__(1)", "__import__", 0);
  }

  /** A call of `eval` is refused even with blanks before the parenthesis. */
  lemma SanitizerBlocksEvalCall()
    ensures !InputOk("Eval (1)")
  {
    var t := Lower("Eval (1)");
    assert t == "eval (1)";
    assert SkipSpaces(t, 4) == 5;
    assert MatchAt(Call("eval"), t, 0);
  }

  /** `from x import y` is refused. */
  lemma SanitizerBlocksFromImport()
    ensures !InputOk("from m import f")
  {
    FromImportLayout("from m import f");
    SpreadBlocks(BLOCKED, "from m import f", "from", "import", 0, 7);
  }

  lemma FromImportLayout(u: string)
    requires u == "from m import f"
    ensures Lower(u) == u && OccursAt(u, "from", 0) && IsSpace(u[4])
    ensures OccursAt(u, "import", 7) && NoNewline(u, 5, 7)
  {
    LowerKeeps(u);
    assert u[..4] == "from" && u[7..13] == "import";
  }

  const TEMPLATES: map<string, Template> := map[
    "evaluate" := Template(["expression"], []),
    "simplify" := Template(["expression"], []),
    "solve" := Template(["equation"], ["variable"]),
    "factor" := Template(["expression"], []),
    "integrate" := Template(["expression"], ["variable"]),
    "differentiate" := Template(["expression"], ["variable"]),
    "matrix_rank" := Template(["matrix"], []),
    "latex_to_sage" := Template(["expression"], []),
    "group_order" := Template(["group_expr"], []),
    "is_abelian" := Template(["group_expr"], []),
    "center_size" := Template(["group_expr"], [])]

  /** The template table holds exactly the eleven listed names. */
  lemma TemplateNames()
    ensures TEMPLATES.Keys == {"evaluate", "simplify", "solve", "factor", "integrate", "differentiate",
                               "matrix_rank", "latex_to_sage", "group_order", "is_abelian", "center_size"}
  {
  }

  // ----- tagged output -----

  /** A `SAGE_*` line split at its first colon; None for any other line or a tag line with no colon. */
  function TagOf(line: string): (t: Option<(string, string)>)
    ensures t.Some? ==> StartsWith(line, "SAGE_") && line == t.value.0 + ":" + t.value.1 && ':' !in t.value.0
  {
    if !StartsWith(line, "SAGE_") then None
    else match IndexOf(line, ':')
      case None => None
      case Some(c) =>
        assert line == line[..c] + ":" + line[c + 1..];
        Some((line[..c], line[c + 1..]))
  }

  /** Every `SAGE_` line has a colon (without one `_parse_tags` raises). */
  predicate TagsWellFormed(lines: seq<string>) {
    forall i | 0 <= i < |lines| :: StartsWith(lines[i], "SAGE_") ==> ':' in lines[i]
  }

  /** The tags of `lines`, later lines overwriting earlier ones. */
  function TagsOf(lines: seq<string>): (tags: map<string, string>)
    ensures forall k | k in tags :: exists i | 0 <= i < |lines| :: TagOf(lines[i]) == Some((k, tags[k]))
  {
    if lines == [] then map[]
    else
      var tags := TagsOf(lines[..|lines| - 1]);
      match TagOf(lines[|lines| - 1])
      case Some((k, v)) => tags[k := v]
      case None => tags
  }

  /** `_parse_tags`. */
  method ParseTags(stdout: string) returns (tags: map<string, string>)
    requires TagsWellFormed(SplitLines(stdout))
    ensures tags == TagsOf(SplitLines(stdout))
  {
    var lines := SplitLines(stdout);
    tags := map[];
    for i := 0 to |lines|
      invariant tags == TagsOf(lines[..i])
    {
      var line := lines[i];
      TagsStep(lines, i);
      if StartsWith(line, "SAGE_") {
        assert ':' in line;
        var colon := IndexOf(line, ':').value;
        assert TagOf(line) == Some((line[..colon], line[colon + 1..]));
        tags := tags[line[..colon] := line[colon + 1..]];
      }
    }
    assert lines[..|lines|] == lines;
  }

  /** One more line adds its tag, if it has one, over those before it. */
  lemma TagsStep(lines: seq<string>, i: nat)
    requires i < |lines|
    ensures TagsOf(lines[..i + 1]) == match TagOf(lines[i])
      case Some((k, v)) => TagsOf(lines[..i])[k := v]
      case None => TagsOf(lines[..i])
  {
    assert lines[..i + 1][..i] == lines[..i];
  }

  predicate TaggedWith(line: string, key: string) {
    TagOf(line).Some? && TagOf(line).value.0 == key
  }

  /** The index of the last line before `n` tagged `key`. */
  function LastTagged(lines: seq<string>, key: string, n: nat): (r: Option<nat>)
    requires n <= |lines|
    ensures r.Some? ==> r.value < n && TaggedWith(lines[r.value], key)
    ensures r.Some? ==> forall j | r.value < j < n :: !TaggedWith(lines[j], key)
    ensures r.None? ==> forall j | 0 <= j < n :: !TaggedWith(lines[j], key)
  {
    if n == 0 then None
    else if TaggedWith(lines[n - 1], key) then Some(n - 1)
    else LastTagged(lines, key, n - 1)
  }

  function LastTag(lines: seq<string>, key: string): Option<string> {
    match LastTagged(lines, key, |lines|)
    case Some(i) => Some(TagOf(lines[i]).value.1)
    case None => None
  }

  /** `_parse_tags` keeps, for each key, the value of the last line carrying it, and no key no line carries. */
  lemma {:induction false} TagsLastWins(lines: seq<string>, key: string)
    ensures Get(TagsOf(lines), key) == LastTag(lines, key)
    decreases |lines|
  {
    if lines != [] {
      var init := lines[..|lines| - 1];
      var last := lines[|lines| - 1];
      TagsLastWins(init, key);
      assert forall i | 0 <= i < |init| :: init[i] == lines[i];
      LastTaggedPrefix(lines, init, key, |init|);
      if TaggedWith(last, key) {
        assert LastTag(lines, key) == Some(TagOf(last).value.1);
        assert TagsOf(lines) == TagsOf(init)[key := TagOf(last).value.1];
      } else {
        assert LastTagged(lines, key, |lines|) == LastTagged(lines, key, |init|);
        assert Get(TagsOf(lines), key) == Get(TagsOf(init), key);
      }
    }
  }

  lemma {:induction false} LastTaggedPrefix(lines: seq<string>, init: seq<string>, key: string, n: nat)
    requires n <= |init| <= |lines| && forall i | 0 <= i < |init| :: init[i] == lines[i]
    ensures LastTagged(init, key, n) == LastTagged(lines, key, n)
  {
    if n > 0 {
      LastTaggedPrefix(lines, init, key, n - 1);
    }
  }

  /** Every key is the text of a `SAGE_` line before its first colon. */
  lemma {:induction false} TagKeysArePrefixed(lines: seq<string>)
    ensures forall k | k in TagsOf(lines) :: StartsWith(k, "SAGE_") && ':' !in k
    decreases |lines|
  {
    if lines != [] {
      TagKeysArePrefixed(lines[..|lines| - 1]);
      match TagOf(lines[|lines| - 1])
      case Some((k, v)) =>
        var line := k + ":" + v;
        assert line[..5] == "SAGE_";
        assert forall i | 0 <= i < 5 :: line[i] != ':';
        assert line[|k|] == ':';
        assert k[..5] == line[..5];
      case None =>
    }
  }

  function Get(tags: map<string, string>, key: string): Option<string> {
    if key in tags then Some(tags[key]) else None
  }

  /** What the validate and compute parsers may assume of an execution they parse. */
  predicate Parsable(e: Executor.ExecResult) {
    !e.timedOut && e.returncode == 0 ==> TagsWellFormed(SplitLines(e.stdout))
  }

  /** `_parse_validate_output`. */
  function ParseValidateOutput(e: Executor.ExecResult, elapsed: int, timeout: int): (r: EngineResult)
    requires Parsable(e)
    ensures r.engine == NAME
    ensures r.success <==> !e.timedOut && e.returncode == 0 && "SAGE_ERROR" !in TagsOf(SplitLines(e.stdout))
    ensures r.success ==> r.isValid == Some(Get(TagsOf(SplitLines(e.stdout)), "SAGE_VALID") == Some("1"))
    ensures r.success ==> r.simplified == Get(TagsOf(SplitLines(e.stdout)), "SAGE_SIMPLIFIED")
    ensures r.success ==> r.originalParsed == Get(TagsOf(SplitLines(e.stdout)), "SAGE_PARSED")
    ensures !r.success ==> r.error.Some? && r.isValid.None?
    ensures e.timedOut ==> r.error == Some("SageMath timed out after " + IntToString(timeout) + "s")
  {
    if e.timedOut then EngineFailure(NAME, "SageMath timed out after " + IntToString(timeout) + "s", elapsed)
    else if e.returncode != 0 then EngineFailure(NAME, "SageMath exited with code " + IntToString(e.returncode), elapsed)
    else
      var tags := TagsOf(SplitLines(e.stdout));
      if "SAGE_ERROR" in tags then EngineFailure(NAME, tags["SAGE_ERROR"], elapsed)
      else EngineResult(NAME, true, Some(Get(tags, "SAGE_VALID") == Some("1")),
                        Get(tags, "SAGE_SIMPLIFIED"), Get(tags, "SAGE_PARSED"), None, elapsed)
  }

  /** `_parse_compute_output`: timeout, then exit code, then a `SAGE_ERROR` tag, then success. */
  function ParseComputeOutput(e: Executor.ExecResult, elapsed: int, timeout: int): (r: ComputeResult)
    requires Parsable(e)
    ensures WellFormed(r) && r.engine == NAME
    ensures r.errorCode == Some(Timeout) <==> e.timedOut
    ensures r.errorCode == Some(EngineError) <==>
      !e.timedOut && (e.returncode != 0 || "SAGE_ERROR" in TagsOf(SplitLines(e.stdout)))
    ensures r.success ==> r.value == Some(Get(TagsOf(SplitLines(e.stdout)), "SAGE_RESULT").GetOr(""))
    ensures !e.timedOut ==> r.stdout == e.stdout && r.stderr == e.stderr
  {
    if e.timedOut then Failure(NAME, elapsed, "SageMath timed out after " + IntToString(timeout) + "s", Timeout)
    else if e.returncode != 0 then
      FailureWithOutput(NAME, elapsed, e.stdout, e.stderr, "SageMath exited with code " + IntToString(e.returncode), EngineError)
    else
      var tags := TagsOf(SplitLines(e.stdout));
      if "SAGE_ERROR" in tags then FailureWithOutput(NAME, elapsed, e.stdout, e.stderr, tags["SAGE_ERROR"], EngineError)
      else Success(NAME, elapsed, Get(tags, "SAGE_RESULT").GetOr(""), e.stdout, e.stderr)
  }

  // ----- equation rewrite in validate -----

  /** `re.sub(r"(?<![<>!=])=(?!=)", "==", s)` from position `i` on. */
  function Doubled(s: string, i: nat): (r: string)
    requires i <= |s|
    ensures |r| >= |s| - i
    ensures (forall j | i <= j < |s| :: !StandaloneAt(s, j, SAGE_BEFORE)) ==> r == s[i..]
    decreases |s| - i
  {
    if i == |s| then []
    else (if StandaloneAt(s, i, SAGE_BEFORE) then "==" else [s[i]]) + Doubled(s, i + 1)
  }

  /** The expression `validate` sends and whether it is treated as an equation. */
  function DetectEquation(e: string): (r: (string, bool))
    ensures !r.1 ==> r.0 == e
    ensures r.0 != e ==> r.1 && !Contains(e, "==") && HasStandalone(e, SAGE_BEFORE) && r.0 == Doubled(e, 0)
  {
    if '=' !in e then (e, false)
    else if Contains(e, "==") then (e, true)
    else if HasStandalone(e, SAGE_BEFORE) then (Doubled(e, 0), true)
    else (e, false)
  }

  /** An expression that already has "==" goes through untouched. */
  lemma KeepsDoubleEquals(e: string)
    requires Contains(e, "==")
    ensures DetectEquation(e) == (e, true)
  {
    var i :| 0 <= i <= |e| && OccursAt(e, "==", i);
    assert e[i] == "=="[0];
  }

  /** Collapsing "==" back to "=" undoes the rewrite. */
  lemma {:induction false} DoubledUndo(s: string, i: nat)
    requires i <= |s| && !Contains(s, "==")
    ensures Replace(Doubled(s, i), "==", "=") == s[i..]
    decreases |s| - i
  {
    if i < |s| {
      DoubledUndo(s, i + 1);
      var rest := Doubled(s, i + 1);
      assert s[i..] == [s[i]] + s[i + 1..];
      if StandaloneAt(s, i, SAGE_BEFORE) {
        assert Doubled(s, i) == "==" + rest;
        assert StartsWith("==" + rest, "==");
        assert ("==" + rest)[2..] == rest;
      } else {
        assert Doubled(s, i) == [s[i]] + rest;
        assert !StartsWith([s[i]] + rest, "==") by {
          if s[i] == '=' && i + 1 < |s| {
            assert !OccursAt(s, "==", i);
            assert s[i + 1] != '=';
            assert rest[0] == s[i + 1];
          }
        }
        assert ([s[i]] + rest)[1..] == rest;
      }
    }
  }

  /** The rewrite is invertible: on input without "==", replacing "==" by "=" in the sent text gives the input back. */
  lemma RewriteRoundTrip(e: string)
    requires !Contains(e, "==")
    ensures Replace(DetectEquation(e).0, "==", "=") == e
  {
    DoubledUndo(e, 0);
    if !HasStandalone(e, SAGE_BEFORE) || '=' !in e {
      ReplaceAbsent(e, "==", "=");
    }
  }

  /** A standalone "=" at `k` becomes a "==" in the rewritten text. */
  lemma {:induction false} DoubledHasDoubleEquals(s: string, i: nat, k: nat)
    requires i <= k < |s| && StandaloneAt(s, k, SAGE_BEFORE)
    ensures Contains(Doubled(s, i), "==")
    decreases k - i
  {
    var head := if StandaloneAt(s, i, SAGE_BEFORE) then "==" else [s[i]];
    var rest := Doubled(s, i + 1);
    assert Doubled(s, i) == head + rest;
    if i == k {
      assert OccursAt(Doubled(s, i), "==", 0);
    } else {
      DoubledHasDoubleEquals(s, i + 1, k);
      var j :| 0 <= j <= |rest| && OccursAt(rest, "==", j);
      assert (head + rest)[|head| + j..|head| + j + 2] == rest[j..j + 2];
      assert OccursAt(Doubled(s, i), "==", |head| + j);
    }
  }

  /** A text treated as an equation always reaches the script with the "==" the script splits on. */
  lemma EquationHasDoubleEquals(e: string)
    ensures DetectEquation(e).1 <==> Contains(e, "==") || HasStandalone(e, SAGE_BEFORE)
    ensures DetectEquation(e).1 ==> Contains(DetectEquation(e).0, "==")
  {
    if Contains(e, "==") {
      KeepsDoubleEquals(e);
    } else if HasStandalone(e, SAGE_BEFORE) {
      var k :| 0 <= k < |e| && StandaloneAt(e, k, SAGE_BEFORE);
      assert '=' in e by { assert e[k] == '='; }
      DoubledHasDoubleEquals(e, 0, k);
    }
  }

  // ----- invocations -----

  /** The script and payload of one `sage` run; the payloads stand for the base64 JSON the source encodes. */
  datatype Payload =
    | NoInput
    | ValidatePayload(expression: string, isEquation: bool)
    | ComputePayload(task: string, inputs: Inputs)

  datatype SageRun = SageRun(command: seq<string>, payload: Payload, timeoutS: Option<int>)

  function ValidateRun(path: string, timeout: int, expr: string, isEquation: bool): SageRun {
    SageRun([path, "--python", "-c", "<validate script>"], ValidatePayload(expr, isEquation), Some(timeout))
  }

  function ComputeRun(path: string, timeoutS: int, req: ComputeRequest): SageRun {
    SageRun([path, "--python", "-c", "<compute script>"], ComputePayload(req.template, req.inputs), Some(timeoutS))
  }

  function VersionRun(path: string): SageRun {
    SageRun([path, "--version"], NoInput, Some(VERSION_PROBE_TIMEOUT))
  }

  /** The engine's executor (default timeout = the engine's, 64 KiB cap) running one invocation. */
  function Exec(call: SageRun, outcome: Executor.ProcessOutcome, timeout: int, elapsed: nat): (e: Executor.ExecResult)
    requires call.command != [] && !outcome.Raised?
    ensures |e.stdout| <= MAX_OUTPUT
  {
    Executor.Shape(call.command, outcome, Executor.OrDefault(call.timeoutS, timeout), MAX_OUTPUT, elapsed)
  }

  /** Every invocation completes without an unexpected exception and any tagged output parses. */
  ghost predicate WellBehaved(run: SageRun -> Executor.ProcessOutcome, timeout: int) {
    forall call: SageRun | call.command != [] ::
      !run(call).Raised? && Parsable(Exec(call, run(call), timeout, 0))
  }

  lemma ParsableAnyTime(call: SageRun, run: SageRun -> Executor.ProcessOutcome, timeout: int, elapsed: nat)
    requires WellBehaved(run, timeout) && call.command != []
    ensures !run(call).Raised? && Parsable(Exec(call, run(call), timeout, elapsed))
  {
    assert Exec(call, run(call), timeout, elapsed).stdout == Exec(call, run(call), timeout, 0).stdout;
  }

  /** `validate` once availability is known; `toSage` is the LaTeX-to-Sage conversion. */
  function ValidateSpec(available: bool, path: string, timeout: int, latex: string, toSage: string -> string,
                        run: SageRun -> Executor.ProcessOutcome, elapsed: nat): (r: EngineResult)
    requires WellBehaved(run, timeout)
    ensures r.engine == NAME
    ensures !available ==> !r.success && r.error == Some(UNAVAILABLE)
    ensures available && !InputOk(toSage(latex)) ==> !r.success && r.error == Some("Expression rejected by input validation")
  {
    if !available then EngineFailure(NAME, UNAVAILABLE, elapsed)
    else
      var e := toSage(latex);
      if !InputOk(e) then EngineFailure(NAME, "Expression rejected by input validation", elapsed)
      else
        var (expr, isEq) := DetectEquation(e);
        var call := ValidateRun(path, timeout, expr, isEq);
        ParsableAnyTime(call, run, timeout, elapsed);
        ParseValidateOutput(Exec(call, run(call), timeout, elapsed), elapsed, timeout)
  }

  /** `compute` once availability is known. */
  function ComputeSpec(available: bool, path: string, timeout: int, req: ComputeRequest,
                       run: SageRun -> Executor.ProcessOutcome, elapsed: nat): (r: ComputeResult)
    requires WellBehaved(run, timeout)
    ensures WellFormed(r) && r.engine == NAME
    ensures var refusal := Admit(available, UNAVAILABLE, TEMPLATES, req, Some(InputOk));
      refusal.Some? ==> r.errorCode == Some(refusal.value.code)
    ensures r.errorCode.Some? ==>
      r.errorCode.value in {EngineUnavailable, UnknownTemplate, MissingInput, InvalidInput, Timeout, EngineError}
    ensures |r.stdout| <= MAX_OUTPUT
  {
    match Admit(available, UNAVAILABLE, TEMPLATES, req, Some(InputOk))
    case Some(refusal) => Refused(NAME, elapsed, refusal)
    case None =>
      var call := ComputeRun(path, EffectiveTimeout(req, timeout), req);
      ParsableAnyTime(call, run, timeout, elapsed);
      ParseComputeOutput(Exec(call, run(call), timeout, elapsed), elapsed, timeout)
  }

  /** An admitted request returns the parse of Sage's run of the compute script, under the smaller timeout. */
  lemma AdmittedComputeIsRun(available: bool, path: string, timeout: int, req: ComputeRequest,
                             run: SageRun -> Executor.ProcessOutcome, elapsed: nat)
    requires WellBehaved(run, timeout)
    requires Admit(available, UNAVAILABLE, TEMPLATES, req, Some(InputOk)).None?
    ensures var call := ComputeRun(path, EffectiveTimeout(req, timeout), req);
      && Parsable(Exec(call, run(call), timeout, elapsed))
      && ComputeSpec(available, path, timeout, req, run, elapsed)
           == ParseComputeOutput(Exec(call, run(call), timeout, elapsed), elapsed, timeout)
  {
    var call := ComputeRun(path, EffectiveTimeout(req, timeout), req);
    ParsableAnyTime(call, run, timeout, elapsed);
  }

  /** `_detect_version`: the first line of the stripped output of a successful probe; failures keep the old value. */
  function DetectedVersion(previous: string, path: string, probe: Executor.ProcessOutcome, timeout: int): (v: string)
    ensures probe.Raised? ==> v == previous
    ensures !probe.Exited? ==> v == previous
    ensures probe.Exited? && probe.rc == 0 && Strip(PyPrefix(probe.out, MAX_OUTPUT)) != "" ==>
      v == Split(Strip(PyPrefix(probe.out, MAX_OUTPUT)), '\n')[0] && '\n' !in v
    ensures !(probe.Exited? && probe.rc == 0 && Strip(PyPrefix(probe.out, MAX_OUTPUT)) != "") ==> v == previous
  {
    if probe.Raised? then previous
    else
      var e := Exec(VersionRun(path), probe, timeout, 0);
      if e.returncode == 0 && Strip(e.stdout) != "" && probe.Exited? then Split(Strip(e.stdout), '\n')[0]
      else previous
  }

  /** `sage_path or os.environ.get("CAS_SAGE_PATH", "sage")`. */
  function ChoosePath(sagePath: Option<string>, env: Option<string>): (p: string)
    ensures sagePath.Some? && sagePath.value != "" ==> p == sagePath.value
    ensures (sagePath.None? || sagePath.value == "") ==> p == env.GetOr("sage")
  {
    if sagePath.Some? && sagePath.value != "" then sagePath.value else env.GetOr("sage")
  }

  const CAPABILITIES: seq<Capability> := [Validate, Compute]

  datatype SageHost = SageHost(onPath: string -> bool, run: SageRun -> Executor.ProcessOutcome)

  class SageEngine {
    const sagePath: string
    const timeout: int
    var available: Option<bool>
    var version: string

    constructor (sagePathArg: Option<string>, env: Option<string>, timeout: int)
      ensures sagePath == ChoosePath(sagePathArg, env) && this.timeout == timeout
      ensures available == None && version == "unknown"
    {
      sagePath := ChoosePath(sagePathArg, env);
      this.timeout := timeout;
      available := None;
      version := "unknown";
    }

    /** `is_available`: the PATH lookup and the version probe run once; later calls answer from the cache. */
    method IsAvailable(host: SageHost) returns (ok: bool)
      modifies this
      ensures old(available).Some? ==> ok == old(available).value && unchanged(this)
      ensures old(available).None? ==> ok == host.onPath(sagePath)
      ensures old(available).None? ==>
        version == if ok then DetectedVersion(old(version), sagePath, host.run(VersionRun(sagePath)), timeout) else old(version)
      ensures available == Some(ok)
    {
      if available.Some? {
        return available.value;
      }
      ok := host.onPath(sagePath);
      available := Some(ok);
      if ok {
        version := DetectedVersion(version, sagePath, host.run(VersionRun(sagePath)), timeout);
      }
    }

    method GetVersion(host: SageHost) returns (v: string)
      modifies this
      ensures old(available).Some? ==> unchanged(this)
      ensures available.Some? && v == version
      ensures old(available).None? ==> available == Some(host.onPath(sagePath))
      ensures old(available).None? ==>
        version == if host.onPath(sagePath) then DetectedVersion(old(version), sagePath, host.run(VersionRun(sagePath)), timeout) else old(version)
    {
      if available.None? {
        var _ := IsAvailable(host);
      }
      v := version;
    }

    /** `availability_reason`: a message exactly when the engine is unavailable. */
    method AvailabilityReason(host: SageHost) returns (reason: Option<string>)
      modifies this
      ensures available.Some?
      ensures reason.None? <==> available.value
      ensures reason.Some? ==> reason.value == "sage binary not found at '" + sagePath + "'"
    {
      var ok := IsAvailable(host);
      reason := if ok then None else Some("sage binary not found at '" + sagePath + "'");
    }

    method Validate(latex: string, toSage: string -> string, host: SageHost, elapsed: nat)
      returns (r: EngineResult, runs: seq<SageRun>)
      requires WellBehaved(host.run, timeout)
      modifies this
      ensures available.Some?
      ensures old(available).Some? ==> unchanged(this)
      ensures r == ValidateSpec(available.value, sagePath, timeout, latex, toSage, host.run, elapsed)
      ensures runs == [] <==> !available.value || !InputOk(toSage(latex))
    {
      var ok := IsAvailable(host);
      if !ok {
        return EngineFailure(NAME, UNAVAILABLE, elapsed), [];
      }
      var e := toSage(latex);
      if !InputOk(e) {
        return EngineFailure(NAME, "Expression rejected by input validation", elapsed), [];
      }
      var (expr, isEq) := DetectEquation(e);
      var call := ValidateRun(sagePath, timeout, expr, isEq);
      ParsableAnyTime(call, host.run, timeout, elapsed);
      var result := Exec(call, host.run(call), timeout, elapsed);
      r := ParseValidateOutput(result, elapsed, timeout);
      runs := [call];
    }

    /** `compute`: the ordered checks, then one run; `runs` is empty for every refused request. */
    method Compute(req: ComputeRequest, host: SageHost, elapsed: nat) returns (r: ComputeResult, runs: seq<SageRun>)
      requires WellBehaved(host.run, timeout)
      modifies this
      ensures available.Some?
      ensures old(available).Some? ==> unchanged(this)
      ensures r == ComputeSpec(available.value, sagePath, timeout, req, host.run, elapsed)
      ensures var refusal := Admit(available.value, UNAVAILABLE, TEMPLATES, req, Some(InputOk));
        runs == if refusal.Some? then [] else [ComputeRun(sagePath, EffectiveTimeout(req, timeout), req)]
    {
      var ok := IsAvailable(host);
      if !ok {
        return Failure(NAME, elapsed, UNAVAILABLE, EngineUnavailable), [];
      }
      if req.template !in TEMPLATES {
        return Failure(NAME, elapsed, "Unknown template: " + req.template, UnknownTemplate), [];
      }
      var missing := MissingKeys(TEMPLATES[req.template].required, req.inputs);
      if missing != [] {
        return Failure(NAME, elapsed, "Missing required inputs: " + Join(missing, ", "), MissingInput), [];
      }
      var bad := FindRejected(req.inputs, InputOk);
      if bad.Some? {
        return Failure(NAME, elapsed, "Invalid input value for '" + req.inputs[bad.value].0 + "'", InvalidInput), [];
      }
      var call := ComputeRun(sagePath, EffectiveTimeout(req, timeout), req);
      ParsableAnyTime(call, host.run, timeout, elapsed);
      var result := Exec(call, host.run(call), timeout, elapsed);
      r := ParseComputeOutput(result, elapsed, timeout);
      runs := [call];
    }
  }
}
