/**
 * The GAP engine: template-only compute over three group-theory templates,
 * run as `gap -q -b` with the generated script on standard input.
 */
module GapEngine {
  import opened Wrappers
  import opened Strings
  import opened Patterns
  import opened Base
  import opened Admission
  import Executor

  const NAME: string := "gap"
  const MAX_OUTPUT_BYTES: int := 64 * 1024
  const MAX_INPUT_LEN: int := 200
  const DEFAULT_TIMEOUT: int := 10
  const VERSION_PROBE_TIMEOUT: int := 5
  const UNAVAILABLE: string := "GAP binary not found"

  /** The blocked identifiers, lower-cased. */
  const BLOCKED: seq<Pat> := [
    Lit("exec"), Lit("io_"), Lit("process"), Lit("runtime"), Lit("system"),
    Lit("inputtextfile"), Lit("outputtextfile"), Lit("readall"), Lit("printto"),
    Lit("appendto"), Lit("quit"), Lit("filename"), Lit("directorycurrent"),
    Lit("directorycontents"), Spread("concatenation", false, "filename")]

  /**
   * `_validate_input`. An accepted value is non-empty, within the length
   * limit, and holds no literal alternative of the blocked pattern in any
   * letter case.
   */
  function InputOk(value: string): (ok: bool)
    ensures ok ==> value != [] && |value| <= MAX_INPUT_LEN
    ensures ok ==> forall t, i | Lit(t) in BLOCKED && 0 <= i <= |value| :: !OccursAt(Lower(value), t, i)
    ensures ok ==> ';' !in value && '\n' !in value
  {
    UnblockedHasNoLiteral(BLOCKED, value);
    && value != []
    && |value| <= MAX_INPUT_LEN
    && !Blocked(BLOCKED, value)
    && ';' !in value
    && '\n' !in value
  }

  /** The sanitizer turns away shell-outs in any letter case. */
  lemma SanitizerBlocksExec()
    ensures !InputOk("Exec(1)") && !InputOk("EXEC(1)")
  {
    assert Lower("Exec(1)")[..4] == "exec";
    assert Lower("EXEC(1)")[..4] == "exec";
    LiteralBlocks(BLOCKED, "Exec(1)", "exec", 0);
    LiteralBlocks(BLOCKED, "EXEC(1)", "exec", 0);
  }

  /** A statement separator or an oversized value is refused whatever else it holds. */
  lemma SanitizerBlocksSeparators(v: string)
    requires ';' in v || '\n' in v || |v| > MAX_INPUT_LEN || v == []
    ensures !InputOk(v)
  {
  }

  const TEMPLATES: map<string, Template> := map[
    "group_order" := Template(["group_expr"], []),
    "is_abelian" := Template(["group_expr"], []),
    "center_size" := Template(["group_expr"], [])]

  /** The fixed text around `group_expr` in each generated script. */
  function Skeleton(template: string): (string, string)
    requires template in TEMPLATES
  {
    if template == "group_order" then ("Print(Size(", "));;\n")
    else if template == "is_abelian" then ("Print(IsAbelian(", "));;\n")
    else ("Print(Size(Center(", ")));;\n")
  }

  /** The `_tmpl_*` generators. */
  function Generate(template: string, groupExpr: string): (code: string)
    requires template in TEMPLATES
    ensures var (pre, post) := Skeleton(template);
      && |code| == |pre| + |groupExpr| + |post|
      && StartsWith(code, pre) && EndsWith(code, post)
      && code[|pre|..|code| - |post|] == groupExpr
  {
    var (pre, post) := Skeleton(template);
    assert (pre + groupExpr + post)[|pre|..|pre| + |groupExpr|] == groupExpr;
    pre + groupExpr + post
  }

  /** With a sanitized group expression the script is one statement: its only ";" and newline are the terminator. */
  lemma {:induction false} SanitizedScriptIsOneStatement(template: string, groupExpr: string)
    requires template in TEMPLATES && InputOk(groupExpr)
    ensures var code := Generate(template, groupExpr);
      && EndsWith(code, ";;\n")
      && forall k | 0 <= k < |code| - 3 :: code[k] != ';' && code[k] != '\n'
  {
    var (pre, post) := Skeleton(template);
    var code := Generate(template, groupExpr);
    assert code == pre + groupExpr + post;
    forall k | 0 <= k < |code| - 3 ensures code[k] != ';' && code[k] != '\n' {
      if k < |pre| {
        assert code[k] == pre[k];
      } else if k < |pre| + |groupExpr| {
        assert code[k] == groupExpr[k - |pre|];
      } else {
        assert code[k] == post[k - |pre| - |groupExpr|];
      }
    }
  }

  /** One invocation of the GAP binary: `[path, "-q", "-b"]` with `input` on stdin. */
  datatype GapRun = GapRun(path: string, input: string, timeoutS: int)

  function VersionProbe(path: string): GapRun {
    GapRun(path, "Print(GAPInfo.Version);;\n", VERSION_PROBE_TIMEOUT)
  }

  /** The outside world as the engine sees it. */
  datatype GapHost = GapHost(onPath: string -> bool, run: GapRun -> Executor.ProcessOutcome)

  /** `_run_gap`'s outcome mapping. */
  function RunGap(outcome: Executor.ProcessOutcome, timeoutS: int, elapsed: int): (r: ComputeResult)
    ensures WellFormed(r) && r.engine == NAME
    ensures |r.stdout| <= MAX_OUTPUT_BYTES && |r.stderr| <= MAX_OUTPUT_BYTES
    ensures r.success <==> outcome.Exited? && outcome.rc == 0
    ensures r.success ==> r.value == Some(Strip(r.stdout))
    ensures outcome.Exited? ==> StartsWith(outcome.out, r.stdout) && StartsWith(outcome.err, r.stderr)
    ensures outcome.Exited? && |outcome.out| <= MAX_OUTPUT_BYTES ==> r.stdout == outcome.out
    ensures r.errorCode == Some(Timeout) <==> outcome.Expired?
    ensures r.errorCode == Some(EngineUnavailable) <==> outcome.NotFound?
    ensures r.errorCode == Some(EngineError) <==> outcome.Raised? || (outcome.Exited? && outcome.rc != 0)
    ensures outcome.Raised? ==> r.error == Some(outcome.message)
  {
    match outcome
    case Exited(rc, out, err) =>
      var stdout := PyPrefix(out, MAX_OUTPUT_BYTES);
      var stderr := PyPrefix(err, MAX_OUTPUT_BYTES);
      if rc != 0 then
        FailureWithOutput(NAME, elapsed, stdout, stderr, "GAP exited with code " + IntToString(rc), EngineError)
      else
        Success(NAME, elapsed, Strip(stdout), stdout, stderr)
    case Expired => Failure(NAME, elapsed, "GAP timed out after " + IntToString(timeoutS) + "s", Timeout)
    case NotFound => Failure(NAME, elapsed, UNAVAILABLE, EngineUnavailable)
    case Raised(message) => Failure(NAME, elapsed, message, EngineError)
  }

  /** The script `compute` sends for an admitted request. */
  function Script(req: ComputeRequest): (code: string)
    requires req.template in TEMPLATES && Complete(TEMPLATES[req.template], req.inputs)
    ensures Lookup(req.inputs, "group_expr").Some?
    ensures var (pre, post) := Skeleton(req.template);
      && StartsWith(code, pre) && EndsWith(code, post) && |code| >= |pre| + |post|
      && code[|pre|..|code| - |post|] == Lookup(req.inputs, "group_expr").value
  {
    assert "group_expr" in TEMPLATES[req.template].required;
    Generate(req.template, Lookup(req.inputs, "group_expr").value)
  }

  /** `compute` once availability is known. */
  function ComputeSpec(available: bool, path: string, timeout: int, req: ComputeRequest,
                       run: GapRun -> Executor.ProcessOutcome, elapsed: int): (r: ComputeResult)
    ensures WellFormed(r) && r.engine == NAME
    ensures var refusal := Admit(available, UNAVAILABLE, TEMPLATES, req, Some(InputOk));
      refusal.Some? ==> r.errorCode == Some(refusal.value.code) && r.stdout == ""
    ensures r.errorCode.Some? ==>
      r.errorCode.value in {EngineUnavailable, UnknownTemplate, MissingInput, InvalidInput, Timeout, EngineError}
  {
    match Admit(available, UNAVAILABLE, TEMPLATES, req, Some(InputOk))
    case Some(refusal) => Refused(NAME, elapsed, refusal)
    case None =>
      AdmittedIff(available, UNAVAILABLE, TEMPLATES, req, Some(InputOk));
      var t := EffectiveTimeout(req, timeout);
      RunGap(run(GapRun(path, Script(req), t)), t, elapsed)
  }

  /** An admitted request returns what GAP's run of its script gives, under the smaller timeout. */
  lemma AdmittedComputeIsRun(available: bool, path: string, timeout: int, req: ComputeRequest,
                             run: GapRun -> Executor.ProcessOutcome, elapsed: int)
    requires Admit(available, UNAVAILABLE, TEMPLATES, req, Some(InputOk)).None?
    ensures req.template in TEMPLATES && Complete(TEMPLATES[req.template], req.inputs)
    ensures var t := EffectiveTimeout(req, timeout);
      ComputeSpec(available, path, timeout, req, run, elapsed) == RunGap(run(GapRun(path, Script(req), t)), t, elapsed)
  {
    AdmittedIff(available, UNAVAILABLE, TEMPLATES, req, Some(InputOk));
  }

  /** An admitted request runs a script built from a sanitized group expression, under the smaller timeout. */
  lemma AdmittedRunsSanitizedScript(available: bool, path: string, timeout: int, req: ComputeRequest)
    requires Admit(available, UNAVAILABLE, TEMPLATES, req, Some(InputOk)).None?
    ensures req.template in TEMPLATES && Complete(TEMPLATES[req.template], req.inputs)
    ensures InputOk(Lookup(req.inputs, "group_expr").value)
    ensures EffectiveTimeout(req, timeout) <= timeout
  {
    AdmittedIff(available, UNAVAILABLE, TEMPLATES, req, Some(InputOk));
    assert "group_expr" in TEMPLATES[req.template].required;
    var v := Lookup(req.inputs, "group_expr").value;
    var i :| 0 <= i < |req.inputs| && req.inputs[i] == ("group_expr", v);
    assert InputOk(req.inputs[i].1);
  }

  /** `validate`: GAP is not a formula validator. */
  function Validate(latex: string): (r: EngineResult)
    ensures !r.success && r.engine == NAME && r.error == Some("GAP does not support LaTeX formula validation")
    ensures r.isValid.None?
  {
    EngineFailure(NAME, "GAP does not support LaTeX formula validation", 0)
  }

  const CAPABILITIES: seq<Capability> := [Compute]

  /** `gap_path or os.environ.get("CAS_GAP_PATH", "gap")`. */
  function ChoosePath(gapPath: Option<string>, env: Option<string>): (p: string)
    ensures gapPath.Some? && gapPath.value != "" ==> p == gapPath.value
    ensures (gapPath.None? || gapPath.value == "") && env.Some? ==> p == env.value
    ensures (gapPath.None? || gapPath.value == "") && env.None? ==> p == "gap"
  {
    if gapPath.Some? && gapPath.value != "" then gapPath.value else env.GetOr("gap")
  }

  /** `_detect_version`: the stripped probe output when it exited 0 with some output. */
  function DetectedVersion(previous: string, probe: Executor.ProcessOutcome): (v: string)
    ensures probe.Exited? && probe.rc == 0 && Strip(probe.out) != "" ==> v == Strip(probe.out)
    ensures !(probe.Exited? && probe.rc == 0 && Strip(probe.out) != "") ==> v == previous
  {
    if probe.Exited? && probe.rc == 0 && Strip(probe.out) != "" then Strip(probe.out) else previous
  }

  class GapEngine {
    const gapPath: string
    const timeout: int
    var available: Option<bool>
    var version: string

    constructor (gapPathArg: Option<string>, env: Option<string>, timeout: int)
      ensures gapPath == ChoosePath(gapPathArg, env) && this.timeout == timeout
      ensures available == None && version == "unknown"
    {
      gapPath := ChoosePath(gapPathArg, env);
      this.timeout := timeout;
      available := None;
      version := "unknown";
    }

    /** `is_available`: the PATH lookup and the version probe run once; later calls answer from the cache. */
    method IsAvailable(host: GapHost) returns (ok: bool)
      modifies this
      ensures old(available).Some? ==> ok == old(available).value && unchanged(this)
      ensures old(available).None? ==> ok == host.onPath(gapPath) && available == Some(ok)
      ensures old(available).None? ==>
        version == if ok then DetectedVersion(old(version), host.run(VersionProbe(gapPath))) else old(version)
      ensures available == Some(ok)
    {
      if available.Some? {
        return available.value;
      }
      ok := host.onPath(gapPath);
      available := Some(ok);
      if ok {
        version := DetectedVersion(version, host.run(VersionProbe(gapPath)));
      }
    }

    method GetVersion(host: GapHost) returns (v: string)
      modifies this
      ensures old(available).Some? ==> unchanged(this)
      ensures available.Some? && v == version
      ensures old(available).None? && !host.onPath(gapPath) ==> v == old(version)
      ensures old(available).None? ==> available == Some(host.onPath(gapPath))
      ensures old(available).None? ==>
        version == if host.onPath(gapPath) then DetectedVersion(old(version), host.run(VersionProbe(gapPath))) else old(version)
    {
      if available.None? {
        var _ := IsAvailable(host);
      }
      v := version;
    }

    /**
     * `compute`: the ordered checks, then one GAP run. `runs` lists the
     * script invocations made, which is empty for every refused request.
     */
    method Compute(req: ComputeRequest, host: GapHost, elapsed: int) returns (r: ComputeResult, runs: seq<GapRun>)
      modifies this
      ensures available.Some?
      ensures old(available).Some? ==> unchanged(this)
      ensures r == ComputeSpec(available.value, gapPath, timeout, req, host.run, elapsed)
      ensures var refusal := Admit(available.value, UNAVAILABLE, TEMPLATES, req, Some(InputOk));
        runs == if refusal.Some? then [] else [GapRun(gapPath, Script(req), EffectiveTimeout(req, timeout))]
    {
      var ok := IsAvailable(host);
      if !ok {
        return Failure(NAME, elapsed, UNAVAILABLE, EngineUnavailable), [];
      }
      if req.template !in TEMPLATES {
        return Failure(NAME, elapsed, "Unknown template: " + req.template, UnknownTemplate), [];
      }
      var missing := MissingKeys(TEMPLATES[req.template].required, req.inputs);
      if missing != [] {
        return Failure(NAME, elapsed, "Missing required inputs: " + Join(missing, ", "), MissingInput), [];
      }
      var bad := FindRejected(req.inputs, InputOk);
      if bad.Some? {
        return Failure(NAME, elapsed, "Invalid input value for '" + req.inputs[bad.value].0 + "'", InvalidInput), [];
      }
      AdmittedIff(ok, UNAVAILABLE, TEMPLATES, req, Some(InputOk));
      var code := Script(req);
      var t := EffectiveTimeout(req, timeout);
      var invocation := GapRun(gapPath, code, t);
      r := RunGap(host.run(invocation), t, elapsed);
      runs := [invocation];
    }
  }
}
