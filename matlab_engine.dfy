/**
 * The MATLAB engine: LaTeX validation and template compute, each run as
 * `matlab -batch "run('<script file>')"` on a generated script, reading
 * tagged `MATLAB_*` lines from standard output.
 */
module MatlabEngine {
  import opened Wrappers
  import opened Strings
  import opened Patterns
  import opened Equations
  import opened Base
  import opened Admission
  import Executor

  const NAME: string := "matlab"
  const MAX_INPUT_LEN: int := 500
  const DEFAULT_TIMEOUT: int := 30
  const VERSION_PROBE_TIMEOUT: int := 15

  /** The blocked tokens, lower-cased; note that any "!" is refused. */
  const BLOCKED: seq<Pat> := [
    Call("system"), Call("unix"), Call("dos"), Call("perl"), Call("python"),
    Call("java"), Call("eval"), Call("feval"), Call("evalc"),
    Lit("urlread"), Lit("webread"), Lit("websave"), Lit("fopen"), Lit("fclose"), Lit("fwrite"), Lit("fread"),
    Call("delete"), Lit("rmdir"), Lit("mkdir"), Lit("movefile"), Lit("copyfile"),
    Lit("setenv"), Lit("getenv"), Lit("!")]

  /**
   * `_validate_input`. An accepted value is non-empty, within the length
   * limit, and holds no literal alternative of the blocked pattern in any
   * letter case.
   */
  function InputOk(value: string): (ok: bool)
    ensures ok ==> value != [] && |value| <= MAX_INPUT_LEN
    ensures ok ==> forall t, i | Lit(t) in BLOCKED && 0 <= i <= |value| :: !OccursAt(Lower(value), t, i)
    ensures ok ==> '\0' !in value && '\n' !in value && '\r' !in value
    ensures ok ==> '!' !in value
  {
    UnblockedHasNoLiteral(BLOCKED, value);
    BangIsBlocked(value);
    && value != []
    && |value| <= MAX_INPUT_LEN
    && !Blocked(BLOCKED, value)
    && '\0' !in value && '\n' !in value && '\r' !in value
  }

  /** Any value holding "!" (MATLAB's shell escape) matches the blocked pattern. */
  lemma BangIsBlocked(value: string)
    ensures '!' in value ==> Blocked(BLOCKED, value)
  {
    if '!' in value {
      var i :| 0 <= i < |value| && value[i] == '!';
      assert Lower(value)[i..i + 1] == "!";
      LiteralBlocks(BLOCKED, value, "!", i);
    }
  }

  // ----- the quote escaper -----

  /** `value.replace("'", "''")`. */
  function Escape(value: string): string {
    Replace(value, "'", "''")
  }

  /** `_matlab_single_quoted`. */
  function SingleQuoted(value: string): (lit: string)
    ensures |lit| >= 2 && lit[0] == '\'' && lit[|lit| - 1] == '\''
    ensures lit[1..|lit| - 1] == Escape(value)
  {
    "'" + Escape(value) + "'"
  }

  /**
   * How MATLAB reads the body of a char literal that has just been opened:
   * "''" stands for one quote and a lone quote closes the literal. The
   * result is the text read and the number of characters consumed,
   * the closing quote included; None when the literal is never closed.
   */
  function ReadLiteral(s: string): Option<(string, nat)>
    decreases |s|
  {
    if s == [] then None
    else if s[0] == '\'' then
      if |s| >= 2 && s[1] == '\'' then
        match ReadLiteral(s[2..])
        case Some((t, n)) => Some(("'" + t, n + 2))
        case None => None
      else Some(([], 1))
    else
      match ReadLiteral(s[1..])
      case Some((t, n)) => Some(([s[0]] + t, n + 1))
      case None => None
  }

  lemma {:induction false} ReadEscaped(value: string, rest: string)
    requires rest == [] || rest[0] != '\''
    ensures ReadLiteral(Escape(value) + "'" + rest) == Some((value, |Escape(value)| + 1))
    decreases |value|
  {
    if value == [] {
      assert Escape(value) == [];
      assert ("'" + rest)[1..] == rest;
    } else if value[0] == '\'' {
      ReadEscaped(value[1..], rest);
      assert StartsWith(value, "'");
      assert Escape(value) == "''" + Escape(value[1..]);
      assert (Escape(value) + "'" + rest)[2..] == Escape(value[1..]) + "'" + rest;
      assert "'" + value[1..] == value;
    } else {
      ReadEscaped(value[1..], rest);
      assert !StartsWith(value, "'");
      assert Escape(value) == [value[0]] + Escape(value[1..]);
      assert (Escape(value) + "'" + rest)[1..] == Escape(value[1..]) + "'" + rest;
      assert [value[0]] + value[1..] == value;
    }
  }

  /**
   * The quoted literal cannot be broken out of: read back by MATLAB it is
   * exactly the original value, and it closes at its own last character
   * whatever follows, unless that is another quote.
   */
  lemma QuotedLiteralReadsBack(value: string, rest: string)
    requires rest == [] || rest[0] != '\''
    ensures ReadLiteral(SingleQuoted(value)[1..] + rest) == Some((value, |SingleQuoted(value)| - 1))
  {
    assert SingleQuoted(value)[1..] + rest == Escape(value) + "'" + rest;
    ReadEscaped(value, rest);
  }

  /** Collapsing "''" in the interior of the literal recovers the value. */
  lemma {:induction false} UnescapeRoundTrip(value: string)
    ensures Replace(Escape(value), "''", "'") == value
    decreases |value|
  {
    if value != [] {
      UnescapeRoundTrip(value[1..]);
      var tail := Escape(value[1..]);
      if value[0] == '\'' {
        assert StartsWith(value, "'");
        assert Escape(value) == "''" + tail;
        assert StartsWith("''" + tail, "''");
        assert ("''" + tail)[2..] == tail;
        assert "'" + value[1..] == value;
      } else {
        assert Escape(value) == [value[0]] + tail;
        assert !StartsWith([value[0]] + tail, "''") by {
          assert ([value[0]] + tail)[0] == value[0] && "''"[0] == '\'';
        }
        assert ([value[0]] + tail)[1..] == tail;
        assert [value[0]] + value[1..] == value;
      }
    }
  }

  // ----- compute -----

  const TEMPLATES: map<string, Template> := map[
    "evaluate" := Template(["expression"], []),
    "simplify" := Template(["expression"], []),
    "solve" := Template(["equation"], ["variable"]),
    "factor" := Template(["expression"], [])]

  const HEADER: string := "syms x y z t real;\n"
  const EVALUATE_PREFIX: string := HEADER + "expr = str2sym("
  const RESULT_DISP: string := "disp(['MATLAB_RESULT:', char(result)]);\n"
  const STRING_RESULT_DISP: string := "disp(['MATLAB_RESULT:', char(string(result))]);\n"
  const EVALUATE_BODY: string :=
    ");\n" + "result = simplify(expr);\n" + "if isempty(symvar(result))\n" + "    result = vpa(result);\n" + "end\n"
  const EVALUATE_SUFFIX: string := EVALUATE_BODY + STRING_RESULT_DISP

  /**
   * `_build_compute_code`: a known template's script assigns its input after
   * the `syms` header and ends by printing the result tag; any other template
   * gives a one-line script printing the error tag.
   */
  function BuildComputeCode(template: string, inputs: Inputs): (code: string)
    requires template in TEMPLATES ==> Complete(TEMPLATES[template], inputs)
    ensures template in TEMPLATES ==> StartsWith(code, HEADER) && (EndsWith(code, RESULT_DISP) || EndsWith(code, STRING_RESULT_DISP))
    ensures template == "simplify" || template == "factor" ==>
      StartsWith(code[|HEADER|..], "expr = " + Lookup(inputs, "expression").value + ";\n")
    ensures template == "solve" ==> StartsWith(code[|HEADER|..], "expr = " + Lookup(inputs, "equation").value + ";\n")
    ensures template == "simplify" ==> EndsWith(code, "result = simplify(expr);\n" + RESULT_DISP)
    ensures template == "factor" ==> EndsWith(code, "result = factor(expr);\n" + RESULT_DISP)
    ensures template == "solve" ==>
      EndsWith(code, "result = solve(expr, " + Lookup(inputs, "variable").GetOr("x") + ");\n" + RESULT_DISP)
    ensures template !in TEMPLATES ==> StartsWith(code, "disp('MATLAB_ERROR:") && EndsWith(code, "');\n")
  {
    assert template in TEMPLATES ==> TEMPLATES[template].required[0] in TEMPLATES[template].required;
    if template == "evaluate" then EvaluateScript(Lookup(inputs, "expression").value)
    else if template == "simplify" then
      ResultScript("expr = " + Lookup(inputs, "expression").value + ";\n", "result = simplify(expr);\n")
    else if template == "solve" then
      ResultScript("expr = " + Lookup(inputs, "equation").value + ";\n",
                   "result = solve(expr, " + Lookup(inputs, "variable").GetOr("x") + ");\n")
    else if template == "factor" then
      ResultScript("expr = " + Lookup(inputs, "expression").value + ";\n", "result = factor(expr);\n")
    else
      Layout("disp('MATLAB_ERROR:", "Unknown template: ", template, "');\n");
      "disp('MATLAB_ERROR:" + ("Unknown template: " + template) + "');\n"
  }

  /** The `evaluate` script: the expression goes in as a quoted `str2sym` literal. */
  function EvaluateScript(e: string): (code: string)
    ensures StartsWith(code, HEADER) && EndsWith(code, STRING_RESULT_DISP)
    ensures code == EVALUATE_PREFIX + SingleQuoted(e) + EVALUATE_SUFFIX
  {
    Layout(HEADER, "expr = str2sym(", SingleQuoted(e) + EVALUATE_BODY, STRING_RESULT_DISP);
    Regroup(HEADER, "expr = str2sym(", SingleQuoted(e), EVALUATE_BODY, STRING_RESULT_DISP);
    EVALUATE_PREFIX + SingleQuoted(e) + EVALUATE_SUFFIX
  }

  lemma Regroup(head: string, open: string, arg: string, body: string, tail: string)
    ensures (head + open) + arg + (body + tail) == head + (open + (arg + body)) + tail
  {
  }

  /** A `simplify`, `solve` or `factor` script: header, the assignment, the operation, the result tag. */
  function ResultScript(first: string, rest: string): (code: string)
    ensures StartsWith(code, HEADER) && StartsWith(code[|HEADER|..], first) && EndsWith(code, RESULT_DISP)
    ensures EndsWith(code, rest + RESULT_DISP)
  {
    Layout(HEADER, first, rest, RESULT_DISP);
    HEADER + (first + rest) + RESULT_DISP
  }

  /** `evaluate` reaches MATLAB only as a quoted literal that reads back as the expression. */
  lemma EvaluateQuotesExpression(inputs: Inputs)
    requires HasKey(inputs, "expression")
    ensures var e := Lookup(inputs, "expression").value;
      var code := BuildComputeCode("evaluate", inputs);
      && code == EVALUATE_PREFIX + SingleQuoted(e) + EVALUATE_SUFFIX
      && ReadLiteral(code[|EVALUATE_PREFIX| + 1..]) == Some((e, |SingleQuoted(e)| - 1))
  {
    var e := Lookup(inputs, "expression").value;
    assert BuildComputeCode("evaluate", inputs) == EvaluateScript(e);
    DropAfterPrefix(EVALUATE_PREFIX, SingleQuoted(e), EVALUATE_SUFFIX);
    QuotedLiteralReadsBack(e, EVALUATE_SUFFIX);
  }

  lemma DropAfterPrefix(p: string, q: string, r: string)
    requires q != []
    ensures (p + q + r)[|p| + 1..] == q[1..] + r
  {
  }

  /** `solve` without a `variable` input solves for x. */
  lemma SolveDefaultsToX(inputs: Inputs)
    requires HasKey(inputs, "equation") && !HasKey(inputs, "variable")
    ensures Contains(BuildComputeCode("solve", inputs), "result = solve(expr, x);\n")
  {
    var code := BuildComputeCode("solve", inputs);
    var pre := HEADER + "expr = " + Lookup(inputs, "equation").value + ";\n";
    assert code == pre + "result = solve(expr, x);\n" + "disp(['MATLAB_RESULT:', char(result)]);\n";
    assert OccursAt(code, "result = solve(expr, x);\n", |pre|);
  }

  const RESULT_TAG: string := "MATLAB_RESULT:"
  const ERROR_TAG: string := "MATLAB_ERROR:"

  predicate Decisive(line: string) {
    StartsWith(Strip(line), RESULT_TAG) || StartsWith(Strip(line), ERROR_TAG)
  }

  /** The index of the first line at or after `i` that `p` accepts. */
  function FirstWhere(lines: seq<string>, i: nat, p: string -> bool): (r: Option<nat>)
    requires i <= |lines|
    ensures r.Some? ==> i <= r.value < |lines| && p(lines[r.value])
    ensures r.Some? ==> forall j | i <= j < r.value :: !p(lines[j])
    ensures r.None? ==> forall j | i <= j < |lines| :: !p(lines[j])
    decreases |lines| - i
  {
    if i == |lines| then None
    else if p(lines[i]) then Some(i)
    else FirstWhere(lines, i + 1, p)
  }

  /** The result one decisive line gives. */
  function FromLine(line: string, output: string, elapsed: int): (r: ComputeResult)
    requires Decisive(line)
    ensures WellFormed(r) && r.stdout == output
    ensures r.success <==> StartsWith(Strip(line), RESULT_TAG)
  {
    var l := Strip(line);
    if StartsWith(l, RESULT_TAG) then Success(NAME, elapsed, Strip(l[|RESULT_TAG|..]), output, "")
    else FailureWithOutput(NAME, elapsed, output, "", Strip(l[|ERROR_TAG|..]), EngineError)
  }

  /** `_parse_compute_output`: the first decisive line decides; without one, "No result from MATLAB". */
  function ParseComputeSpec(output: string, elapsed: int): (r: ComputeResult)
    ensures WellFormed(r) && r.engine == NAME && r.stdout == output
    ensures r.errorCode.Some? ==> r.errorCode == Some(EngineError)
  {
    var lines := Split(output, '\n');
    match FirstWhere(lines, 0, Decisive)
    case Some(k) => FromLine(lines[k], output, elapsed)
    case None => FailureWithOutput(NAME, elapsed, output, "", "No result from MATLAB", EngineError)
  }

  /** `_parse_compute_output`: the loop finds the first decisive line, which gives the result. */
  method ParseComputeOutput(output: string, elapsed: int) returns (r: ComputeResult)
    ensures r == ParseComputeSpec(output, elapsed)
  {
    var lines := Split(output, '\n');
    var k := ScanForward(lines, Decisive);
    match k
    case Some(j) => r := FromLine(lines[j], output, elapsed);
    case None => r := FailureWithOutput(NAME, elapsed, output, "", "No result from MATLAB", EngineError);
  }

  /** The loop over the lines, stopping at the first one `p` accepts. */
  method ScanForward(lines: seq<string>, p: string -> bool) returns (k: Option<nat>)
    ensures k == FirstWhere(lines, 0, p)
  {
    var i := 0;
    while i < |lines|
      invariant 0 <= i <= |lines|
      invariant FirstWhere(lines, 0, p) == FirstWhere(lines, i, p)
    {
      if p(lines[i]) {
        return Some(i);
      }
      i := i + 1;
    }
    return None;
  }

  /** A result line as the scripts print it is read back as the computed value. */
  lemma ResultLineReadBack(value: string, rest: string, elapsed: int)
    requires '\n' !in value && (value == [] || (!IsSpace(value[0]) && !IsSpace(value[|value| - 1])))
    ensures var output := RESULT_TAG + value + "\n" + rest;
      ParseComputeSpec(output, elapsed) == Success(NAME, elapsed, value, output, "")
  {
    var line := RESULT_TAG + value;
    TaggedLine(value);
    FirstLineDecides(line, rest, elapsed);
    ResultFromTaggedLine(line, value, line + "\n" + rest, elapsed);
  }

  lemma ResultFromTaggedLine(line: string, value: string, output: string, elapsed: int)
    requires Strip(line) == line && StartsWith(line, RESULT_TAG) && Strip(line[|RESULT_TAG|..]) == value
    ensures Decisive(line) && FromLine(line, output, elapsed) == Success(NAME, elapsed, value, output, "")
  {
  }

  /** A decisive first line decides the parse. */
  lemma FirstLineDecides(line: string, rest: string, elapsed: int)
    requires '\n' !in line && Decisive(line)
    ensures ParseComputeSpec(line + "\n" + rest, elapsed) == FromLine(line, line + "\n" + rest, elapsed)
  {
    SplitHead(line, '\n', rest);
    assert line + "\n" + rest == line + ['\n'] + rest;
  }

  lemma TaggedLine(value: string)
    requires '\n' !in value && (value == [] || (!IsSpace(value[0]) && !IsSpace(value[|value| - 1])))
    ensures '\n' !in RESULT_TAG + value
    ensures Strip(RESULT_TAG + value) == RESULT_TAG + value && StartsWith(RESULT_TAG + value, RESULT_TAG)
    ensures Strip((RESULT_TAG + value)[|RESULT_TAG|..]) == value
  {
    var line := RESULT_TAG + value;
    assert '\n' !in RESULT_TAG by {
      forall k | 0 <= k < |RESULT_TAG| ensures RESULT_TAG[k] != '\n' {}
    }
    assert line[..|RESULT_TAG|] == RESULT_TAG && line[|RESULT_TAG|..] == value;
    StripKeeps(line);
    StripKeeps(value);
  }

  // ----- running MATLAB -----

  /** One MATLAB run: the script (written to a temporary file by the source) and the timeout. */
  datatype MatlabRun = MatlabRun(path: string, code: string, timeoutS: int)

  /** What `_run_matlab` raises. */
  datatype Raise =
    | TimeoutExpired
    | BinaryNotFound(message: string)  // FileNotFoundError and its text
    | Error(message: string)           // RuntimeError or any other exception, with its text

  datatype RunResult = Output(text: string) | Threw(raised: Raise)

  /** Python's text of the FileNotFoundError a missing binary raises. */
  function NotFoundText(path: string): string {
    "[Errno 2] No such file or directory: '" + path + "'"
  }

  /** `_run_matlab`: stdout, unless the exit is non-zero with blank stdout. */
  function RunMatlab(path: string, outcome: Executor.ProcessOutcome): (r: RunResult)
    ensures outcome.Exited? && (outcome.rc == 0 || Strip(outcome.out) != "") ==> r == Output(outcome.out)
    ensures outcome.Exited? && outcome.rc != 0 && Strip(outcome.out) == "" ==> r.Threw? && r.raised.Error?
    ensures r.Threw? && r.raised == TimeoutExpired <==> outcome.Expired?
  {
    match outcome
    case Exited(rc, out, err) =>
      if rc != 0 && Strip(out) == "" then
        Threw(Error("non-zero exit (" + IntToString(rc) + "): " + PyPrefix(Strip(err), 200)))
      else Output(out)
    case Expired => Threw(TimeoutExpired)
    case NotFound => Threw(BinaryNotFound(NotFoundText(path)))
    case Raised(m) => Threw(Error(m))
  }

  function RaiseText(e: Raise): string
    requires !e.TimeoutExpired?
  {
    match e
    case BinaryNotFound(m) => m
    case Error(m) => m
  }

  /** `is_available`: an absolute path must be an executable file, any other name is looked up on PATH. */
  function IsAvailable(path: string, host: MatlabHost): (ok: bool)
    ensures StartsWith(path, "/") ==> (ok <==> host.isFile(path) && host.isExecutable(path))
    ensures !StartsWith(path, "/") ==> (ok <==> host.onPath(path))
  {
    if StartsWith(path, "/") then host.isFile(path) && host.isExecutable(path) else host.onPath(path)
  }

  datatype MatlabHost = MatlabHost(
    isFile: string -> bool,
    isExecutable: string -> bool,
    onPath: string -> bool,
    run: MatlabRun -> Executor.ProcessOutcome)

  datatype MatlabConfig = MatlabConfig(path: string, timeout: int)

  function DefaultConfig(): MatlabConfig {
    MatlabConfig("matlab", DEFAULT_TIMEOUT)
  }

  /** The outcome mapping of `compute` once the script has run. */
  function ComputeOutcome(cfg: MatlabConfig, run: RunResult, elapsed: int): (r: ComputeResult)
    ensures WellFormed(r) && r.engine == NAME
    ensures r.errorCode == Some(Timeout) <==> run == Threw(TimeoutExpired)
    ensures run.Threw? && !run.raised.TimeoutExpired? ==>
      r == Failure(NAME, elapsed, "MATLAB error: " + RaiseText(run.raised), EngineError)
    ensures run.Output? ==> r == ParseComputeSpec(run.text, elapsed)
  {
    match run
    case Output(text) => ParseComputeSpec(text, elapsed)
    case Threw(TimeoutExpired) =>
      Failure(NAME, elapsed, "MATLAB timed out after " + IntToString(cfg.timeout) + "s", Timeout)
    case Threw(e) => Failure(NAME, elapsed, "MATLAB error: " + RaiseText(e), EngineError)
  }

  /** `compute` as a function of the outside world. MATLAB runs under the engine's own timeout. */
  function ComputeSpec(cfg: MatlabConfig, req: ComputeRequest, host: MatlabHost, elapsed: int): (r: ComputeResult)
    ensures WellFormed(r) && r.engine == NAME
    ensures var refusal := Admit(IsAvailable(cfg.path, host), "MATLAB binary not found", TEMPLATES, req, Some(InputOk));
      refusal.Some? ==> r.errorCode == Some(refusal.value.code)
    ensures r.errorCode.Some? ==>
      r.errorCode.value in {EngineUnavailable, UnknownTemplate, MissingInput, InvalidInput, Timeout, EngineError}
  {
    match Admit(IsAvailable(cfg.path, host), "MATLAB binary not found", TEMPLATES, req, Some(InputOk))
    case Some(refusal) => Refused(NAME, elapsed, refusal)
    case None =>
      AdmittedIff(IsAvailable(cfg.path, host), "MATLAB binary not found", TEMPLATES, req, Some(InputOk));
      var call := MatlabRun(cfg.path, BuildComputeCode(req.template, req.inputs), cfg.timeout);
      ComputeOutcome(cfg, RunMatlab(cfg.path, host.run(call)), elapsed)
  }

  /** An admitted request returns the outcome of one MATLAB run of the built script, under the engine's timeout. */
  lemma AdmittedComputeIsRun(cfg: MatlabConfig, req: ComputeRequest, host: MatlabHost, elapsed: int)
    requires Admit(IsAvailable(cfg.path, host), "MATLAB binary not found", TEMPLATES, req, Some(InputOk)).None?
    ensures req.template in TEMPLATES
    ensures var call := MatlabRun(cfg.path, BuildComputeCode(req.template, req.inputs), cfg.timeout);
      ComputeSpec(cfg, req, host, elapsed) == ComputeOutcome(cfg, RunMatlab(cfg.path, host.run(call)), elapsed)
  {
    AdmittedIff(IsAvailable(cfg.path, host), "MATLAB binary not found", TEMPLATES, req, Some(InputOk));
  }

  /** `compute`: the ordered checks, then one MATLAB run; `runs` is empty for every refused request. */
  method Compute(cfg: MatlabConfig, req: ComputeRequest, host: MatlabHost, elapsed: int)
    returns (r: ComputeResult, runs: seq<MatlabRun>)
    ensures r == ComputeSpec(cfg, req, host, elapsed)
    ensures var refusal := Admit(IsAvailable(cfg.path, host), "MATLAB binary not found", TEMPLATES, req, Some(InputOk));
      runs == [] <==> refusal.Some?
  {
    if !IsAvailable(cfg.path, host) {
      return Failure(NAME, elapsed, "MATLAB binary not found", EngineUnavailable), [];
    }
    if req.template !in TEMPLATES {
      return Failure(NAME, elapsed, "Unknown template: " + req.template, UnknownTemplate), [];
    }
    var missing := MissingKeys(TEMPLATES[req.template].required, req.inputs);
    if missing != [] {
      return Failure(NAME, elapsed, "Missing required inputs: " + Join(missing, ", "), MissingInput), [];
    }
    var bad := FindRejected(req.inputs, InputOk);
    if bad.Some? {
      return Failure(NAME, elapsed, "Invalid input value for '" + req.inputs[bad.value].0 + "'", InvalidInput), [];
    }
    AdmittedIff(IsAvailable(cfg.path, host), "MATLAB binary not found", TEMPLATES, req, Some(InputOk));
    var call := MatlabRun(cfg.path, BuildComputeCode(req.template, req.inputs), cfg.timeout);
    var outcome := RunMatlab(cfg.path, host.run(call));
    match outcome {
      case Output(text) =>
        r := ParseComputeOutput(text, elapsed);
      case Threw(TimeoutExpired) =>
        r := Failure(NAME, elapsed, "MATLAB timed out after " + IntToString(cfg.timeout) + "s", Timeout);
      case Threw(e) =>
        r := Failure(NAME, elapsed, "MATLAB error: " + RaiseText(e), EngineError);
    }
    runs := [call];
  }

  // ----- validate -----

  const SIMPLIFIED_TAG: string := "MATLAB_SIMPLIFIED:"
  const IDENTITY_TAG: string := "MATLAB_IS_IDENTITY:"

  /** What the validate loop has gathered: the simplified text and the identity verdict. */
  datatype Scan = Scan(simplified: Option<string>, identity: Option<bool>)

  /** The text after the simplified tag, stripped. */
  function SimplifiedText(line: string): string {
    Strip(Replace(Strip(line), SIMPLIFIED_TAG, ""))
  }

  /** The identity line's value is "1", or "true" in any letter case. */
  predicate IdentityVerdict(line: string) {
    var v := Strip(Replace(Strip(line), IDENTITY_TAG, ""));
    v == "1" || Lower(v) == "true"
  }

  /**
   * One iteration of the validate loop: a simplified-tag line sets only the
   * simplified text, an identity-tag line only the verdict, and any other
   * line changes nothing.
   */
  function ScanLine(acc: Scan, line: string): (r: Scan)
    ensures SimplifiedLine(line) ==> r.simplified == Some(SimplifiedText(line)) && r.identity == acc.identity
    ensures !SimplifiedLine(line) ==> r.simplified == acc.simplified
    ensures !SimplifiedLine(line) && IdentityLine(line) ==> r.identity == Some(IdentityVerdict(line))
    ensures SimplifiedLine(line) || !IdentityLine(line) ==> r.identity == acc.identity
  {
    if SimplifiedLine(line) then acc.(simplified := Some(SimplifiedText(line)))
    else if IdentityLine(line) then acc.(identity := Some(IdentityVerdict(line)))
    else acc
  }

  /**
   * The validate loop over `lines`, as a left fold: the simplified text, when
   * set, is that of the last simplified-tag line, and the verdict, when set,
   * that of the last identity-tag line; with neither tag the scan stays empty.
   */
  function ScanLines(lines: seq<string>): (r: Scan)
    ensures FromLast(lines, SimplifiedLine, SimplifiedText, r.simplified)
    ensures FromLast(lines, IdentityOnly, IdentityVerdict, r.identity)
    ensures (forall i | 0 <= i < |lines| :: !SimplifiedLine(lines[i]) && !IdentityLine(lines[i])) ==> r == Scan(None, None)
  {
    if lines == [] then Scan(None, None)
    else
      var acc := ScanLines(lines[..|lines| - 1]);
      var last := lines[|lines| - 1];
      var r := ScanLine(acc, last);
      FromLastStep(lines, SimplifiedLine, SimplifiedText, acc.simplified, r.simplified);
      FromLastStep(lines, IdentityOnly, IdentityVerdict, acc.identity, r.identity);
      r
  }

  /** A line carrying the identity tag and not the simplified one. */
  predicate IdentityOnly(line: string) {
    IdentityLine(line) && !SimplifiedLine(line)
  }

  /** `v`, when set, is `f` of the last line `p` accepts. */
  ghost predicate FromLast<T>(lines: seq<string>, p: string -> bool, f: string -> T, v: Option<T>) {
    v.Some? ==> exists i | 0 <= i < |lines| ::
      && p(lines[i]) && v == Some(f(lines[i]))
      && forall j | i < j < |lines| :: !p(lines[j])
  }

  lemma FromLastStep<T>(lines: seq<string>, p: string -> bool, f: string -> T, before: Option<T>, after: Option<T>)
    requires lines != []
    requires FromLast(lines[..|lines| - 1], p, f, before)
    requires after == if p(lines[|lines| - 1]) then Some(f(lines[|lines| - 1])) else before
    ensures FromLast(lines, p, f, after)
  {
    var n := |lines| - 1;
    var init := lines[..n];
    if !p(lines[n]) && after.Some? {
      var i :| 0 <= i < |init| && p(init[i]) && before == Some(f(init[i])) && forall j | i < j < |init| :: !p(init[j]);
      assert lines[i] == init[i];
      forall j | i < j < |lines| ensures !p(lines[j]) {
        if j < n { assert lines[j] == init[j]; }
      }
    }
  }

  /** A line carrying the identity tag, once stripped. */
  predicate IdentityLine(line: string) {
    StartsWith(Strip(line), IDENTITY_TAG)
  }

  /** A line carrying the simplified tag, once stripped. */
  predicate SimplifiedLine(line: string) {
    StartsWith(Strip(line), SIMPLIFIED_TAG)
  }

  /** Whether some line satisfies `p`, as a fold in the loop's order. */
  predicate AnyLine(lines: seq<string>, p: string -> bool) {
    lines != [] && (AnyLine(lines[..|lines| - 1], p) || p(lines[|lines| - 1]))
  }

  lemma {:induction false} AnyLineExists(lines: seq<string>, p: string -> bool)
    ensures AnyLine(lines, p) <==> exists i | 0 <= i < |lines| :: p(lines[i])
    decreases |lines|
  {
    if lines != [] {
      var init := lines[..|lines| - 1];
      AnyLineExists(init, p);
      if exists i | 0 <= i < |init| :: p(init[i]) {
        var i :| 0 <= i < |init| && p(init[i]);
        assert lines[i] == init[i];
      }
      if exists i | 0 <= i < |lines| :: p(lines[i]) {
        var i :| 0 <= i < |lines| && p(lines[i]);
        if i < |init| {
          assert init[i] == lines[i];
        }
      }
    }
  }

  /** One step of the loop sets the simplified text exactly on a tagged line, and never unsets it. */
  lemma ScanLineSimplified(acc: Scan, line: string)
    ensures ScanLine(acc, line).simplified.Some? <==> acc.simplified.Some? || SimplifiedLine(line)
  {
  }

  lemma {:induction false} ScanSimplifiedAny(lines: seq<string>)
    ensures ScanLines(lines).simplified.Some? <==> AnyLine(lines, SimplifiedLine)
    decreases |lines|
  {
    if lines != [] {
      var init := lines[..|lines| - 1];
      ScanSimplifiedAny(init);
      ScanLineSimplified(ScanLines(init), lines[|lines| - 1]);
    }
  }

  /** The simplified text is seen exactly when some line carries the simplified tag. */
  lemma ScanSeesSimplified(lines: seq<string>)
    ensures ScanLines(lines).simplified.Some? <==> exists i | 0 <= i < |lines| :: SimplifiedLine(lines[i])
  {
    ScanSimplifiedAny(lines);
    AnyLineExists(lines, SimplifiedLine);
  }

  method ScanOutput(output: string) returns (s: Scan)
    ensures s == ScanLines(Split(output, '\n'))
  {
    var lines := Split(output, '\n');
    s := Scan(None, None);
    for i := 0 to |lines|
      invariant s == ScanLines(lines[..i])
    {
      assert lines[..i + 1][..i] == lines[..i];
      assert ScanLines(lines[..i + 1]) == ScanLine(ScanLines(lines[..i]), lines[i]);
      s := ScanLine(s, lines[i]);
    }
    assert lines[..|lines|] == lines;
  }

  /** The verdict after the loop: equations fall back to `simplified == "0"`, other expressions are valid once simplified. */
  function Verdict(isEquation: bool, s: Scan): (isValid: Option<bool>)
    ensures isEquation && s.identity.Some? ==> isValid == s.identity
    ensures isEquation && s.identity.None? ==> isValid == if s.simplified.Some? then Some(s.simplified.value == "0") else None
    ensures !isEquation ==> isValid == if s.simplified.Some? then Some(true) else s.identity
  {
    if isEquation then
      if s.identity.None? && s.simplified.Some? then Some(s.simplified.value == "0") else s.identity
    else if s.simplified.Some? then Some(true) else s.identity
  }

  const SIMPLIFIED_DISP: string := "disp(['MATLAB_SIMPLIFIED: ', char(simplified_expr)]);\n"
  const IDENTITY_DISP: string := "disp(['MATLAB_IS_IDENTITY: ', num2str(is_zero)]);\n"

  /**
   * The validation script: an equation assigns its two sides and ends by
   * printing the identity verdict of `simplify(lhs - rhs)`; any other
   * expression is assigned whole and the script ends by printing its
   * simplified text.
   */
  function ValidateCode(isEquation: bool, expr: string, lhs: string, rhs: string): (code: string)
    ensures StartsWith(code, HEADER)
    ensures isEquation ==> StartsWith(code[|HEADER|..], "lhs = " + lhs + ";\n") && EndsWith(code, IDENTITY_DISP)
    ensures !isEquation ==> StartsWith(code[|HEADER|..], "expr = " + expr + ";\n") && EndsWith(code, SIMPLIFIED_DISP)
  {
    if isEquation then
      var first := "lhs = " + lhs + ";\n";
      var rest := "rhs = " + rhs + ";\n"
        + "diff_expr = simplify(lhs - rhs);\n" + "disp(['MATLAB_SIMPLIFIED: ', char(diff_expr)]);\n"
        + "is_zero = isequal(diff_expr, sym(0));\n";
      Layout(HEADER, first, rest, IDENTITY_DISP);
      HEADER + (first + rest) + IDENTITY_DISP
    else
      var first := "expr = " + expr + ";\n";
      var rest := "simplified_expr = simplify(expr);\n";
      Layout(HEADER, first, rest, SIMPLIFIED_DISP);
      HEADER + (first + rest) + SIMPLIFIED_DISP
  }

  lemma Layout(head: string, first: string, rest: string, tail: string)
    ensures var code := head + (first + rest) + tail;
      StartsWith(code, head) && StartsWith(code[|head|..], first) && EndsWith(code, tail)
      && EndsWith(code, rest + tail)
  {
    var code := head + (first + rest) + tail;
    assert code[|code| - |rest + tail|..] == rest + tail;
    assert code[..|head|] == head;
    assert code[|head|..] == first + rest + tail;
    assert (first + rest + tail)[..|first|] == first;
    assert code[|code| - |tail|..] == tail;
  }

  /**
   * The script `validate` runs for `latex`, `toMatlab` being the LaTeX-to-MATLAB
   * conversion: an equation is cut at its first "=" (not necessarily the
   * standalone one) and each side converted after stripping.
   */
  function ValidateScript(latex: string, toMatlab: string -> string): (code: string)
    ensures HasStandalone(latex, MATLAB_BEFORE) ==> exists i | 0 <= i < |latex| ::
      && latex[i] == '=' && '=' !in latex[..i]
      && code == ValidateCode(true, toMatlab(latex), toMatlab(Strip(latex[..i])), toMatlab(Strip(latex[i + 1..])))
    ensures !HasStandalone(latex, MATLAB_BEFORE) ==> code == ValidateCode(false, toMatlab(latex), "", "")
  {
    if HasStandalone(latex, MATLAB_BEFORE) then
      var (l, r) := SplitAtFirstEquals(latex);
      assert latex[|l|] == '=' && latex[..|l|] == l && latex[|l| + 1..] == r by {
        assert latex == l + "=" + r;
      }
      ValidateCode(true, toMatlab(latex), toMatlab(Strip(l)), toMatlab(Strip(r)))
    else ValidateCode(false, toMatlab(latex), "", "")
  }

  /** The MATLAB run `validate` makes for `latex`. */
  function ValidateRun(cfg: MatlabConfig, latex: string, toMatlab: string -> string,
                       run: MatlabRun -> Executor.ProcessOutcome): RunResult {
    RunMatlab(cfg.path, run(MatlabRun(cfg.path, ValidateScript(latex, toMatlab), cfg.timeout)))
  }

  /**
   * The outcome mapping of `validate` once the script has run: output is
   * scanned, success meaning a simplified text was seen, the verdict being
   * `Verdict`'s; each exception gives its own message.
   */
  function ValidateOutcome(out: RunResult, isEquation: bool, expr: string, timeout: int, elapsed: int): (r: EngineResult)
    ensures r.engine == NAME
    ensures out.Output? ==>
      var s := ScanLines(Split(out.text, '\n'));
      && r.success == s.simplified.Some? && r.simplified == s.simplified
      && r.isValid == Verdict(isEquation, s) && r.originalParsed == Some(expr)
      && r.error == if r.success then None else Some("no output from MATLAB")
    ensures out == Threw(TimeoutExpired) ==> r == EngineFailure(NAME, "timeout (" + IntToString(timeout) + "s)", elapsed)
    ensures out.Threw? && out.raised.BinaryNotFound? ==> r == EngineFailure(NAME, "MATLAB binary not found", elapsed)
    ensures out.Threw? && out.raised.Error? ==> r == EngineFailure(NAME, "matlab error: " + out.raised.message, elapsed)
  {
    match out
    case Threw(TimeoutExpired) => EngineFailure(NAME, "timeout (" + IntToString(timeout) + "s)", elapsed)
    case Threw(BinaryNotFound(_)) => EngineFailure(NAME, "MATLAB binary not found", elapsed)
    case Threw(Error(m)) => EngineFailure(NAME, "matlab error: " + m, elapsed)
    case Output(text) =>
      var s := ScanLines(Split(text, '\n'));
      var success := s.simplified.Some?;
      EngineResult(NAME, success, Verdict(isEquation, s), s.simplified, Some(expr),
                   if success then None else Some("no output from MATLAB"), elapsed)
  }

  /** `validate` as a function of the outside world; it never raises. */
  function ValidateSpec(cfg: MatlabConfig, latex: string, toMatlab: string -> string,
                        run: MatlabRun -> Executor.ProcessOutcome, elapsed: int): (r: EngineResult)
    ensures r.engine == NAME
    ensures toMatlab(latex) == "" ==> !r.success && r.error == Some("empty expression after conversion")
    ensures r.success ==> r.simplified.Some? && r.isValid.Some? && r.error.None?
    ensures !r.success ==> r.error.Some?
    ensures toMatlab(latex) != "" ==>
      var out := ValidateRun(cfg, latex, toMatlab, run);
      && (out.Output? ==>
            var s := ScanLines(Split(out.text, '\n'));
            && r.success == s.simplified.Some? && r.simplified == s.simplified
            && r.isValid == Verdict(HasStandalone(latex, MATLAB_BEFORE), s)
            && r.originalParsed == Some(toMatlab(latex))
            && (!r.success ==> r.error == Some("no output from MATLAB")))
      && (out == Threw(TimeoutExpired) ==> r.error == Some("timeout (" + IntToString(cfg.timeout) + "s)"))
      && (out.Threw? && out.raised.BinaryNotFound? ==> r.error == Some("MATLAB binary not found"))
      && (out.Threw? && out.raised.Error? ==> r.error == Some("matlab error: " + out.raised.message))
  {
    var expr := toMatlab(latex);
    if expr == "" then EngineFailure(NAME, "empty expression after conversion", elapsed)
    else
      var r := ValidateOutcome(ValidateRun(cfg, latex, toMatlab, run), HasStandalone(latex, MATLAB_BEFORE), expr, cfg.timeout, elapsed);
      assert r.success ==> r.simplified.Some? && r.isValid.Some? by {
        if r.success { VerdictSet(HasStandalone(latex, MATLAB_BEFORE), ScanLines(Split(ValidateRun(cfg, latex, toMatlab, run).text, '\n'))); }
      }
      r
  }

  /** Once a simplified text is seen, there is a verdict. */
  lemma VerdictSet(isEquation: bool, s: Scan)
    requires s.simplified.Some?
    ensures Verdict(isEquation, s).Some?
  {
  }

  /**
   * When MATLAB prints output, `validate` succeeds exactly when some line of
   * it, stripped, starts with the simplified tag, and then reports the text
   * of the last such line (`FromLast`).
   */
  lemma ValidateSucceedsIffSimplifiedLine(text: string, isEquation: bool, expr: string, timeout: int, elapsed: int)
    ensures var lines := Split(text, '\n');
      var r := ValidateOutcome(Output(text), isEquation, expr, timeout, elapsed);
      && (r.success <==> exists i | 0 <= i < |lines| :: SimplifiedLine(lines[i]))
      && FromLast(lines, SimplifiedLine, SimplifiedText, r.simplified)
  {
    ScanSeesSimplified(Split(text, '\n'));
  }

  /** `validate`: the script run and the line loop. */
  method Validate(cfg: MatlabConfig, latex: string, toMatlab: string -> string,
                  run: MatlabRun -> Executor.ProcessOutcome, elapsed: int) returns (r: EngineResult)
    ensures r == ValidateSpec(cfg, latex, toMatlab, run, elapsed)
  {
    var expr := toMatlab(latex);
    if expr == "" {
      return EngineFailure(NAME, "empty expression after conversion", elapsed);
    }
    var isEq := HasStandalone(latex, MATLAB_BEFORE);
    var outcome := ValidateRun(cfg, latex, toMatlab, run);
    match outcome {
      case Threw(TimeoutExpired) =>
        r := EngineFailure(NAME, "timeout (" + IntToString(cfg.timeout) + "s)", elapsed);
      case Threw(BinaryNotFound(_)) =>
        r := EngineFailure(NAME, "MATLAB binary not found", elapsed);
      case Threw(Error(m)) =>
        r := EngineFailure(NAME, "matlab error: " + m, elapsed);
      case Output(text) =>
        var s := ScanOutput(text);
        var success := s.simplified.Some?;
        r := EngineResult(NAME, success, Verdict(isEq, s), s.simplified, Some(expr),
                          if success then None else Some("no output from MATLAB"), elapsed);
    }
  }

  /** `get_version`: the first stripped line starting with digits "." digits, whatever the exit code. */
  function VersionFrom(lines: seq<string>): (v: string)
    ensures ReportsFirstVersionLine(lines, v)
  {
    match FirstWhere(lines, 0, VersionLine)
    case Some(i) => NamedVersionIsKnown(lines[i]); "MATLAB " + Strip(lines[i])
    case None => "MATLAB (version unknown)"
  }

  lemma NamedVersionIsKnown(line: string)
    requires VersionLine(line)
    ensures "MATLAB " + Strip(line) != "MATLAB (version unknown)"
  {
    var t := Strip(line);
    assert IsDigit(t[0]);
    assert ("MATLAB " + t)[7] == t[0];
    assert "MATLAB (version unknown)"[7] == '(';
  }

  /** The stripped line starts with digits, ".", digits. */
  predicate VersionLine(line: string) {
    StartsWithVersion(Strip(line))
  }

  /** `re.match(r"\d+\.\d+", line)`. */
  predicate StartsWithVersion(line: string) {
    exists i | 0 < i < |line| - 1 ::
      (forall k | 0 <= k < i :: IsDigit(line[k])) && line[i] == '.' && IsDigit(line[i + 1])
  }

  predicate IsDigit(c: char) {
    '0' <= c <= '9'
  }

  function GetVersion(cfg: MatlabConfig, probe: Executor.ProcessOutcome): (v: string)
    ensures !probe.Exited? ==> v == "MATLAB (unavailable)"
  {
    if probe.Exited? then VersionFrom(Split(Strip(probe.out), '\n')) else "MATLAB (unavailable)"
  }

  /** `v` names the first version-shaped line of `lines`, or says that there is none. */
  predicate ReportsFirstVersionLine(lines: seq<string>, v: string) {
    && (v == "MATLAB (version unknown)" <==> forall i | 0 <= i < |lines| :: !VersionLine(lines[i]))
    && (v != "MATLAB (version unknown)" ==> exists i | 0 <= i < |lines| ::
          && VersionLine(lines[i]) && v == "MATLAB " + Strip(lines[i])
          && forall j | 0 <= j < i :: !VersionLine(lines[j]))
  }

  /** A probe that exits names the first version-shaped line of its stripped stdout, or none, whatever the exit code. */
  lemma VersionOfExitedProbe(cfg: MatlabConfig, code: int, out: string, err: string, lines: seq<string>)
    requires lines == Split(Strip(out), '\n')
    ensures ReportsFirstVersionLine(lines, GetVersion(cfg, Executor.Exited(code, out, err)))
  {
    assert GetVersion(cfg, Executor.Exited(code, out, err)) == VersionFrom(lines);
  }

  const CAPABILITIES: seq<Capability> := [Capability.Validate, Capability.Compute]
}
