/**
 * The engine abstraction: capability markers, the validation and compute
 * result records, the compute request, and the defaults every engine
 * inherits unless it overrides them.
 */
module Base {
  import opened Wrappers

  datatype Capability = Validate | Compute | Remote {
    function Name(): string {
      match this
      case Validate => "validate"
      case Compute => "compute"
      case Remote => "remote"
    }
  }

  /** The closed set of `error_code` strings a ComputeResult can carry. */
  datatype ErrorCode =
    | NotImplemented | EngineUnavailable | UnknownTemplate | MissingInput | InvalidInput
    | Timeout | EngineError | AuthError | NetworkError | QueryFailed | NoResult | RemoteError
  {
    function Name(): string {
      match this
      case NotImplemented => "NOT_IMPLEMENTED"
      case EngineUnavailable => "ENGINE_UNAVAILABLE"
      case UnknownTemplate => "UNKNOWN_TEMPLATE"
      case MissingInput => "MISSING_INPUT"
      case InvalidInput => "INVALID_INPUT"
      case Timeout => "TIMEOUT"
      case EngineError => "ENGINE_ERROR"
      case AuthError => "AUTH_ERROR"
      case NetworkError => "NETWORK_ERROR"
      case QueryFailed => "QUERY_FAILED"
      case NoResult => "NO_RESULT"
      case RemoteError => "REMOTE_ERROR"
    }
  }

  /** Distinct codes have distinct wire strings, so a client can tell every outcome apart. */
  lemma ErrorCodeNamesDistinct(a: ErrorCode, b: ErrorCode)
    ensures a.Name() == b.Name() ==> a == b
  {
  }

  datatype EngineResult = EngineResult(
    engine: string,
    success: bool,
    isValid: Option<bool>,
    simplified: Option<string>,
    originalParsed: Option<string>,
    error: Option<string>,
    timeMs: int)

  /** An EngineResult built with only the engine, the success flag, an error and a time. */
  function EngineFailure(engine: string, error: string, timeMs: int): (r: EngineResult)
    ensures !r.success && r.engine == engine && r.error == Some(error)
    ensures r.isValid.None? && r.simplified.None? && r.originalParsed.None?
  {
    EngineResult(engine, false, None, None, None, Some(error), timeMs)
  }

  /** A dict[str, str] in insertion order: no key occurs twice. */
  predicate DistinctKeys(s: seq<(string, string)>) {
    forall i, j | 0 <= i < j < |s| :: s[i].0 != s[j].0
  }

  type Inputs = s: seq<(string, string)> | DistinctKeys(s)

  /** Python's `key in inputs`. */
  predicate HasKey(inputs: Inputs, key: string) {
    exists i | 0 <= i < |inputs| :: inputs[i].0 == key
  }

  /** Python's `inputs.get(key)`. */
  function Lookup(inputs: Inputs, key: string): (r: Option<string>)
    ensures r.Some? <==> HasKey(inputs, key)
    ensures r.Some? ==> exists i | 0 <= i < |inputs| :: inputs[i] == (key, r.value)
  {
    if inputs == [] then None
    else if inputs[0].0 == key then Some(inputs[0].1)
    else
      var rest: Inputs := inputs[1..];
      var r := Lookup(rest, key);
      assert r.Some? ==> exists i | 0 <= i < |rest| :: rest[i] == (key, r.value);
      assert HasKey(rest, key) ==> HasKey(inputs, key) by {
        if HasKey(rest, key) {
          var i :| 0 <= i < |rest| && rest[i].0 == key;
          assert inputs[i + 1].0 == key;
        }
      }
      assert HasKey(inputs, key) ==> HasKey(rest, key) by {
        if HasKey(inputs, key) {
          var i :| 0 <= i < |inputs| && inputs[i].0 == key;
          assert i > 0 && rest[i - 1].0 == key;
        }
      }
      r
  }

  datatype ComputeRequest = ComputeRequest(
    engine: string,
    taskType: string,
    template: string,
    inputs: Inputs,
    timeoutS: int)

  const DEFAULT_REQUEST_TIMEOUT: int := 5

  /** A request built without `inputs` or `timeout_s`. */
  function NewComputeRequest(engine: string, taskType: string, template: string): (r: ComputeRequest)
    ensures r.inputs == [] && r.timeoutS == 5
    ensures forall k :: !HasKey(r.inputs, k)
    ensures r.engine == engine && r.taskType == taskType && r.template == template
  {
    ComputeRequest(engine, taskType, template, [], DEFAULT_REQUEST_TIMEOUT)
  }

  /** A compute result; `value` stands for the `result` dict `{"value": ...}`, None for no dict. */
  datatype ComputeResult = ComputeResult(
    engine: string,
    success: bool,
    timeMs: int,
    value: Option<string>,
    stdout: string,
    stderr: string,
    error: Option<string>,
    errorCode: Option<ErrorCode>)

  /** What every engine's results satisfy: an error code exactly on failure, a value exactly on success. */
  predicate WellFormed(r: ComputeResult) {
    && (r.success <==> r.errorCode.None?)
    && (r.success <==> r.value.Some?)
    && (r.success <==> r.error.None?)
  }

  /** A failed ComputeResult built from an error and a code, every other field at its default. */
  function Failure(engine: string, timeMs: int, error: string, code: ErrorCode): (r: ComputeResult)
    ensures WellFormed(r) && !r.success
    ensures r.engine == engine && r.errorCode == Some(code) && r.error == Some(error)
    ensures r.stdout == "" && r.stderr == "" && r.value.None?
  {
    ComputeResult(engine, false, timeMs, None, "", "", Some(error), Some(code))
  }

  /** A failed ComputeResult that also carries the captured output. */
  function FailureWithOutput(engine: string, timeMs: int, stdout: string, stderr: string, error: string, code: ErrorCode): (r: ComputeResult)
    ensures WellFormed(r) && !r.success
    ensures r.engine == engine && r.errorCode == Some(code) && r.error == Some(error)
    ensures r.stdout == stdout && r.stderr == stderr
  {
    ComputeResult(engine, false, timeMs, None, stdout, stderr, Some(error), Some(code))
  }

  /** A successful ComputeResult with `{"value": value}`. */
  function Success(engine: string, timeMs: int, value: string, stdout: string, stderr: string): (r: ComputeResult)
    ensures WellFormed(r) && r.success
    ensures r.engine == engine && r.value == Some(value) && r.stdout == stdout && r.stderr == stderr
  {
    ComputeResult(engine, true, timeMs, Some(value), stdout, stderr, None, None)
  }

  // ----- BaseEngine defaults -----

  /** The inherited `compute`: an explicit refusal, never a crash. */
  function DefaultCompute(name: string): (r: ComputeResult)
    ensures WellFormed(r) && !r.success
    ensures r.engine == name && r.errorCode == Some(NotImplemented)
    ensures r.error == Some("Engine '" + name + "' does not support compute")
    ensures r.timeMs == 0 && r.stdout == "" && r.stderr == ""
  {
    Failure(name, 0, "Engine '" + name + "' does not support compute", NotImplemented)
  }

  const DEFAULT_CAPABILITIES: seq<Capability> := [Validate]
  const DEFAULT_AVAILABLE: bool := true
  const DEFAULT_VERSION: string := "unknown"

  /** The inherited capability list holds validation and nothing else. */
  lemma DefaultCapabilitiesOnlyValidate()
    ensures forall c :: c in DEFAULT_CAPABILITIES <==> c == Validate
    ensures |DEFAULT_CAPABILITIES| == 1
  {
  }
}
