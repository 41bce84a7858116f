/**
 * The WolframAlpha engine: an optional remote compute oracle behind the v2
 * Full Results API. It has no sanitizer and never validates.
 */
module WolframAlphaEngine {
  import opened Wrappers
  import opened Strings
  import opened Base
  import opened Admission

  const NAME: string := "wolframalpha"
  const DEFAULT_TIMEOUT: int := 10
  const VERSION: string := "v2-api"
  const NOT_CONFIGURED: string := "WolframAlpha API key not configured"
  const CAPABILITIES: seq<Capability> := [Capability.Compute, Capability.Remote]

  const TEMPLATES: map<string, Template> := map[
    "evaluate" := Template(["expression"], []),
    "solve" := Template(["equation"], []),
    "simplify" := Template(["expression"], [])]

  /** The engine's configuration; `appId` is the argument, or else the environment variable, or else "". */
  datatype Engine = Engine(appId: string, timeout: int)

  function NewEngine(appId: Option<string>, envAppId: Option<string>, timeout: int): (e: Engine)
    ensures appId.Some? ==> e.appId == appId.value
    ensures appId.None? ==> e.appId == envAppId.GetOr("")
    ensures e.timeout == timeout
  {
    Engine(if appId.Some? then appId.value else envAppId.GetOr(""), timeout)
  }

  /** `is_available`: an application id is set; exactly when `availability_reason` gives no reason. */
  function IsAvailable(e: Engine): (ok: bool)
    ensures ok <==> AvailabilityReason(e).None?
  {
    e.appId != ""
  }

  /** `availability_reason`: a reason exactly when no application id is set. */
  function AvailabilityReason(e: Engine): (reason: Option<string>)
    ensures reason.None? <==> e.appId != ""
    ensures reason.Some? ==> reason.value == "missing CAS_WOLFRAMALPHA_APPID"
  {
    if e.appId == "" then Some("missing CAS_WOLFRAMALPHA_APPID") else None
  }

  /** `validate`: WolframAlpha takes no part in validation. */
  function Validate(e: Engine, latex: string): (r: EngineResult)
    ensures !r.success && r.engine == NAME && r.isValid.None?
    ensures r.error == Some("WolframAlpha is not part of the validation consensus")
  {
    EngineFailure(NAME, "WolframAlpha is not part of the validation consensus", 0)
  }

  /** `build_query` of each template. */
  function BuildQuery(template: string, inputs: Inputs): (q: string)
    requires template in TEMPLATES && Complete(TEMPLATES[template], inputs)
    ensures template == "evaluate" ==> q == Lookup(inputs, "expression").value
    ensures template == "solve" ==> q == "solve " + Lookup(inputs, "equation").value
    ensures template == "simplify" ==> q == "simplify " + Lookup(inputs, "expression").value
  {
    assert TEMPLATES[template].required[0] in TEMPLATES[template].required;
    if template == "evaluate" then Lookup(inputs, "expression").value
    else if template == "solve" then "solve " + Lookup(inputs, "equation").value
    else "simplify " + Lookup(inputs, "expression").value
  }

  // ----- the API response -----

  /** A subpod; a missing or null `plaintext` is the empty text (both are falsy). */
  datatype Subpod = Subpod(plaintext: string)

  /** A pod; a missing `id` is the empty id, which is neither a primary id nor "Input". */
  datatype Pod = Pod(id: string, subpods: seq<Subpod>)

  /** `queryresult`: its `success` flag, its pods, and its `tips` already serialised as JSON. */
  datatype QueryResult = QueryResult(success: bool, pods: seq<Pod>, tipsJson: string)

  predicate IsPrimary(p: Pod) {
    p.id in {"Result", "DecimalApproximation", "Solution"} && p.subpods != []
  }

  predicate IsFallback(p: Pod) {
    p.id != "Input" && p.subpods != [] && p.subpods[0].plaintext != ""
  }

  /** The first pod at or after `i` satisfying `sel`. */
  function FirstPod(pods: seq<Pod>, sel: Pod -> bool, i: nat): (r: Option<nat>)
    requires i <= |pods|
    ensures r.Some? ==> i <= r.value < |pods| && sel(pods[r.value])
    ensures r.Some? ==> forall j | i <= j < r.value :: !sel(pods[j])
    ensures r.None? ==> forall j | i <= j < |pods| :: !sel(pods[j])
    decreases |pods| - i
  {
    if i == |pods| then None
    else if sel(pods[i]) then Some(i)
    else FirstPod(pods, sel, i + 1)
  }

  /**
   * The text the response yields: the first subpod's plaintext of the first
   * primary pod (even if empty), and when that is empty or missing, the first
   * non-empty plaintext of a non-Input pod; "" when there is none.
   */
  function ResultText(pods: seq<Pod>): (r: string)
    ensures r == "" <==> forall k | 0 <= k < |pods| :: !IsFallback(pods[k])
  {
    var primary := match FirstPod(pods, IsPrimary, 0)
      case Some(i) => pods[i].subpods[0].plaintext
      case None => "";
    if primary != "" then primary
    else match FirstPod(pods, IsFallback, 0)
      case Some(j) => pods[j].subpods[0].plaintext
      case None => ""
  }

  /** `_parse_response` as a function of the decoded response. */
  function ParseSpec(q: QueryResult, elapsed: int): (r: ComputeResult)
    ensures WellFormed(r) && r.engine == NAME
    ensures !q.success ==> r.errorCode == Some(QueryFailed) && r.stdout == q.tipsJson
    ensures q.success && ResultText(q.pods) == "" ==> r.errorCode == Some(NoResult)
    ensures r.success <==> q.success && ResultText(q.pods) != ""
    ensures r.success ==> r.value == Some(ResultText(q.pods)) && r.stdout == ResultText(q.pods)
  {
    if !q.success then
      FailureWithOutput(NAME, elapsed, q.tipsJson, "", "WolframAlpha could not interpret the query", QueryFailed)
    else
      var text := ResultText(q.pods);
      if text == "" then Failure(NAME, elapsed, "No result found in WolframAlpha response", NoResult)
      else Success(NAME, elapsed, text, text, "")
  }

  /** `_parse_response`: the primary-pod loop, then the fallback loop. */
  method ParseResponse(q: QueryResult, elapsed: int) returns (r: ComputeResult)
    ensures r == ParseSpec(q, elapsed)
  {
    if !q.success {
      return FailureWithOutput(NAME, elapsed, q.tipsJson, "", "WolframAlpha could not interpret the query", QueryFailed);
    }
    var pods := q.pods;
    var text := "";
    var i := 0;
    while i < |pods|
      invariant 0 <= i <= |pods|
      invariant FirstPod(pods, IsPrimary, 0) == FirstPod(pods, IsPrimary, i)
    {
      if pods[i].id in {"Result", "DecimalApproximation", "Solution"} && pods[i].subpods != [] {
        text := pods[i].subpods[0].plaintext;
        break;
      }
      i := i + 1;
    }
    if text == "" {
      var j := 0;
      while j < |pods|
        invariant 0 <= j <= |pods|
        invariant FirstPod(pods, IsFallback, 0) == FirstPod(pods, IsFallback, j)
      {
        if pods[j].id != "Input" && pods[j].subpods != [] && pods[j].subpods[0].plaintext != "" {
          text := pods[j].subpods[0].plaintext;
          break;
        }
        j := j + 1;
      }
    }
    if text == "" {
      return Failure(NAME, elapsed, "No result found in WolframAlpha response", NoResult);
    }
    return Success(NAME, elapsed, text, text, "");
  }

  /** A non-empty primary text wins over every other pod, whatever their order. */
  lemma PrimaryWins(pods: seq<Pod>, i: nat)
    requires i < |pods| && IsPrimary(pods[i]) && pods[i].subpods[0].plaintext != ""
    requires forall j | 0 <= j < i :: !IsPrimary(pods[j])
    ensures ResultText(pods) == pods[i].subpods[0].plaintext
  {
    assert FirstPod(pods, IsPrimary, 0) == Some(i);
  }

  /** An empty primary text falls through to the first non-Input pod with text. */
  lemma EmptyPrimaryFallsBack(pods: seq<Pod>, i: nat, j: nat)
    requires i < |pods| && IsPrimary(pods[i]) && pods[i].subpods[0].plaintext == ""
    requires forall k | 0 <= k < i :: !IsPrimary(pods[k])
    requires j < |pods| && IsFallback(pods[j]) && forall k | 0 <= k < j :: !IsFallback(pods[k])
    ensures ResultText(pods) == pods[j].subpods[0].plaintext
  {
    assert FirstPod(pods, IsPrimary, 0) == Some(i);
    assert FirstPod(pods, IsFallback, 0) == Some(j);
  }

  /** Whatever text is found is the plaintext of some non-Input pod's first subpod. */
  lemma TextComesFromAPod(pods: seq<Pod>)
    requires ResultText(pods) != ""
    ensures exists k | 0 <= k < |pods| ::
      pods[k].id != "Input" && pods[k].subpods != [] && pods[k].subpods[0].plaintext == ResultText(pods)
  {
    match FirstPod(pods, IsPrimary, 0) {
      case Some(i) =>
        if pods[i].subpods[0].plaintext != "" {
          assert pods[i].id != "Input";
        } else {
          var j := FirstPod(pods, IsFallback, 0).value;
          assert pods[j].id != "Input";
        }
      case None =>
        var j := FirstPod(pods, IsFallback, 0).value;
        assert pods[j].id != "Input";
    }
  }

  // ----- calling the API -----

  /** One GET of the query endpoint (format plaintext, output json). */
  datatype ApiCall = ApiCall(input: string, appId: string, timeoutS: int)

  /** What the HTTP round trip produced. */
  datatype ApiOutcome =
    | Response(data: QueryResult)
    | HttpError(status: int)
    | UrlError(reason: string)
    | TimedOut
    | OtherError(message: string)  // a malformed body or any other exception, with its text

  /** `_call_api`'s mapping of outcomes to results. */
  function CallApi(outcome: ApiOutcome, timeoutS: int, elapsed: int): (r: ComputeResult)
    ensures WellFormed(r) && r.engine == NAME
    ensures outcome.Response? ==> r == ParseSpec(outcome.data, elapsed)
    ensures outcome.HttpError? ==> r.errorCode == Some(if outcome.status == 403 then AuthError else RemoteError)
    ensures outcome.UrlError? ==> r.errorCode == Some(NetworkError) && r.error == Some("Network error: " + outcome.reason)
    ensures outcome.TimedOut? ==> r.errorCode == Some(Timeout)
    ensures outcome.OtherError? ==> r.errorCode == Some(RemoteError) && r.error == Some(outcome.message)
  {
    match outcome
    case Response(data) => ParseSpec(data, elapsed)
    case HttpError(status) =>
      if status == 403 then Failure(NAME, elapsed, "WolframAlpha API: invalid or expired AppID", AuthError)
      else Failure(NAME, elapsed, "WolframAlpha API HTTP " + IntToString(status), RemoteError)
    case UrlError(reason) => Failure(NAME, elapsed, "Network error: " + reason, NetworkError)
    case TimedOut => Failure(NAME, elapsed, "WolframAlpha timed out after " + IntToString(timeoutS) + "s", Timeout)
    case OtherError(m) => Failure(NAME, elapsed, m, RemoteError)
  }

  /** The call an admitted request makes. */
  function CallFor(e: Engine, req: ComputeRequest): ApiCall
    requires Admit(IsAvailable(e), NOT_CONFIGURED, TEMPLATES, req, None).None?
  {
    AdmittedIff(IsAvailable(e), NOT_CONFIGURED, TEMPLATES, req, None);
    ApiCall(BuildQuery(req.template, req.inputs), e.appId, EffectiveTimeout(req, e.timeout))
  }

  /** `compute` as a function of the API's answer. */
  function ComputeSpec(e: Engine, req: ComputeRequest, api: ApiCall -> ApiOutcome, elapsed: int): (r: ComputeResult)
    ensures WellFormed(r) && r.engine == NAME
    ensures !IsAvailable(e) ==> r.errorCode == Some(EngineUnavailable)
    ensures var refusal := Admit(IsAvailable(e), NOT_CONFIGURED, TEMPLATES, req, None);
      refusal.Some? ==> r.errorCode == Some(refusal.value.code)
    ensures r.errorCode != Some(InvalidInput)
  {
    match Admit(IsAvailable(e), NOT_CONFIGURED, TEMPLATES, req, None)
    case Some(refusal) =>
      RefusalOrder(IsAvailable(e), NOT_CONFIGURED, TEMPLATES, req, None);
      Refused(NAME, elapsed, refusal)
    case None =>
      var call := CallFor(e, req);
      CallApi(api(call), call.timeoutS, elapsed)
  }

  /** An admitted request returns what the one API call gives, under the smaller timeout. */
  lemma AdmittedComputeIsRun(e: Engine, req: ComputeRequest, api: ApiCall -> ApiOutcome, elapsed: int)
    requires Admit(IsAvailable(e), NOT_CONFIGURED, TEMPLATES, req, None).None?
    ensures CallFor(e, req).timeoutS == EffectiveTimeout(req, e.timeout)
    ensures ComputeSpec(e, req, api, elapsed) == CallApi(api(CallFor(e, req)), CallFor(e, req).timeoutS, elapsed)
  {
    AdmittedIff(IsAvailable(e), NOT_CONFIGURED, TEMPLATES, req, None);
  }

  /** `compute`: the three checks, then at most one API call, under the smaller of the two timeouts. */
  method Compute(e: Engine, req: ComputeRequest, api: ApiCall -> ApiOutcome, elapsed: int)
    returns (r: ComputeResult, calls: seq<ApiCall>)
    ensures r == ComputeSpec(e, req, api, elapsed)
    ensures calls == [] <==> Admit(IsAvailable(e), NOT_CONFIGURED, TEMPLATES, req, None).Some?
    ensures calls != [] ==>
      calls == [CallFor(e, req)] && calls[0].timeoutS <= req.timeoutS && calls[0].timeoutS <= e.timeout
  {
    if !IsAvailable(e) {
      return Failure(NAME, elapsed, NOT_CONFIGURED, EngineUnavailable), [];
    }
    if req.template !in TEMPLATES {
      return Failure(NAME, elapsed, "Unknown template: " + req.template, UnknownTemplate), [];
    }
    var missing := MissingKeys(TEMPLATES[req.template].required, req.inputs);
    if missing != [] {
      return Failure(NAME, elapsed, "Missing required inputs: " + Join(missing, ", "), MissingInput), [];
    }
    var call := CallFor(e, req);
    r := CallApi(api(call), call.timeoutS, elapsed);
    calls := [call];
  }

  /** Without a sanitizer, any value of a complete request reaches the API verbatim. */
  lemma EvaluateSendsExpressionVerbatim(e: Engine, req: ComputeRequest)
    requires IsAvailable(e) && req.template == "evaluate" && HasKey(req.inputs, "expression")
    ensures Admit(IsAvailable(e), NOT_CONFIGURED, TEMPLATES, req, None).None?
    ensures CallFor(e, req).input == Lookup(req.inputs, "expression").value
  {
    AdmittedIff(IsAvailable(e), NOT_CONFIGURED, TEMPLATES, req, None);
  }
}
