/**
 * The ordered checks every template-compute engine runs before it executes
 * anything: engine unavailable, unknown template, missing required input,
 * then (for engines with a sanitizer) the first supplied value the sanitizer
 * rejects, in the insertion order of the inputs.
 */
module Admission {
  import opened Wrappers
  import opened Strings
  import opened Base

  datatype Template = Template(required: seq<string>, optional: seq<string>)

  /** `[k for k in required if k not in inputs]`, in the template's order. */
  function MissingKeys(required: seq<string>, inputs: Inputs): (m: seq<string>)
    ensures forall k :: k in m <==> k in required && !HasKey(inputs, k)
    ensures |m| <= |required|
  {
    if required == [] then []
    else
      var rest := MissingKeys(required[1..], inputs);
      assert forall k | k in required :: k == required[0] || k in required[1..];
      if HasKey(inputs, required[0]) then rest else [required[0]] + rest
  }

  /** The index of the first input at or after `from` whose value `ok` rejects. */
  function FirstRejected(inputs: Inputs, ok: string -> bool, from: nat): (r: Option<nat>)
    ensures r.Some? ==> from <= r.value < |inputs| && !ok(inputs[r.value].1)
    ensures r.Some? ==> forall j | from <= j < r.value :: ok(inputs[j].1)
    ensures r.None? ==> forall j | from <= j < |inputs| :: ok(inputs[j].1)
    decreases |inputs| - from
  {
    if from >= |inputs| then None
    else if !ok(inputs[from].1) then Some(from)
    else FirstRejected(inputs, ok, from + 1)
  }

  /** The sanitize loop of `compute`, which returns at the first rejected value. */
  method FindRejected(inputs: Inputs, ok: string -> bool) returns (r: Option<nat>)
    ensures r == FirstRejected(inputs, ok, 0)
  {
    var i := 0;
    while i < |inputs|
      invariant 0 <= i <= |inputs|
      invariant FirstRejected(inputs, ok, 0) == FirstRejected(inputs, ok, i)
    {
      if !ok(inputs[i].1) {
        return Some(i);
      }
      i := i + 1;
    }
    return None;
  }

  datatype Refusal = Refusal(code: ErrorCode, message: string)

  /** The first check `compute` fails, or None when the request may be executed. */
  function Admit(available: bool, unavailable: string, templates: map<string, Template>,
                 req: ComputeRequest, sanitizer: Option<string -> bool>): (r: Option<Refusal>)
    ensures r.Some? && r.value.code == UnknownTemplate ==> r.value.message == "Unknown template: " + req.template
    ensures r.Some? && r.value.code == MissingInput ==>
      && req.template in templates
      && r.value.message == "Missing required inputs: " + Join(MissingKeys(templates[req.template].required, req.inputs), ", ")
      && MissingKeys(templates[req.template].required, req.inputs) != []
  {
    if !available then Some(Refusal(EngineUnavailable, unavailable))
    else if req.template !in templates then Some(Refusal(UnknownTemplate, "Unknown template: " + req.template))
    else
      var missing := MissingKeys(templates[req.template].required, req.inputs);
      if missing != [] then Some(Refusal(MissingInput, "Missing required inputs: " + Join(missing, ", ")))
      else if sanitizer.None? then None
      else match FirstRejected(req.inputs, sanitizer.value, 0)
        case Some(i) => Some(Refusal(InvalidInput, "Invalid input value for '" + req.inputs[i].0 + "'"))
        case None => None
  }

  /** Every required key is supplied. */
  predicate Complete(t: Template, inputs: Inputs) {
    forall k | k in t.required :: HasKey(inputs, k)
  }

  /** Every supplied value, required or optional, passes the sanitizer. */
  predicate AllAccepted(inputs: Inputs, ok: string -> bool) {
    forall i | 0 <= i < |inputs| :: ok(inputs[i].1)
  }

  /** A request is admitted exactly when all four checks pass. */
  lemma AdmittedIff(available: bool, unavailable: string, templates: map<string, Template>,
                    req: ComputeRequest, sanitizer: Option<string -> bool>)
    ensures Admit(available, unavailable, templates, req, sanitizer).None? <==>
      && available
      && req.template in templates
      && Complete(templates[req.template], req.inputs)
      && (sanitizer.Some? ==> AllAccepted(req.inputs, sanitizer.value))
  {
    if available && req.template in templates {
      var missing := MissingKeys(templates[req.template].required, req.inputs);
      if missing != [] {
        assert missing[0] in missing;
      }
    }
  }

  /** Each refusal code names the first failing check, in the fixed order. */
  lemma RefusalOrder(available: bool, unavailable: string, templates: map<string, Template>,
                     req: ComputeRequest, sanitizer: Option<string -> bool>)
    ensures var r := Admit(available, unavailable, templates, req, sanitizer);
      && (r == Some(Refusal(EngineUnavailable, unavailable)) <==> !available)
      && (r.Some? && r.value.code == UnknownTemplate <==> available && req.template !in templates)
      && (r.Some? && r.value.code == MissingInput <==>
            available && req.template in templates && !Complete(templates[req.template], req.inputs))
      && (r.Some? && r.value.code == InvalidInput <==>
            && available && req.template in templates && Complete(templates[req.template], req.inputs)
            && sanitizer.Some? && !AllAccepted(req.inputs, sanitizer.value))
      && (r.Some? ==> r.value.code in {EngineUnavailable, UnknownTemplate, MissingInput, InvalidInput})
  {
    AdmittedIff(available, unavailable, templates, req, sanitizer);
    if available && req.template in templates {
      var missing := MissingKeys(templates[req.template].required, req.inputs);
      if missing != [] {
        assert missing[0] in missing;
      }
    }
  }

  /** An INVALID_INPUT refusal names the first rejected key in insertion order. */
  lemma InvalidNamesFirstRejected(available: bool, unavailable: string, templates: map<string, Template>,
                                  req: ComputeRequest, ok: string -> bool)
    requires Admit(available, unavailable, templates, req, Some(ok)).Some?
    requires Admit(available, unavailable, templates, req, Some(ok)).value.code == InvalidInput
    ensures exists i | 0 <= i < |req.inputs| ::
      && !ok(req.inputs[i].1)
      && (forall j | 0 <= j < i :: ok(req.inputs[j].1))
      && Admit(available, unavailable, templates, req, Some(ok)).value.message
           == "Invalid input value for '" + req.inputs[i].0 + "'"
  {
    var i := FirstRejected(req.inputs, ok, 0).value;
    assert !ok(req.inputs[i].1);
  }

  /** `min(request.timeout_s, self.timeout)`. */
  function EffectiveTimeout(req: ComputeRequest, engineTimeout: int): (t: int)
    ensures t <= req.timeoutS && t <= engineTimeout
    ensures t == req.timeoutS || t == engineTimeout
  {
    if req.timeoutS <= engineTimeout then req.timeoutS else engineTimeout
  }

  /** The ComputeResult a refusal becomes. */
  function Refused(engine: string, timeMs: int, r: Refusal): (c: ComputeResult)
    ensures WellFormed(c) && !c.success
    ensures c.errorCode == Some(r.code) && c.error == Some(r.message) && c.engine == engine
  {
    Failure(engine, timeMs, r.message, r.code)
  }
}
