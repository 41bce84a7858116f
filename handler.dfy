/**
 * The HTTP front of the service: path routing, the checks `/validate`
 * applies to its JSON body before any engine runs, the ordered result list,
 * and the `/engines` listing.
 *
 * The engine registry is a list of names in registration order; what an
 * engine's `validate`, `is_available`, `get_version` and class docstring
 * give is passed in as functions of the engine name, and so is the
 * preprocessing step, which the running service fixes to
 * `Preprocessing.Preprocess` (see `Deployed`).
 */
module Handler {
  import opened Wrappers
  import opened Strings
  import Base
  import Preprocessing

  /** The names `_init_engines` registers, in order. */
  const ENGINE_NAMES: seq<string> := ["sympy", "maxima", "matlab"]
  const SERVICE := "cas-service"
  const SERVICE_VERSION := "0.1.0"

  /** A decoded JSON value; an object is the dict `json.loads` built, keys in insertion order. */
  datatype Json =
    | JNull
    | JBool(b: bool)
    | JNumber(n: int)
    | JString(s: string)
    | JArray(items: seq<Json>)
    | JObject(fields: seq<(string, Json)>)

  /** Python truthiness of a decoded value. */
  predicate Truthy(v: Json) {
    match v
    case JNull => false
    case JBool(b) => b
    case JNumber(n) => n != 0
    case JString(s) => s != ""
    case JArray(items) => items != []
    case JObject(fields) => fields != []
  }

  /** `dict.get(key)`: the value stored under the key, which for a repeated key is its last one. */
  function Get(fields: seq<(string, Json)>, key: string): (r: Option<Json>)
    ensures r.Some? <==> exists i | 0 <= i < |fields| :: fields[i].0 == key
    ensures r.Some? ==> exists i | 0 <= i < |fields| ::
      fields[i].0 == key && r.value == fields[i].1 && forall j | i < j < |fields| :: fields[j].0 != key
    decreases |fields|
  {
    if fields == [] then None
    else if fields[|fields| - 1].0 == key then Some(fields[|fields| - 1].1)
    else Get(fields[..|fields| - 1], key)
  }

  /** The body as read: the JSON it decodes to, or the decoder's complaint. */
  datatype Body = Decoded(value: Json) | Malformed(message: string)

  datatype Method = GET | POST | OtherMethod(name: string)

  /** A request; `contentLength` is the Content-Length header as an integer, 0 when absent. */
  datatype Request = Request(verb: Method, path: string, contentLength: int, body: Body)

  datatype EngineEntry = EngineEntry(name: string, available: bool, description: string)
  datatype EngineStatus = EngineStatus(available: bool, version: string)

  datatype Payload =
    | ErrorPayload(error: string, code: string, available: Option<seq<string>>)
    | ValidatePayload(results: seq<Base.EngineResult>, latexPreprocessed: string, timeMs: int)
    | HealthPayload(status: string, service: string, uptime: int)
    | StatusPayload(service: string, version: string, uptime: int, engineStatus: seq<(string, EngineStatus)>)
    | EnginesPayload(engines: seq<EngineEntry>)

  /**
   * What the client gets: a JSON reply, the stock 501 reply of the HTTP
   * server for a method without a handler, or nothing: either an exception
   * escapes the handler and the connection is closed, or the handler
   * returns without writing a reply (a body that decodes to JSON `null`).
   */
  datatype Response = Reply(status: int, payload: Payload) | Unsupported | Dropped

  /** The `code` strings of the handler's own error replies. */
  datatype HttpError = NOT_FOUND | INVALID_JSON | INVALID_REQUEST | UNKNOWN_ENGINE {
    function Name(): string {
      match this
      case NOT_FOUND => "NOT_FOUND"
      case INVALID_JSON => "INVALID_JSON"
      case INVALID_REQUEST => "INVALID_REQUEST"
      case UNKNOWN_ENGINE => "UNKNOWN_ENGINE"
    }
  }

  function ErrorReply(status: int, error: string, code: HttpError): Response {
    Reply(status, ErrorPayload(error, code.Name(), None))
  }

  /** The engines known to the service and what they answer. */
  datatype Service = Service(
    names: seq<string>,
    validate: (string, string) -> Base.EngineResult,
    isAvailable: string -> bool,
    version: string -> string,
    doc: string -> string,
    prep: string -> string,
    uptime: int)

  /** The service `_init_engines` builds: the three engines, and `preprocess_latex` before validating. */
  function Deployed(validate: (string, string) -> Base.EngineResult, isAvailable: string -> bool,
                    version: string -> string, doc: string -> string, uptime: int): (svc: Service)
    ensures svc.names == ENGINE_NAMES
    ensures forall latex :: svc.prep(latex) == Preprocessing.Preprocess(latex)
  {
    Service(ENGINE_NAMES, validate, isAvailable, version, doc, Preprocessing.Preprocess, uptime)
  }

  // ----- /validate -----

  /** A step of the checks: a value to go on with, or the reply that ends the request. */
  datatype Checked<T> = Pass(value: T) | Refuse(reply: Response)

  /** `_read_json`: an empty body, then a body that does not decode, is INVALID_JSON. */
  function ReadJson(r: Request): (v: Checked<Json>)
    ensures v.Refuse? <==> r.contentLength == 0 || r.body.Malformed?
    ensures v.Refuse? ==> v.reply.Reply? && v.reply.status == 400 && v.reply.payload.ErrorPayload? && v.reply.payload.code == "INVALID_JSON"
  {
    if r.contentLength == 0 then Refuse(ErrorReply(400, "Request body is empty", INVALID_JSON))
    else match r.body
      case Malformed(message) => Refuse(ErrorReply(400, "Invalid JSON: " + message, INVALID_JSON))
      case Decoded(value) => Pass(value)
  }

  /** Names as JSON strings. */
  function Listed(names: seq<string>): (js: seq<Json>)
    ensures |js| == |names| && forall i | 0 <= i < |names| :: js[i] == JString(names[i])
  {
    if names == [] then [] else Listed(names[..|names| - 1]) + [JString(names[|names| - 1])]
  }

  /** The one-character strings iterating over a string gives. */
  function Chars(s: string): (js: seq<Json>)
    ensures |js| == |s| && forall i | 0 <= i < |s| :: js[i] == JString([s[i]])
  {
    if s == [] then [] else Chars(s[..|s| - 1]) + [JString([s[|s| - 1]])]
  }

  /** The keys iterating over a dict gives. */
  function Keys(fields: seq<(string, Json)>): (js: seq<Json>)
    ensures |js| == |fields| && forall i | 0 <= i < |fields| :: js[i] == JString(fields[i].0)
  {
    if fields == [] then [] else Keys(fields[..|fields| - 1]) + [JString(fields[|fields| - 1].0)]
  }

  /** The texts of JSON strings. */
  function Texts(js: seq<Json>): (ss: seq<string>)
    requires forall i | 0 <= i < |js| :: js[i].JString?
    ensures |ss| == |js| && forall i | 0 <= i < |js| :: ss[i] == js[i].s
  {
    if js == [] then [] else Texts(js[..|js| - 1]) + [js[|js| - 1].s]
  }

  /** The names iterating over the "engines" value gives, or None when it cannot be iterated. */
  function Iterated(v: Json): Option<seq<Json>> {
    match v
    case JArray(items) => Some(items)
    case JString(s) => Some(Chars(s))
    case JObject(fields) => Some(Keys(fields))
    case _ => None
  }

  /** A value Python can look up in a dict (a list or a dict raises TypeError). */
  predicate Hashable(v: Json) {
    !v.JArray? && !v.JObject?
  }

  predicate Registered(v: Json, names: seq<string>) {
    v.JString? && v.s in names
  }

  /** The requested names that are not registered, in request order. */
  function Unknown(requested: seq<Json>, names: seq<string>): (u: seq<Json>)
    ensures |u| <= |requested|
    ensures forall x | x in u :: x in requested && !Registered(x, names)
    ensures u == [] <==> forall i | 0 <= i < |requested| :: Registered(requested[i], names)
    decreases |requested|
  {
    if requested == [] then []
    else (if Registered(requested[0], names) then [] else [requested[0]]) + Unknown(requested[1..], names)
  }

  function JoinNames(u: seq<Json>): string
    requires forall x | x in u :: x.JString?
  {
    Join(seq(|u|, i requires 0 <= i < |u| => u[i].s), ", ")
  }

  /** Why a decoded body is refused before any engine runs, or the latex text and the engine names to run. */
  function Admit(data: Json, names: seq<string>): (a: Checked<(string, seq<string>)>)
    ensures a.Refuse? ==> !(a.reply.Reply? && a.reply.status == 200)
  {
    if !data.JObject? then Refuse(Dropped)
    else
      var latex := Get(data.fields, "latex");
      if latex.None? || !Truthy(latex.value) then
        Refuse(ErrorReply(400, "latex field is required", INVALID_REQUEST))
      else
        var engines := Get(data.fields, "engines");
        var asked := if engines.Some? then Iterated(engines.value) else Some(Listed(names));
        if asked.None? then Refuse(Dropped)
        else AdmitNames(latex.value, asked.value, names)
  }

  /** The checks on the requested names, once they have been iterated. */
  function AdmitNames(latex: Json, asked: seq<Json>, names: seq<string>): (a: Checked<(string, seq<string>)>)
    ensures a.Refuse? ==> !(a.reply.Reply? && a.reply.status == 200)
  {
    if exists i | 0 <= i < |asked| :: !Hashable(asked[i]) then Refuse(Dropped)
    else
      var u := Unknown(asked, names);
      if u != [] then
        if forall x | x in u :: x.JString? then
          Refuse(Reply(422, ErrorPayload("Unknown engine: " + JoinNames(u), UNKNOWN_ENGINE.Name(), Some(names))))
        else Refuse(Dropped)
      else if !latex.JString? then Refuse(Dropped)
      else Pass((latex.s, Texts(asked)))
  }

  /** One result per requested engine, in request order, each on the same text. */
  function Results(svc: Service, asked: seq<string>, pre: string): (rs: seq<Base.EngineResult>)
    ensures |rs| == |asked|
    ensures forall i | 0 <= i < |asked| :: rs[i] == svc.validate(asked[i], pre)
  {
    if asked == [] then [] else Results(svc, asked[..|asked| - 1], pre) + [svc.validate(asked[|asked| - 1], pre)]
  }

  /** The reply to a `/validate` request that passed the checks. */
  function ValidateReply(svc: Service, latex: string, asked: seq<string>, elapsed: int): Response {
    var pre := svc.prep(latex);
    Reply(200, ValidatePayload(Results(svc, asked, pre), pre, elapsed))
  }

  /** `/validate` as a whole: read the body, admit it, then run every asked engine on the preprocessed LaTeX. */
  function ValidateSpec(svc: Service, r: Request, elapsed: int): (resp: Response)
    ensures ReadJson(r).Refuse? ==> resp == ReadJson(r).reply
    ensures (resp.Reply? && resp.status == 200) <==> ReadJson(r).Pass? && Admit(ReadJson(r).value, svc.names).Pass?
    ensures ReadJson(r).Pass? && Admit(ReadJson(r).value, svc.names).Pass? ==>
      var (latex, asked) := Admit(ReadJson(r).value, svc.names).value;
      resp.Reply? && resp.payload.ValidatePayload? && resp.payload.latexPreprocessed == svc.prep(latex)
      && |resp.payload.results| == |asked|
      && forall i | 0 <= i < |asked| :: resp.payload.results[i] == svc.validate(asked[i], svc.prep(latex))
  {
    match ReadJson(r)
    case Refuse(reply) => reply
    case Pass(data) =>
      match Admit(data, svc.names)
      case Refuse(reply) => reply
      case Pass((latex, asked)) => ValidateReply(svc, latex, asked, elapsed)
  }

  /**
   * `_handle_validate`: the checks, then the loop validating the
   * preprocessed text with each requested engine in turn; `calls` records
   * the engines run.
   */
  method HandleValidate(svc: Service, r: Request, elapsed: int) returns (resp: Response, calls: seq<string>)
    ensures resp == ValidateSpec(svc, r, elapsed)
    ensures calls != [] ==> resp.Reply? && resp.status == 200
    ensures resp.Reply? && resp.status == 200 ==> calls == Admit(ReadJson(r).value, svc.names).value.1
    ensures !(resp.Reply? && resp.status == 200) ==> calls == []
  {
    calls := [];
    var data := ReadJson(r);
    if data.Refuse? {
      return data.reply, calls;
    }
    var admitted := Admit(data.value, svc.names);
    if admitted.Refuse? {
      return admitted.reply, calls;
    }
    var (latex, asked) := admitted.value;
    var pre := svc.prep(latex);
    var results: seq<Base.EngineResult> := [];
    for i := 0 to |asked|
      invariant results == Results(svc, asked[..i], pre)
      invariant calls == asked[..i]
    {
      assert asked[..i + 1][..i] == asked[..i];
      assert Results(svc, asked[..i + 1], pre) == Results(svc, asked[..i], pre) + [svc.validate(asked[i], pre)];
      results := results + [svc.validate(asked[i], pre)];
      calls := calls + [asked[i]];
    }
    assert asked[..|asked|] == asked;
    resp := Reply(200, ValidatePayload(results, pre, elapsed));
    assert resp == ValidateReply(svc, latex, asked, elapsed);
  }

  /** A POST to /validate with no body is INVALID_JSON, whatever follows. */
  lemma EmptyBodyIsInvalidJson(svc: Service, r: Request, elapsed: int)
    requires r.verb.POST? && r.path == "/validate" && r.contentLength == 0
    ensures Handle(svc, r, elapsed) == ErrorReply(400, "Request body is empty", INVALID_JSON)
  {
  }

  /** A missing or falsy "latex" is INVALID_REQUEST, before the engines are looked at. */
  lemma MissingLatexIsInvalidRequest(names: seq<string>, fields: seq<(string, Json)>)
    requires Get(fields, "latex").None? || !Truthy(Get(fields, "latex").value)
    ensures Admit(JObject(fields), names) == Refuse(ErrorReply(400, "latex field is required", INVALID_REQUEST))
  {
  }

  /**
   * One unregistered name among the requested ones refuses the whole
   * request with 422 UNKNOWN_ENGINE and the registered names, so no engine
   * runs.
   */
  lemma UnknownEngineRefused(names: seq<string>, fields: seq<(string, Json)>, items: seq<Json>, j: nat)
    requires Get(fields, "latex").Some? && Truthy(Get(fields, "latex").value)
    requires Get(fields, "engines") == Some(JArray(items))
    requires forall i | 0 <= i < |items| :: items[i].JString?
    requires j < |items| && items[j].s !in names
    ensures Admit(JObject(fields), names).Refuse?
    ensures var reply := Admit(JObject(fields), names).reply;
      && reply.Reply? && reply.status == 422 && reply.payload.ErrorPayload?
      && reply.payload.code == "UNKNOWN_ENGINE" && reply.payload.available == Some(names)
  {
    assert !Registered(items[j], names);
    assert Iterated(JArray(items)) == Some(items);
    assert forall i | 0 <= i < |items| :: Hashable(items[i]);
    var u := Unknown(items, names);
    assert u != [];
    assert forall x | x in u :: x.JString?;
  }

  /**
   * With registered names only, every requested engine validates the
   * preprocessed text once per mention, in request order.
   */
  lemma ResultsFollowRequest(svc: Service, r: Request, elapsed: int, latex: string, items: seq<Json>)
    requires r.verb.POST? && r.path == "/validate" && r.contentLength != 0 && r.body.Decoded?
    requires r.body.value.JObject?
    requires Get(r.body.value.fields, "latex") == Some(JString(latex)) && latex != ""
    requires Get(r.body.value.fields, "engines") == Some(JArray(items))
    requires forall i | 0 <= i < |items| :: items[i].JString? && items[i].s in svc.names
    ensures var resp := Handle(svc, r, elapsed);
      && resp.Reply? && resp.status == 200 && resp.payload.ValidatePayload?
      && resp.payload.latexPreprocessed == svc.prep(latex)
      && |resp.payload.results| == |items|
      && forall i | 0 <= i < |items| ::
           resp.payload.results[i] == svc.validate(items[i].s, svc.prep(latex))
  {
    var fields := r.body.value.fields;
    assert forall i | 0 <= i < |items| :: Hashable(items[i]) && Registered(items[i], svc.names);
    assert Iterated(JArray(items)) == Some(items);
    assert Admit(JObject(fields), svc.names) == Pass((latex, Texts(items)));
  }

  /** The names listed as JSON strings read back as the same names. */
  lemma ListedTexts(names: seq<string>)
    ensures forall i | 0 <= i < |Listed(names)| :: Listed(names)[i].JString?
    ensures Texts(Listed(names)) == names
  {
    var asked := Listed(names);
    assert forall i | 0 <= i < |asked| :: asked[i].JString?;
    var ts := Texts(asked);
    assert |ts| == |names|;
    assert forall i | 0 <= i < |names| :: ts[i] == names[i];
  }

  /** Without "engines", the checks pass with every registered name, in registration order. */
  lemma AdmitDefault(names: seq<string>, fields: seq<(string, Json)>, latex: string)
    requires Get(fields, "latex") == Some(JString(latex)) && latex != ""
    requires Get(fields, "engines").None?
    ensures Admit(JObject(fields), names) == Pass((latex, names))
  {
    ListedNamesAdmitted(JString(latex), names);
  }

  /** Every registered name, listed, passes the name checks and reads back unchanged. */
  lemma ListedNamesAdmitted(latex: Json, names: seq<string>)
    requires latex.JString?
    ensures AdmitNames(latex, Listed(names), names) == Pass((latex.s, names))
  {
    ListedTexts(names);
    var asked := Listed(names);
    assert forall i | 0 <= i < |asked| :: Hashable(asked[i]) && Registered(asked[i], names);
    assert Unknown(asked, names) == [];
  }

  /** Without "engines", every registered engine runs, in registration order. */
  lemma DefaultIsEveryEngine(svc: Service, r: Request, elapsed: int, latex: string)
    requires r.verb.POST? && r.path == "/validate" && r.contentLength != 0 && r.body.Decoded?
    requires r.body.value.JObject?
    requires Get(r.body.value.fields, "latex") == Some(JString(latex)) && latex != ""
    requires Get(r.body.value.fields, "engines").None?
    ensures var resp := Handle(svc, r, elapsed);
      && resp.Reply? && resp.status == 200 && resp.payload.ValidatePayload?
      && |resp.payload.results| == |svc.names|
      && forall i | 0 <= i < |svc.names| ::
           resp.payload.results[i] == svc.validate(svc.names[i], svc.prep(latex))
  {
    AdmitDefault(svc.names, r.body.value.fields, latex);
    assert ValidateSpec(svc, r, elapsed) == ValidateReply(svc, latex, svc.names, elapsed);
  }

  /** "engines" given as an empty string iterates over nothing: a 200 reply with no results. */
  lemma EmptyEngineStringRunsNothing(names: seq<string>, fields: seq<(string, Json)>, latex: string)
    requires Get(fields, "latex") == Some(JString(latex)) && latex != ""
    requires Get(fields, "engines") == Some(JString(""))
    ensures Admit(JObject(fields), names) == Pass((latex, []))
  {
    assert Chars("") == [];
  }

  /** Every engine the running service calls sees the text with no two whitespace characters in a row. */
  lemma DeployedEnginesSeeCleanText(svc: Service, r: Request, elapsed: int)
    requires forall latex :: svc.prep(latex) == Preprocessing.Preprocess(latex)
    requires Handle(svc, r, elapsed).Reply? && Handle(svc, r, elapsed).payload.ValidatePayload?
    ensures Preprocessing.NoDoubleSpace(Handle(svc, r, elapsed).payload.latexPreprocessed)
  {
    var data := ReadJson(r);
    var admitted := Admit(data.value, svc.names);
    var latex := admitted.value.0;
    assert Handle(svc, r, elapsed).payload.latexPreprocessed == svc.prep(latex);
  }

  // ----- GET -----

  /** `_handle_engines`: every registered engine, in order, with its availability and description. */
  function EnginesList(svc: Service): (r: Response)
    ensures r.Reply? && r.status == 200 && r.payload.EnginesPayload?
    ensures |r.payload.engines| == |svc.names|
    ensures forall i | 0 <= i < |svc.names| :: r.payload.engines[i].name == svc.names[i]
    ensures forall i | 0 <= i < |svc.names| ::
      r.payload.engines[i].available == svc.isAvailable(svc.names[i])
    ensures forall i | 0 <= i < |svc.names| :: r.payload.engines[i].description == svc.doc(svc.names[i])
  {
    Reply(200, EnginesPayload(seq(|svc.names|, i requires 0 <= i < |svc.names| =>
      EngineEntry(svc.names[i], svc.isAvailable(svc.names[i]), svc.doc(svc.names[i])))))
  }

  /** `_handle_status`: the service's name and version, and each engine's availability and version. */
  function StatusReply(svc: Service): (r: Response)
    ensures r.Reply? && r.status == 200 && r.payload.StatusPayload?
    ensures r.payload.service == "cas-service" && r.payload.version == "0.1.0"
    ensures |r.payload.engineStatus| == |svc.names|
    ensures forall i | 0 <= i < |svc.names| :: r.payload.engineStatus[i].0 == svc.names[i]
    ensures forall i | 0 <= i < |svc.names| ::
      r.payload.engineStatus[i].1 == EngineStatus(svc.isAvailable(svc.names[i]), svc.version(svc.names[i]))
  {
    Reply(200, StatusPayload(SERVICE, SERVICE_VERSION, svc.uptime, seq(|svc.names|, i requires 0 <= i < |svc.names| =>
      (svc.names[i], EngineStatus(svc.isAvailable(svc.names[i]), svc.version(svc.names[i]))))))
  }

  /** `do_POST` and `do_GET`: the route each method and path goes to. */
  function Handle(svc: Service, r: Request, elapsed: int): (resp: Response)
    ensures r.verb.POST? && r.path != "/validate" ==>
      resp == ErrorReply(404, "Not found", NOT_FOUND)
    ensures r.verb.GET? && r.path !in {"/health", "/status", "/engines"} ==>
      resp == ErrorReply(404, "Not found", NOT_FOUND)
    ensures r.verb.OtherMethod? ==> resp == Unsupported
    ensures r.verb.POST? && r.path == "/validate" ==> resp == ValidateSpec(svc, r, elapsed)
    ensures r.verb.GET? && r.path == "/health" ==>
      resp == Reply(200, HealthPayload("ok", "cas-service", svc.uptime))
    ensures r.verb.GET? && r.path == "/status" ==> resp == StatusReply(svc)
    ensures r.verb.GET? && r.path == "/engines" ==> resp == EnginesList(svc)
  {
    match r.verb
    case POST =>
      if r.path == "/validate" then ValidateSpec(svc, r, elapsed)
      else ErrorReply(404, "Not found", NOT_FOUND)
    case GET =>
      if r.path == "/health" then Reply(200, HealthPayload("ok", SERVICE, svc.uptime))
      else if r.path == "/status" then StatusReply(svc)
      else if r.path == "/engines" then EnginesList(svc)
      else ErrorReply(404, "Not found", NOT_FOUND)
    case OtherMethod(_) => Unsupported
  }
}
