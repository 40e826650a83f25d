/** The `env_echo` tool: argument normalisation, the strict input schema, defaulting, and
    the result the handler returns. */
module EnvEchoTool {
  import opened Wrappers
  import opened Environment
  import opened Echo
  import opened Logging

  const ToolName := "env_echo"

  /** `DEFAULT_KEYS`. */
  const DefaultKeys: seq<string> := ["PWD", "WORKSPACE_SLUG"]

  /** The schema's own message for an empty variable name. */
  const EmptyNameMessage := "Environment variable names must be at least one character."

  /** A JSON value as the transport delivers it (numbers kept integral). */
  datatype Json =
    | JNull
    | JBool(b: bool)
    | JNumber(n: int)
    | JString(s: string)
    | JArray(items: seq<Json>)
    | JObject(fields: map<string, Json>)

  /** `parseResult.data`: the fields the schema accepted, each optional. */
  datatype EchoArgs = EchoArgs(keys: Option<seq<string>>, omitNull: Option<bool>)

  /** Why the schema refused a payload. */
  datatype Issue =
    | NotAnObject
    | KeysNotAnArray
    | KeysEmpty
    | KeyNotAString
    | KeyEmpty
    | OmitNullNotABoolean
    | UnrecognizedKeys(names: set<string>)

  /** The handler's first step: when the second argument is missing the call used the
      one-argument convention, so the first argument is the request metadata and there
      are no arguments; `args ?? {}` then turns missing or null arguments into `{}`. */
  function NormalizePayload(maybeArgs: Option<Json>, maybeExtra: Option<Json>): (payload: Json)
    ensures payload != JNull
    ensures maybeExtra.None? ==> payload == JObject(map[])
    ensures maybeExtra.Some? && maybeArgs.Some? && maybeArgs.value != JNull ==> payload == maybeArgs.value
    ensures maybeExtra.Some? && (maybeArgs.None? || maybeArgs.value == JNull) ==> payload == JObject(map[])
  {
    var args := if maybeExtra.None? then None else maybeArgs;
    if args.None? || args.value == JNull then JObject(map[]) else args.value
  }

  /** The `keys` field as the schema describes it: a non-empty array of non-empty strings. */
  predicate ValidKeyList(v: Json)
  {
    v.JArray? && |v.items| > 0
    && forall i :: 0 <= i < |v.items| ==> v.items[i].JString? && v.items[i].s != []
  }

  /** `inputSchema`, a strict object: only `keys` and `omitNull`, both optional, `keys` a
      valid key list and `omitNull` a boolean. */
  predicate ValidPayload(payload: Json)
  {
    payload.JObject?
    && (forall f :: f in payload.fields ==> f == "keys" || f == "omitNull")
    && ("keys" in payload.fields ==> ValidKeyList(payload.fields["keys"]))
    && ("omitNull" in payload.fields ==> payload.fields["omitNull"].JBool?)
  }

  /** A list of names as the JSON array that carries it. */
  function KeysJson(keys: seq<string>): (v: Json)
    ensures v.JArray? && |v.items| == |keys|
    ensures forall i :: 0 <= i < |keys| ==> v.items[i] == JString(keys[i])
  {
    JArray(seq(|keys|, i requires 0 <= i < |keys| => JString(keys[i])))
  }

  /** The strings of an array whose items are all non-empty strings. */
  function CheckKeyItems(items: seq<Json>): (r: Result<seq<string>, Issue>)
    ensures r.Success? <==> forall i :: 0 <= i < |items| ==> items[i].JString? && items[i].s != []
    ensures r.Success? ==> KeysJson(r.value) == JArray(items)
  {
    if |items| == 0 then Success([])
    else if !items[0].JString? then Failure(KeyNotAString)
    else if items[0].s == [] then Failure(KeyEmpty)
    else
      match CheckKeyItems(items[1..])
      case Failure(e) => Failure(e)
      case Success(rest) =>
        var r := [items[0].s] + rest;
        assert KeysJson(r).items == items by {
          assert forall i :: 1 <= i < |items| ==> items[i] == items[1..][i - 1];
        }
        Success(r)
  }

  /** `inputSchema.safeParse(payload)`: the accepted fields, or the first issue found. */
  function Validate(payload: Json): (r: Result<EchoArgs, Issue>)
    ensures r.Success? <==> ValidPayload(payload)
    ensures r.Success? ==>
      (r.value.keys.Some? <==> "keys" in payload.fields)
      && (r.value.keys.Some? ==> payload.fields["keys"] == KeysJson(r.value.keys.value))
      && (r.value.omitNull.Some? <==> "omitNull" in payload.fields)
      && (r.value.omitNull.Some? ==> payload.fields["omitNull"] == JBool(r.value.omitNull.value))
  {
    if !payload.JObject? then Failure(NotAnObject)
    else
      var fields := payload.fields;
      var keys: Result<Option<seq<string>>, Issue> :=
        if "keys" !in fields then Success(None)
        else match fields["keys"]
          case JArray(items) =>
            if |items| == 0 then Failure(KeysEmpty)
            else (match CheckKeyItems(items)
                  case Success(ks) => Success(Some(ks))
                  case Failure(e) => Failure(e))
          case _ => Failure(KeysNotAnArray);
      var omitNull: Result<Option<bool>, Issue> :=
        if "omitNull" !in fields then Success(None)
        else match fields["omitNull"]
          case JBool(b) => Success(Some(b))
          case _ => Failure(OmitNullNotABoolean);
      var unknown := fields.Keys - {"keys", "omitNull"};
      if keys.Failure? then Failure(keys.error)
      else if omitNull.Failure? then Failure(omitNull.error)
      else if unknown != {} then Failure(UnrecognizedKeys(unknown))
      else
        assert forall f :: f in fields ==> f == "keys" || f == "omitNull" by {
          forall f | f in fields ensures f == "keys" || f == "omitNull" {
            assert f !in unknown;
          }
        }
        Success(EchoArgs(keys.value, omitNull.value))
  }

  /** The request a client sends for the given arguments. */
  function EncodeArgs(args: EchoArgs): Json
  {
    var withKeys: map<string, Json> :=
      if args.keys.Some? then map["keys" := KeysJson(args.keys.value)] else map[];
    JObject(if args.omitNull.Some? then withKeys["omitNull" := JBool(args.omitNull.value)] else withKeys)
  }

  /** Arguments the schema admits: a name list, if any, is non-empty and has no empty name. */
  predicate WellFormedArgs(args: EchoArgs)
  {
    args.keys.Some? ==> |args.keys.value| > 0 && forall i :: 0 <= i < |args.keys.value| ==> args.keys.value[i] != []
  }

  /** Validation recovers exactly the arguments a well-formed request was built from. */
  lemma ValidateEncoded(args: EchoArgs)
    requires WellFormedArgs(args)
    ensures Validate(EncodeArgs(args)) == Success(args)
  {
    var p := EncodeArgs(args);
    assert ValidPayload(p);
    var r := Validate(p);
    if args.keys.Some? {
      KeysJsonInjective(r.value.keys.value, args.keys.value);
    }
  }

  lemma KeysJsonInjective(a: seq<string>, b: seq<string>)
    requires KeysJson(a) == KeysJson(b)
    ensures a == b
  {
    assert forall i :: 0 <= i < |a| ==> JString(a[i]) == JString(b[i]);
  }

  /** The object the success text block renders with `JSON.stringify(_, null, 2)`. */
  datatype EchoReport = EchoReport(tool: string, variables: Variables,
                                   workspaceSlug: Option<string>, pwd: Option<string>)

  /** `structuredContent`. */
  datatype EchoOutput = EchoOutput(tool: string, variables: Variables)

  /** One entry of `content`: the error text, or the rendered report. */
  datatype ContentBlock = TextBlock(text: string) | ReportBlock(report: EchoReport)

  datatype CallToolResult = CallToolResult(content: seq<ContentBlock>, isError: bool,
                                           structuredContent: Option<EchoOutput>)

  /** The text of a schema issue. */
  function IssueText(issue: Issue): string
  {
    match issue
    case NotAnObject => "Expected object"
    case KeysNotAnArray => "keys: Expected array"
    case KeysEmpty => "keys: Array must contain at least 1 element(s)"
    case KeyNotAString => "keys: Expected string"
    case KeyEmpty => "keys: " + EmptyNameMessage
    case OmitNullNotABoolean => "omitNull: Expected boolean"
    case UnrecognizedKeys(_) => "Unrecognized key(s) in object"
  }

  /** The names the handler looks up: the requested ones, or `DEFAULT_KEYS`. */
  function KeysToUse(args: EchoArgs): (keys: seq<string>)
    ensures args.keys.Some? && args.keys.value != [] ==> keys == args.keys.value
    ensures args.keys.None? || args.keys.value == [] ==> keys == DefaultKeys
  {
    if args.keys.Some? && |args.keys.value| > 0 then args.keys.value else DefaultKeys
  }

  /** The `env_echo` handler over the (read-only) environment. A payload the schema refuses
      gives an error result with only an explanatory text; any other gives the tool tag and
      the collected variables, both as structured content and in the rendered report, which
      also carries the current WORKSPACE_SLUG and PWD. */
  function HandleEnvEcho(env: Env, maybeArgs: Option<Json>, maybeExtra: Option<Json>): (r: CallToolResult)
    ensures |r.content| == 1
    ensures r.isError <==> !ValidPayload(NormalizePayload(maybeArgs, maybeExtra))
    ensures r.isError <==> r.structuredContent.None?
    ensures r.isError ==>
      r.content[0].TextBlock? && "Invalid arguments: " <= r.content[0].text
    ensures r.structuredContent.Some? ==>
      var out := r.structuredContent.value;
      out.tool == ToolName
      && r.content[0] == ReportBlock(EchoReport(ToolName, out.variables,
                                                Lookup(env, "WORKSPACE_SLUG"), Lookup(env, "PWD")))
  {
    var payload := NormalizePayload(maybeArgs, maybeExtra);
    match Validate(payload)
    case Failure(issue) =>
      CallToolResult([TextBlock("Invalid arguments: " + IssueText(issue))], true, None)
    case Success(args) =>
      var omitNull := if args.omitNull.Some? then args.omitNull.value else false;
      var variables := Collect(env, KeysToUse(args), omitNull);
      var out := EchoOutput(ToolName, variables);
      var report := EchoReport(ToolName, variables, Lookup(env, "WORKSPACE_SLUG"), Lookup(env, "PWD"));
      CallToolResult([ReportBlock(report)], false, Some(out))
  }

  /** A call with only one argument is handled as the empty payload `{}`. */
  lemma SingleArgumentIsEmptyPayload(env: Env, only: Option<Json>, extra: Json)
    ensures HandleEnvEcho(env, only, None) == HandleEnvEcho(env, Some(JObject(map[])), Some(extra))
  {
  }

  /** A valid request echoes exactly the distinct names it asks for (or `PWD` and
      `WORKSPACE_SLUG` when it names none), dropping unset ones under `omitNull`; each
      value is the environment's value or null. */
  lemma ValidRequestEchoes(env: Env, payload: Json, extra: Json)
    requires ValidPayload(payload)
    ensures var r := HandleEnvEcho(env, Some(payload), Some(extra));
      var requested: seq<string> :=
        if "keys" in payload.fields then KeysOfJson(payload.fields["keys"]) else DefaultKeys;
      var omitNull := "omitNull" in payload.fields && payload.fields["omitNull"].b;
      !r.isError
      && (forall k :: k in r.structuredContent.value.variables <==>
            k in requested && (!omitNull || k in env))
      && (forall k :: k in r.structuredContent.value.variables ==>
            r.structuredContent.value.variables[k] == Lookup(env, k))
  {
    var args := Validate(payload).value;
    assert NormalizePayload(Some(payload), Some(extra)) == payload;
    if "keys" in payload.fields {
      var ks := args.keys.value;
      KeysOfKeysJson(ks);
      assert KeysToUse(args) == KeysOfJson(payload.fields["keys"]);
    }
  }

  /** The strings of a JSON array of strings. */
  function KeysOfJson(v: Json): seq<string>
    requires v.JArray?
  {
    seq(|v.items|, i requires 0 <= i < |v.items| => if v.items[i].JString? then v.items[i].s else "")
  }

  lemma KeysOfKeysJson(keys: seq<string>)
    ensures KeysOfJson(KeysJson(keys)) == keys
  {
  }

  /** A request without `keys` echoes exactly `PWD` and `WORKSPACE_SLUG` when both are set. */
  lemma DefaultRequestEchoesIdentity(env: Env, payload: Json, extra: Json)
    requires ValidPayload(payload) && "keys" !in payload.fields
    requires "PWD" in env && "WORKSPACE_SLUG" in env
    ensures HandleEnvEcho(env, Some(payload), Some(extra)).structuredContent
      == Some(EchoOutput(ToolName, map["PWD" := Some(env["PWD"]),
                                       "WORKSPACE_SLUG" := Some(env["WORKSPACE_SLUG"])]))
  {
    var args := Validate(payload).value;
    assert NormalizePayload(Some(payload), Some(extra)) == payload;
    var omitNull := if args.omitNull.Some? then args.omitNull.value else false;
    DefaultKeysCollected(env, omitNull);
  }

  /** With both identity variables set, collecting the default names gives both, null or not. */
  lemma DefaultKeysCollected(env: Env, omitNull: bool)
    requires "PWD" in env && "WORKSPACE_SLUG" in env
    ensures Collect(env, DefaultKeys, omitNull)
      == map["PWD" := Some(env["PWD"]), "WORKSPACE_SLUG" := Some(env["WORKSPACE_SLUG"])]
  {
    var vars := Collect(env, DefaultKeys, omitNull);
    assert vars.Keys == {"PWD", "WORKSPACE_SLUG"};
  }

  /** Each way of breaking the schema named by the tool's description is an error result. */
  lemma SchemaViolationsAreErrors(env: Env, fields: map<string, Json>, extra: Json)
    ensures "keys" in fields && fields["keys"] == JArray([]) ==>
      HandleEnvEcho(env, Some(JObject(fields)), Some(extra)).isError
    ensures "keys" in fields && fields["keys"].JArray? && JString("") in fields["keys"].items ==>
      HandleEnvEcho(env, Some(JObject(fields)), Some(extra)).isError
    ensures "omitNull" in fields && !fields["omitNull"].JBool? ==>
      HandleEnvEcho(env, Some(JObject(fields)), Some(extra)).isError
    ensures (exists f :: f in fields && f != "keys" && f != "omitNull") ==>
      HandleEnvEcho(env, Some(JObject(fields)), Some(extra)).isError
  {
  }

  /** `{keys: ["NOPE"]}` with NOPE unset echoes NOPE as null. */
  lemma UnsetKeyIsNull(env: Env, extra: Json)
    requires "NOPE" !in env
    ensures HandleEnvEcho(env, Some(JObject(map["keys" := JArray([JString("NOPE")])])), Some(extra))
              .structuredContent == Some(EchoOutput(ToolName, map["NOPE" := None]))
  {
    var p := JObject(map["keys" := JArray([JString("NOPE")])]);
    assert ValidPayload(p);
    assert KeysOfJson(p.fields["keys"]) == ["NOPE"];
    ValidRequestEchoes(env, p, extra);
    var out := HandleEnvEcho(env, Some(p), Some(extra)).structuredContent.value;
    assert out.variables.Keys == {"NOPE"};
    assert out.variables == map["NOPE" := None];
  }

  /** `{keys: ["NOPE"], omitNull: true}` with NOPE unset echoes nothing. */
  lemma UnsetKeyIsOmitted(env: Env, extra: Json)
    requires "NOPE" !in env
    ensures HandleEnvEcho(env, Some(JObject(map["keys" := JArray([JString("NOPE")]),
                                                "omitNull" := JBool(true)])), Some(extra))
              .structuredContent == Some(EchoOutput(ToolName, map[]))
  {
    var q := JObject(map["keys" := JArray([JString("NOPE")]), "omitNull" := JBool(true)]);
    assert ValidPayload(q);
    assert KeysOfJson(q.fields["keys"]) == ["NOPE"];
    ValidRequestEchoes(env, q, extra);
    var out := HandleEnvEcho(env, Some(q), Some(extra)).structuredContent.value;
    assert out.variables.Keys == {};
  }

  /** What the handler writes to the diagnostic stream: an error line for a refused
      payload, two debug lines (invoked, returning) for an accepted one. */
  function HandlerDiagnostics(active: Level, maybeArgs: Option<Json>, maybeExtra: Option<Json>): (out: seq<string>)
    ensures active == Silent ==> out == []
    ensures ValidPayload(NormalizePayload(maybeArgs, maybeExtra)) ==>
      |out| == if active == Debug then 2 else 0
    ensures !ValidPayload(NormalizePayload(maybeArgs, maybeExtra)) ==>
      |out| == if active == Silent then 0 else 1
  {
    if ValidPayload(NormalizePayload(maybeArgs, maybeExtra)) then
      Emit(active, Debug, "env_echo invoked with args:") + Emit(active, Debug, "env_echo returning payload.")
    else
      Emit(active, Error, "Invalid arguments:")
  }
}
