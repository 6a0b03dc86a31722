/** The observability tool server: a JSON-RPC peer on stdio that frames its
    messages with `FrameCodec`, answers `initialize`, `tools/list` and
    `tools/call`, and forwards the three query tools to HTTP backends. The
    backends, `JSON.stringify`/`JSON.parse` and the environment are parameters
    gathered in a `Context`. */
module McpServer {
  import opened Wrappers
  import opened Seqs
  import opened Encoding
  import opened JsonValues
  import opened FrameCodec

  // ------------------------------------------------------------- endpoints

  const DEFAULT_LOGS_URL := "http://127.0.0.1:9428"
  const DEFAULT_METRICS_URL := "http://127.0.0.1:8428"
  const DEFAULT_TRACES_URL := "http://127.0.0.1:10428"

  /** The base URLs of the logs, metrics and traces backends. */
  datatype Endpoints = Endpoints(logs: string, metrics: string, traces: string)

  /** `process.env.<key> ?? fallback`. */
  function EnvOr(env: map<string, string>, key: string, fallback: string): string
  {
    if key in env then env[key] else fallback
  }

  /** The base URLs read from the environment, each with its local default. */
  function EndpointsFrom(env: map<string, string>): (ep: Endpoints)
    ensures "OBS_LOGS_URL" !in env ==> ep.logs == DEFAULT_LOGS_URL
    ensures "OBS_METRICS_URL" !in env ==> ep.metrics == DEFAULT_METRICS_URL
    ensures "OBS_TRACES_URL" !in env ==> ep.traces == DEFAULT_TRACES_URL
    ensures "OBS_LOGS_URL" in env ==> ep.logs == env["OBS_LOGS_URL"]
    ensures "OBS_METRICS_URL" in env ==> ep.metrics == env["OBS_METRICS_URL"]
    ensures "OBS_TRACES_URL" in env ==> ep.traces == env["OBS_TRACES_URL"]
  {
    Endpoints(EnvOr(env, "OBS_LOGS_URL", DEFAULT_LOGS_URL),
              EnvOr(env, "OBS_METRICS_URL", DEFAULT_METRICS_URL),
              EnvOr(env, "OBS_TRACES_URL", DEFAULT_TRACES_URL))
  }

  // --------------------------------------------------------- tool registry

  const QUERY_SCHEMA: (string, Json) := ("query", JObj([("type", JStr("string"))]))
  const LIMIT_SCHEMA: (string, Json) :=
    ("limit", JObj([("type", JStr("number")), ("minimum", JNum(1)), ("maximum", JNum(500))]))

  /** One entry of the registry: a name, a description and an input schema
      whose only required property is `query`. */
  function Tool(name: string, description: string, properties: seq<(string, Json)>): Json
  {
    JObj([("name", JStr(name)),
          ("description", JStr(description)),
          ("inputSchema", JObj([("type", JStr("object")),
                                ("properties", JObj(properties)),
                                ("required", JArr([JStr("query")]))]))])
  }

  const TOOL_NAMES: seq<string> := ["query_logs", "query_metrics", "query_traces"]

  /** The registry announced by `tools/list`. */
  const TOOLS: seq<Json> := [
    Tool("query_logs", "Run a LogsQL query against local VictoriaLogs.", [QUERY_SCHEMA, LIMIT_SCHEMA]),
    Tool("query_metrics", "Run a PromQL/MetricsQL query against local VictoriaMetrics.", [QUERY_SCHEMA]),
    Tool("query_traces", "Run a trace query against local VictoriaTraces (LogsQL-compatible adapter).",
         [QUERY_SCHEMA, LIMIT_SCHEMA])
  ]

  // -------------------------------------------------------------- backends

  /** A form POST: the URL and the form fields in order. */
  datatype Post = Post(url: string, form: seq<(string, string)>)

  /** What `fetch` delivers: a status and the body text, or a failure (a
      network error, or the body could not be read) with its message. */
  datatype Reply = Reply(status: int, body: string) | FetchFailed(message: string)

  /** `postForm`: the body text of a 2xx reply, otherwise the message of the
      error it throws. */
  function PostForm(post: Post, reply: Reply): (r: Result<string, string>)
    ensures reply.Reply? && 200 <= reply.status <= 299 ==> r == Ok(reply.body)
    ensures reply.Reply? && !(200 <= reply.status <= 299) ==>
              r == Err("HTTP " + IntText(reply.status) + " from " + post.url + ": " + reply.body)
    ensures reply.FetchFailed? ==> r == Err(reply.message)
  {
    match reply
    case FetchFailed(message) => Err(message)
    case Reply(status, body) =>
      if 200 <= status <= 299 then Ok(body)
      else Err("HTTP " + IntText(status) + " from " + post.url + ": " + body)
  }

  /** Optional chaining `o?.key`. */
  function Member(o: Option<Json>, key: string): Option<Json>
  {
    match o
    case None => None
    case Some(v) => Get(v, key)
  }

  /** `String(args.limit ?? 20)`. */
  function LimitText(args: Json): string
  {
    match Get(args, "limit")
    case None => "20"
    case Some(JNull) => "20"
    case Some(v) => ValueText(v)
  }

  /** `v` is a string among `names` (strict equality: no conversion). */
  predicate IsNameIn(v: Option<Json>, names: seq<string>)
  {
    v.Some? && v.value.JStr? && v.value.s in names
  }

  /** The request `queryLogs`, `queryMetrics` or `queryTraces` sends for the
      tool `name`; `None` for any other name. */
  function ToolRequest(ep: Endpoints, name: Option<Json>, args: Json): (r: Option<Post>)
    ensures r.Some? <==> IsNameIn(name, TOOL_NAMES)
  {
    var query := ("query", JsText(Get(args, "query")));
    if name == Some(JStr("query_logs")) then
      Some(Post(ep.logs + "/select/logsql/query", [query, ("limit", LimitText(args))]))
    else if name == Some(JStr("query_metrics")) then
      Some(Post(ep.metrics + "/prometheus/api/v1/query", [query]))
    else if name == Some(JStr("query_traces")) then
      Some(Post(ep.traces + "/select/logsql/query", [query, ("limit", LimitText(args))]))
    else None
  }

  // ------------------------------------------------------------- dispatch

  /** `asTextResult`: the tool result holding one text item. */
  function AsTextResult(text: string): Json
  {
    JObj([("content", JArr([JObj([("type", JStr("text")), ("text", JStr(text))])]))])
  }

  /** The text the end-to-end check reads back: `result?.content?.[0]?.text`. */
  function ResultText(result: Json): Option<Json>
  {
    match Get(result, "content")
    case Some(JArr(items)) => if items == [] then None else Get(items[0], "text")
    case _ => None
  }

  const INIT_RESULT: Json :=
    JObj([("protocolVersion", JStr("2024-11-05")),
          ("capabilities", JObj([("tools", JObj([]))])),
          ("serverInfo", JObj([("name", JStr("observability-mcp-server")), ("version", JStr("0.0.1"))]))])

  const KNOWN_METHODS: seq<string> := ["initialize", "tools/list", "tools/call", "notifications/initialized"]

  /** Everything the server depends on but does not compute: the backend base
      URLs, the HTTP backends (a reply for every request) and the JSON codec. */
  datatype Context = Context(endpoints: Endpoints, backend: Post -> Reply, codec: JsonCodec)

  /** `handleRequest`: the result value, or the message of the error it throws. */
  function HandleRequest(ctx: Context, request: Json): (r: Result<Json, string>)
    ensures !IsNameIn(Get(request, "method"), KNOWN_METHODS) ==>
              r == Err("Unsupported method: " + JsText(Get(request, "method")))
    ensures Get(request, "method") == Some(JStr("notifications/initialized")) ==> r == Ok(JNull)
  {
    var verb := Get(request, "method");
    if verb == Some(JStr("initialize")) then Ok(INIT_RESULT)
    else if verb == Some(JStr("tools/list")) then Ok(JObj([("tools", JArr(TOOLS))]))
    else if verb == Some(JStr("tools/call")) then
      var params := Get(request, "params");
      var name := Member(params, "name");
      var args := match Member(params, "arguments")
                  case None => JObj([])
                  case Some(JNull) => JObj([])
                  case Some(a) => a;
      match ToolRequest(ctx.endpoints, name, args)
      case None => Err("Unknown tool: " + JsText(name))
      case Some(post) =>
        match PostForm(post, ctx.backend(post))
        case Ok(text) => Ok(AsTextResult(text))
        case Err(e) => Err(e)
    else if verb == Some(JStr("notifications/initialized")) then Ok(JNull)
    else Err("Unsupported method: " + JsText(verb))
  }

  const ERROR_CODE := -32000

  /** The response written for a message with `id`: the result, or the error
      with code -32000 and the thrown error's message. */
  function Response(id: Json, outcome: Result<Json, string>): Json
  {
    match outcome
    case Ok(result) => JObj([("jsonrpc", JStr("2.0")), ("id", id), ("result", result)])
    case Err(message) =>
      JObj([("jsonrpc", JStr("2.0")), ("id", id),
            ("error", JObj([("code", JNum(ERROR_CODE)), ("message", JStr(message))]))])
  }

  // ------------------------------------------------------ dispatch lemmas

  lemma ToolName(name: string, description: string, properties: seq<(string, Json)>)
    ensures Get(Tool(name, description, properties), "name") == Some(JStr(name))
  {
    var members := Tool(name, description, properties).members;
    assert members[..1] == [("name", JStr(name))];
    LookupLater(members[..1], "description", JStr(description), "name");
    assert members[..2] == members[..1] + [("description", JStr(description))];
    assert members == members[..2] + [members[2]];
    LookupLater(members[..2], "inputSchema", members[2].1, "name");
  }

  /** The registry lists exactly the names the dispatcher routes, in order. */
  lemma RegistryMatchesDispatch(ep: Endpoints, args: Json)
    ensures |TOOLS| == |TOOL_NAMES|
    ensures forall i :: 0 <= i < |TOOLS| ==> Get(TOOLS[i], "name") == Some(JStr(TOOL_NAMES[i]))
    ensures forall i :: 0 <= i < |TOOLS| ==> ToolRequest(ep, Get(TOOLS[i], "name"), args).Some?
  {
    forall i | 0 <= i < |TOOLS| ensures Get(TOOLS[i], "name") == Some(JStr(TOOL_NAMES[i])) {
      match i
      case 0 => ToolName("query_logs", "Run a LogsQL query against local VictoriaLogs.", [QUERY_SCHEMA, LIMIT_SCHEMA]);
      case 1 => ToolName("query_metrics", "Run a PromQL/MetricsQL query against local VictoriaMetrics.", [QUERY_SCHEMA]);
      case 2 => ToolName("query_traces", "Run a trace query against local VictoriaTraces (LogsQL-compatible adapter).",
                         [QUERY_SCHEMA, LIMIT_SCHEMA]);
    }
  }

  /** `tools/call` with a name outside the registry fails with "Unknown tool",
      whatever the backends would answer. */
  lemma UnknownTool(ctx: Context, request: Json)
    requires Get(request, "method") == Some(JStr("tools/call"))
    requires !IsNameIn(Member(Get(request, "params"), "name"), TOOL_NAMES)
    ensures HandleRequest(ctx, request) == Err("Unknown tool: " + JsText(Member(Get(request, "params"), "name")))
  {
  }

  /** Without a `limit` argument (or with a null one) the logs and traces
      queries ask for 20 entries; the metrics query sends no limit. */
  lemma DefaultLimit(ep: Endpoints, args: Json)
    requires Get(args, "limit").None? || Get(args, "limit") == Some(JNull)
    ensures ToolRequest(ep, Some(JStr("query_logs")), args).value.form ==
            [("query", JsText(Get(args, "query"))), ("limit", "20")]
    ensures ToolRequest(ep, Some(JStr("query_traces")), args).value.form ==
            [("query", JsText(Get(args, "query"))), ("limit", "20")]
    ensures ToolRequest(ep, Some(JStr("query_metrics")), args).value.form ==
            [("query", JsText(Get(args, "query")))]
  {
  }

  /** A successful tool call answers with the backend's body as the one text
      item, which is exactly what `result.content[0].text` reads back. */
  lemma ToolCallText(ctx: Context, request: Json, post: Post)
    requires Get(request, "method") == Some(JStr("tools/call"))
    requires var params := Get(request, "params");
             var args := match Member(params, "arguments")
                         case None => JObj([])
                         case Some(JNull) => JObj([])
                         case Some(a) => a;
             ToolRequest(ctx.endpoints, Member(params, "name"), args) == Some(post)
    requires ctx.backend(post).Reply? && 200 <= ctx.backend(post).status <= 299
    ensures HandleRequest(ctx, request).Ok?
    ensures ResultText(HandleRequest(ctx, request).value) == Some(JStr(ctx.backend(post).body))
  {
  }

  /** A failing backend call (a non-2xx status or a failed fetch) makes the
      tool call throw that error. */
  lemma ToolCallFailure(ctx: Context, request: Json, post: Post)
    requires Get(request, "method") == Some(JStr("tools/call"))
    requires var params := Get(request, "params");
             var args := match Member(params, "arguments")
                         case None => JObj([])
                         case Some(JNull) => JObj([])
                         case Some(a) => a;
             ToolRequest(ctx.endpoints, Member(params, "name"), args) == Some(post)
    requires !(ctx.backend(post).Reply? && 200 <= ctx.backend(post).status <= 299)
    ensures HandleRequest(ctx, request).Err?
    ensures ctx.backend(post).FetchFailed? ==> HandleRequest(ctx, request) == Err(ctx.backend(post).message)
    ensures ctx.backend(post).Reply? ==>
              HandleRequest(ctx, request) ==
              Err("HTTP " + IntText(ctx.backend(post).status) + " from " + post.url + ": " + ctx.backend(post).body)
  {
  }

  /** `initialize` answers with protocol version 2024-11-05 and the server's
      name; `tools/list` answers with the registry. */
  lemma HandshakeAndListing(ctx: Context, request: Json)
    ensures Get(request, "method") == Some(JStr("initialize")) ==>
              HandleRequest(ctx, request) == Ok(INIT_RESULT) &&
              Get(INIT_RESULT, "protocolVersion") == Some(JStr("2024-11-05")) &&
              Member(Get(INIT_RESULT, "serverInfo"), "name") == Some(JStr("observability-mcp-server"))
    ensures Get(request, "method") == Some(JStr("tools/list")) ==>
              HandleRequest(ctx, request).Ok? &&
              Get(HandleRequest(ctx, request).value, "tools") == Some(JArr(TOOLS))
  {
    var info := [("name", JStr("observability-mcp-server")), ("version", JStr("0.0.1"))];
    assert info[..1] == [("name", JStr("observability-mcp-server"))];
    var members := INIT_RESULT.members;
    assert members[..1] == [("protocolVersion", JStr("2024-11-05"))];
    assert members[..2][..1] == members[..1];
    LookupLater(members[..2], "serverInfo", members[2].1, "protocolVersion");
    assert members[..2] + [members[2]] == members;
  }

  /** Every response carries `jsonrpc: "2.0"` and the request's id, and then
      either the result or an error whose code is -32000. */
  lemma ResponseShape(id: Json, outcome: Result<Json, string>)
    ensures var resp := Response(id, outcome);
            Get(resp, "jsonrpc") == Some(JStr("2.0")) && Get(resp, "id") == Some(id)
    ensures outcome.Ok? ==> Get(Response(id, outcome), "result") == Some(outcome.value)
    ensures outcome.Ok? ==> Get(Response(id, outcome), "error").None?
    ensures outcome.Err? ==> Get(Response(id, outcome), "result").None?
    ensures outcome.Err? ==> Member(Get(Response(id, outcome), "error"), "code") == Some(JNum(-32000))
    ensures outcome.Err? ==> Member(Get(Response(id, outcome), "error"), "message") == Some(JStr(outcome.error))
  {
    var head := [("jsonrpc", JStr("2.0")), ("id", id)];
    assert Lookup(head, "jsonrpc") == Some(JStr("2.0")) by {
      assert head[..1] == [("jsonrpc", JStr("2.0"))];
    }
    assert Lookup(head, "id") == Some(id);
    match outcome
    case Ok(result) =>
      assert Response(id, outcome).members == head + [("result", result)];
      LookupLater(head, "result", result, "jsonrpc");
      LookupLater(head, "result", result, "id");
      LookupLater(head, "result", result, "error");
      LookupFinds(head, "error");
    case Err(message) =>
      var error := JObj([("code", JNum(ERROR_CODE)), ("message", JStr(message))]);
      assert Response(id, outcome).members == head + [("error", error)];
      LookupLater(head, "error", error, "jsonrpc");
      LookupLater(head, "error", error, "id");
      LookupLater(head, "error", error, "result");
      LookupFinds(head, "result");
      assert Lookup(error.members, "code") == Some(JNum(-32000)) by {
        assert error.members[..1] == [("code", JNum(ERROR_CODE))];
      }
  }

  // -------------------------------------------------------------- draining

  /** What a drain pass needs from the server: the JSON codec it reads
      frames with and the `handleRequest` it answers them with. */
  datatype Handler = Handler(codec: JsonCodec, handle: Json -> Result<Json, string>)

  /** The server's own: its codec and `HandleRequest` in its context. */
  function ServerHandler(ctx: Context): (h: Handler)
    ensures h.codec == ctx.codec
  {
    Handler(ctx.codec, request => HandleRequest(ctx, request))
  }

  const MISSING_LENGTH_ERROR := "Error: Missing Content-Length header"

  /** Why a drain pass ended: no complete frame is left (`tryReadFrame`
      returned null), a falsy message stopped it (`if (!message) break`), or
      `tryReadFrame` threw, with the text of the error. */
  datatype Stop = Idle | FalsyMessage | Failed(error: string)

  /** The responses of a drain pass in the order written, the buffer it
      leaves and why it stopped. */
  datatype Drained = Drained(replies: seq<Json>, buffer: seq<Byte>, stop: Stop)

  /** One pass of the `data` handler's loop over the buffer `buf`. A missing
      length line throws before anything is consumed; a length that is not a
      number makes `JSON.parse("")` throw, again with nothing consumed; a
      payload that does not parse throws after the frame has been sliced off. */
  function Drain(h: Handler, buf: seq<Byte>): (d: Drained)
    decreases |buf|
  {
    match ReadFrame(buf)
    case NeedMore => Drained([], buf, Idle)
    case MissingLength => Drained([], buf, Failed(MISSING_LENGTH_ERROR))
    case BadLength => Drained([], buf, Failed(EMPTY_INPUT_ERROR))
    case Complete(payload, rest) =>
      match h.codec.parse(payload)
      case SyntaxError(text) => Drained([], rest, Failed(text))
      case Parsed(message) =>
        if Falsy(message) then Drained([], rest, FalsyMessage)
        else
          var d := Drain(h, rest);
          match Get(message, "id")
          case None => d
          case Some(id) => d.(replies := [Response(id, h.handle(message))] + d.replies)
  }

  /** `Content-Length: 0` reaches the same `JSON.parse("")` as a length that
      is not a number: the pass fails with the same error, once the empty
      frame has been sliced off. */
  lemma EmptyPayloadFails(h: Handler, buf: seq<Byte>)
    requires ReadFrame(buf).Complete? && ReadFrame(buf).payload == []
    ensures Drain(h, buf) == Drained([], ReadFrame(buf).rest, Failed(EMPTY_INPUT_ERROR))
  {
  }

  /** The responses the server owes a sequence of messages: one per message
      that has an id, in order. */
  function Replies(h: Handler, messages: seq<Json>): seq<Json>
  {
    if messages == [] then []
    else
      var later := Replies(h, messages[1..]);
      match Get(messages[0], "id")
      case None => later
      case Some(id) => [Response(id, h.handle(messages[0]))] + later
  }

  /** The ids of those messages that have one, in order. */
  function Ids(messages: seq<Json>): seq<Json>
  {
    if messages == [] then []
    else
      match Get(messages[0], "id")
      case None => Ids(messages[1..])
      case Some(id) => [id] + Ids(messages[1..])
  }

  /** Exactly one response per message with an id: the k-th response answers
      the k-th id, and each answers its own message. */
  lemma {:induction false} RepliesPerId(h: Handler, messages: seq<Json>)
    ensures |Replies(h, messages)| == |Ids(messages)|
    ensures forall k :: 0 <= k < |Ids(messages)| ==> Get(Replies(h, messages)[k], "id") == Some(Ids(messages)[k])
    decreases |messages|
  {
    if messages != [] {
      RepliesPerId(h, messages[1..]);
      match Get(messages[0], "id")
      case None =>
      case Some(id) =>
        ResponseShape(id, h.handle(messages[0]));
        var r := Replies(h, messages);
        var later := Replies(h, messages[1..]);
        assert r == [Response(id, h.handle(messages[0]))] + later;
        forall k | 0 <= k < |Ids(messages)| ensures Get(r[k], "id") == Some(Ids(messages)[k]) {
          if k > 0 {
            assert r[k] == later[k - 1];
          }
        }
    }
  }

  /** What a pass leaves is a suffix of what it started on, and when it ends
      normally no complete frame is left in it. */
  lemma {:induction false} DrainLeaves(h: Handler, buf: seq<Byte>)
    ensures IsSuffix(Drain(h, buf).buffer, buf)
    ensures Drain(h, buf).stop == Idle ==> ReadFrame(Drain(h, buf).buffer) == NeedMore
    decreases |buf|
  {
    match ReadFrame(buf)
    case Complete(payload, rest) =>
      ReadFrameSlices(buf);
      assert IsSuffix(rest, buf);
      if h.codec.parse(payload).Parsed? && !Falsy(h.codec.parse(payload).value) {
        DrainLeaves(h, rest);
        SuffixTransitive(Drain(h, rest).buffer, rest, buf);
      }
    case _ =>
  }

  /** The messages carried by `payloads`, when every one of them parses to a
      truthy value. */
  predicate AllTruthy(codec: JsonCodec, payloads: seq<seq<Byte>>)
  {
    forall i :: 0 <= i < |payloads| ==> codec.parse(payloads[i]).Parsed? && !Falsy(codec.parse(payloads[i]).value)
  }

  /** The drain pass takes exactly the frames `SplitFrames` finds, when all
      their messages are truthy: it answers their messages and leaves what
      the split leaves, stopping on the split's own reason. */
  lemma {:induction false} DrainFollowsSplit(h: Handler, buf: seq<Byte>)
    requires AllTruthy(h.codec, SplitFrames(buf).payloads)
    ensures Drain(h, buf) == SplitDrained(h, SplitFrames(buf))
    decreases |buf|
  {
    match ReadFrame(buf)
    case Complete(p, rest) =>
      SplitFramesStep(buf, p, rest);
      TruthyLater(h.codec, SplitFrames(buf).payloads, p, SplitFrames(rest).payloads);
      DrainFollowsSplit(h, rest);
      FollowsSplitStep(h, buf, p, rest);
    case _ =>
      SplitFramesNone(buf);
  }

  /** The pass a split predicts: the answers to the split's messages, the
      split's leftover bytes, and the split's reason for stopping. */
  function SplitDrained(h: Handler, s: Frames): Drained
    requires AllTruthy(h.codec, s.payloads)
  {
    Drained(Replies(h, Values(h.codec, s.payloads)), s.rest,
            match s.stop
            case MissingLength => Failed(MISSING_LENGTH_ERROR)
            case BadLength => Failed(EMPTY_INPUT_ERROR)
            case _ => Idle)
  }

  lemma TruthyLater(codec: JsonCodec, ps: seq<seq<Byte>>, p: seq<Byte>, later: seq<seq<Byte>>)
    requires ps == [p] + later && AllTruthy(codec, ps)
    ensures AllTruthy(codec, later)
  {
    forall i | 0 <= i < |later| ensures codec.parse(later[i]).Parsed? && !Falsy(codec.parse(later[i]).value) {
      assert later[i] == ps[i + 1];
    }
  }

  lemma FollowsSplitStep(h: Handler, buf: seq<Byte>, p: seq<Byte>, rest: seq<Byte>)
    requires ReadFrame(buf) == Complete(p, rest)
    requires SplitFrames(buf) ==
             Frames([p] + SplitFrames(rest).payloads, SplitFrames(rest).rest, SplitFrames(rest).stop)
    requires AllTruthy(h.codec, SplitFrames(buf).payloads)
    requires AllTruthy(h.codec, SplitFrames(rest).payloads)
    requires Drain(h, rest) == SplitDrained(h, SplitFrames(rest))
    ensures Drain(h, buf) == SplitDrained(h, SplitFrames(buf))
  {
    var ps := SplitFrames(buf).payloads;
    assert ps[0] == p;
    var message := h.codec.parse(p).value;
    DrainStep(h, buf, p, rest, message);
    RepliesCons(h, ps, p, SplitFrames(rest).payloads);
  }

  /** The messages of the split, one payload off the front. */
  lemma RepliesCons(h: Handler, ps: seq<seq<Byte>>, p: seq<Byte>, later: seq<seq<Byte>>)
    requires ps == [p] + later && AllTruthy(h.codec, ps) && AllTruthy(h.codec, later)
    ensures Replies(h, Values(h.codec, ps)) ==
            Replies(h, [h.codec.parse(p).value]) + Replies(h, Values(h.codec, later))
  {
    var ms := Values(h.codec, ps);
    assert ms[1..] == Values(h.codec, later);
    var m := h.codec.parse(p).value;
    assert [m][1..] == [];
  }

  /** A whole stream of frames of truthy messages that the codec reads back
      is answered message by message and leaves nothing buffered. */
  lemma DrainWholeFrames(h: Handler, messages: seq<Json>)
    requires forall i :: 0 <= i < |messages| ==> Inverts(h.codec, messages[i]) && !Falsy(messages[i])
    ensures Drain(h, EncodeFrames(Payloads(h.codec, messages))) == Drained(Replies(h, messages), [], Idle)
  {
    var ps := Payloads(h.codec, messages);
    SplitWholeFrames(ps);
    assert AllTruthy(h.codec, ps);
    DrainFollowsSplit(h, EncodeFrames(ps));
    assert Values(h.codec, ps) == messages;
  }

  /** A falsy message stops the pass with later complete frames still
      buffered: after a `null` frame the next frame is neither read nor
      answered, although all of it has arrived. */
  lemma FalsyMessageStalls(h: Handler, next: Json)
    requires Inverts(h.codec, JNull)
    ensures var tail := EncodeFrame(Utf8(h.codec.stringify(next)));
            var d := Drain(h, EncodeFrame(Utf8(h.codec.stringify(JNull))) + tail);
            d == Drained([], tail, FalsyMessage) && ReadFrame(d.buffer).Complete?
  {
    var tail := EncodeFrame(Utf8(h.codec.stringify(next)));
    ReadFrameEncoded(Utf8(h.codec.stringify(JNull)), tail);
    RoundTrip(Utf8(h.codec.stringify(next)));
    assert tail + [] == tail;
  }

  /** The responses owed a single message: one exactly when it has an id. */
  lemma RepliesOfOne(h: Handler, message: Json)
    ensures Get(message, "id").None? ==> Replies(h, [message]) == []
    ensures Get(message, "id").Some? ==>
      Replies(h, [message]) == [Response(Get(message, "id").value, h.handle(message))]
  {
    assert [message][1..] == [];
  }

  /** One step of a pass: a truthy message at the front is answered (when it
      has an id) before whatever the rest of the buffer gets. */
  lemma DrainStep(h: Handler, buf: seq<Byte>, p: seq<Byte>, rest: seq<Byte>, message: Json)
    requires ReadFrame(buf) == Complete(p, rest)
    requires h.codec.parse(p) == Parsed(message) && !Falsy(message)
    ensures Drain(h, buf) ==
            Drained(Replies(h, [message]) + Drain(h, rest).replies, Drain(h, rest).buffer, Drain(h, rest).stop)
  {
    var d := Drain(h, rest);
    RepliesOfOne(h, message);
    match Get(message, "id")
    case None =>
      assert [] + d.replies == d.replies;
    case Some(id) =>
  }

  /** Chunk boundaries do not matter to a pass that ends normally: draining
      `a`, then draining what it left with `b` appended, answers the same
      messages and leaves the same bytes as draining `a + b` at once. */
  lemma {:induction false} DrainChunked(h: Handler, a: seq<Byte>, b: seq<Byte>)
    requires Drain(h, a).stop == Idle
    ensures var da := Drain(h, a);
            var db := Drain(h, da.buffer + b);
            Drain(h, a + b) == Drained(da.replies + db.replies, db.buffer, db.stop)
    decreases |a|
  {
    match ReadFrame(a)
    case Complete(p, rest) =>
      ReadFrameExtend(a, b);
      var message := h.codec.parse(p).value;
      DrainStep(h, a, p, rest, message);
      DrainStep(h, a + b, p, rest + b, message);
      DrainChunked(h, rest, b);
      var dr := Drain(h, rest);
      AppendAssoc(Replies(h, [message]), dr.replies, Drain(h, dr.buffer + b).replies);
    case NeedMore =>
      var db := Drain(h, a + b);
      assert [] + db.replies == db.replies;
  }

  // ---------------------------------------------------------------- server

  /** A pass that has already written `answered` and goes on as `d`. */
  function Continued(answered: seq<Json>, d: Drained): Drained
  {
    Drained(answered + d.replies, d.buffer, d.stop)
  }

  lemma ContinuedTwice(answered: seq<Json>, more: seq<Json>, d: Drained)
    ensures Continued(answered, Continued(more, d)) == Continued(answered + more, d)
  {
    AppendAssoc(answered, more, d.replies);
  }

  /** Writing the frames of more responses extends the output by them. */
  lemma OutputGrows(codec: JsonCodec, start: seq<Byte>, answered: seq<Json>, more: seq<Json>,
                    written: seq<Byte>, now: seq<Byte>)
    requires written == start + EncodeFrames(Payloads(codec, answered))
    requires now == written + EncodeFrames(Payloads(codec, more))
    ensures now == start + EncodeFrames(Payloads(codec, answered + more))
  {
    PayloadsConcat(codec, answered, more);
    EncodeFramesConcat(Payloads(codec, answered), Payloads(codec, more));
    AppendAssoc(start, EncodeFrames(Payloads(codec, answered)), EncodeFrames(Payloads(codec, more)));
  }

  lemma PayloadsConcat(codec: JsonCodec, xs: seq<Json>, ys: seq<Json>)
    ensures Payloads(codec, xs + ys) == Payloads(codec, xs) + Payloads(codec, ys)
  {
    var ps := Payloads(codec, xs + ys);
    var qs := Payloads(codec, xs) + Payloads(codec, ys);
    assert |ps| == |qs|;
    forall i | 0 <= i < |ps| ensures ps[i] == qs[i] {
      if i < |xs| {
        assert (xs + ys)[i] == xs[i];
      } else {
        assert (xs + ys)[i] == ys[i - |xs|];
      }
    }
  }

  lemma {:induction false} EncodeFramesConcat(ps: seq<seq<Byte>>, qs: seq<seq<Byte>>)
    ensures EncodeFrames(ps + qs) == EncodeFrames(ps) + EncodeFrames(qs)
    decreases |ps|
  {
    if ps != [] {
      assert (ps + qs)[1..] == ps[1..] + qs;
      EncodeFramesConcat(ps[1..], qs);
      AppendAssoc(EncodeFrame(ps[0]), EncodeFrames(ps[1..]), EncodeFrames(qs));
    } else {
      assert ps + qs == qs;
    }
  }

  /** The frames of one response are its one frame. */
  lemma SingleFrame(codec: JsonCodec, response: Json)
    ensures EncodeFrames(Payloads(codec, [response])) == EncodeFrame(Utf8(codec.stringify(response)))
  {
    var p := Utf8(codec.stringify(response));
    var ps: seq<seq<Byte>> := [p];
    assert Payloads(codec, [response]) == ps;
    assert ps[1..] == [];
    assert EncodeFrame(p) + [] == EncodeFrame(p);
  }

  /** What `tryReadFrame` hands back: null, a parsed message, or the text of
      the error it throws. */
  datatype FrameRead = NoFrame | Message(value: Json) | Threw(error: string)

  lemma ContinuedEnd(answered: seq<Json>, buf: seq<Byte>, stop: Stop)
    ensures Continued(answered, Drained([], buf, stop)) == Drained(answered, buf, stop)
  {
    assert answered + [] == answered;
  }

  /** `tryReadFrame` run on `before` returns `read` and leaves `after`. */
  predicate ReadsAs(codec: JsonCodec, before: seq<Byte>, read: FrameRead, after: seq<Byte>)
  {
    match ReadFrame(before)
    case NeedMore => read == NoFrame && after == before
    case MissingLength => read == Threw(MISSING_LENGTH_ERROR) && after == before
    case BadLength => read == Threw(EMPTY_INPUT_ERROR) && after == before
    case Complete(payload, rest) =>
      after == rest &&
      read == match codec.parse(payload)
              case Parsed(message) => Message(message)
              case SyntaxError(text) => Threw(text)
  }

  /** A pass, seen one `tryReadFrame` at a time: what it does after each
      outcome. */
  lemma DrainAfterRead(h: Handler, before: seq<Byte>, read: FrameRead, after: seq<Byte>)
    requires ReadsAs(h.codec, before, read, after)
    ensures read.NoFrame? ==> Drain(h, before) == Drained([], before, Idle)
    ensures read.Threw? ==> Drain(h, before) == Drained([], after, Failed(read.error))
    ensures read.Message? && Falsy(read.value) ==> Drain(h, before) == Drained([], after, FalsyMessage)
    ensures read.Message? && !Falsy(read.value) ==>
              |after| < |before| && Drain(h, before) == Continued(Replies(h, [read.value]), Drain(h, after))
  {
    match ReadFrame(before)
    case NeedMore =>
    case MissingLength =>
    case BadLength =>
    case Complete(payload, rest) =>
      match h.codec.parse(payload)
      case SyntaxError(text) =>
      case Parsed(message) =>
        if !Falsy(message) {
          DrainStep(h, before, payload, rest, message);
        }
  }

  /** The server process: its request handler, the module-level `buffer`,
      and everything written to stdout and stderr so far. */
  class Server {
    const handler: Handler
    var buffer: seq<Byte>
    var output: seq<Byte>
    var diagnostics: string

    constructor (ctx: Context)
      ensures handler == ServerHandler(ctx) && buffer == [] && output == [] && diagnostics == ""
    {
      handler := ServerHandler(ctx);
      buffer := [];
      output := [];
      diagnostics := "";
    }

    /** `writeMessage`: one frame on stdout, announcing the payload's UTF-8
        byte count. */
    method WriteMessage(message: Json)
      modifies this`output
      ensures output == old(output) + EncodeFrame(Utf8(handler.codec.stringify(message)))
    {
      var payload := handler.codec.stringify(message);
      var framed := FrameText(payload);
      FrameTextBytes(payload);
      output := output + Utf8(framed);
    }

    /** `tryReadFrame`: nothing is consumed unless a whole frame is there, a
        header without a length line throws with the buffer untouched, and a
        frame that is there is sliced off before its payload is parsed. */
    method TryReadFrame() returns (r: FrameRead)
      modifies this`buffer
      ensures ReadsAs(handler.codec, old(buffer), r, buffer)
    {
      var headerEnd := IndexOf(buffer, SEPARATOR);
      if headerEnd.None? {
        return NoFrame;
      }
      var h := headerEnd.value;
      match ReadHeader(buffer[..h])
      case NoLengthLine =>
        return Threw(MISSING_LENGTH_ERROR);
      case Announced(NotANumber) =>
        // the frame end is NaN: nothing is sliced off and `JSON.parse("")` throws
        return Threw(EMPTY_INPUT_ERROR);
      case Announced(Length(n)) =>
        var frameStart := h + 4;
        var frameEnd := frameStart + n;
        if |buffer| < frameEnd {
          return NoFrame;
        }
        var json := buffer[frameStart..frameEnd];
        buffer := buffer[frameEnd..];
        match handler.codec.parse(json)
        case Parsed(message) => r := Message(message);
        case SyntaxError(text) => r := Threw(text);
    }

    /** The `data` handler: append the chunk, then answer frame after frame
        until no complete frame is left, a message is falsy, or reading one
        throws (reported on stderr). Stdout receives exactly the responses of
        `Drain`, and the buffer keeps what `Drain` leaves. */
    method OnData(chunk: seq<Byte>)
      modifies this`buffer, this`output, this`diagnostics
      ensures var d := Drain(handler, old(buffer) + chunk);
              buffer == d.buffer &&
              output == old(output) + EncodeFrames(Payloads(handler.codec, d.replies)) &&
              diagnostics == old(diagnostics) + if d.stop.Failed? then "Failed to parse frame: " + d.stop.error + "\n" else ""
    {
      buffer := buffer + chunk;
      ghost var goal := Drain(handler, buffer);
      ghost var answered: seq<Json> := [];
      assert answered + goal.replies == goal.replies;
      while true
        invariant goal == Continued(answered, Drain(handler, buffer))
        invariant output == old(output) + EncodeFrames(Payloads(handler.codec, answered))
        invariant diagnostics == old(diagnostics)
        decreases |buffer|
      {
        ghost var before := buffer;
        var read := TryReadFrame();
        DrainAfterRead(handler, before, read, buffer);
        if !(read.Message? && !Falsy(read.value)) {
          ContinuedEnd(answered, buffer, Drain(handler, before).stop);
        }
        if read.Threw? {
          var note := "Failed to parse frame: " + read.error + "\n";
          diagnostics := diagnostics + note;
          return;
        }
        assert diagnostics + "" == diagnostics;
        if read.NoFrame? {
          break;
        }
        var message := read.value;
        if Falsy(message) {
          break;
        }
        ghost var written := output;
        Respond(message);
        OutputGrows(handler.codec, old(output), answered, Replies(handler, [message]), written, output);
        ContinuedTwice(answered, Replies(handler, [message]), Drain(handler, buffer));
        answered := answered + Replies(handler, [message]);
      }
    }

    /** The answering half of the data loop in `server.mjs`: a message without
        an id gets no answer; any other gets one response frame, with its
        result or its error. */
    method Respond(message: Json)
      modifies this`output
      ensures output == old(output) + EncodeFrames(Payloads(handler.codec, Replies(handler, [message])))
    {
      RepliesOfOne(handler, message);
      var id := Get(message, "id");
      if id.None? {
        assert output + [] == output;
        return;
      }
      var response := Response(id.value, handler.handle(message));
      WriteMessage(response);
      SingleFrame(handler.codec, response);
    }
  }
}
