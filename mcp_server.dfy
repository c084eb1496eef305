/** The JSON-RPC 2.0 dispatcher of the MCP server: a registry of tools
    with their handlers, the routing of one request to initialize,
    notifications/initialized, tools/list or tools/call, the error
    responses of JSON-RPC, and the main loop that answers the messages a
    transport delivers until an empty one arrives. */
module McpServer {
  import opened Text
  import opened Ordering

  // ---------------------------------------------------------------------
  // JSON values, as far as the dispatcher looks into them

  /** A JSON value; an object keeps its members by name, as nlohmann's
      ordered std::map does. */
  datatype Json =
    | Null
    | Bool(b: bool)
    | Num(n: int)
    | Str(s: string)
    | Arr(items: seq<Json>)
    | Obj(fields: map<string, Json>)

  /** json::contains: only an object contains a key. */
  predicate HasKey(j: Json, key: string)
  {
    j.Obj? && key in j.fields
  }

  /** json::empty: null, an empty object and an empty array are empty. */
  predicate Empty(j: Json)
  {
    j.Null? || (j.Obj? && j.fields == map[]) || (j.Arr? && j.items == [])
  }

  /** json::type_name, as the library spells it in its messages. */
  function TypeName(j: Json): string
  {
    match j
    case Null => "null"
    case Bool(_) => "boolean"
    case Num(_) => "number"
    case Str(_) => "string"
    case Arr(_) => "array"
    case Obj(_) => "object"
  }

  /** The message of the type_error a conversion to std::string throws. */
  function NotString(j: Json): string
  {
    "[json.exception.type_error.302] type must be string, but is " + TypeName(j)
  }

  /** The message of the type_error json::value throws on a non-object. */
  function NoValue(j: Json): string
  {
    "[json.exception.type_error.306] cannot use value() with " + TypeName(j)
  }

  /** json::value(key, default) on an object. */
  function ValueOr(fields: map<string, Json>, key: string, default: Json): Json
  {
    if key in fields then fields[key] else default
  }

  // ---------------------------------------------------------------------
  // Tools

  /** ToolInfo: name, description and the JSON schema of the arguments. */
  datatype ToolInfo = ToolInfo(name: string, description: string, inputSchema: Json)

  /** What a tool handler does with its arguments: a result, or an
      exception carrying its what() text. */
  datatype HandlerOutcome = Returned(value: Json) | Raised(what: string)

  type Handler = Json -> HandlerOutcome

  /** The entry tools/list gives one tool. */
  function ToolEntry(info: ToolInfo): Json
  {
    Obj(map["name" := Str(info.name), "description" := Str(info.description), "inputSchema" := info.inputSchema])
  }

  /** The tools/list entry of a registered name; Null for any other. */
  function EntriesOf(tools: map<string, ToolInfo>): string -> Json
  {
    name => if name in tools then ToolEntry(tools[name]) else Null
  }

  /** The result of tools/list: one entry per registered tool, in the
      order std::map keeps their names. */
  function ToolsListResult(tools: map<string, ToolInfo>): Json
  {
    Obj(map["tools" := Arr(MapSeq(EntriesOf(tools), InOrder(tools.Keys, false)))])
  }

  /** The result of tools/call: the handler's result serialised into a
      single text item. */
  function CallResult(text: string): Json
  {
    Obj(map["content" := Arr([Obj(map["type" := Str("text"), "text" := Str(text)])])])
  }

  const ProtocolVersion := "2024-11-05"

  /** The result of initialize: the protocol revision, the tools
      capability and the server's name and version. */
  const InitializeResult: Json :=
    Obj(map["protocolVersion" := Str(ProtocolVersion),
            "capabilities" := Obj(map["tools" := Obj(map[])]),
            "serverInfo" := Obj(map["name" := Str("tree-sitter-mcp"), "version" := Str("1.0.0")])])

  // ---------------------------------------------------------------------
  // Replies

  /** What handle_request yields: a result or an error for the request's
      id, nothing for a notification, or an exception that escapes it. */
  datatype Reply =
    | Answer(id: Json, result: Json)
    | Failure(id: Json, code: int, message: string)
    | Silent
    | Escaped(what: string)

  const InvalidRequest := -32600
  const MethodNotFound := -32601
  const InternalError := -32603

  /** create_error_response. */
  function ErrorResponse(id: Json, code: int, message: string): Json
  {
    Obj(map["jsonrpc" := Str("2.0"), "id" := id,
            "error" := Obj(map["code" := Num(code), "message" := Str(message)])])
  }

  /** The message the main loop writes for a reply; none for a
      notification. An exception escaping handle_request becomes an
      internal error with a null id. */
  function Written(r: Reply): seq<Json>
  {
    match r
    case Answer(id, result) => [Obj(map["jsonrpc" := Str("2.0"), "id" := id, "result" := result])]
    case Failure(id, code, message) => [ErrorResponse(id, code, message)]
    case Silent => []
    case Escaped(what) => [ErrorResponse(Null, InternalError, "Internal error: " + what)]
  }

  /** A request whose jsonrpc member is the string "2.0". */
  predicate VersionOk(request: Json)
  {
    HasKey(request, "jsonrpc") && request.fields["jsonrpc"] == Str("2.0")
  }

  /** The id of a request: its id member, null when it has none. */
  function RequestId(request: Json): Json
    requires request.Obj?
  {
    ValueOr(request.fields, "id", Null)
  }

  /** The params of a request: its params member, an empty object when
      it has none. */
  function Params(request: Json): Json
    requires request.Obj?
  {
    ValueOr(request.fields, "params", Obj(map[]))
  }

  /** Reading the client's name and version out of initialize's params,
      which only logs them: an error when clientInfo is there but not an
      object, or a name or version there is not a string. */
  function ClientInfoError(params: Json): Option<string>
  {
    if !HasKey(params, "clientInfo") then None
    else
      var info := params.fields["clientInfo"];
      if !info.Obj? then Some(NoValue(info))
      else if "name" in info.fields && !info.fields["name"].Str? then Some(NotString(info.fields["name"]))
      else if "version" in info.fields && !info.fields["version"].Str? then Some(NotString(info.fields["version"]))
      else None
  }

  /** handle_tools_call: an error message, or the result to return. */
  function ToolsCall(handlers: map<string, Handler>, params: Json, dump: Json -> string): Result<Json>
  {
    if !HasKey(params, "name") then Err("Missing required parameter: name")
    else
      var name := params.fields["name"];
      if !name.Str? then Err(NotString(name))
      else if name.s !in handlers then Err("Unknown tool: " + name.s)
      else match handlers[name.s](ValueOr(params.fields, "arguments", Obj(map[])))
        case Raised(what) => Err(what)
        case Returned(v) => Ok(CallResult(dump(v)))
  }

  /** The methods handle_request routes. */
  const KnownMethods: set<string> := {"initialize", "notifications/initialized", "tools/list", "tools/call"}

  /** An exception caught inside handle_request: an internal error whose
      message carries the exception's text. */
  function InternalFailure(id: Json, what: string): Reply
  {
    Failure(id, InternalError, "Internal error: " + what)
  }

  /** The reply to initialize: the client's details must read cleanly. */
  function InitializeReply(id: Json, params: Json): Reply
  {
    match ClientInfoError(params)
    case Some(e) => InternalFailure(id, e)
    case None => Answer(id, InitializeResult)
  }

  /** The reply to tools/call: the result, or the message of what failed. */
  function CallReply(handlers: map<string, Handler>, id: Json, params: Json, dump: Json -> string): Reply
  {
    match ToolsCall(handlers, params, dump)
    case Err(e) => InternalFailure(id, e)
    case Ok(result) => Answer(id, result)
  }

  /** The routing of a well-formed request by its method name. */
  function Route(tools: map<string, ToolInfo>, handlers: map<string, Handler>, m: string, id: Json, params: Json,
                 dump: Json -> string): Reply
  {
    if m == "initialize" then InitializeReply(id, params)
    else if m == "notifications/initialized" then Silent
    else if m == "tools/list" then Answer(id, ToolsListResult(tools))
    else if m == "tools/call" then CallReply(handlers, id, params, dump)
    else Failure(id, MethodNotFound, "Method not found: " + m)
  }

  /** handle_request, given the registered tools and handlers. */
  function Dispatch(tools: map<string, ToolInfo>, handlers: map<string, Handler>, request: Json,
                    dump: Json -> string): Reply
  {
    if !VersionOk(request) then Failure(Null, InvalidRequest, "Invalid Request: missing or invalid jsonrpc field")
    else if "method" !in request.fields then
      Failure(RequestId(request), InvalidRequest, "Invalid Request: missing method field")
    else if !request.fields["method"].Str? then Escaped(NotString(request.fields["method"]))
    else Route(tools, handlers, request.fields["method"].s, RequestId(request), Params(request), dump)
  }

  /** A request that completes initialize and so sets the initialized
      flag. */
  predicate Initializes(request: Json)
  {
    && VersionOk(request)
    && "method" in request.fields && request.fields["method"] == Str("initialize")
    && ClientInfoError(Params(request)).None?
  }

  /** What the main loop writes for the messages from position k on: the
      reply to each, up to the first empty message. */
  function Transcript(tools: map<string, ToolInfo>, handlers: map<string, Handler>, incoming: seq<Json>, k: nat,
                      dump: Json -> string): seq<Json>
    requires k <= |incoming|
    decreases |incoming| - k
  {
    if k == |incoming| || Empty(incoming[k]) then []
    else Written(Dispatch(tools, handlers, incoming[k], dump)) + Transcript(tools, handlers, incoming, k + 1, dump)
  }

  /** Some request from position k on, before the first empty message,
      completes initialize. */
  predicate InitializedBy(incoming: seq<Json>, k: nat)
    requires k <= |incoming|
    decreases |incoming| - k
  {
    k < |incoming| && !Empty(incoming[k]) && (Initializes(incoming[k]) || InitializedBy(incoming, k + 1))
  }

  // ---------------------------------------------------------------------
  // The server

  class Server {
    /** tools_ and handlers_, keyed by tool name. */
    var tools: map<string, ToolInfo>
    var handlers: map<string, Handler>
    var running: bool
    var initialized: bool

    /** Every registered tool has a handler under its own, non-empty
        name. */
    predicate Valid()
      reads this
    {
      && tools.Keys == handlers.Keys
      && forall n :: n in tools ==> n != [] && tools[n].name == n
    }

    constructor()
      ensures Valid()
      ensures tools == map[] && handlers == map[] && !running && !initialized
    {
      tools, handlers := map[], map[];
      running, initialized := false, false;
    }

    /** register_tool: a tool with an empty name or without a handler is
        refused; otherwise the tool and its handler are stored under its
        name, replacing an earlier registration. */
    method RegisterTool(info: ToolInfo, handler: Option<Handler>) returns (error: Option<string>)
      requires Valid()
      modifies this
      ensures Valid()
      ensures info.name == [] ==> error == Some("Tool name cannot be empty")
      ensures info.name != [] && handler.None? ==> error == Some("Tool handler cannot be null")
      ensures error.Some? ==> tools == old(tools) && handlers == old(handlers)
      ensures error.None? <==> info.name != [] && handler.Some?
      ensures error.None? ==> tools == old(tools)[info.name := info]
                              && handlers == old(handlers)[info.name := handler.value]
      ensures running == old(running) && initialized == old(initialized)
    {
      if info.name == [] {
        return Some("Tool name cannot be empty");
      }
      if handler.None? {
        return Some("Tool handler cannot be null");
      }
      tools := tools[info.name := info];
      handlers := handlers[info.name := handler.value];
      error := None;
    }

    /** stop: the main loop ends before the next message. */
    method Stop()
      modifies this
      ensures !running
      ensures tools == old(tools) && handlers == old(handlers) && initialized == old(initialized)
    {
      running := false;
    }

    /** handle_tools_list: one entry per tool, in name order. */
    method HandleToolsList() returns (result: Json)
      ensures result == ToolsListResult(tools)
    {
      var names := InOrder(tools.Keys, false);
      var entries: seq<Json> := [];
      var i := 0;
      while i < |names|
        invariant 0 <= i <= |names|
        invariant entries == MapSeq(EntriesOf(tools), names[..i])
      {
        InOrderMember(tools.Keys, false, i);
        MapSeqNext(EntriesOf(tools), names, i);
        entries := entries + [ToolEntry(tools[names[i]])];
        i := i + 1;
      }
      assert names[..i] == names;
      result := Obj(map["tools" := Arr(entries)]);
    }

    /** handle_tools_call. */
    method HandleToolsCall(params: Json, dump: Json -> string) returns (r: Result<Json>)
      ensures r == ToolsCall(handlers, params, dump)
    {
      if !HasKey(params, "name") {
        return Err("Missing required parameter: name");
      }
      var name := params.fields["name"];
      if !name.Str? {
        return Err(NotString(name));
      }
      if name.s !in handlers {
        return Err("Unknown tool: " + name.s);
      }
      var arguments := ValueOr(params.fields, "arguments", Obj(map[]));
      var outcome := handlers[name.s](arguments);
      match outcome
      case Raised(what) =>
        r := Err(what);
      case Returned(v) =>
        r := Ok(CallResult(dump(v)));
    }

    /** handle_request: validate the JSON-RPC envelope, then route by
        method; initialize also sets the initialized flag. */
    method HandleRequest(request: Json, dump: Json -> string) returns (reply: Reply)
      modifies this
      ensures reply == Dispatch(tools, handlers, request, dump)
      ensures initialized == (old(initialized) || Initializes(request))
      ensures tools == old(tools) && handlers == old(handlers) && running == old(running)
    {
      if !VersionOk(request) {
        return Failure(Null, InvalidRequest, "Invalid Request: missing or invalid jsonrpc field");
      }
      var id := RequestId(request);
      if "method" !in request.fields {
        return Failure(id, InvalidRequest, "Invalid Request: missing method field");
      }
      var m := request.fields["method"];
      if !m.Str? {
        return Escaped(NotString(m));
      }
      var params := Params(request);
      if m.s == "initialize" {
        var e := ClientInfoError(params);
        if e.Some? {
          return InternalFailure(id, e.value);
        }
        initialized := true;
        reply := Answer(id, InitializeResult);
      } else if m.s == "notifications/initialized" {
        reply := Silent;
      } else if m.s == "tools/list" {
        var result := HandleToolsList();
        reply := Answer(id, result);
      } else if m.s == "tools/call" {
        var r := HandleToolsCall(params, dump);
        match r
        case Err(e) =>
          reply := InternalFailure(id, e);
        case Ok(result) =>
          reply := Answer(id, result);
      } else {
        reply := Failure(id, MethodNotFound, "Method not found: " + m.s);
      }
    }

    /** run, over the messages the transport delivers in order: each is
        answered until an empty message (or the end of the transport)
        stops the loop; a notification gets no answer. */
    method Run(incoming: seq<Json>, dump: Json -> string) returns (written: seq<Json>)
      modifies this
      ensures written == Transcript(old(tools), old(handlers), incoming, 0, dump)
      ensures initialized == (old(initialized) || InitializedBy(incoming, 0))
      ensures tools == old(tools) && handlers == old(handlers) && !running
    {
      running := true;
      written := [];
      var k := 0;
      ghost var total := Transcript(tools, handlers, incoming, 0, dump);
      ghost var init := old(initialized) || InitializedBy(incoming, 0);
      while k < |incoming| && !Empty(incoming[k])
        invariant 0 <= k <= |incoming| && running
        invariant tools == old(tools) && handlers == old(handlers)
        invariant total == written + Transcript(tools, handlers, incoming, k, dump)
        invariant init == (initialized || InitializedBy(incoming, k))
      {
        written := Serve(incoming, k, dump, written);
        k := k + 1;
      }
      running := false;
    }

    /** One turn of run: answer message k and write the reply. */
    method Serve(incoming: seq<Json>, k: nat, dump: Json -> string, written: seq<Json>) returns (written': seq<Json>)
      requires k < |incoming| && !Empty(incoming[k])
      modifies this
      ensures written' + Transcript(tools, handlers, incoming, k + 1, dump)
           == written + Transcript(tools, handlers, incoming, k, dump)
      ensures (initialized || InitializedBy(incoming, k + 1)) == (old(initialized) || InitializedBy(incoming, k))
      ensures tools == old(tools) && handlers == old(handlers) && running == old(running)
    {
      var reply := HandleRequest(incoming[k], dump);
      written' := written + Written(reply);
      assert written' + Transcript(tools, handlers, incoming, k + 1, dump)
          == written + (Written(reply) + Transcript(tools, handlers, incoming, k + 1, dump));
    }
  }

  // ---------------------------------------------------------------------
  // What handle_request promises

  /** -32600 answers exactly the requests without a "2.0" jsonrpc member
      or without a method. */
  lemma InvalidRequestExact(tools: map<string, ToolInfo>, handlers: map<string, Handler>, request: Json,
                            dump: Json -> string)
    ensures var r := Dispatch(tools, handlers, request, dump);
            r.Failure? && r.code == InvalidRequest <==> !VersionOk(request) || "method" !in request.fields
  {
  }

  /** -32601 answers exactly the well-formed requests naming a method the
      server does not route. */
  lemma MethodNotFoundExact(tools: map<string, ToolInfo>, handlers: map<string, Handler>, request: Json,
                            dump: Json -> string)
    ensures var r := Dispatch(tools, handlers, request, dump);
            r.Failure? && r.code == MethodNotFound <==>
              VersionOk(request) && "method" in request.fields && request.fields["method"].Str?
              && request.fields["method"].s !in KnownMethods
  {
  }

  /** Only notifications/initialized goes unanswered. */
  lemma SilentExact(tools: map<string, ToolInfo>, handlers: map<string, Handler>, request: Json,
                    dump: Json -> string)
    ensures Dispatch(tools, handlers, request, dump).Silent? <==>
              VersionOk(request) && "method" in request.fields
              && request.fields["method"] == Str("notifications/initialized")
  {
  }

  /** An answer or error of handle_request carries the request's id,
      except that a request without a valid jsonrpc member is answered
      with a null id. A method that is not a string escapes to run, whose
      reply carries a null id. */
  lemma IdEchoed(tools: map<string, ToolInfo>, handlers: map<string, Handler>, request: Json, dump: Json -> string)
    ensures var r := Dispatch(tools, handlers, request, dump);
            (r.Answer? || r.Failure?) ==> r.id == (if VersionOk(request) then RequestId(request) else Null)
    ensures var r := Dispatch(tools, handlers, request, dump);
            r.Escaped? <==> VersionOk(request) && "method" in request.fields && !request.fields["method"].Str?
    ensures var r := Dispatch(tools, handlers, request, dump);
            r.Escaped? ==> |Written(r)| == 1 && Written(r)[0].Obj? && Written(r)[0].fields["id"] == Null
  {
  }

  /** initialize completes, answering with protocol revision 2024-11-05,
      exactly when it sets the initialized flag. */
  lemma InitializeAnswered(tools: map<string, ToolInfo>, handlers: map<string, Handler>, request: Json,
                           dump: Json -> string)
    requires VersionOk(request) && "method" in request.fields && request.fields["method"] == Str("initialize")
    ensures Initializes(request) <==> Dispatch(tools, handlers, request, dump) == Answer(RequestId(request), InitializeResult)
    ensures InitializeResult.fields["protocolVersion"] == Str("2024-11-05")
  {
  }

  /** tools/call of a registered tool wraps what its handler returns as a
      single text item holding the serialisation; an unregistered name is
      an internal error carrying the request's id. */
  lemma ToolsCallAnswered(tools: map<string, ToolInfo>, handlers: map<string, Handler>, request: Json,
                          dump: Json -> string, name: string)
    requires VersionOk(request) && "method" in request.fields && request.fields["method"] == Str("tools/call")
    requires HasKey(Params(request), "name") && Params(request).fields["name"] == Str(name)
    ensures name !in handlers ==>
      Dispatch(tools, handlers, request, dump)
        == InternalFailure(RequestId(request), "Unknown tool: " + name)
    ensures name in handlers ==>
      match handlers[name](ValueOr(Params(request).fields, "arguments", Obj(map[])))
      case Returned(v) =>
        && Dispatch(tools, handlers, request, dump) == Answer(RequestId(request), CallResult(dump(v)))
        && CallResult(dump(v)).fields["content"].items == [Obj(map["type" := Str("text"), "text" := Str(dump(v))])]
      case Raised(what) =>
        Dispatch(tools, handlers, request, dump) == InternalFailure(RequestId(request), what)
  {
  }

  /** tools/call without a name is an internal error. */
  lemma ToolsCallWithoutName(tools: map<string, ToolInfo>, handlers: map<string, Handler>, request: Json,
                             dump: Json -> string)
    requires VersionOk(request) && "method" in request.fields && request.fields["method"] == Str("tools/call")
    requires !HasKey(Params(request), "name")
    ensures Dispatch(tools, handlers, request, dump)
         == InternalFailure(RequestId(request), "Missing required parameter: name")
  {
  }

  /** tools/list lists every registered tool once, under its own name,
      in name order. */
  lemma {:induction false} ToolsListed(tools: map<string, ToolInfo>)
    requires forall n :: n in tools ==> tools[n].name == n
    ensures var items := ToolsListResult(tools).fields["tools"].items;
            var names := InOrder(tools.Keys, false);
            && |items| == |tools|
            && Sorted(names, false) && Elems(names) == tools.Keys
            && forall i :: 0 <= i < |items| ==>
                 (items[i] == ToolEntry(tools[names[i]]) && items[i].fields["name"] == Str(names[i]))
  {
    var names := InOrder(tools.Keys, false);
    var items := MapSeq(EntriesOf(tools), names);
    assert ToolsListResult(tools).fields["tools"] == Arr(items);
    InOrderSorted(tools.Keys, false);
    forall i | 0 <= i < |items|
      ensures items[i] == ToolEntry(tools[names[i]]) && items[i].fields["name"] == Str(names[i])
    {
      ListedAt(tools, i);
    }
  }

  /** The i-th entry of tools/list is the entry of the i-th name. */
  lemma ListedAt(tools: map<string, ToolInfo>, i: nat)
    requires forall n :: n in tools ==> tools[n].name == n
    requires i < |InOrder(tools.Keys, false)|
    ensures var names := InOrder(tools.Keys, false);
            && names[i] in tools
            && MapSeq(EntriesOf(tools), names)[i] == ToolEntry(tools[names[i]])
            && ToolEntry(tools[names[i]]).fields["name"] == Str(names[i])
  {
    var names := InOrder(tools.Keys, false);
    InOrderMember(tools.Keys, false, i);
    var info := tools[names[i]];
    var m := map["name" := Str(info.name), "description" := Str(info.description), "inputSchema" := info.inputSchema];
    assert m["name"] == Str(info.name);
  }

  /** A written message is never empty and always a JSON-RPC 2.0
      message; only a notification writes nothing. */
  lemma WrittenShape(r: Reply)
    ensures Written(r) == [] <==> r.Silent?
    ensures forall j :: j in Written(r) ==> !Empty(j) && HasKey(j, "jsonrpc") && j.fields["jsonrpc"] == Str("2.0")
  {
    match r
    case Answer(id, result) =>
      var m := map["jsonrpc" := Str("2.0"), "id" := id, "result" := result];
      assert "jsonrpc" in m && m["jsonrpc"] == Str("2.0");
      assert Written(r) == [Obj(m)];
    case Failure(id, code, message) =>
      ResponseShape(id, code, message);
    case Silent =>
    case Escaped(what) =>
      ResponseShape(Null, InternalError, "Internal error: " + what);
  }

  /** An error response is a non-empty JSON-RPC 2.0 message. */
  lemma ResponseShape(id: Json, code: int, message: string)
    ensures var j := ErrorResponse(id, code, message);
            !Empty(j) && HasKey(j, "jsonrpc") && j.fields["jsonrpc"] == Str("2.0")
  {
    var m := map["jsonrpc" := Str("2.0"), "id" := id,
                 "error" := Obj(map["code" := Num(code), "message" := Str(message)])];
    assert "jsonrpc" in m && m["jsonrpc"] == Str("2.0");
  }

  /** Registering a tool and then calling it by name runs its handler. */
  lemma RegisteredToolCalled(tools: map<string, ToolInfo>, handlers: map<string, Handler>, info: ToolInfo,
                             handler: Handler, request: Json, dump: Json -> string, v: Json)
    requires VersionOk(request) && "method" in request.fields && request.fields["method"] == Str("tools/call")
    requires HasKey(Params(request), "name") && Params(request).fields["name"] == Str(info.name)
    requires handler(ValueOr(Params(request).fields, "arguments", Obj(map[]))) == Returned(v)
    ensures Dispatch(tools[info.name := info], handlers[info.name := handler], request, dump)
         == Answer(RequestId(request), CallResult(dump(v)))
  {
  }
}
