/**
 * The glue between the HTTP server and the REST engine in
 * http_server_nng.c: req_cb, which maps the method name to an op code,
 * dispatches, and packages the engine's output as the reply; and the URL
 * check and split of http_server_start.
 */
module HttpServer {
  import opened Options
  import opened CString
  import opened RestDefs
  import opened RestOutput
  import opened RestRegistry
  import opened RestParser
  import opened RestUri

  /** Return codes of the server API (http_server.h). */
  const HTTP_SERVER_OK := 0
  const HTTP_SERVER_INVALID_PARAM := -1
  const HTTP_SERVER_START_FAIL := -2
  const HTTP_SERVER_MEMORY_UNAVAILABLE := -3

  /** The size of the reply buffer http_server_start allocates. */
  const HTTP_DEFAULT_REP_BUF_SIZE := 100

  const HTTP_PROTOCOL_PREFIX_HIGH := "HTTP://"
  const HTTP_PROTOCOL_PREFIX_LOW := "http://"
  const HTTP_PROTOCOL_PREFIX_LEN := 7

  const CONTENT_TYPE_FILE := "text/plain"
  const CONTENT_TYPE_JSON := "application/json"

  // ---------------------------------------------------------------------
  // req_cb

  /** req_cb's chain of strcmp calls on the method name. */
  function MethodOp(m: string): (op: int)
    ensures IsOp(op) || op == REST_OP_INVALID
  {
    if m == "POST" then REST_OP_POST
    else if m == "GET" then REST_OP_GET
    else if m == "PUT" then REST_OP_PUT
    else if m == "PATCH" then REST_OP_PATCH
    else if m == "DELETE" then REST_OP_DELETE
    else REST_OP_INVALID
  }

  /** The method name of each op code. */
  function MethodName(op: int): string
    requires IsOp(op)
  {
    if op == REST_OP_POST then "POST"
    else if op == REST_OP_GET then "GET"
    else if op == REST_OP_PUT then "PUT"
    else if op == REST_OP_PATCH then "PATCH"
    else "DELETE"
  }

  /**
   * Exactly the five method names map to op codes, each back to its own
   * name; any other name maps to REST_OP_INVALID.
   */
  lemma MethodOpNames(m: string)
    ensures IsOp(MethodOp(m)) <==> m in ["POST", "GET", "PUT", "PATCH", "DELETE"]
    ensures IsOp(MethodOp(m)) ==> MethodName(MethodOp(m)) == m
    ensures !IsOp(MethodOp(m)) ==> MethodOp(m) == REST_OP_INVALID
  {
  }

  /** Every op code is reached from its method name. */
  lemma MethodNameOp(op: int)
    requires IsOp(op)
    ensures MethodOp(MethodName(op)) == op
  {
  }

  /** The status req_cb stores through its uint16_t result_code: the dispatcher's return modulo 2^16. */
  function ResultCode(ret: int): (c: nat)
    ensures c < 0x1_0000
    ensures 0 <= ret < 0x1_0000 ==> c == ret
  {
    ret % 0x1_0000
  }

  /**
   * What req_cb hands back: the content type, the status, the reply
   * length, the file name for a FILE reply, and whether it copied "{}"
   * into the reply buffer as the body.
   */
  datatype Reply = Reply(contentType: string, status: nat, len: nat, desc: Option<string>, braces: bool)

  /** req_cb's packaging of the dispatcher's return and the output info. */
  function Package(ret: int, info: OutputInfo): (p: Reply)
    ensures p.contentType == CONTENT_TYPE_FILE <==> info.kind == REST_DATA_TYPE_FILE
    ensures p.braces <==> info.kind != REST_DATA_TYPE_FILE && (info.kind != REST_DATA_TYPE_JSON || info.len == 0)
    ensures p.braces ==> p.len == 2 && p.contentType == CONTENT_TYPE_JSON
    ensures p.desc.Some? ==> info.kind == REST_DATA_TYPE_FILE
    ensures info.kind != REST_DATA_TYPE_FILE ==> p.status == ResultCode(ret)
  {
    if info.kind == REST_DATA_TYPE_FILE then
      Reply(CONTENT_TYPE_FILE, 200, info.len, info.desc, false)
    else if info.kind == REST_DATA_TYPE_JSON then
      if info.len == 0 then Reply(CONTENT_TYPE_JSON, ResultCode(ret), 2, None, true)
      else Reply(CONTENT_TYPE_JSON, ResultCode(ret), info.len, None, false)
    else
      Reply(CONTENT_TYPE_JSON, ResultCode(ret), 2, None, true)
  }

  /**
   * What the dispatcher returns and the info record req_cb then reads:
   * its own uninitialised record when the request is not routed, the
   * reset record when the matched pattern has no handler, and the record
   * the handler's calls leave otherwise.
   */
  function Outcome(r: Registry, op: int, path: string, content: seq<char>, uninit: OutputInfo, behave: Behaviour): (o: (int, OutputInfo))
    requires RegistryValid(r)
    ensures var d := Route(r, op, path);
      o.0 == Status(d, if d.Invoke? then behave(d.handler, path, content).status else 0)
    ensures Route(r, op, path).NoHandler? ==> o.1 == RESET_INFO
    ensures Route(r, op, path).Unrouted? ==> o.1 == uninit
  {
    match Route(r, op, path)
    case Unrouted => (REST_HTTP_STATUS_NOT_FOUND, uninit)
    case NoHandler => (REST_HTTP_STATUS_NOT_FOUND, RESET_INFO)
    case Invoke(h) =>
      var run := behave(h, path, content);
      (run.status, Replay(run.calls).info)
  }

  /**
   * req_cb: refuse a missing method, path, reply buffer or result code;
   * otherwise dispatch and package the result. `repBuf` is the reply
   * buffer (data_rep); the handlers' output may move it, and `buf` is
   * where the reply then is. `uninit` stands for the contents of req_cb's
   * uninitialised info record.
   */
  method ReqCb(engine: RestEngine, method_: Option<string>, path: Option<string>, content: seq<char>,
               hasRepBuf: bool, repBuf: array<char>, hasResultCode: bool, uninit: OutputInfo, behave: Behaviour)
    returns (rv: int, reply: Option<Reply>, buf: array<char>)
    requires engine.Valid() && repBuf.Length > 2
    modifies engine, repBuf
    ensures engine.Valid() && buf.Length > 2
    ensures rv == HTTP_SERVER_INVALID_PARAM <==> method_.None? || path.None? || !hasRepBuf || !hasResultCode
    ensures rv != HTTP_SERVER_INVALID_PARAM ==> rv == HTTP_SERVER_OK
    ensures rv == HTTP_SERVER_INVALID_PARAM ==> reply.None? && buf == repBuf && engine.Reg() == old(engine.Reg())
    ensures rv == HTTP_SERVER_OK ==>
      var (ret, info) := Outcome(old(engine.Reg()), MethodOp(method_.value), path.value, content, uninit, behave);
      reply == Some(Package(ret, info))
    ensures rv == HTTP_SERVER_OK ==> engine.Reg() == old(engine.Reg())
    ensures rv == HTTP_SERVER_OK ==>
      var d := Route(old(engine.Reg()), MethodOp(method_.value), path.value);
      if d.Unrouted? then
        engine.query == old(engine.query) && engine.apiList == old(engine.apiList) && engine.bound == old(engine.bound)
      else
        engine.bound && engine.query == After(path.value, '?') && engine.apiList == UriSegments(path.value)
    ensures rv == HTTP_SERVER_OK && reply.value.braces ==> buf[0] == '{' && buf[1] == '}' && buf[2] == '\0'
    ensures rv == HTTP_SERVER_OK ==>
      var d := Route(old(engine.Reg()), MethodOp(method_.value), path.value);
      d.Invoke? && !reply.value.braces ==>
        var acc := Replay(behave(d.handler, path.value, content).calls);
        reply.value.len == |acc.content| <= buf.Length && buf[..reply.value.len] == acc.content
  {
    if method_.None? || path.None? {
      return HTTP_SERVER_INVALID_PARAM, None, repBuf;
    }
    if !hasRepBuf || !hasResultCode {
      return HTTP_SERVER_INVALID_PARAM, None, repBuf;
    }
    var op := MethodOp(method_.value);
    var ret, d := engine.ParserHandler(op, path.value, content, repBuf, behave);
    var info := if d.Unrouted? then uninit else engine.info;
    buf := if d.Unrouted? then repBuf else engine.out;
    if d.Invoke? {
      ReplayContent(EMPTY_ACC, behave(d.handler, path.value, content).calls);
    }
    reply := Some(Package(ret, info));
    if reply.value.braces {
      WriteBraces(buf);
    }
    rv := HTTP_SERVER_OK;
  }

  /** The empty JSON object "{}" and its terminator at the start of `buf`. */
  method WriteBraces(buf: array<char>)
    requires buf.Length > 2
    modifies buf
    ensures buf[0] == '{' && buf[1] == '}' && buf[2] == '\0'
  {
    buf[0] := '{';
    buf[1] := '}';
    buf[2] := '\0';
  }

  /**
   * The kind left by a handler's calls is the reset kind exactly when no
   * call carried data, and otherwise JSON or FILE.
   */
  lemma {:induction false} LastKindData(calls: seq<OutputCall>, dflt: int)
    ensures Concat(calls) == [] ==> LastKind(calls, dflt) == dflt
    ensures Concat(calls) != [] ==> LastKind(calls, dflt) in {REST_DATA_TYPE_JSON, REST_DATA_TYPE_FILE}
    decreases |calls|
  {
    if calls != [] {
      var here := if calls[0].data == [] then dflt
        else if calls[0].WriteCall? then REST_DATA_TYPE_JSON else REST_DATA_TYPE_FILE;
      LastKindData(calls[1..], here);
    }
  }

  /**
   * A handler whose last data-carrying call is rest_write_file gets a
   * text/plain reply with status 200 whatever it returned, holding all the
   * data it wrote; with no rest_write among its calls the file name is the
   * first rest_write_file's.
   */
  lemma FileReply(status: int, calls: seq<OutputCall>)
    requires LastKind(calls, REST_DATA_TYPE_NULL) == REST_DATA_TYPE_FILE
    ensures var r := Package(status, Replay(calls).info);
      r.contentType == "text/plain" && r.status == 200 && r.len == |Concat(calls)| && !r.braces
    ensures NoJsonWrite(calls) ==> Package(status, Replay(calls).info).desc == FirstFileName(calls)
  {
    ReplayKind(EMPTY_ACC, calls);
    ReplayContent(EMPTY_ACC, calls);
    if NoJsonWrite(calls) {
      ReplayDesc(EMPTY_ACC, calls);
    }
  }

  /** A handler whose last data-carrying call is rest_write gets a JSON reply with its own status and all the data it wrote. */
  lemma JsonReply(status: int, calls: seq<OutputCall>)
    requires LastKind(calls, REST_DATA_TYPE_NULL) == REST_DATA_TYPE_JSON
    ensures var r := Package(status, Replay(calls).info);
      r.contentType == "application/json" && r.status == ResultCode(status) &&
      r.len == |Concat(calls)| > 0 && !r.braces && r.desc.None?
  {
    ReplayKind(EMPTY_ACC, calls);
    ReplayContent(EMPTY_ACC, calls);
    LastKindData(calls, REST_DATA_TYPE_NULL);
  }

  /** A handler that writes nothing gets the body "{}" with its own status. */
  lemma EmptyReply(status: int, calls: seq<OutputCall>)
    requires Concat(calls) == []
    ensures Package(status, Replay(calls).info) == Reply("application/json", ResultCode(status), 2, None, true)
  {
    ReplayKind(EMPTY_ACC, calls);
    LastKindData(calls, REST_DATA_TYPE_NULL);
  }

  /** A matched pattern with no handler for the method gives 404 with the body "{}". */
  lemma NoHandlerReply()
    ensures Package(REST_HTTP_STATUS_NOT_FOUND, RESET_INFO) == Reply("application/json", 404, 2, None, true)
  {
  }

  // ---------------------------------------------------------------------
  // http_server_start

  /** The server address (scheme and host) and the URI tree the handler serves. */
  datatype Endpoint = Endpoint(host: string, uri: string)

  /**
   * http_server_start's URL handling: a NULL URL or one that starts with
   * neither "HTTP://" nor "http://" is refused; the host part is the first
   * strtok token on "/" after the scheme, and everything after the scheme
   * and that many characters is the URI.
   */
  function SplitServerUrl(url: Option<string>): (r: Option<Endpoint>)
    ensures r.Some? ==> url.Some? && |url.value| > HTTP_PROTOCOL_PREFIX_LEN
    ensures r.Some? ==> url.value[..HTTP_PROTOCOL_PREFIX_LEN] in {HTTP_PROTOCOL_PREFIX_HIGH, HTTP_PROTOCOL_PREFIX_LOW}
    ensures r.Some? ==> url.value == r.value.host + r.value.uri
  {
    if url.None? then None
    else
      var u := url.value;
      if |u| < HTTP_PROTOCOL_PREFIX_LEN then None
      else if u[..HTTP_PROTOCOL_PREFIX_LEN] != HTTP_PROTOCOL_PREFIX_HIGH && u[..HTTP_PROTOCOL_PREFIX_LEN] != HTTP_PROTOCOL_PREFIX_LOW then None
      else
        var t := Strtok(u[HTTP_PROTOCOL_PREFIX_LEN..], {'/'});
        if t.token.None? then None
        else
          var n := HTTP_PROTOCOL_PREFIX_LEN + |t.token.value|;
          assert u == u[..n] + u[n..];
          Some(Endpoint(u[..n], u[n..]))
  }

  /**
   * http_server_start's result: the URL check, then rest_start's result
   * (`startRv`, the server I/O), then the allocation of the reply buffer
   * when none exists yet. The second component says whether a reply
   * buffer exists afterwards.
   */
  function ServerStart(url: Option<string>, startRv: int, repAllocated: bool, allocOk: bool): (r: (int, bool))
    ensures SplitServerUrl(url).None? ==> r == (HTTP_SERVER_INVALID_PARAM, repAllocated)
    ensures r.0 == HTTP_SERVER_OK ==> r.1 && SplitServerUrl(url).Some?
    ensures SplitServerUrl(url).Some? && startRv == HTTP_SERVER_OK && !repAllocated && !allocOk ==> r.0 == HTTP_SERVER_MEMORY_UNAVAILABLE
  {
    if SplitServerUrl(url).None? then (HTTP_SERVER_INVALID_PARAM, repAllocated)
    else if startRv != HTTP_SERVER_OK then (startRv, repAllocated)
    else if repAllocated then (HTTP_SERVER_OK, true)
    else if allocOk then (HTTP_SERVER_OK, true)
    else (HTTP_SERVER_MEMORY_UNAVAILABLE, false)
  }

  /**
   * A URL made of a scheme, a host with no '/', and a URI that is empty or
   * starts with '/' splits into the scheme with the host, and the URI.
   */
  lemma ServerUrlSplits(scheme: string, host: string, uri: string)
    requires scheme in {HTTP_PROTOCOL_PREFIX_HIGH, HTTP_PROTOCOL_PREFIX_LOW}
    requires host != [] && '/' !in host
    requires uri == [] || uri[0] == '/'
    ensures SplitServerUrl(Some(scheme + host + uri)) == Some(Endpoint(scheme + host, uri))
  {
    var u := scheme + host + uri;
    assert u[..HTTP_PROTOCOL_PREFIX_LEN] == scheme;
    assert u[HTTP_PROTOCOL_PREFIX_LEN..] == host + uri;
    StrtokSegment(host, uri, '/');
    assert u[..HTTP_PROTOCOL_PREFIX_LEN + |host|] == scheme + host;
  }

  /** A URL whose scheme is neither "HTTP://" nor "http://" is refused, for instance "https://". */
  lemma ServerUrlRejectsHttps(rest: string)
    ensures SplitServerUrl(Some("https://" + rest)) == None
  {
    var u := "https://" + rest;
    assert u[..HTTP_PROTOCOL_PREFIX_LEN] == "https:/";
  }
}
