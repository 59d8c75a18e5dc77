/**
 * The module table (rest_api_info, rest_api_info_cnt) and its pattern
 * lists as values: what rest_init, rest_cb_unregister and rest_cb_register
 * do to them, and where rest_parser_handler routes a request.
 */
module RestRegistry {
  import opened Options
  import opened CString
  import opened RestDefs
  import opened RestUri
  import opened RestMatch

  /** The five module slots (prefix and pattern list) and the count of modules. */
  datatype Registry = Registry(prefixes: seq<Option<string>>, tables: seq<seq<Pattern>>, cnt: int)

  /** The table as the first rest_init (or the zero-initialised static) leaves it. */
  function EmptyRegistry(): (r: Registry)
    ensures |r.prefixes| == MAX_REST_INFO_CNT && |r.tables| == MAX_REST_INFO_CNT && r.cnt == 0
    ensures forall i :: 0 <= i < MAX_REST_INFO_CNT ==> r.prefixes[i].None? && r.tables[i] == []
  {
    Registry([None, None, None, None, None], [[], [], [], [], []], 0)
  }

  /** A node as rest_cb_register builds it: the level and segments init_uri gives its URI. */
  predicate WellFormed(p: Pattern)
  {
    p.level == UriLevel(p.uri) && p.segments == (if p.level > 0 then UriSegments(p.uri) else [])
  }

  predicate RegistryValid(r: Registry)
  {
    |r.prefixes| == MAX_REST_INFO_CNT && |r.tables| == MAX_REST_INFO_CNT &&
    0 <= r.cnt <= MAX_REST_INFO_CNT &&
    forall m, k :: 0 <= m < |r.tables| && 0 <= k < |r.tables[m]| ==> WellFormed(r.tables[m][k])
  }

  lemma WellFormedIndexed(ps: seq<Pattern>)
    requires forall k :: 0 <= k < |ps| ==> WellFormed(ps[k])
    ensures forall k :: 0 <= k < |ps| ==> Indexed(ps[k])
  {
  }

  // ---------------------------------------------------------------------
  // rest_init

  /** The first slot with a NULL prefix. */
  function FirstFree(prefixes: seq<Option<string>>): (r: Option<nat>)
    ensures r.Some? ==> r.value < |prefixes| && prefixes[r.value].None?
    ensures r.Some? ==> forall j :: 0 <= j < r.value ==> prefixes[j].Some?
    ensures r.None? ==> forall j :: 0 <= j < |prefixes| ==> prefixes[j].Some?
    decreases |prefixes|
  {
    if prefixes == [] then None
    else if prefixes[0].None? then Some(0)
    else
      var r := FirstFree(prefixes[1..]);
      assert forall j :: 1 <= j < |prefixes| ==> prefixes[j] == prefixes[1..][j - 1];
      if r.Some? then Some(r.value + 1) else None
  }

  /** The table rest_init searches: the current one, or a cleared one when no module is registered. */
  function InitBase(r: Registry): Registry
  {
    if r.cnt == 0 then EmptyRegistry() else r
  }

  /**
   * rest_init with the prefix stored in the free slot it finds, which is
   * the slot whose index it returns. A NULL prefix is refused, and so is a
   * sixth module or a table with no free slot.
   */
  function Init(r: Registry, prefix: Option<string>): (res: (Registry, int))
    requires RegistryValid(r)
    ensures RegistryValid(res.0)
    ensures prefix.None? ==> res == (r, REST_PARAM_FAIL)
    ensures prefix.Some? && r.cnt >= MAX_REST_INFO_CNT ==> res == (r, REST_INIT_EXCEED)
    ensures res.1 >= 0 ==> res.1 < MAX_REST_INFO_CNT && res.0.prefixes[res.1] == prefix && res.0.cnt == r.cnt + 1
    ensures res.1 >= 0 ==> InitBase(r).prefixes[res.1].None? && res.0.tables == InitBase(r).tables
    ensures res.1 >= 0 ==> forall j :: 0 <= j < MAX_REST_INFO_CNT && j != res.1 ==> res.0.prefixes[j] == InitBase(r).prefixes[j]
    ensures res.1 < 0 ==> res.1 == REST_PARAM_FAIL || res.1 == REST_INIT_EXCEED
  {
    if prefix.None? then (r, REST_PARAM_FAIL)
    else if r.cnt >= MAX_REST_INFO_CNT then (r, REST_INIT_EXCEED)
    else
      var base := InitBase(r);
      var i := FirstFree(base.prefixes);
      if i.None? then (base, REST_INIT_EXCEED)
      else (base.(prefixes := base.prefixes[i.value := prefix], cnt := base.cnt + 1), i.value)
  }

  /** rest_init as written: it finds the free slot `i` but stores the prefix at index rest_api_info_cnt. */
  function InitAsWritten(r: Registry, prefix: Option<string>): (res: (Registry, int))
    requires RegistryValid(r)
    ensures RegistryValid(res.0)
    ensures res.1 >= 0 ==> InitBase(r).cnt < MAX_REST_INFO_CNT && res.0.prefixes[InitBase(r).cnt] == prefix
  {
    if prefix.None? then (r, REST_PARAM_FAIL)
    else if r.cnt >= MAX_REST_INFO_CNT then (r, REST_INIT_EXCEED)
    else
      var base := InitBase(r);
      var i := FirstFree(base.prefixes);
      if i.None? then (base, REST_INIT_EXCEED)
      else (base.(prefixes := base.prefixes[base.cnt := prefix], cnt := base.cnt + 1), i.value)
  }

  /**
   * Two modules, the first unregistered, then a third: as written, the
   * third prefix overwrites the second module's slot and rest_init returns
   * the id of a slot that still has no prefix.
   */
  lemma InitAsWrittenOverwrites()
    ensures var r1 := InitAsWritten(EmptyRegistry(), Some("a")).0;
            var r2 := InitAsWritten(r1, Some("b")).0;
            var r3 := Unregister(r2, 0).0;
            var (r4, id) := InitAsWritten(r3, Some("c"));
            id == 0 && r4.prefixes[0].None? && r4.prefixes[1] == Some("c") && Some("b") !in r4.prefixes
  {
    var r1 := InitAsWritten(EmptyRegistry(), Some("a")).0;
    assert r1.prefixes == [Some("a"), None, None, None, None];
    var r2 := InitAsWritten(r1, Some("b")).0;
    assert r2.prefixes == [Some("a"), Some("b"), None, None, None];
    var r3 := Unregister(r2, 0).0;
    assert r3.prefixes == [None, Some("b"), None, None, None] && r3.cnt == 1;
    var (r4, id) := InitAsWritten(r3, Some("c"));
    assert r4.prefixes == [None, Some("c"), None, None, None];
  }

  /** The same calls with the corrected rest_init: every registered prefix keeps its slot and the returned ids hold theirs. */
  lemma InitKeepsOtherModules()
    ensures var (r1, a) := Init(EmptyRegistry(), Some("a"));
            var (r2, b) := Init(r1, Some("b"));
            var r3 := Unregister(r2, 0).0;
            var (r4, c) := Init(r3, Some("c"));
            a == 0 && b == 1 && c == 0 && r4.prefixes[0] == Some("c") && r4.prefixes[1] == Some("b")
  {
    var (r1, a) := Init(EmptyRegistry(), Some("a"));
    assert r1.prefixes == [Some("a"), None, None, None, None];
    var (r2, b) := Init(r1, Some("b"));
    assert r2.prefixes == [Some("a"), Some("b"), None, None, None];
    var r3 := Unregister(r2, 0).0;
    assert r3.prefixes == [None, Some("b"), None, None, None];
  }

  // ---------------------------------------------------------------------
  // rest_cb_unregister

  /**
   * rest_cb_unregister: an id of 5 or more is refused, and so is any call
   * while no module is registered; otherwise the slot's prefix and patterns
   * are dropped and the count goes down, whether or not the slot was in use.
   */
  function Unregister(r: Registry, id: nat): (res: (Registry, int))
    requires RegistryValid(r)
    ensures RegistryValid(res.0)
    ensures id >= MAX_REST_INFO_CNT ==> res == (r, REST_PARAM_FAIL)
    ensures id < MAX_REST_INFO_CNT && r.cnt == 0 ==> res == (r, REST_OP_INVALID)
    ensures res.1 == REST_OK <==> id < MAX_REST_INFO_CNT && r.cnt > 0
    ensures res.1 == REST_OK ==> res.0.prefixes == r.prefixes[id := None] && res.0.tables == r.tables[id := []] && res.0.cnt == r.cnt - 1
  {
    if id >= MAX_REST_INFO_CNT then (r, REST_PARAM_FAIL)
    else if r.cnt == 0 then (r, REST_OP_INVALID)
    else (Registry(r.prefixes[id := None], r.tables[id := []], r.cnt - 1), REST_OK)
  }

  /** After rest_cb_unregister(id) succeeds, no request is routed to slot id. */
  lemma UnregisterHidesModule(r: Registry, id: nat, name: string)
    requires RegistryValid(r) && Unregister(r, id).1 == REST_OK
    ensures ModuleIndex(Unregister(r, id).0.prefixes, Unregister(r, id).0.cnt, name) != Some(id)
  {
  }

  /** Unregistering a slot that was never used still lowers the count, so it can reach 0 while a module remains and every request is then refused. */
  lemma UnregisterUnusedSlotDrops()
    ensures var r1 := Init(EmptyRegistry(), Some("a")).0;
            var r2 := Unregister(r1, 3).0;
            r2.cnt == 0 && r2.prefixes[0] == Some("a") && Route(r2, REST_OP_GET, "a/x").Unrouted?
  {
    var r1 := Init(EmptyRegistry(), Some("a")).0;
    assert r1.prefixes == [Some("a"), None, None, None, None];
  }

  // ---------------------------------------------------------------------
  // rest_cb_register

  /** The handler slot the dispatcher's switch reads for `op`; None for an unknown op. */
  function Slot(h: Handlers, op: int): (s: Option<Handler>)
    ensures !IsOp(op) ==> s.None?
  {
    if op == REST_OP_POST then h.post
    else if op == REST_OP_GET then h.get
    else if op == REST_OP_PUT then h.put
    else if op == REST_OP_PATCH then h.patch
    else if op == REST_OP_DELETE then h.delete
    else None
  }

  /** rest_cb_register's switch: set the slot for `op`, or nothing for an unknown op. */
  function SetSlot(h: Handlers, op: int, handle: Option<Handler>): Handlers
  {
    if op == REST_OP_POST then h.(post := handle)
    else if op == REST_OP_GET then h.(get := handle)
    else if op == REST_OP_PUT then h.(put := handle)
    else if op == REST_OP_PATCH then h.(patch := handle)
    else if op == REST_OP_DELETE then h.(delete := handle)
    else h
  }

  /** Registering overwrites exactly the slot of its op: the dispatcher then finds the new handler there, and every other slot as it was. */
  lemma SetSlotOnly(h: Handlers, op: int, handle: Option<Handler>, other: int)
    ensures IsOp(op) ==> Slot(SetSlot(h, op, handle), op) == handle
    ensures !IsOp(op) ==> SetSlot(h, op, handle) == h
    ensures other != op ==> Slot(SetSlot(h, op, handle), other) == Slot(h, other)
  {
  }

  /** The first of the first MAX_REST_CB_CNT nodes registered with `uri`. */
  function FindUri(ps: seq<Pattern>, uri: string): (r: Option<nat>)
    ensures r.Some? ==> r.value < |ps| && r.value < MAX_REST_CB_CNT && ps[r.value].uri == uri
    ensures r.Some? ==> forall j :: 0 <= j < r.value ==> ps[j].uri != uri
    ensures r.None? ==> forall j :: 0 <= j < |ps| && j < MAX_REST_CB_CNT ==> ps[j].uri != uri
  {
    FindUriFrom(ps, uri, 0)
  }

  function FindUriFrom(ps: seq<Pattern>, uri: string, n: nat): (r: Option<nat>)
    requires n <= |ps| || n <= MAX_REST_CB_CNT
    ensures r.Some? ==> n <= r.value < |ps| && r.value < MAX_REST_CB_CNT && ps[r.value].uri == uri
    ensures r.Some? ==> forall j :: n <= j < r.value ==> ps[j].uri != uri
    ensures r.None? ==> forall j :: n <= j < |ps| && j < MAX_REST_CB_CNT ==> ps[j].uri != uri
    decreases |ps| - n
  {
    if n >= |ps| || n >= MAX_REST_CB_CNT then None
    else if ps[n].uri == uri then Some(n)
    else FindUriFrom(ps, uri, n + 1)
  }

  /** A fresh node for `uri`: init_uri's level and segments, every handler slot empty. */
  function NewPattern(uri: string): (p: Pattern)
    ensures WellFormed(p) && p.uri == uri && p.handlers == NO_HANDLERS
  {
    var level := UriLevel(uri);
    Pattern(uri, level, if level > 0 then UriSegments(uri) else [], NO_HANDLERS)
  }

  /**
   * The pattern list after rest_cb_register: the node already registered
   * with `uri` gets its slot set; otherwise a new node is linked after the
   * last node visited, which drops any nodes past the first
   * MAX_REST_CB_CNT.
   */
  function RegisterTable(ps: seq<Pattern>, uri: string, op: int, handle: Option<Handler>): (qs: seq<Pattern>)
    ensures FindUri(ps, uri).Some? ==> |qs| == |ps|
    ensures FindUri(ps, uri).None? ==>
      |qs| == (if |ps| <= MAX_REST_CB_CNT then |ps| else MAX_REST_CB_CNT) + 1 && qs[..|qs| - 1] == ps[..|qs| - 1]
    ensures FindUri(ps, uri).None? ==> qs[|qs| - 1].uri == uri
  {
    var found := FindUri(ps, uri);
    if found.Some? then
      var k := found.value;
      ps[k := ps[k].(handlers := SetSlot(ps[k].handlers, op, handle))]
    else
      var kept := if |ps| <= MAX_REST_CB_CNT then ps else ps[..MAX_REST_CB_CNT];
      kept + [NewPattern(uri).(handlers := SetSlot(NO_HANDLERS, op, handle))]
  }

  /**
   * rest_cb_register on the table: an id of 5 or more or a NULL uri is
   * refused; a failed node allocation changes nothing; an unknown op still
   * leaves the new node linked and reports REST_OP_INVALID.
   */
  function Register(r: Registry, id: nat, uri: Option<string>, op: int, handle: Option<Handler>, allocOk: bool): (res: (Registry, int))
    requires RegistryValid(r)
    ensures RegistryValid(res.0)
    ensures id >= MAX_REST_INFO_CNT || uri.None? ==> res == (r, REST_PARAM_FAIL)
    ensures res.1 == REST_MALLOC_FAIL ==> res.0 == r && !allocOk
    ensures res.1 in {REST_OK, REST_OP_INVALID} ==> res.1 == (if IsOp(op) then REST_OK else REST_OP_INVALID)
    ensures res.1 in {REST_OK, REST_OP_INVALID} ==>
      res.0 == r.(tables := r.tables[id := RegisterTable(r.tables[id], uri.value, op, handle)])
    ensures res.1 in {REST_OK, REST_OP_INVALID, REST_MALLOC_FAIL, REST_PARAM_FAIL}
  {
    if id >= MAX_REST_INFO_CNT || uri.None? then (r, REST_PARAM_FAIL)
    else if FindUri(r.tables[id], uri.value).None? && !allocOk then (r, REST_MALLOC_FAIL)
    else
      var t := RegisterTable(r.tables[id], uri.value, op, handle);
      RegisterTableWellFormed(r.tables[id], uri.value, op, handle);
      (r.(tables := r.tables[id := t]), if IsOp(op) then REST_OK else REST_OP_INVALID)
  }

  lemma RegisterTableWellFormed(ps: seq<Pattern>, uri: string, op: int, handle: Option<Handler>)
    requires forall k :: 0 <= k < |ps| ==> WellFormed(ps[k])
    ensures forall k :: 0 <= k < |RegisterTable(ps, uri, op, handle)| ==> WellFormed(RegisterTable(ps, uri, op, handle)[k])
  {
  }

  /**
   * A URI that is already registered is reused: the list keeps its length
   * and order, and only that node's slot for `op` changes.
   */
  lemma RegisterReuses(ps: seq<Pattern>, uri: string, op: int, handle: Option<Handler>, k: nat)
    requires k < |ps| && k < MAX_REST_CB_CNT && ps[k].uri == uri
    requires forall j :: 0 <= j < k ==> ps[j].uri != uri
    ensures var qs := RegisterTable(ps, uri, op, handle);
      |qs| == |ps| &&
      (forall j :: 0 <= j < |ps| && j != k ==> qs[j] == ps[j]) &&
      qs[k].uri == ps[k].uri && qs[k].level == ps[k].level && qs[k].segments == ps[k].segments &&
      qs[k].handlers == SetSlot(ps[k].handlers, op, handle)
  {
  }

  /** A URI not yet registered is appended at the tail of a list of at most MAX_REST_CB_CNT nodes. */
  lemma RegisterAppends(ps: seq<Pattern>, uri: string, op: int, handle: Option<Handler>)
    requires |ps| <= MAX_REST_CB_CNT
    requires forall j :: 0 <= j < |ps| ==> ps[j].uri != uri
    ensures var qs := RegisterTable(ps, uri, op, handle);
      |qs| == |ps| + 1 && qs[..|ps|] == ps && qs[|ps|].uri == uri && WellFormed(qs[|ps|]) &&
      qs[|ps|].handlers == SetSlot(NO_HANDLERS, op, handle)
  {
    assert FindUri(ps, uri).None?;
  }

  /** No two nodes of the list share a URI. */
  predicate DistinctUris(ps: seq<Pattern>)
  {
    forall i, j :: 0 <= i < j < |ps| ==> ps[i].uri != ps[j].uri
  }

  /** Registering never creates a second node for a URI, for lists within the node limit. */
  lemma RegisterKeepsDistinct(ps: seq<Pattern>, uri: string, op: int, handle: Option<Handler>)
    requires |ps| <= MAX_REST_CB_CNT && DistinctUris(ps)
    ensures DistinctUris(RegisterTable(ps, uri, op, handle))
  {
    var found := FindUri(ps, uri);
    var qs := RegisterTable(ps, uri, op, handle);
    if found.Some? {
      assert forall j :: 0 <= j < |ps| ==> qs[j].uri == ps[j].uri;
    } else {
      assert qs[..|ps|] == ps;
      assert forall j :: 0 <= j < |ps| ==> qs[j] == ps[j];
    }
  }

  /** Registering a URI a second time, for another method, does not lengthen the list. */
  lemma RegisterTwiceSameLength(ps: seq<Pattern>, uri: string, op1: int, h1: Option<Handler>, op2: int, h2: Option<Handler>)
    requires |ps| < MAX_REST_CB_CNT
    ensures var qs := RegisterTable(ps, uri, op1, h1);
      |RegisterTable(qs, uri, op2, h2)| == |qs|
  {
    var qs := RegisterTable(ps, uri, op1, h1);
    if FindUri(ps, uri).None? {
      assert qs[|ps|].uri == uri;
      assert FindUri(qs, uri).Some?;
    }
  }

  // ---------------------------------------------------------------------
  // rest_parser_handler

  /** What rest_parser_handler does with a request: refuse it with 404, or call a handler. */
  datatype Dispatch = Unrouted | NoHandler | Invoke(handler: Handler)

  /** The module slot and pattern index a request reaches, if any. */
  function Target(r: Registry, uri: string): (t: Option<(nat, nat)>)
    requires RegistryValid(r)
    ensures t.Some? ==> t.value.0 < MAX_REST_INFO_CNT && t.value.1 < |r.tables[t.value.0]|
  {
    if r.cnt == 0 || UriLevel(uri) <= 0 then None
    else
      var list := UriSegments(uri);
      var m := ModuleIndex(r.prefixes, r.cnt, list[0]);
      if m.None? then None
      else
        WellFormedIndexed(r.tables[m.value]);
        var k := FirstMatch(r.tables[m.value], list);
        if k.None? then None else Some((m.value, k.value))
  }

  /**
   * rest_parser_handler's routing: no module, no segment, no module with
   * the request's first segment as prefix, or no matching pattern all give
   * 404; so does a matched pattern with no handler for the op.
   */
  function Route(r: Registry, op: int, uri: string): (d: Dispatch)
    requires RegistryValid(r)
    ensures d.Unrouted? <==> Target(r, uri).None?
    ensures !IsOp(op) ==> !d.Invoke?
  {
    var t := Target(r, uri);
    if t.None? then Unrouted
    else
      var h := Slot(r.tables[t.value.0][t.value.1].handlers, op);
      if h.None? then NoHandler else Invoke(h.value)
  }

  /** The status rest_parser_handler returns: 404 unless a handler runs, then the handler's status. */
  function Status(d: Dispatch, handlerStatus: int): (s: int)
    ensures !d.Invoke? ==> s == REST_HTTP_STATUS_NOT_FOUND
    ensures d.Invoke? ==> s == handlerStatus
  {
    if d.Invoke? then handlerStatus else REST_HTTP_STATUS_NOT_FOUND
  }

  /**
   * A routed request reaches, in the first module whose prefix is its first
   * segment, the first pattern that matches it, and calls that pattern's
   * handler for the op.
   */
  lemma RouteInvokes(r: Registry, op: int, uri: string, h: Handler)
    requires RegistryValid(r) && Route(r, op, uri) == Invoke(h)
    ensures r.cnt > 0 && UriLevel(uri) > 0
    ensures var list := UriSegments(uri);
      exists m, k :: 0 <= m < r.cnt && 0 <= k < |r.tables[m]| &&
        r.prefixes[m] == Some(list[0]) && (forall j :: 0 <= j < m ==> r.prefixes[j] != Some(list[0])) &&
        Matches(r.tables[m][k], list) && (forall j :: 0 <= j < k ==> !Matches(r.tables[m][j], list)) &&
        Slot(r.tables[m][k].handlers, op) == Some(h)
  {
    var list := UriSegments(uri);
    var t := Target(r, uri).value;
    WellFormedIndexed(r.tables[t.0]);
    assert 0 <= t.0 < r.cnt && 0 <= t.1 < |r.tables[t.0]|;
  }

  /**
   * End to end: a module registered with prefix `p` whose earlier
   * patterns do not match, a handler registered for `op` on the URI
   * `/s1/.../sn`, and a request for `/p/s1/.../sn` (with any query) is
   * routed to that handler.
   */
  lemma RegisterThenRoute(r: Registry, id: nat, p: string, segs: seq<string>, op: int, h: Handler, query: string)
    requires RegistryValid(r) && id < r.cnt && r.prefixes[id] == Some(p)
    requires forall j :: 0 <= j < id ==> r.prefixes[j] != Some(p)
    requires |r.tables[id]| < MAX_REST_CB_CNT && IsOp(op)
    requires LiteralPath([p] + segs) && |segs| >= 1
    requires |JoinWith([p] + segs, '/')| <= REST_MAX_URL_NAME_LEN
    requires forall k :: 0 <= k < |r.tables[id]| ==> Indexed(r.tables[id][k]) && !Matches(r.tables[id][k], [p] + segs)
    ensures var r2 := Register(r, id, Some(JoinWith(segs, '/')), op, Some(h), true).0;
      Route(r2, op, JoinWith([p] + segs, '/') + "?" + query) == Invoke(h)
  {
    var u := JoinWith(segs, '/');
    var list := [p] + segs;
    var r2 := Register(r, id, Some(u), op, Some(h), true).0;
    RequestSegments(p, segs, query);
    assert ModuleIndex(r2.prefixes, r2.cnt, list[0]) == Some(id);
    var ps := r.tables[id];
    assert forall k :: 0 <= k < |ps| ==> WellFormed(ps[k]);
    NewNodeFirst(ps, p, segs, op, h);
    assert r2.tables[id] == RegisterTable(ps, u, op, Some(h));
  }

  /** Segments made of plain names: non-empty, no '/', '?', and no wildcard. */
  predicate LiteralPath(segs: seq<string>)
  {
    1 <= |segs| <= REST_MAX_URL_LEVEL &&
    forall i :: 0 <= i < |segs| ==> segs[i] != [] && '/' !in segs[i] && '?' !in segs[i] && !IsCatchAll(segs[i]) && !IsAnyOne(segs[i])
  }

  /** The request `/p/s1/.../sn?query` splits into p, s1, ..., sn. */
  lemma RequestSegments(p: string, segs: seq<string>, query: string)
    requires LiteralPath([p] + segs)
    requires |JoinWith([p] + segs, '/')| <= REST_MAX_URL_NAME_LEN
    ensures UriLevel(JoinWith([p] + segs, '/') + "?" + query) == |segs| + 1
    ensures UriSegments(JoinWith([p] + segs, '/') + "?" + query) == [p] + segs
  {
    var list := [p] + segs;
    var full := JoinWith(list, '/');
    SplitJoined(list);
    JoinWithChars(list, '/', '?');
    RequestSplit(full, query);
  }

  /**
   * After registering `/s1/.../sn` in a list none of whose patterns match
   * `p, s1, ..., sn`, the new node is the first match, with the handler in
   * the op's slot.
   */
  lemma NewNodeFirst(ps: seq<Pattern>, p: string, segs: seq<string>, op: int, h: Handler)
    requires forall k :: 0 <= k < |ps| ==> WellFormed(ps[k])
    requires |ps| < MAX_REST_CB_CNT && IsOp(op)
    requires LiteralPath([p] + segs) && 1 <= |segs|
    requires |JoinWith([p] + segs, '/')| <= REST_MAX_URL_NAME_LEN
    requires forall k :: 0 <= k < |ps| ==> Indexed(ps[k]) && !Matches(ps[k], [p] + segs)
    ensures var qs := RegisterTable(ps, JoinWith(segs, '/'), op, Some(h));
      (forall k :: 0 <= k < |qs| ==> Indexed(qs[k])) &&
      FirstMatch(qs, [p] + segs).Some? &&
      Slot(qs[FirstMatch(qs, [p] + segs).value].handlers, op) == Some(h)
  {
    var u := JoinWith(segs, '/');
    var list := [p] + segs;
    assert list[1..] == segs;
    assert |JoinWith(segs, '/')| <= |JoinWith(list, '/')| by {
      JoinWithCons(list, '/');
    }
    assert forall i :: 0 <= i < |segs| ==> segs[i] == list[i + 1];
    SplitJoined(segs);
    NotYetRegistered(ps, list, u, segs);
    RegisterAppends(ps, u, op, Some(h));
    var qs := RegisterTable(ps, u, op, Some(h));
    var q := qs[|ps|];
    assert qs == ps + [q];
    LiteralMatch(q, list);
    FirstMatchAppend(ps, q, list);
    SetSlotOnly(NO_HANDLERS, op, Some(h), op);
  }

  /** A node registered with `u`, the URI of the literal path's tail, matches that path; so a list with no match has no such node. */
  lemma NotYetRegistered(ps: seq<Pattern>, list: seq<string>, u: string, segs: seq<string>)
    requires forall k :: 0 <= k < |ps| ==> WellFormed(ps[k])
    requires |list| == |segs| + 1 && forall i :: 0 <= i < |segs| ==> segs[i] == list[i + 1]
    requires 1 <= |segs| <= REST_MAX_URL_LEVEL && UriLevel(u) == |segs| && UriSegments(u) == segs
    requires forall k :: 0 <= k < |ps| ==> Indexed(ps[k]) && !Matches(ps[k], list)
    ensures forall k :: 0 <= k < |ps| ==> ps[k].uri != u
  {
    RegisteredMatches(ps, list, u, segs);
  }

  lemma RegisteredMatches(ps: seq<Pattern>, list: seq<string>, u: string, segs: seq<string>)
    requires forall k :: 0 <= k < |ps| ==> WellFormed(ps[k])
    requires |list| == |segs| + 1 && forall i :: 0 <= i < |segs| ==> segs[i] == list[i + 1]
    requires 1 <= |segs| <= REST_MAX_URL_LEVEL && UriLevel(u) == |segs| && UriSegments(u) == segs
    ensures forall k :: 0 <= k < |ps| && ps[k].uri == u ==> Indexed(ps[k]) && Matches(ps[k], list)
  {
    forall k | 0 <= k < |ps| && ps[k].uri == u
      ensures Indexed(ps[k]) && Matches(ps[k], list)
    {
      LiteralMatch(ps[k], list);
    }
  }

  /** The query after '?' does not change how the path splits. */
  lemma RequestSplit(full: string, query: string)
    requires '?' !in full && |full| <= REST_MAX_URL_NAME_LEN
    ensures FormBuf(full + "?" + query) == full
  {
    var s := full + "?" + query;
    var t := Truncate(s, REST_MAX_URL_NAME_LEN);
    assert s[..|full|] == full;
    assert t[..|full|] == full;
    if |full| < |t| {
      assert t[|full|] == '?';
      IndexOfAt(t, '?', |full|);
    } else {
      assert t == full;
    }
  }
}
