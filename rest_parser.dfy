/**
 * The engine of rest_parser.c as one object: its file-scope state (the
 * module table, the query and segment list saved for the handler being run,
 * and the bound output buffer with its write index and info record) and a
 * method per entry point. Each method is proved against the value-level
 * definitions of RestRegistry, RestOutput and RestQuery.
 */
module RestParser {
  import opened Options
  import opened CString
  import opened RestDefs
  import opened RestUri
  import opened RestMatch
  import opened RestOutput
  import opened RestQuery
  import opened RestRegistry

  /** What a handler does when it is called: the status it returns and the output calls it makes, in order. */
  datatype HandlerRun = HandlerRun(status: int, calls: seq<OutputCall>)

  /** The registered callbacks' behaviour, given the handler, the request URI and the request body. */
  type Behaviour = (Handler, string, seq<char>) -> HandlerRun

  class RestEngine {
    /** rest_api_info[i].uri_prefix, rest_api_info[i].cb and rest_api_info_cnt. */
    var prefixes: seq<Option<string>>
    var tables: seq<seq<Pattern>>
    var infoCnt: int
    /** query_buf: the text after the first '?' of the request being handled; None for NULL. */
    var query: Option<string>
    /** restapi_list with restapi_list_size: the segments of the request being handled. */
    var apiList: seq<string>
    /** Whether rest_output_data, rest_output_data_size and rest_output_data_info have been set. */
    var bound: bool
    /** *rest_output_data, null before any allocation; its length is *rest_output_data_size. */
    var out: array?<char>
    /** rest_output_data_idx: how much of the buffer holds output. */
    var idx: nat
    /** *rest_output_data_info. */
    var info: OutputInfo

    /** The module table as a value. */
    function Reg(): Registry
      reads this
    {
      Registry(prefixes, tables, infoCnt)
    }

    ghost predicate Valid()
      reads this
    {
      RegistryValid(Reg()) && (out == null ==> idx == 0) && (out != null ==> idx <= out.Length)
    }

    /** The output written so far. */
    function Contents(): seq<char>
      reads this, out
      requires Valid()
    {
      if out == null then [] else out[..idx]
    }

    /** The output and the info record, as the accumulator of RestOutput. */
    function Output(): Acc
      reads this, out
      requires Valid()
    {
      Acc(Contents(), info)
    }

    /** rest_mem_cpy succeeds for `n` bytes: the pointers are bound, there is data, and the buffer fits it or can be allocated. */
    predicate CanAppend(n: nat, allocOk: bool)
      reads this
    {
      bound && n > 0 && (allocOk || (out != null && idx + n <= out.Length))
    }

    /** The state at program start: every static zero. */
    constructor()
      ensures Valid() && Reg() == EmptyRegistry()
      ensures query.None? && apiList == [] && !bound && out == null && idx == 0
    {
      prefixes := EmptyRegistry().prefixes;
      tables := EmptyRegistry().tables;
      infoCnt := 0;
      query := None;
      apiList := [];
      bound := false;
      out := null;
      idx := 0;
      info := RESET_INFO;
    }

    /** rest_init, storing the prefix in the free slot whose index it returns. */
    method Init(prefix: Option<string>) returns (ret: int)
      requires Valid()
      modifies this
      ensures Valid()
      ensures (Reg(), ret) == RestRegistry.Init(old(Reg()), prefix)
      ensures query == old(query) && apiList == old(apiList) && bound == old(bound)
      ensures out == old(out) && idx == old(idx) && info == old(info)
    {
      if prefix.None? {
        return REST_PARAM_FAIL;
      }
      if infoCnt >= MAX_REST_INFO_CNT {
        return REST_INIT_EXCEED;
      }
      if infoCnt == 0 {
        prefixes := EmptyRegistry().prefixes;
        tables := EmptyRegistry().tables;
      }
      var i := 0;
      while i < MAX_REST_INFO_CNT
        invariant 0 <= i <= MAX_REST_INFO_CNT
        invariant Reg() == InitBase(old(Reg()))
        invariant forall j :: 0 <= j < i ==> prefixes[j].Some?
      {
        if prefixes[i].None? {
          prefixes := prefixes[i := prefix];
          infoCnt := infoCnt + 1;
          return i;
        }
        i := i + 1;
      }
      return REST_INIT_EXCEED;
    }

    /** rest_cb_unregister. */
    method Unregister(id: nat) returns (ret: int)
      requires Valid()
      modifies this
      ensures Valid()
      ensures (Reg(), ret) == RestRegistry.Unregister(old(Reg()), id)
      ensures query == old(query) && apiList == old(apiList) && bound == old(bound)
      ensures out == old(out) && idx == old(idx) && info == old(info)
    {
      if id >= MAX_REST_INFO_CNT {
        return REST_PARAM_FAIL;
      }
      if infoCnt == 0 {
        return REST_OP_INVALID;
      }
      prefixes := prefixes[id := None];
      tables := tables[id := []];
      infoCnt := infoCnt - 1;
      return REST_OK;
    }

    /**
     * rest_cb_register: walk at most MAX_REST_CB_CNT nodes for one with the
     * same URI; failing that, link a new node, split by init_uri, after the
     * last node visited. Then set the op's handler slot.
     */
    method Register(id: nat, uri: Option<string>, op: int, handle: Option<Handler>, allocOk: bool) returns (ret: int)
      requires Valid()
      modifies this
      ensures Valid()
      ensures (Reg(), ret) == RestRegistry.Register(old(Reg()), id, uri, op, handle, allocOk)
      ensures query == old(query) && apiList == old(apiList) && bound == old(bound)
      ensures out == old(out) && idx == old(idx) && info == old(info)
    {
      if id >= MAX_REST_INFO_CNT || uri.None? {
        return REST_PARAM_FAIL;
      }
      var ps, ok;
      ps, ok, ret := RegisterIn(tables[id], uri.value, op, handle, allocOk);
      if !ok {
        return REST_MALLOC_FAIL;
      }
      RegisterTableWellFormed(tables[id], uri.value, op, handle);
      tables := tables[id := ps];
    }

    /** rest_cb_register on one module's pattern list; `ok` is false when the node allocation fails. */
    static method RegisterIn(ps0: seq<Pattern>, u: string, op: int, handle: Option<Handler>, allocOk: bool)
      returns (ps: seq<Pattern>, ok: bool, ret: int)
      ensures ok <==> FindUri(ps0, u).Some? || allocOk
      ensures ok ==> ps == RegisterTable(ps0, u, op, handle)
      ensures ok ==> ret == (if IsOp(op) then REST_OK else REST_OP_INVALID)
    {
      ps := ps0;
      var cnt, found := FindNode(ps, u);
      var k: nat;
      if found.None? {
        if !allocOk {
          return ps, false, REST_MALLOC_FAIL;
        }
        var level, segs := InitUri(u);
        ps := ps[..cnt] + [Pattern(u, level, if level > 0 then segs else [], NO_HANDLERS)];
        assert ps[cnt] == NewPattern(u);
        k := cnt;
      } else {
        k := found.value;
      }
      var h;
      h, ret := SetHandler(ps[k].handlers, op, handle);
      ps := ps[k := ps[k].(handlers := h)];
      ok := true;
    }

    /** rest_cb_register's walk: the node with URI `u` among the first MAX_REST_CB_CNT, or the number of nodes visited. */
    static method FindNode(ps: seq<Pattern>, u: string) returns (cnt: nat, found: Option<nat>)
      ensures found == FindUri(ps, u)
      ensures cnt <= |ps|
      ensures found.None? ==> ps[..cnt] == (if |ps| <= MAX_REST_CB_CNT then ps else ps[..MAX_REST_CB_CNT])
    {
      cnt := 0;
      found := None;
      while cnt < |ps| && cnt < MAX_REST_CB_CNT
        invariant 0 <= cnt <= |ps| && cnt <= MAX_REST_CB_CNT
        invariant forall j :: 0 <= j < cnt ==> ps[j].uri != u
      {
        if ps[cnt].uri == u {
          found := Some(cnt);
          return;
        }
        cnt := cnt + 1;
      }
      assert ps[..|ps|] == ps;
    }

    /** rest_cb_register's switch on the op: set that handler slot, or report REST_OP_INVALID. */
    static method SetHandler(h0: Handlers, op: int, handle: Option<Handler>) returns (h: Handlers, ret: int)
      ensures h == SetSlot(h0, op, handle)
      ensures ret == (if IsOp(op) then REST_OK else REST_OP_INVALID)
    {
      h := h0;
      ret := REST_OK;
      if op == REST_OP_POST {
        h := h.(post := handle);
      } else if op == REST_OP_GET {
        h := h.(get := handle);
      } else if op == REST_OP_PUT {
        h := h.(put := handle);
      } else if op == REST_OP_PATCH {
        h := h.(patch := handle);
      } else if op == REST_OP_DELETE {
        h := h.(delete := handle);
      } else {
        ret := REST_OP_INVALID;
      }
    }

    /** realloc: a buffer of `n` characters that starts with the old one's. */
    method Grow(n: nat)
      requires Valid() && out != null && n >= out.Length
      modifies this
      ensures Valid() && out != null && fresh(out) && out.Length == n
      ensures out[..old(out.Length)] == old(out[..])
      ensures Reg() == old(Reg()) && query == old(query) && apiList == old(apiList) && bound == old(bound)
      ensures idx == old(idx) && info == old(info)
    {
      var a := new char[n];
      var o := out;
      var j := 0;
      while j < o.Length
        invariant 0 <= j <= o.Length
        invariant a[..j] == o[..j]
        modifies a
      {
        a[j] := o[j];
        j := j + 1;
      }
      assert a[..o.Length] == o[..];
      out := a;
    }

    /**
     * rest_mem_cpy: append `buf` to the output buffer, allocating it on
     * first use and growing it to exactly the size needed. No data, or
     * output pointers not yet bound by a dispatch, is REST_OP_INVALID; a
     * failed allocation is REST_MALLOC_FAIL and changes nothing.
     */
    method MemCpy(buf: Option<seq<char>>, allocOk: bool) returns (ret: int)
      requires Valid()
      modifies this, out
      ensures Valid()
      ensures ret == REST_OK <==> buf.Some? && old(CanAppend(|buf.value|, allocOk))
      ensures ret != REST_OK ==> ret == (if buf.None? || buf.value == [] || !bound then REST_OP_INVALID else REST_MALLOC_FAIL)
      ensures ret != REST_OK ==> out == old(out) && idx == old(idx) && Contents() == old(Contents())
      ensures ret == REST_OK ==> Contents() == old(Contents()) + buf.value && idx == |Contents()|
      ensures old(out) != null ==> out != null && out.Length >= old(out.Length)
      ensures out == old(out) || fresh(out)
      ensures Reg() == old(Reg()) && query == old(query) && apiList == old(apiList) && bound == old(bound) && info == old(info)
    {
      if buf.None? || |buf.value| <= 0 || !bound {
        return REST_OP_INVALID;
      }
      var data := buf.value;
      if out == null {
        if !allocOk {
          return REST_MALLOC_FAIL;
        }
        out := new char[|data|];
        idx := 0;
      }
      if idx + |data| > out.Length {
        if !allocOk {
          return REST_MALLOC_FAIL;
        }
        Grow(idx + |data|);
      }
      assert out[..idx] == old(Contents());
      CopyInto(out, idx, data);
      idx := idx + |data|;
      return REST_OK;
    }

    /** memcpy(o + at, data, |data|). */
    static method CopyInto(o: array<char>, at: nat, data: seq<char>)
      requires at + |data| <= o.Length
      modifies o
      ensures o[..at + |data|] == old(o[..at]) + data
    {
      ghost var before := o[..at];
      var j := 0;
      while j < |data|
        invariant 0 <= j <= |data|
        invariant o[..at + j] == before + data[..j]
      {
        o[at + j] := data[j];
        assert o[..at + j + 1] == o[..at + j] + [data[j]];
        assert data[..j + 1] == data[..j] + [data[j]];
        j := j + 1;
      }
      assert data[..j] == data;
    }

    /** rest_write: append JSON output; the info then reports the whole length, kind JSON and no file name. */
    method Write(data: Option<seq<char>>, allocOk: bool) returns (ret: int)
      requires Valid()
      modifies this, out
      ensures Valid()
      ensures ret == REST_OK <==> data.Some? && old(CanAppend(|data.value|, allocOk))
      ensures ret != REST_OK ==> ret == (if data.None? || data.value == [] || !old(bound) then REST_OP_INVALID else REST_MALLOC_FAIL)
      ensures ret != REST_OK ==> Output() == old(Output())
      ensures ret == REST_OK ==> Output() == Apply(old(Output()), WriteCall(data.value))
      ensures old(out) != null ==> out != null && out.Length >= old(out.Length)
      ensures out == old(out) || fresh(out)
      ensures Reg() == old(Reg()) && query == old(query) && apiList == old(apiList) && bound == old(bound)
    {
      if data.None? || |data.value| <= 0 {
        return REST_OP_INVALID;
      }
      ret := MemCpy(data, allocOk);
      if ret != REST_OK {
        return;
      }
      info := OutputInfo(idx, REST_DATA_TYPE_JSON, None);
    }

    /**
     * rest_write_file: append file output; the info then reports the whole
     * length and kind FILE, and records `name` unless a name is recorded. A
     * failed allocation for the name is REST_MALLOC_FAIL after the data
     * was appended.
     */
    method WriteFile(name: Option<string>, data: Option<seq<char>>, allocOk: bool, nameAllocOk: bool) returns (ret: int)
      requires Valid()
      modifies this, out
      ensures Valid()
      ensures ret == REST_OK <==> name.Some? && data.Some? && old(CanAppend(|data.value|, allocOk)) && (old(info.desc).Some? || nameAllocOk)
      ensures !(name.Some? && data.Some? && old(CanAppend(|data.value|, allocOk))) ==>
        Output() == old(Output()) &&
        ret == (if name.None? || data.None? || data.value == [] || !old(bound) then REST_OP_INVALID else REST_MALLOC_FAIL)
      ensures ret == REST_OK ==> Output() == Apply(old(Output()), WriteFileCall(name.value, data.value))
      ensures name.Some? && data.Some? && old(CanAppend(|data.value|, allocOk)) && old(info.desc).None? && !nameAllocOk ==>
        ret == REST_MALLOC_FAIL && Output() == Apply(old(Output()), WriteFileCall(name.value, data.value)).(info := info.(desc := None))
      ensures old(out) != null ==> out != null && out.Length >= old(out.Length)
      ensures out == old(out) || fresh(out)
      ensures Reg() == old(Reg()) && query == old(query) && apiList == old(apiList) && bound == old(bound)
    {
      if data.None? || |data.value| <= 0 || name.None? {
        return REST_OP_INVALID;
      }
      ret := MemCpy(data, allocOk);
      if ret != REST_OK {
        return;
      }
      info := info.(len := idx, kind := REST_DATA_TYPE_FILE);
      if info.desc.None? {
        if !nameAllocOk {
          return REST_MALLOC_FAIL;
        }
        info := info.(desc := name);
      }
    }

    /**
     * rest_find_uri_query_val: look `qName` up in the saved query with the
     * alternating strtok calls of RestQuery.Lookup. A found value is copied
     * out; a failed copy reports REST_QUERY_NOT_FOUND.
     */
    method FindUriQueryVal(qName: Option<string>, hasOut: bool, allocOk: bool) returns (ret: int, val: Option<string>)
      ensures qName.None? || !hasOut ==> ret == REST_PARAM_FAIL && val.None?
      ensures qName.Some? && hasOut && query.None? ==> ret == REST_QUERY_NOT_FOUND && val.None?
      ensures qName.Some? && hasOut && query.Some? ==>
        (ret == REST_OK <==> Lookup(query.value, qName.value).Some? && allocOk) &&
        (ret == REST_OK ==> val == Lookup(query.value, qName.value)) &&
        (ret != REST_OK ==> ret == REST_QUERY_NOT_FOUND && val.None?)
    {
      if qName.None? || !hasOut {
        return REST_PARAM_FAIL, None;
      }
      if query.None? {
        return REST_QUERY_NOT_FOUND, None;
      }
      var name := qName.value;
      var pos := query.value;
      var k := Strtok(pos, EQ);
      while k.token.Some?
        invariant k == Strtok(pos, EQ)
        invariant Lookup(query.value, name) == Lookup(pos, name)
        decreases |pos|
      {
        var v := Strtok(k.rest, AMP);
        if k.token.value == name {
          if v.token.None? || !allocOk {
            return REST_QUERY_NOT_FOUND, None;
          }
          return REST_OK, v.token;
        }
        if v.token.None? {
          break;
        }
        pos := v.rest;
        k := Strtok(pos, EQ);
      }
      return REST_QUERY_NOT_FOUND, None;
    }

    /** rest_find_uri_name: a copy of segment `uriIdx` of the request being handled. */
    method FindUriName(uriIdx: nat, hasOut: bool, allocOk: bool) returns (ret: int, name: Option<string>)
      ensures !hasOut ==> ret == REST_PARAM_FAIL && name.None?
      ensures hasOut && uriIdx >= |apiList| ==> ret == REST_QUERY_NOT_FOUND && name.None?
      ensures hasOut && uriIdx < |apiList| ==>
        (ret == REST_OK <==> allocOk) &&
        (allocOk ==> name == Some(apiList[uriIdx])) &&
        (!allocOk ==> ret == REST_QUERY_NOT_FOUND && name.None?)
    {
      if !hasOut {
        return REST_PARAM_FAIL, None;
      }
      if uriIdx >= |apiList| {
        return REST_QUERY_NOT_FOUND, None;
      }
      if !allocOk {
        return REST_QUERY_NOT_FOUND, None;
      }
      return REST_OK, Some(apiList[uriIdx]);
    }

    /** A handler's output calls run one after another, every allocation succeeding. */
    method RunCalls(calls: seq<OutputCall>)
      requires Valid() && bound
      modifies this, out
      ensures Valid() && bound
      ensures Output() == ReplayFrom(old(Output()), calls)
      ensures old(out) != null ==> out != null && out.Length >= old(out.Length)
      ensures out == old(out) || fresh(out)
      ensures Reg() == old(Reg()) && query == old(query) && apiList == old(apiList)
    {
      var j := 0;
      while j < |calls|
        invariant 0 <= j <= |calls|
        invariant Valid() && bound
        invariant Output() == ReplayFrom(old(Output()), calls[..j])
        invariant old(out) != null ==> out != null && out.Length >= old(out.Length)
        invariant out == old(out) || fresh(out)
        invariant Reg() == old(Reg()) && query == old(query) && apiList == old(apiList)
      {
        ghost var before := Output();
        var c := calls[j];
        var ret;
        match c {
          case WriteCall(data) =>
            ret := Write(Some(data), true);
          case WriteFileCall(name, data) =>
            ret := WriteFile(Some(name), Some(data), true, true);
        }
        assert Output() == Apply(before, c);
        ReplayStep(old(Output()), calls, j);
        j := j + 1;
      }
      assert calls[..j] == calls;
    }

    /**
     * The routing half of rest_parser_handler: init_uri, then check_uri over
     * the registered modules, then search_cb in the module found. Any
     * failure is None.
     */
    method Locate(uri: string) returns (t: Option<(nat, nat)>, list: seq<string>)
      requires Valid()
      ensures t == Target(Reg(), uri)
      ensures t.Some? ==> list == UriSegments(uri)
    {
      if infoCnt == 0 {
        return None, [];
      }
      var cnt;
      cnt, list := InitUri(uri);
      if cnt <= 0 {
        return None, list;
      }
      var found, infoIdx := CheckUri(list, prefixes, infoCnt);
      if found != REST_OK {
        return None, list;
      }
      WellFormedIndexed(tables[infoIdx]);
      var k := SearchCb(tables[infoIdx], list);
      if k.None? {
        return None, list;
      }
      return Some((infoIdx, k.value)), list;
    }

    /** store_uri_query_val, store_rest_list and the binding of the caller's output pointers, with the info reset. */
    method Bind(uri: string, list: seq<string>, outBuf: array?<char>)
      requires Valid()
      modifies this
      ensures Valid() && Reg() == old(Reg())
      ensures query == After(uri, '?') && apiList == list && bound
      ensures out == outBuf && idx == 0 && info == RESET_INFO
      ensures Output() == EMPTY_ACC
    {
      query := After(uri, '?');
      apiList := list;
      bound := true;
      out := outBuf;
      idx := 0;
      info := RESET_INFO;
    }

    /**
     * rest_parser_handler: route the request (404 when no module is
     * registered, the path has no segment, no prefix equals its first
     * segment, or no pattern matches); for a routed request save its query
     * and segments, bind the caller's output buffer, reset the info, and
     * call the op's handler (404 when the slot is empty). The dispatch
     * decision is returned beside the status.
     */
    method ParserHandler(op: int, uri: string, input: seq<char>, outBuf: array?<char>, behave: Behaviour) returns (ret: int, d: Dispatch)
      requires Valid()
      modifies this, outBuf
      ensures Valid() && Reg() == old(Reg())
      ensures d == Route(old(Reg()), op, uri)
      ensures ret == Status(d, if d.Invoke? then behave(d.handler, uri, input).status else 0)
      ensures d.Unrouted? ==> query == old(query) && apiList == old(apiList) && bound == old(bound)
      ensures d.Unrouted? ==> out == old(out) && idx == old(idx) && info == old(info)
      ensures !d.Unrouted? ==> bound && query == After(uri, '?') && apiList == UriSegments(uri)
      ensures d.NoHandler? ==> out == outBuf && Output() == EMPTY_ACC
      ensures d.Invoke? ==> Output() == Replay(behave(d.handler, uri, input).calls)
      ensures !d.Unrouted? && outBuf != null ==> out != null && out.Length >= outBuf.Length
      ensures !d.Unrouted? ==> out == outBuf || fresh(out)
    {
      d := Route(Reg(), op, uri);
      var t, list := Locate(uri);
      if t.None? {
        return REST_HTTP_STATUS_NOT_FOUND, d;
      }
      var (infoIdx, k) := t.value;
      Bind(uri, list, outBuf);
      var h := Slot(tables[infoIdx][k].handlers, op);
      if h.None? {
        return REST_HTTP_STATUS_NOT_FOUND, d;
      }
      var run := behave(h.value, uri, input);
      RunCalls(run.calls);
      return run.status, d;
    }
  }

  /** One more call of the replay: replaying `calls[..j + 1]` is replaying `calls[..j]` and then applying `calls[j]`. */
  lemma ReplayStep(a: Acc, calls: seq<OutputCall>, j: nat)
    requires j < |calls|
    ensures ReplayFrom(a, calls[..j + 1]) == Apply(ReplayFrom(a, calls[..j]), calls[j])
  {
    assert calls[..j + 1] == calls[..j] + [calls[j]];
    ReplayAppend(a, calls[..j], [calls[j]]);
  }
}
