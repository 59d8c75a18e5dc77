/**
 * The data-logger client of data_logger.c: the request URLs it builds for
 * the logger queue, the mapping of HTTP status codes to its return codes,
 * and the in-place extraction of a record's id from a dequeued reply.
 * The HTTP exchange itself (http_req_send) is a parameter: a function from
 * the request sent to the reply received.
 */
module DataLogger {
  import opened Options
  import opened CString
  import opened RestQuery

  const LOGGER_DATA_OK := 0
  const LOGGER_DATA_NOT_FOUND := -1
  const LOGGER_DATA_OP_FAIL := -2
  const LOGGER_DATA_MALLOC_FAIL := -3
  const LOGGER_DATA_ARG_INVALID := -4

  const LOGGER_DATA_OP_DEQUEUE_DATA := 0
  const LOGGER_DATA_OP_KEEP_DATA := 1

  const LOGGER_DATA_REMOVE_BY_ID := 0
  const LOGGER_DATA_REMOVE_ALL := 1

  const HTTP_STATUS_OK := 200
  const HTTP_STATUS_NOT_FOUND := 404

  const HTTP_REQ_OP_GET := 0
  const HTTP_REQ_OP_POST := 1
  const HTTP_REQ_OP_DELETE := 2

  const DATA_LOGGER_SERVER_HOST := "http://127.0.0.1:12345/logger/queue"
  const DATA_LOGGER_QUERY_ARG_MAX_LEN := 200

  const LOGGER_QUERY_SYMBOL_AND := 0
  const LOGGER_QUERY_SYMBOL_QUESTION := 1
  const QUERY_SYMBOL_STR := ["&", "?"]

  /** The range of an int64_t. */
  const INT64_MIN := -0x8000_0000_0000_0000
  const INT64_MAX := 0x7fff_ffff_ffff_ffff

  // ---------------------------------------------------------------------
  // Status codes and the query separator
  // ---------------------------------------------------------------------

  /** logger_data_chk_ret: 200 is success, 404 is not found, anything else a failure. */
  function ChkRet(code: int): (r: int)
    ensures r == LOGGER_DATA_OK <==> code == HTTP_STATUS_OK
    ensures r == LOGGER_DATA_NOT_FOUND <==> code == HTTP_STATUS_NOT_FOUND
    ensures r == LOGGER_DATA_OK || r == LOGGER_DATA_NOT_FOUND || r == LOGGER_DATA_OP_FAIL
  {
    if code == HTTP_STATUS_OK then LOGGER_DATA_OK
    else if code == HTTP_STATUS_NOT_FOUND then LOGGER_DATA_NOT_FOUND
    else LOGGER_DATA_OP_FAIL
  }

  /** logger_data_find_url_query_symbol: a URI that already has a query gets '&', any other '?'. */
  function QuerySymbol(uri: string): (idx: nat)
    ensures idx < |QUERY_SYMBOL_STR|
    ensures QUERY_SYMBOL_STR[idx] == (if '?' in uri then "&" else "?")
  {
    if IndexOf(uri, '?') >= 0 then LOGGER_QUERY_SYMBOL_AND else LOGGER_QUERY_SYMBOL_QUESTION
  }

  // ---------------------------------------------------------------------
  // Decimal text, as printf's %u and %lld write it and sscanf's %lld reads it
  // ---------------------------------------------------------------------

  predicate IsDigit(c: char)
  {
    '0' <= c <= '9'
  }

  predicate AllDigits(s: string)
  {
    forall i :: 0 <= i < |s| ==> IsDigit(s[i])
  }

  function DigitChar(d: nat): char
    requires d < 10
  {
    ('0' as int + d) as char
  }

  /** The shortest decimal text of `n`. */
  function NatDigits(n: nat): (s: string)
    ensures |s| >= 1 && AllDigits(s)
    decreases n
  {
    if n < 10 then [DigitChar(n)] else NatDigits(n / 10) + [DigitChar(n % 10)]
  }

  /** printf's %lld: a '-' before the digits of a negative number. */
  function Decimal(n: int): (s: string)
    ensures |s| >= 1 && '&' !in s && '?' !in s && ':' !in s && ',' !in s && '"' !in s
  {
    if n < 0 then "-" + NatDigits(-n) else NatDigits(n)
  }

  /** The number that a run of digits denotes. */
  function DigitsValue(ds: string): nat
    requires AllDigits(ds)
    decreases |ds|
  {
    if ds == [] then 0 else DigitsValue(ds[..|ds| - 1]) * 10 + (ds[|ds| - 1] as int - '0' as int)
  }

  /** How many digits `s` starts with. */
  function DigitRun(s: string): (k: nat)
    ensures k <= |s| && AllDigits(s[..k])
    ensures k < |s| ==> !IsDigit(s[k])
    decreases |s|
  {
    if s != [] && IsDigit(s[0]) then
      var k := 1 + DigitRun(s[1..]);
      assert s[..k] == [s[0]] + s[1..][..k - 1];
      k
    else 0
  }

  predicate IsSpace(c: char)
  {
    c == ' ' || c == '\t' || c == '\n' || c == '\U{b}' || c == '\U{c}' || c == '\r'
  }

  /** How many white-space characters `s` starts with: %lld skips them. */
  function SpaceRun(s: string): (k: nat)
    ensures k <= |s| && forall i :: 0 <= i < k ==> IsSpace(s[i])
    ensures k < |s| ==> !IsSpace(s[k])
    decreases |s|
  {
    if s != [] && IsSpace(s[0]) then 1 + SpaceRun(s[1..]) else 0
  }

  /** strtoll's reading of an optional sign and at least one digit; None when no digit follows. */
  function ScanSigned(v: string): Option<int>
  {
    var negative := v != [] && v[0] == '-';
    var signLen := if v != [] && (v[0] == '-' || v[0] == '+') then 1 else 0;
    var m := Unsigned(v[signLen..]);
    if m.None? then None else Some(if negative then -(m.value as int) else m.value as int)
  }

  /** The value of the digits `ds` starts with; None when it starts with none. */
  function Unsigned(ds: string): Option<nat>
  {
    var k := DigitRun(ds);
    if k == 0 then None else Some(DigitsValue(ds[..k]))
  }

  /**
   * sscanf(s, "\"%lld\"", &id) for the value it stores: a '"', white
   * space, an optional sign and at least one digit; None when nothing is
   * stored.
   */
  function ScanQuotedInt(s: string): Option<int>
  {
    if s == [] || s[0] != '"' then None
    else ScanSigned(s[1..][SpaceRun(s[1..])..])
  }

  /** The digits of `n` denote `n`. */
  lemma {:induction false} NatDigitsValue(n: nat)
    ensures DigitsValue(NatDigits(n)) == n
    decreases n
  {
    if n >= 10 {
      var ds := NatDigits(n);
      assert ds[..|ds| - 1] == NatDigits(n / 10);
      NatDigitsValue(n / 10);
    }
  }

  /** A digit run ends where the digits end. */
  lemma {:induction false} DigitRunPrefix(ds: string, tail: string)
    requires AllDigits(ds)
    requires tail == [] || !IsDigit(tail[0])
    ensures DigitRun(ds + tail) == |ds|
    decreases |ds|
  {
    if ds != [] {
      assert (ds + tail)[1..] == ds[1..] + tail;
      DigitRunPrefix(ds[1..], tail);
    } else {
      assert ds + tail == tail;
    }
  }

  /** What %lld writes, strtoll reads back. */
  lemma ScanSignedDecimal(n: int, tail: string)
    requires tail == [] || !IsDigit(tail[0])
    ensures ScanSigned(Decimal(n) + tail) == Some(n)
  {
    if n < 0 {
      ScanNegativeDecimal(n, tail);
    } else {
      ScanNonNegativeDecimal(n, tail);
    }
  }

  lemma ScanNegativeDecimal(n: int, tail: string)
    requires n < 0 && (tail == [] || !IsDigit(tail[0]))
    ensures ScanSigned(Decimal(n) + tail) == Some(n)
  {
    ScanUnsigned(-n, tail);
    ScanNegative(n, tail);
  }

  lemma ScanNonNegativeDecimal(n: int, tail: string)
    requires n >= 0 && (tail == [] || !IsDigit(tail[0]))
    ensures ScanSigned(Decimal(n) + tail) == Some(n)
  {
    ScanUnsigned(n, tail);
    ScanNonNegative(NatDigits(n) + tail, n);
  }

  lemma ScanNegative(n: int, tail: string)
    requires n < 0 && Unsigned(NatDigits(-n) + tail) == Some(-n)
    ensures ScanSigned(Decimal(n) + tail) == Some(n)
  {
    DecimalNegative(n, tail);
    SignedNegative(Decimal(n) + tail, NatDigits(-n) + tail, -n);
  }

  lemma DecimalNegative(n: int, tail: string)
    requires n < 0
    ensures var v := Decimal(n) + tail; v != [] && v[0] == '-' && v[1..] == NatDigits(-n) + tail
  {
    var v := Decimal(n) + tail;
    assert v[1..] == NatDigits(-n) + tail;
  }

  lemma SignedNegative(v: string, u: string, m: nat)
    requires v != [] && v[0] == '-' && v[1..] == u && Unsigned(u) == Some(m)
    ensures ScanSigned(v) == Some(-(m as int))
  {
  }

  lemma ScanNonNegative(u: string, m: nat)
    requires Unsigned(u) == Some(m) && u != [] && IsDigit(u[0])
    ensures ScanSigned(u) == Some(m)
  {
    assert u[0..] == u;
  }

  /** The digits of `m` followed by a non-digit read back as `m`. */
  lemma ScanUnsigned(m: nat, tail: string)
    requires tail == [] || !IsDigit(tail[0])
    ensures var v := NatDigits(m) + tail; Unsigned(v) == Some(m) && IsDigit(v[0])
  {
    var ds := NatDigits(m);
    DigitRunPrefix(ds, tail);
    NatDigitsValue(m);
    assert (ds + tail)[..|ds|] == ds;
    assert (ds + tail)[0] == ds[0];
  }

  /** What a quoted %lld writes, a quoted %lld reads back. */
  lemma ScanDecimal(n: int, tail: string)
    requires tail == [] || !IsDigit(tail[0])
    ensures ScanQuotedInt("\"" + Decimal(n) + tail) == Some(n)
  {
    var u := Decimal(n) + tail;
    var s := "\"" + u;
    assert "\"" + Decimal(n) + tail == s;
    assert s[1..] == u;
    NoLeadingSpace(Decimal(n), tail);
    assert u[0..] == u;
    ScanSignedDecimal(n, tail);
  }

  lemma NoLeadingSpace(d: string, tail: string)
    requires d != [] && (d[0] == '-' || IsDigit(d[0]))
    ensures SpaceRun(d + tail) == 0
  {
    assert (d + tail)[0] == d[0];
  }

  function Pow10(k: nat): nat
  {
    if k == 0 then 1 else 10 * Pow10(k - 1)
  }

  /** A number below 10^k has at most k digits. */
  lemma {:induction false} NatDigitsLength(n: nat, k: nat)
    requires 1 <= k && n < Pow10(k)
    ensures |NatDigits(n)| <= k
    decreases k
  {
    if n >= 10 {
      assert n / 10 < Pow10(k - 1);
      NatDigitsLength(n / 10, k - 1);
    }
  }

  /** An int64_t prints in at most 20 characters. */
  lemma Int64DecimalLength(n: int)
    requires INT64_MIN <= n <= INT64_MAX
    ensures |Decimal(n)| <= 20
  {
    assert Pow10(19) == 10_000_000_000_000_000_000 by {
      assert Pow10(4) == 10_000;
      assert Pow10(8) == 100_000_000 by {
        assert Pow10(8) == 10 * (10 * (10 * (10 * Pow10(4))));
      }
      assert Pow10(16) == 10_000_000_000_000_000 by {
        PowAdd(8, 8);
      }
      assert Pow10(19) == 10 * (10 * (10 * Pow10(16)));
    }
    if n < 0 {
      NatDigitsLength(-n, 19);
    } else {
      NatDigitsLength(n, 19);
    }
  }

  lemma {:induction false} PowAdd(a: nat, b: nat)
    ensures Pow10(a + b) == Pow10(a) * Pow10(b)
    decreases a
  {
    if a > 0 {
      PowAdd(a - 1, b);
    }
  }

  // ---------------------------------------------------------------------
  // Request URLs
  // ---------------------------------------------------------------------

  /** The `%s/%s` prefix every request shares. */
  function BaseUrl(uri: string): string
  {
    DATA_LOGGER_SERVER_HOST + "/" + uri
  }

  /** The URL of logger_data_enq. */
  function EnqUrl(uri: string): (u: string)
    ensures |u| == |DATA_LOGGER_SERVER_HOST| + 1 + |uri|
    ensures u[..|DATA_LOGGER_SERVER_HOST|] == DATA_LOGGER_SERVER_HOST && u[|DATA_LOGGER_SERVER_HOST|] == '/'
    ensures u[|DATA_LOGGER_SERVER_HOST| + 1..] == uri
  {
    BaseUrl(uri)
  }

  /** The URL of logger_data_deq: `keep=1` for KEEP_DATA, `keep=0` for any other flag. */
  function DeqUrl(uri: string, opFlag: int): (u: string)
    ensures EnqUrl(uri) <= u
    ensures u[|EnqUrl(uri)|..] == (if '?' in uri then "&" else "?") + "keep=" + (if opFlag == LOGGER_DATA_OP_KEEP_DATA then "1" else "0")
  {
    BaseUrl(uri) + QUERY_SYMBOL_STR[QuerySymbol(uri)] + Pair("keep", if opFlag == LOGGER_DATA_OP_KEEP_DATA then "1" else "0")
  }

  /** The URL of logger_data_remove for the id it chose. */
  function RemoveUrl(uri: string, id: int): (u: string)
    ensures EnqUrl(uri) <= u
    ensures u[|EnqUrl(uri)|..] == (if '?' in uri then "&" else "?") + "id=" + Decimal(id)
  {
    BaseUrl(uri) + QUERY_SYMBOL_STR[QuerySymbol(uri)] + Pair("id", Decimal(id))
  }

  /** The number of bytes logger_data_url_malloc reserves for a URI. */
  function UrlAllocation(uri: string): nat
  {
    |DATA_LOGGER_SERVER_HOST| + |uri| + DATA_LOGGER_QUERY_ARG_MAX_LEN
  }

  /** A URI path, followed by its query when it has pairs. */
  function QueryUri(path: string, pairs: seq<(string, string)>): string
  {
    if pairs == [] then path else path + "?" + Render(pairs)
  }

  lemma {:induction false} RenderSnoc(pairs: seq<(string, string)>, p: (string, string))
    requires pairs != []
    ensures Render(pairs + [p]) == Render(pairs) + "&" + Pair(p.0, p.1)
    decreases |pairs|
  {
    if |pairs| > 1 {
      assert (pairs + [p])[1..] == pairs[1..] + [p];
      RenderSnoc(pairs[1..], p);
    } else {
      assert (pairs + [p])[1..] == [p];
    }
  }

  /** strchr finds the '?' that follows a prefix without one. */
  lemma FirstQuery(pre: string, q: string)
    requires '?' !in pre
    ensures After(pre + "?" + q, '?') == Some(q)
  {
    var url := pre + "?" + q;
    assert url[|pre|] == '?';
    assert url[..|pre|] == pre;
    IndexOfAt(url, '?', |pre|);
    assert url[|pre| + 1..] == q;
  }

  lemma HostHasNoQuery(path: string)
    requires '?' !in path
    ensures '?' !in BaseUrl(path)
  {
    assert '?' !in DATA_LOGGER_SERVER_HOST;
  }

  /**
   * Appending a pair with the query separator extends the URI's query:
   * the query of the URL (what follows its first '?') renders the URI's
   * pairs followed by the new one.
   */
  lemma AppendQuery(path: string, pairs: seq<(string, string)>, key: string, value: string)
    requires '?' !in path
    ensures var uri := QueryUri(path, pairs);
      After(BaseUrl(uri) + QUERY_SYMBOL_STR[QuerySymbol(uri)] + Pair(key, value), '?')
        == Some(Render(pairs + [(key, value)]))
  {
    HostHasNoQuery(path);
    if pairs == [] {
      AppendFirstQuery(path, key, value);
    } else {
      AppendLaterQuery(path, pairs, key, value);
    }
  }

  lemma AppendFirstQuery(path: string, key: string, value: string)
    requires '?' !in BaseUrl(path)
    ensures After(BaseUrl(path) + QUERY_SYMBOL_STR[QuerySymbol(path)] + Pair(key, value), '?')
      == Some(Render([(key, value)]))
  {
    assert QUERY_SYMBOL_STR[QuerySymbol(path)] == "?";
    FirstQuery(BaseUrl(path), Pair(key, value));
  }

  lemma AppendLaterQuery(path: string, pairs: seq<(string, string)>, key: string, value: string)
    requires pairs != [] && '?' !in BaseUrl(path)
    ensures var uri := QueryUri(path, pairs);
      After(BaseUrl(uri) + QUERY_SYMBOL_STR[QuerySymbol(uri)] + Pair(key, value), '?')
        == Some(Render(pairs + [(key, value)]))
  {
    var uri := QueryUri(path, pairs);
    var rest := Pair(key, value);
    assert '?' in uri by {
      assert uri[|path|] == '?';
    }
    assert QUERY_SYMBOL_STR[QuerySymbol(uri)] == "&";
    Regroup(path, Render(pairs), rest);
    FirstQuery(BaseUrl(path), Render(pairs) + "&" + rest);
    RenderSnoc(pairs, (key, value));
  }

  lemma Regroup(path: string, query: string, rest: string)
    ensures BaseUrl(path + "?" + query) + "&" + rest == BaseUrl(path) + "?" + (query + "&" + rest)
  {
  }

  /** Looking up a key that only the last pair has gives that pair's value. */
  lemma LookupLast(pairs: seq<(string, string)>, key: string, value: string)
    requires GoodKey(key) && GoodValue(value)
    requires forall i :: 0 <= i < |pairs| ==> GoodKey(pairs[i].0) && GoodValue(pairs[i].1) && pairs[i].0 != key
    ensures Lookup(Render(pairs + [(key, value)]), key) == Some(value)
  {
    var all := pairs + [(key, value)];
    forall i | 0 <= i < |all|
      ensures GoodKey(all[i].0) && GoodValue(all[i].1)
    {
      if i < |pairs| {
        assert all[i] == pairs[i];
      }
    }
    LookupRender(all, key);
    FirstValueLast(pairs, key, value);
  }

  lemma {:induction false} FirstValueLast(pairs: seq<(string, string)>, key: string, value: string)
    requires forall i :: 0 <= i < |pairs| ==> pairs[i].0 != key
    ensures FirstValue(pairs + [(key, value)], key) == Some(value)
    decreases |pairs|
  {
    if pairs != [] {
      assert (pairs + [(key, value)])[1..] == pairs[1..] + [(key, value)];
      FirstValueLast(pairs[1..], key, value);
    }
  }

  /**
   * The logger reads the dequeue flag back: looking `keep` up in the
   * query of the dequeue URL, as the REST engine does, gives "1" for
   * KEEP_DATA and "0" otherwise, when the URI's own query has no `keep`.
   */
  lemma DeqUrlKeep(path: string, pairs: seq<(string, string)>, opFlag: int)
    requires '?' !in path
    requires forall i :: 0 <= i < |pairs| ==> GoodKey(pairs[i].0) && GoodValue(pairs[i].1) && pairs[i].0 != "keep"
    ensures var q := After(DeqUrl(QueryUri(path, pairs), opFlag), '?');
      q.Some? && Lookup(q.value, "keep") == Some(if opFlag == LOGGER_DATA_OP_KEEP_DATA then "1" else "0")
  {
    var k := if opFlag == LOGGER_DATA_OP_KEEP_DATA then "1" else "0";
    var uri := QueryUri(path, pairs);
    assert DeqUrl(uri, opFlag) == BaseUrl(uri) + QUERY_SYMBOL_STR[QuerySymbol(uri)] + Pair("keep", k);
    AppendQuery(path, pairs, "keep", k);
    LookupLast(pairs, "keep", k);
  }

  /** Likewise the id of a removal reads back as the id chosen. */
  lemma RemoveUrlId(path: string, pairs: seq<(string, string)>, id: int)
    requires '?' !in path
    requires forall i :: 0 <= i < |pairs| ==> GoodKey(pairs[i].0) && GoodValue(pairs[i].1) && pairs[i].0 != "id"
    ensures var q := After(RemoveUrl(QueryUri(path, pairs), id), '?');
      q.Some? && Lookup(q.value, "id") == Some(Decimal(id))
  {
    var uri := QueryUri(path, pairs);
    assert RemoveUrl(uri, id) == BaseUrl(uri) + QUERY_SYMBOL_STR[QuerySymbol(uri)] + Pair("id", Decimal(id));
    AppendQuery(path, pairs, "id", Decimal(id));
    LookupLast(pairs, "id", Decimal(id));
  }

  /** Every URL the client builds fits, with its terminator, in the buffer reserved for it. */
  lemma UrlsFitAllocation(uri: string, opFlag: int, id: int)
    requires INT64_MIN <= id <= INT64_MAX
    ensures |EnqUrl(uri)| + 1 <= UrlAllocation(uri)
    ensures |DeqUrl(uri, opFlag)| + 1 <= UrlAllocation(uri)
    ensures |RemoveUrl(uri, id)| + 1 <= UrlAllocation(uri)
  {
    Int64DecimalLength(id);
  }

  // ---------------------------------------------------------------------
  // logger_data_get_id
  // ---------------------------------------------------------------------

  /** What the id extraction returns, the id it stores, and the ',' it rewrote. */
  datatype IdScan = IdScan(ret: int, id: int, cut: Option<nat>)

  /** The character at `i` of the C string `t`: its terminator at `|t|`. */
  function CharAt(t: string, i: nat): char
  {
    if i < |t| then t[i] else '\0'
  }

  /**
   * The backward scan over `t` (the reply with its last character
   * dropped) from position `i`: each ':' stores the quoted number after
   * it when there is one, and the first ',' met ends the scan. That ','
   * is the last one of `t` up to `i`.
   */
  function ScanBack(t: string, i: int, id: int): (g: IdScan)
    requires -1 <= i <= |t|
    ensures g.cut.Some? <==> g.ret == LOGGER_DATA_OK
    ensures g.cut.None? ==> g.ret == LOGGER_DATA_OP_FAIL && NoComma(t, 0, i)
    ensures g.cut.Some? ==> g.cut.value <= i && g.cut.value < |t| && t[g.cut.value] == ','
    ensures g.cut.Some? ==> NoComma(t, g.cut.value + 1, i)
    decreases i + 1
  {
    if i < 0 then IdScan(LOGGER_DATA_OP_FAIL, id, None)
    else if CharAt(t, i) == ',' then IdScan(LOGGER_DATA_OK, id, Some(i))
    else
      var g := ScanBack(t, i - 1, StoreId(t, i, id));
      NoCommaExtend(t, if g.cut.Some? then g.cut.value + 1 else 0, i);
      g
  }

  lemma NoCommaExtend(t: string, lo: int, i: nat)
    requires NoComma(t, lo, i - 1) && (i < |t| ==> CharAt(t, i) != ',')
    ensures NoComma(t, lo, i)
  {
  }

  /** No ',' in `t` between positions `lo` and `hi`, both included. */
  predicate NoComma(t: string, lo: int, hi: int)
  {
    forall p :: lo <= p <= hi && 0 <= p < |t| ==> t[p] != ','
  }

  /** The id after visiting position `i`: a ':' followed by a quoted number stores that number. */
  function StoreId(t: string, i: nat, id: int): (v: int)
    requires i <= |t|
    ensures i == |t| || t[i] != ':' ==> v == id
    ensures v != id ==> i < |t| && t[i] == ':' && ScanQuotedInt(t[i + 1..]) == Some(v)
  {
    if i < |t| && t[i] == ':' then
      var v := ScanQuotedInt(t[i + 1..]);
      if v.Some? then v.value else id
    else id
  }

  /** logger_data_get_id on the reply `s` with a non-NULL id; `id` is what the id held before. */
  function GetIdSpec(s: string, id: int): (g: IdScan)
    ensures g.cut.Some? ==> g.cut.value + 1 < |s|
  {
    if s == [] then IdScan(LOGGER_DATA_OP_FAIL, id, None)
    else ScanBack(s[..|s| - 1], |s| - 1, id)
  }

  /** The buffer after the extraction: its last character cleared, and the ',' found turned into "}" and a terminator. */
  function Rewritten(s: string, cut: Option<nat>): string
    requires cut.Some? ==> cut.value + 1 < |s|
  {
    if s == [] then s
    else
      var b := s[|s| - 1 := '\0'];
      if cut.None? then b else b[cut.value := '}'][cut.value + 1 := '\0']
  }

  /**
   * logger_data_get_id, in place on the reply `inbuf` (None for NULL).
   * A NULL id pointer is success without a look at the buffer; a NULL
   * buffer is a failure. An empty reply has nothing to scan and fails;
   * the write before its start is not modelled.
   */
  method GetId(hasDataId: bool, id0: int, inbuf: Option<array<char>>) returns (ret: int, id: int)
    requires inbuf.Some? ==> '\0' !in inbuf.value[..]
    modifies if inbuf.Some? then {inbuf.value} else {}
    ensures !hasDataId ==> ret == LOGGER_DATA_OK && id == id0
    ensures hasDataId && inbuf.None? ==> ret == LOGGER_DATA_OP_FAIL && id == id0
    ensures inbuf.Some? && !hasDataId ==> inbuf.value[..] == old(inbuf.value[..])
    ensures hasDataId && inbuf.Some? ==>
      var g := GetIdSpec(old(inbuf.value[..]), id0);
      ret == g.ret && id == g.id && inbuf.value[..] == Rewritten(old(inbuf.value[..]), g.cut)
  {
    id := id0;
    if !hasDataId {
      return LOGGER_DATA_OK, id;
    }
    if inbuf.None? {
      return LOGGER_DATA_OP_FAIL, id;
    }
    var a := inbuf.value;
    ghost var s := a[..];
    var len := a.Length;
    if len == 0 {
      return LOGGER_DATA_OP_FAIL, id;
    }
    a[len - 1] := '\0';
    ghost var t := s[..len - 1];
    var i := len - 1;
    while i >= 0
      invariant -1 <= i <= len - 1
      invariant a[..] == s[len - 1 := '\0']
      invariant ScanBack(t, i, id) == ScanBack(t, len - 1, id0)
      decreases i
    {
      assert i < len - 1 ==> a[i] == t[i];
      assert a[i] == CharAt(t, i);
      ghost var before := id;
      if a[i] == ':' {
        assert a[i + 1..len - 1] == t[i + 1..];
        var v := ScanQuotedInt(a[i + 1..len - 1]);
        if v.Some? {
          id := v.value;
        }
      }
      assert a[i] != ',' ==> id == StoreId(t, i, before);
      if a[i] == ',' {
        a[i] := '}';
        a[i + 1] := '\0';
        return LOGGER_DATA_OK, id;
      }
      i := i - 1;
    }
    return LOGGER_DATA_OP_FAIL, id;
  }

  /** The scan skips characters that are neither ':' nor ','. */
  lemma {:induction false} ScanBackSkip(t: string, i: int, k: int, id: int)
    requires -1 <= k <= i <= |t|
    requires forall p :: k < p <= i && p < |t| ==> t[p] != ':' && t[p] != ','
    ensures ScanBack(t, i, id) == ScanBack(t, k, id)
    decreases i - k
  {
    if k < i {
      ScanBackSkip(t, i - 1, k, id);
    }
  }

  /** Scanning back from the end over `:<q>`, where `q` has neither ':' nor ',', stores what the ':' gives. */
  lemma ScanColonValue(t: string, colon: nat, id0: int)
    requires colon < |t| && t[colon] == ':'
    requires NoMark(t, colon + 1)
    ensures ScanBack(t, |t|, id0) == ScanBack(t, colon - 1, StoreId(t, colon, id0))
  {
    ScanBackSkip(t, |t|, colon, id0);
  }

  /** No ':' and no ',' in `t` from position `from` on. */
  predicate NoMark(t: string, from: nat)
  {
    forall p :: from <= p < |t| ==> t[p] != ':' && t[p] != ','
  }

  /** After the rewrite the buffer reads as the text before the ',' closed with '}'. */
  lemma RewrittenReads(j: string, s: string)
    requires '\0' !in j
    requires |s| > |j| + 1 && s[..|j|] == j
    ensures CutAt(Rewritten(s, Some(|j|)), '\0') == j + "}"
  {
    var r := Rewritten(s, Some(|j|));
    assert r[..|j| + 1] == j + "}" && r[|j| + 1] == '\0';
    assert forall i :: 0 <= i < |j| + 1 ==> r[i] == (j + "}")[i];
    IndexOfAt(r, '\0', |j| + 1);
  }

  /** The end of a dequeued record: `,"id":"<d>"}`. */
  function IdTrailer(d: string): string
  {
    ",\"id\":\"" + d + "\"}"
  }

  /** Where the ',' and the ':' of a trailer are, and what lies between and after them. */
  lemma IdTrailerLayout(d: string)
    ensures var tr := IdTrailer(d);
      |tr| == |d| + 9 && tr[0] == ',' && tr[5] == ':' &&
      (forall p :: 1 <= p <= 4 ==> tr[p] != ':' && tr[p] != ',') &&
      tr[6..|tr| - 1] == "\"" + d + "\""
  {
  }

  /** The reply `<j>` followed by a trailer, less its last character, seen position by position. */
  lemma ReplyLayout(j: string, d: string)
    ensures var s := j + IdTrailer(d); var t := s[..|s| - 1];
      |t| == |j| + |d| + 8 && t[|j|] == ',' && t[|j| + 5] == ':' &&
      (forall p :: |j| < p <= |j| + 4 ==> t[p] != ':' && t[p] != ',') &&
      t[|j| + 6..] == "\"" + d + "\"" && t[..|j|] == j
  {
    var tr := IdTrailer(d);
    var s := j + tr;
    var t := s[..|s| - 1];
    IdTrailerLayout(d);
    assert forall p :: |j| <= p < |t| ==> t[p] == tr[p - |j|];
    assert t[|j| + 6..] == tr[6..|tr| - 1];
  }

  /** The scan over a `,` four characters without ':' or ',', a ':' and a quoted number stores that number and stops at the ','. */
  lemma ScanIdField(t: string, c: nat, n: int, id0: int)
    requires c + 6 <= |t| && t[c] == ',' && t[c + 5] == ':'
    requires forall p :: c < p <= c + 4 ==> t[p] != ':' && t[p] != ','
    requires NoMark(t, c + 6) && StoreId(t, c + 5, id0) == n
    ensures ScanBack(t, |t|, id0) == IdScan(LOGGER_DATA_OK, n, Some(c))
  {
    ScanColonValue(t, c + 5, id0);
    ScanBackSkip(t, c + 4, c, n);
  }

  /** A ':' followed by a quoted number stores that number. */
  lemma StoreQuoted(t: string, colon: nat, q: string, n: int, id0: int)
    requires colon < |t| && t[colon] == ':' && t[colon + 1..] == q && ScanQuotedInt(q) == Some(n)
    ensures StoreId(t, colon, id0) == n
  {
  }

  /** The reply less its last character: `<j>,"id":"<d>"`. */
  function IdReply(j: string, d: string): (t: string)
    ensures |t| == |j| + |d| + 8
  {
    var s := j + IdTrailer(d);
    s[..|s| - 1]
  }

  /** The positions of the ',' and the ':' of the id field, with neither in between. */
  lemma IdReplyMarks(j: string, d: string)
    ensures var t := IdReply(j, d); var c := |j|;
      c + 6 <= |t| && t[c] == ',' && t[c + 5] == ':' &&
      forall p :: c < p <= c + 4 ==> t[p] != ':' && t[p] != ','
  {
    ReplyLayout(j, d);
  }

  /** After the ':', neither ':' nor ',' occurs. */
  lemma IdReplyNoMark(j: string, d: string)
    requires ':' !in d && ',' !in d
    ensures NoMark(IdReply(j, d), |j| + 6)
  {
    var t := IdReply(j, d);
    ReplyLayout(j, d);
    NoMarkAfter(t, |j| + 6, "\"" + d + "\"", d);
  }

  /** The ':' stores the quoted value after it. */
  lemma IdReplyStore(j: string, d: string, n: int, id0: int)
    requires ScanQuotedInt("\"" + d + "\"") == Some(n)
    ensures StoreId(IdReply(j, d), |j| + 5, id0) == n
  {
    ReplyLayout(j, d);
    StoreQuoted(IdReply(j, d), |j| + 5, "\"" + d + "\"", n, id0);
  }

  /** The scan over the reply `<j>,"id":"<d>"}`, less its last character, stores `n` and stops at the ',' after `j`. */
  lemma TrailerScan(j: string, d: string, n: int, id0: int)
    requires ':' !in d && ',' !in d && ScanQuotedInt("\"" + d + "\"") == Some(n)
    ensures var t := IdReply(j, d); ScanBack(t, |t|, id0) == IdScan(LOGGER_DATA_OK, n, Some(|j|))
  {
    IdReplyMarks(j, d);
    IdReplyNoMark(j, d);
    IdReplyStore(j, d, n, id0);
    ScanIdField(IdReply(j, d), |j|, n, id0);
  }

  lemma NoMarkAfter(t: string, from: nat, q: string, d: string)
    requires from <= |t| && t[from..] == q && q == "\"" + d + "\""
    requires ':' !in d && ',' !in d
    ensures NoMark(t, from)
  {
    assert ':' !in q && ',' !in q;
    forall p | from <= p < |t|
      ensures t[p] != ':' && t[p] != ','
    {
      assert t[p] == q[p - from];
    }
  }

  /** The reply `<j>,"id":"<d>"}` with `d` reading as `n` yields `n` and reads `<j>}` afterwards. */
  lemma GetIdReadsTrailer(j: string, d: string, n: int, id0: int)
    requires '\0' !in j
    requires ':' !in d && ',' !in d && ScanQuotedInt("\"" + d + "\"") == Some(n)
    ensures var s := j + IdTrailer(d);
      var g := GetIdSpec(s, id0);
      g == IdScan(LOGGER_DATA_OK, n, Some(|j|)) && CutAt(Rewritten(s, g.cut), '\0') == j + "}"
  {
    TrailerScan(j, d, n, id0);
    GetIdSpecReply(j, d, id0);
    ReplyPrefix(j, d);
    RewrittenReads(j, j + IdTrailer(d));
  }

  lemma GetIdSpecReply(j: string, d: string, id0: int)
    ensures var t := IdReply(j, d); GetIdSpec(j + IdTrailer(d), id0) == ScanBack(t, |t|, id0)
  {
  }

  lemma ReplyPrefix(j: string, d: string)
    ensures var s := j + IdTrailer(d); |s| > |j| + 1 && s[..|j|] == j
  {
  }

  /**
   * A reply that ends in `,"id":"<n>"}` yields id `n`, and the buffer
   * then reads as everything before that ',' closed with '}'.
   */
  lemma GetIdReadsTrailingId(j: string, n: int, id0: int)
    requires '\0' !in j
    ensures var s := j + IdTrailer(Decimal(n));
      var g := GetIdSpec(s, id0);
      g == IdScan(LOGGER_DATA_OK, n, Some(|j|)) && CutAt(Rewritten(s, g.cut), '\0') == j + "}"
  {
    ScanDecimal(n, "\"");
    GetIdReadsTrailer(j, Decimal(n), n, id0);
  }

  /** The extraction succeeds exactly when the reply, less its last character, has a ','. */
  lemma GetIdNeedsComma(s: string, id0: int)
    ensures GetIdSpec(s, id0).ret == LOGGER_DATA_OK <==> s != [] && ',' in s[..|s| - 1]
  {
  }

  // ---------------------------------------------------------------------
  // The public operations
  // ---------------------------------------------------------------------

  /** A request handed to http_req_send: URL, HTTP_REQ_OP and the body sent, if any. */
  datatype Request = Request(url: string, op: int, payload: Option<string>)

  /**
   * What http_req_send did with `*out_buf`: left it alone (no body
   * received), stored NULL (the copy's malloc failed, and the status is
   * then 400), or stored a copy of the `rx_size` bytes received.
   */
  datatype Stored = NotStored | StoredNull | Stored(data: string)

  /** What http_req_send gives back: the status, and what it stored through `out_buf` and `out_buf_len`. */
  datatype Reply = Reply(code: int, body: Stored)

  /**
   * logger_data_enq: check the arguments, reserve the URL, post the
   * record and map the status. `allocOk` says whether malloc succeeds.
   * The result carries the request that was sent, if any.
   */
  function Enq(uri: Option<string>, json: Option<string>, len: nat, allocOk: bool, send: Request -> Reply): (r: (int, Option<Request>))
    ensures r.0 == LOGGER_DATA_ARG_INVALID <==> uri.None? || json.None? || len == 0
    ensures r.0 == LOGGER_DATA_MALLOC_FAIL <==> uri.Some? && json.Some? && len > 0 && !allocOk
    ensures r.1.Some? <==> uri.Some? && json.Some? && len > 0 && allocOk
    ensures r.1.Some? ==> r.1.value.url == EnqUrl(uri.value) && r.1.value.op == HTTP_REQ_OP_POST
    ensures r.1.Some? && len <= |json.value| ==> r.1.value.payload == Some(json.value[..len])
    ensures r.1.Some? && len > |json.value| ==> r.1.value.payload == Some(json.value)
    ensures r.1.Some? ==> r.0 == ChkRet(send(r.1.value).code)
  {
    if uri.None? || json.None? || len == 0 then (LOGGER_DATA_ARG_INVALID, None)
    else if !allocOk then (LOGGER_DATA_MALLOC_FAIL, None)
    else
      assert json.value[..|json.value|] == json.value;
      var req := Request(EnqUrl(uri.value), HTTP_REQ_OP_POST, Some(json.value[..if len <= |json.value| then len else |json.value|]));
      (ChkRet(send(req).code), Some(req))
  }

  /**
   * logger_data_remove: the id sent is `dataId` for REMOVE_BY_ID and -1
   * for REMOVE_ALL; any other flag is refused, but only once the URL
   * buffer has been reserved.
   */
  function Remove(uri: Option<string>, dataId: int, opFlag: int, allocOk: bool, send: Request -> Reply): (r: (int, Option<Request>))
    ensures r.0 == LOGGER_DATA_ARG_INVALID <==> uri.None? || (allocOk && opFlag != LOGGER_DATA_REMOVE_BY_ID && opFlag != LOGGER_DATA_REMOVE_ALL)
    ensures r.0 == LOGGER_DATA_MALLOC_FAIL <==> uri.Some? && !allocOk
    ensures r.1.Some? <==> uri.Some? && allocOk && (opFlag == LOGGER_DATA_REMOVE_BY_ID || opFlag == LOGGER_DATA_REMOVE_ALL)
    ensures r.1.Some? ==> r.1.value == Request(RemoveUrl(uri.value, if opFlag == LOGGER_DATA_REMOVE_ALL then -1 else dataId), HTTP_REQ_OP_DELETE, None)
    ensures r.1.Some? ==> r.0 == ChkRet(send(r.1.value).code)
  {
    if uri.None? then (LOGGER_DATA_ARG_INVALID, None)
    else if !allocOk then (LOGGER_DATA_MALLOC_FAIL, None)
    else if opFlag != LOGGER_DATA_REMOVE_BY_ID && opFlag != LOGGER_DATA_REMOVE_ALL then (LOGGER_DATA_ARG_INVALID, None)
    else
      var id := if opFlag == LOGGER_DATA_REMOVE_BY_ID then dataId else -1;
      var req := Request(RemoveUrl(uri.value, id), HTTP_REQ_OP_DELETE, None);
      (ChkRet(send(req).code), Some(req))
  }

  /**
   * What `*out_buf` holds once http_req_send returns: a fresh copy of the
   * reply body, read up to its first NUL, when one was stored; NULL when
   * the copy could not be allocated; and otherwise whatever the caller's
   * pointer held before (`prior`).
   */
  function Delivered(rep: Reply, prior: Option<string>): (d: Option<string>)
    ensures rep.body.Stored? ==> d.Some? && '\0' !in d.value && d.value <= rep.body.data
    ensures rep.body.StoredNull? ==> d.None?
    ensures rep.body.NotStored? ==> d == prior
  {
    match rep.body
    case Stored(data) => Some(CutAt(data, '\0'))
    case StoredNull => None
    case NotStored => prior
  }

  /**
   * The stores http_req_send makes through `out_buf` and `out_buf_len`:
   * a fresh copy of the body and its size, NULL alone, or nothing.
   */
  method Receive(reply: Reply, prior: Option<array<char>>, priorLen: nat) returns (json: Option<array<char>>, outLen: nat)
    ensures reply.body.Stored? ==> json.Some? && fresh(json.value) && outLen == |reply.body.data|
    ensures !reply.body.Stored? ==> outLen == priorLen
    ensures reply.body.NotStored? ==> json == prior
    ensures json.Some? && reply.body.Stored? ==> json.value[..] == Delivered(reply, None).value
    ensures reply.body.StoredNull? ==> json.None?
  {
    json, outLen := prior, priorLen;
    match reply.body {
      case Stored(data) =>
        var s := CutAt(data, '\0');
        var a := new char[|s|](k requires 0 <= k < |s| => s[k]);
        assert a[..] == s;
        json := Some(a);
        outLen := |data|;
      case StoredNull =>
        json := None;
      case NotStored =>
    }
  }

  /**
   * logger_data_deq: check the arguments, reserve the URL, ask for the
   * head of the queue and, on 200, extract its id in place from the
   * buffer `*jsonStr` then points to. `hasDataId`, `hasJsonStr` and
   * `hasLen` say which output pointers are non-NULL; `prior` is the
   * buffer `*jsonStr` pointed to before the call (None for NULL) and
   * `priorLen` what `*len` held, both of which http_req_send replaces
   * according to what it stored, whatever the status; `uninit` is
   * whatever the local id held before the extraction. Returns the status,
   * the request sent, the id stored through `data_id` (if any), the
   * buffer `*jsonStr` points to and the value of `*len`.
   */
  method Deq(uri: Option<string>, hasDataId: bool, opFlag: int, hasJsonStr: bool, hasLen: bool,
             allocOk: bool, send: Request -> Reply, uninit: int, prior: Option<array<char>>, priorLen: nat)
    returns (ret: int, sent: Option<Request>, dataId: Option<int>, json: Option<array<char>>, outLen: nat)
    requires prior.Some? ==> '\0' !in prior.value[..]
    modifies if prior.Some? then {prior.value} else {}
    ensures ret == LOGGER_DATA_ARG_INVALID <==> uri.None? || !hasJsonStr || !hasLen
    ensures ret == LOGGER_DATA_MALLOC_FAIL <==> uri.Some? && hasJsonStr && hasLen && !allocOk
    ensures sent.Some? <==> uri.Some? && hasJsonStr && hasLen && allocOk
    ensures sent.Some? ==> sent.value == Request(DeqUrl(uri.value, opFlag), HTTP_REQ_OP_GET, None)
    ensures sent.None? ==> dataId.None? && json == prior && outLen == priorLen
    ensures sent.Some? ==> outLen == (if send(sent.value).body.Stored? then |send(sent.value).body.data| else priorLen)
    ensures sent.Some? && send(sent.value).body.NotStored? ==> json == prior
    ensures sent.Some? && send(sent.value).body.StoredNull? ==> json.None? && ret == (if send(sent.value).code == HTTP_STATUS_OK then LOGGER_DATA_OP_FAIL else ChkRet(send(sent.value).code))
    ensures sent.Some? && send(sent.value).body.Stored? ==> json.Some? && fresh(json.value)
    ensures prior.Some? && (sent.None? || !send(sent.value).body.NotStored?) ==> prior.value[..] == old(prior.value[..])
    ensures sent.Some? && send(sent.value).code != HTTP_STATUS_OK ==>
      var d := Delivered(send(sent.value), if prior.Some? then Some(old(prior.value[..])) else None);
      ret == ChkRet(send(sent.value).code) && dataId.None? && json.Some? == d.Some? &&
      (json.Some? ==> json.value[..] == d.value)
    ensures sent.Some? && send(sent.value).code == HTTP_STATUS_OK ==>
      var d := Delivered(send(sent.value), if prior.Some? then Some(old(prior.value[..])) else None);
      if d.None? then ret == LOGGER_DATA_OP_FAIL && dataId.None? && json.None?
      else
        var g := GetIdSpec(d.value, uninit);
        json.Some? && json.value[..] == Rewritten(d.value, g.cut) &&
        ret == g.ret &&
        dataId == (if g.ret == LOGGER_DATA_OK && hasDataId then Some(g.id) else None)
  {
    dataId, json, outLen := None, prior, priorLen;
    if uri.None? || !hasJsonStr || !hasLen {
      return LOGGER_DATA_ARG_INVALID, None, dataId, json, outLen;
    }
    if !allocOk {
      return LOGGER_DATA_MALLOC_FAIL, None, dataId, json, outLen;
    }
    var req := Request(DeqUrl(uri.value, opFlag), HTTP_REQ_OP_GET, None);
    sent := Some(req);
    var reply := send(req);
    json, outLen := Receive(reply, prior, priorLen);
    if reply.code == HTTP_STATUS_OK {
      if json.None? {
        return LOGGER_DATA_OP_FAIL, sent, dataId, json, outLen;
      }
      var r, id := GetId(true, uninit, json);
      if r != LOGGER_DATA_OK {
        return LOGGER_DATA_OP_FAIL, sent, dataId, json, outLen;
      }
      if hasDataId {
        dataId := Some(id);
      }
    }
    ret := ChkRet(reply.code);
  }
}
