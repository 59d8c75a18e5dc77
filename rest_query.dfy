/**
 * The query-string lookup of rest_find_uri_query_val as values: the
 * stored query after the first '?' is read as `key=value` pairs split by
 * alternating strtok calls on "=" and "&".
 */
module RestQuery {
  import opened Options
  import opened CString

  const EQ: set<char> := {'='}
  const AMP: set<char> := {'&'}

  /**
   * The lookup from the saved strtok position `s`, where the next call
   * reads a key. A key equal to `name` yields the token after it, read up
   * to '&' (None when that token is NULL). Any other key skips its value;
   * a missing value ends the search.
   */
  function Lookup(s: string, name: string): (r: Option<string>)
    ensures r.Some? ==> r.value != [] && '&' !in r.value
    decreases |s|
  {
    var k := Strtok(s, EQ);
    if k.token.None? then None
    else
      var v := Strtok(k.rest, AMP);
      if k.token.value == name then v.token
      else if v.token.None? then None
      else Lookup(v.rest, name)
  }

  /** The pair `key=value` as it appears in a query string. */
  function Pair(key: string, value: string): string
  {
    key + "=" + value
  }

  /** Pairs joined with '&': `k1=v1&k2=v2`. */
  function Render(pairs: seq<(string, string)>): string
    decreases |pairs|
  {
    if pairs == [] then []
    else if |pairs| == 1 then Pair(pairs[0].0, pairs[0].1)
    else Pair(pairs[0].0, pairs[0].1) + "&" + Render(pairs[1..])
  }

  /** A key the lookup can read back: non-empty, without '=' or '&'. */
  predicate GoodKey(key: string)
  {
    key != [] && '=' !in key && '&' !in key
  }

  /** A value the lookup can read back: non-empty, without '&'. */
  predicate GoodValue(value: string)
  {
    value != [] && '&' !in value
  }

  /** The value of the first pair whose key is `name`. */
  function FirstValue(pairs: seq<(string, string)>, name: string): (r: Option<string>)
    ensures r.Some? ==> exists i :: 0 <= i < |pairs| && pairs[i] == (name, r.value) && forall j :: 0 <= j < i ==> pairs[j].0 != name
    ensures r.None? ==> forall i :: 0 <= i < |pairs| ==> pairs[i].0 != name
    decreases |pairs|
  {
    if pairs == [] then None
    else if pairs[0].0 == name then Some(pairs[0].1)
    else
      var r := FirstValue(pairs[1..], name);
      assert forall i :: 0 <= i < |pairs[1..]| ==> pairs[1..][i] == pairs[i + 1];
      assert r.Some? ==> exists i :: 1 <= i < |pairs| && pairs[i] == (name, r.value) && forall j :: 0 <= j < i ==> pairs[j].0 != name by {
        if r.Some? {
          var i :| 0 <= i < |pairs[1..]| && pairs[1..][i] == (name, r.value) && forall j :: 0 <= j < i ==> pairs[1..][j].0 != name;
          assert pairs[i + 1] == (name, r.value);
          assert forall j :: 0 <= j < i + 1 ==> pairs[j].0 != name by {
            forall j | 0 <= j < i + 1 ensures pairs[j].0 != name {
              if j > 0 { assert pairs[j] == pairs[1..][j - 1]; }
            }
          }
        }
      }
      r
  }

  /** strtok on "=" reads a good key followed by '='. */
  lemma StrtokKey(key: string, rest: string)
    requires GoodKey(key)
    ensures Strtok(key + "=" + rest, EQ) == Tok(Some(key), rest)
  {
    var s := key + "=" + rest;
    assert s == key + ("=" + rest);
    StrtokSegment(key, "=" + rest, '=');
    assert ("=" + rest)[1..] == rest;
  }

  /** strtok on "&" reads a good value followed by '&' or by nothing. */
  lemma StrtokValue(value: string, tail: string)
    requires GoodValue(value)
    requires tail == [] || tail[0] == '&'
    ensures Strtok(value + tail, AMP) == Tok(Some(value), if tail == [] then [] else tail[1..])
  {
    StrtokSegment(value, tail, '&');
  }

  /**
   * Looking a key up in a rendered query finds the value of the first
   * pair with that key, and nothing when no pair has it.
   */
  lemma {:induction false} LookupRender(pairs: seq<(string, string)>, name: string)
    requires forall i :: 0 <= i < |pairs| ==> GoodKey(pairs[i].0) && GoodValue(pairs[i].1)
    ensures Lookup(Render(pairs), name) == FirstValue(pairs, name)
    decreases |pairs|
  {
    if pairs == [] {
      assert Strtok([], EQ).token.None?;
    } else {
      var key, value := pairs[0].0, pairs[0].1;
      var tail := if |pairs| == 1 then [] else "&" + Render(pairs[1..]);
      assert Render(pairs) == key + "=" + (value + tail);
      StrtokKey(key, value + tail);
      StrtokValue(value, tail);
      if key != name && |pairs| > 1 {
        assert tail[1..] == Render(pairs[1..]);
        LookupRender(pairs[1..], name);
      }
    }
  }
}
