/**
 * init_uri: how the engine splits a URI into path segments, both for a
 * request and for a pattern being registered.
 */
module RestUri {
  import opened CString
  import opened RestDefs

  /** The separator set strtok is given. */
  const SLASH: set<char> := {'/'}

  /**
   * The working copy init_uri splits: the URI as read back from a
   * REST_MAX_URL_NAME_LEN-byte buffer, cut at its first '?'.
   */
  function FormBuf(uri: string): (f: string)
    ensures |f| <= REST_MAX_URL_NAME_LEN && '?' !in f
    ensures f <= uri
  {
    CutAt(Truncate(uri, REST_MAX_URL_NAME_LEN), '?')
  }

  /** Every `/`-separated token of the working copy. */
  function AllSegments(uri: string): seq<string>
  {
    Tokens(FormBuf(uri), SLASH)
  }

  /** The segments init_uri keeps: the first REST_MAX_URL_LEVEL tokens. */
  function UriSegments(uri: string): (segs: seq<string>)
    ensures |segs| <= REST_MAX_URL_LEVEL
    ensures segs <= AllSegments(uri)
  {
    var ts := AllSegments(uri);
    if |ts| <= REST_MAX_URL_LEVEL then ts else ts[..REST_MAX_URL_LEVEL]
  }

  /** init_uri's return value: the number of segments kept, or REST_URL_NOTDEFINE when there is none. */
  function UriLevel(uri: string): (n: int)
    ensures n == REST_URL_NOTDEFINE || 1 <= n <= REST_MAX_URL_LEVEL
    ensures n == REST_URL_NOTDEFINE <==> UriSegments(uri) == []
    ensures n > 0 ==> n == |UriSegments(uri)|
  {
    if AllSegments(uri) == [] then REST_URL_NOTDEFINE else |UriSegments(uri)|
  }

  /**
   * init_uri as the source runs it: strtok over the working copy, storing
   * tokens until REST_MAX_URL_LEVEL are counted, then cutting the last
   * stored segment at '?'. Returns the count (or the error code) and the
   * stored segments. The successive strtok results are the elements of
   * `toks`, so the call that follows the k-th one returns toks[k], or NULL
   * once k == |toks|.
   */
  method InitUri(uri: string) returns (cnt: int, list: seq<string>)
    ensures cnt == UriLevel(uri)
    ensures cnt > 0 ==> list == UriSegments(uri)
  {
    var formBuf := Truncate(uri, REST_MAX_URL_NAME_LEN);
    formBuf := CutAt(formBuf, '?');
    // The strtok calls are read off Tokens; TokensStep shows each strtok(NULL, "/") returns the next element.
    var toks := Tokens(formBuf, SLASH);
    if |toks| == 0 {
      return REST_URL_NOTDEFINE, [];
    }
    list := [toks[0]];
    cnt := 0;
    var more := true;
    while more
      invariant 0 <= cnt < REST_MAX_URL_LEVEL
      invariant more ==> cnt < |toks|
      invariant !more ==> cnt == |toks|
      invariant list == toks[..if more then cnt + 1 else cnt]
      decreases REST_MAX_URL_LEVEL - cnt
    {
      cnt := cnt + 1;
      more := cnt < |toks|;
      // the source also copies the token counted as the eleventh into its table
      if more && cnt < REST_MAX_URL_LEVEL {
        TakeSnoc(toks, cnt);
        list := list + [toks[cnt]];
      }
      if cnt >= REST_MAX_URL_LEVEL {
        break;
      }
    }
    assert formBuf == FormBuf(uri) && toks == AllSegments(uri);
    KeptAreUriSegments(uri, cnt, list);
    var last := list[cnt - 1];
    SubstringOfFormBuf(formBuf, last);
    var cut := CutAt(last, '?');
    assert cut == last;
    UpdateSame(list, cnt - 1);
    list := list[cnt - 1 := cut];
  }

  /** One more strtok call returns the next token of the whole split, or NULL once all are returned. */
  lemma TokensStep(rest: string, ts: seq<string>, k: nat)
    requires k <= |ts| && Tokens(rest, SLASH) == ts[k..]
    ensures Strtok(rest, SLASH).token.Some? <==> k < |ts|
    ensures k < |ts| ==> Strtok(rest, SLASH).token.value == ts[k]
    ensures k < |ts| ==> Tokens(Strtok(rest, SLASH).rest, SLASH) == ts[k + 1..]
  {
    var t := Strtok(rest, SLASH);
    if t.token.Some? {
      var tail := Tokens(t.rest, SLASH);
      assert ts[k..] == [t.token.value] + tail;
      assert ts[k..][0] == ts[k];
      assert ts[k..][1..] == ts[k + 1..];
    }
  }

  lemma TakeSnoc(ts: seq<string>, n: nat)
    requires n < |ts|
    ensures ts[..n] + [ts[n]] == ts[..n + 1]
  {
  }

  lemma UpdateSame(s: seq<string>, i: nat)
    requires i < |s|
    ensures s[i := s[i]] == s
  {
  }

  /** The loop's stopping rule keeps exactly UriSegments. */
  lemma KeptAreUriSegments(uri: string, cnt: int, kept: seq<string>)
    requires 0 < cnt <= REST_MAX_URL_LEVEL && cnt <= |AllSegments(uri)|
    requires cnt < REST_MAX_URL_LEVEL ==> cnt == |AllSegments(uri)|
    requires kept == AllSegments(uri)[..cnt]
    ensures kept == UriSegments(uri) && cnt == UriLevel(uri)
  {
  }

  /** No kept segment is empty or holds a separator or a '?'; each fits a REST_MAX_URL_NAME_LEN buffer, so init_uri's length checks never fail. */
  lemma UriSegmentsWellFormed(uri: string, i: int)
    requires 0 <= i < |UriSegments(uri)|
    ensures UriSegments(uri)[i] != []
    ensures '/' !in UriSegments(uri)[i] && '?' !in UriSegments(uri)[i]
    ensures |UriSegments(uri)[i]| <= REST_MAX_URL_NAME_LEN
  {
    var f := FormBuf(uri);
    var s := UriSegments(uri)[i];
    assert s == AllSegments(uri)[i];
    SubstringOfFormBuf(f, s);
    assert TokensWellFormed(AllSegments(uri), SLASH, |f|);
  }

  /** A token of the working copy has no '?', since the copy has none. */
  lemma {:induction false} SubstringOfFormBuf(f: string, s: string)
    requires '?' !in f
    requires s in Tokens(f, SLASH)
    ensures '?' !in s
    decreases |f|
  {
    var t := Strtok(f, SLASH);
    StrtokWithout(f, SLASH, '?');
    if s != t.token.value {
      SubstringOfFormBuf(t.rest, s);
    }
  }

  /** A URI written as '/'-separated names, with no '?' and short enough to fit the working copy, splits back into those names. */
  lemma SplitJoined(segs: seq<string>)
    requires 1 <= |segs| <= REST_MAX_URL_LEVEL
    requires forall i :: 0 <= i < |segs| ==> segs[i] != [] && '/' !in segs[i] && '?' !in segs[i]
    requires |JoinWith(segs, '/')| <= REST_MAX_URL_NAME_LEN
    ensures UriLevel(JoinWith(segs, '/')) == |segs|
    ensures UriSegments(JoinWith(segs, '/')) == segs
  {
    var uri := JoinWith(segs, '/');
    JoinWithChars(segs, '/', '?');
    assert FormBuf(uri) == uri;
    TokensJoinWith(segs, '/');
  }

  /** A character that occurs in no segment occurs in the joined string only if it is the separator. */
  lemma {:induction false} JoinWithChars(segs: seq<string>, c: char, x: char)
    requires x != c
    requires forall i :: 0 <= i < |segs| ==> x !in segs[i]
    ensures x !in JoinWith(segs, c)
  {
    if segs != [] {
      JoinWithChars(segs[1..], c, x);
    }
  }
}
