/**
 * The C library's view of strings that the rest of the model builds on:
 * strchr, a strncpy into a fixed buffer, and strtok. A Dafny `string` stands
 * for the characters before a C string's terminating NUL.
 */
module CString {
  import opened Options

  /** The offset of the first `c` in `s` (strchr's result minus `s`), or -1 when strchr returns NULL. */
  function IndexOf(s: string, c: char): (r: int)
    ensures -1 <= r < |s|
    ensures r >= 0 ==> s[r] == c && c !in s[..r]
    ensures r < 0 <==> c !in s
  {
    if s == [] then -1
    else if s[0] == c then 0
    else
      var k := IndexOf(s[1..], c);
      if k < 0 then -1 else k + 1
  }

  /** strchr finds the first `c`: an occurrence with none before it is the one IndexOf gives. */
  lemma {:induction false} IndexOfAt(s: string, c: char, n: nat)
    requires n < |s| && s[n] == c
    requires forall i :: 0 <= i < n ==> s[i] != c
    ensures IndexOf(s, c) == n
  {
    if n > 0 {
      IndexOfAt(s[1..], c, n - 1);
    }
  }

  /** The string after `*strchr(s, c) = '\0'`: everything before the first `c`. */
  function CutAt(s: string, c: char): (r: string)
    ensures c !in r && r <= s
    ensures c in s ==> |r| < |s| && s[|r|] == c
    ensures c !in s ==> r == s
  {
    var k := IndexOf(s, c);
    if k < 0 then s else s[..k]
  }

  /** The characters after the first `c` (the string at `strchr(s, c) + 1`), or None when `c` does not occur. */
  function After(s: string, c: char): (r: Option<string>)
    ensures r.None? <==> c !in s
    ensures r.Some? ==> s == CutAt(s, c) + [c] + r.value
  {
    var k := IndexOf(s, c);
    if k < 0 then None else Some(s[k + 1..])
  }

  /** What a string reads as once copied into an `n`-byte buffer: its first `n` characters. */
  function Truncate(s: string, n: nat): (r: string)
    ensures |r| <= n && r <= s
    ensures |s| <= n ==> r == s
  {
    if |s| <= n then s else s[..n]
  }

  /** Every character of `s` is outside `delims`. */
  predicate NoDelim(s: string, delims: set<char>)
  {
    forall i :: 0 <= i < |s| ==> s[i] !in delims
  }

  /** How many leading delimiters `s` has: strtok skips them before looking for a token. */
  function SkipLen(s: string, delims: set<char>): (n: nat)
    ensures n <= |s|
    ensures n < |s| ==> s[n] !in delims
  {
    if s != [] && s[0] in delims then 1 + SkipLen(s[1..], delims) else 0
  }

  /** The length of the leading run of non-delimiters of `s`: the token strtok finds. */
  function SpanLen(s: string, delims: set<char>): (n: nat)
    ensures n <= |s|
    ensures n < |s| ==> s[n] in delims
  {
    if s == [] || s[0] in delims then 0 else 1 + SpanLen(s[1..], delims)
  }

  /** The run SpanLen measures holds no delimiter. */
  lemma {:induction false} SpanLenNoDelim(s: string, delims: set<char>)
    ensures NoDelim(s[..SpanLen(s, delims)], delims)
  {
    if s != [] && s[0] !in delims {
      SpanLenNoDelim(s[1..], delims);
      assert s[..SpanLen(s, delims)] == [s[0]] + s[1..][..SpanLen(s[1..], delims)];
    }
  }

  /** The result of one strtok call: the token it returns (None for NULL) and the position it saves for the next call. */
  datatype Tok = Tok(token: Option<string>, rest: string)

  /**
   * One strtok call on the saved position `s`: skip delimiters, take the
   * longest run of non-delimiters, overwrite the delimiter after it with NUL
   * and save the position after that. At the end of the string the saved
   * position is the empty string.
   */
  function Strtok(s: string, delims: set<char>): (t: Tok)
    ensures t.token.None? <==> SkipLen(s, delims) == |s|
    ensures t.token.None? ==> t.rest == []
    ensures t.token.Some? ==> t.token.value != [] && NoDelim(t.token.value, delims)
    ensures t.token.Some? ==> |t.token.value| + |t.rest| <= |s|
  {
    var k := SkipLen(s, delims);
    if k == |s| then Tok(None, [])
    else
      var u := s[k..];
      var n := SpanLen(u, delims);
      SpanLenNoDelim(u, delims);
      Tok(Some(u[..n]), if n < |u| then u[n + 1..] else [])
  }

  /** A character absent from `s` is absent from the token strtok returns and from the position it saves. */
  lemma StrtokWithout(s: string, delims: set<char>, c: char)
    requires c !in s
    ensures var t := Strtok(s, delims); (t.token.Some? ==> c !in t.token.value) && c !in t.rest
  {
    var k := SkipLen(s, delims);
    if k < |s| {
      var u := s[k..];
      var n := SpanLen(u, delims);
      assert c !in u by {
        assert forall x :: x in u ==> x in s;
      }
      assert c !in u[..n] by {
        assert forall x :: x in u[..n] ==> x in u;
      }
      if n < |u| {
        assert forall x :: x in u[n + 1..] ==> x in u;
      }
    }
  }

  /** Every token is non-empty, holds no delimiter and is at most `bound` long. */
  predicate TokensWellFormed(ts: seq<string>, delims: set<char>, bound: nat)
  {
    forall i :: 0 <= i < |ts| ==> ts[i] != [] && NoDelim(ts[i], delims) && |ts[i]| <= bound
  }

  /** The tokens that successive strtok calls on `s` return, in order, up to the first NULL. */
  function Tokens(s: string, delims: set<char>): (ts: seq<string>)
    ensures TokensWellFormed(ts, delims, |s|)
    decreases |s|
  {
    var t := Strtok(s, delims);
    if t.token.None? then []
    else
      var tail := Tokens(t.rest, delims);
      var ts := [t.token.value] + tail;
      assert forall i :: 1 <= i < |ts| ==> ts[i] == tail[i - 1];
      ts
  }

  /** A leading delimiter does not change what strtok returns. */
  lemma {:induction false} TokensSkipDelim(c: char, s: string, delims: set<char>)
    requires c in delims
    ensures Tokens([c] + s, delims) == Tokens(s, delims)
  {
    StrtokSkipDelim(c, s, delims);
  }

  lemma StrtokSkipDelim(c: char, s: string, delims: set<char>)
    requires c in delims
    ensures Strtok([c] + s, delims) == Strtok(s, delims)
  {
    var k := SkipLen(s, delims);
    assert ([c] + s)[1..] == s;
    assert SkipLen([c] + s, delims) == 1 + k;
    assert ([c] + s)[1 + k..] == s[k..];
  }

  /** `/a/b/c`: each segment preceded by the separator `c`. */
  function JoinWith(segs: seq<string>, c: char): (s: string)
  {
    if segs == [] then [] else [c] + segs[0] + JoinWith(segs[1..], c)
  }

  /** Splitting with strtok undoes joining, for non-empty segments that do not contain the separator. */
  lemma {:induction false} TokensJoinWith(segs: seq<string>, c: char)
    requires forall i :: 0 <= i < |segs| ==> segs[i] != [] && c !in segs[i]
    ensures Tokens(JoinWith(segs, c), {c}) == segs
  {
    if segs != [] {
      var head, more := segs[0], segs[1..];
      var tail := JoinWith(more, c);
      var r := if tail == [] then [] else tail[1..];
      JoinWithCons(segs, c);
      TokensSkipDelim(c, head + tail, {c});
      StrtokSegment(head, tail, c);
      TokensJoinWith(more, c);
      if tail != [] {
        TokensSkipDelim(c, r, {c});
      }
      assert Tokens(r, {c}) == more;
      calc {
        Tokens(JoinWith(segs, c), {c});
        Tokens(head + tail, {c});
        [head] + Tokens(r, {c});
        [head] + more;
        { HeadTail(segs); }
        segs;
      }
    }
  }

  lemma HeadTail<T>(s: seq<T>)
    requires s != []
    ensures [s[0]] + s[1..] == s
  {
  }

  /** Unfolding JoinWith once: the separator, the first segment, then the rest joined (which starts with the separator when there is any). */
  lemma JoinWithCons(segs: seq<string>, c: char)
    requires segs != []
    ensures JoinWith(segs, c) == [c] + (segs[0] + JoinWith(segs[1..], c))
    ensures segs[1..] != [] ==> JoinWith(segs[1..], c) == [c] + JoinWith(segs[1..], c)[1..]
  {
    if segs[1..] != [] {
      assert JoinWith(segs[1..], c)[0] == c;
    }
  }

  /** strtok on a segment followed by the separator (or by nothing) returns the segment and saves the position after the separator. */
  lemma StrtokSegment(head: string, tail: string, c: char)
    requires head != [] && c !in head
    requires tail == [] || tail[0] == c
    ensures Strtok(head + tail, {c}) == Tok(Some(head), if tail == [] then [] else tail[1..])
  {
    var s := head + tail;
    assert s[0] == head[0];
    assert SkipLen(s, {c}) == 0;
    assert s[0..] == s;
    SpanLenPrefix(head, tail, c);
    assert s[..|head|] == head;
    if tail != [] {
      assert s[|head| + 1..] == tail[1..];
    }
  }

  /** strtok's token ends exactly where the first separator is. */
  lemma {:induction false} SpanLenPrefix(seg: string, tail: string, c: char)
    requires c !in seg
    requires tail == [] || tail[0] == c
    ensures SpanLen(seg + tail, {c}) == |seg|
  {
    if seg != [] {
      assert (seg + tail)[1..] == seg[1..] + tail;
      SpanLenPrefix(seg[1..], tail, c);
    }
  }
}
