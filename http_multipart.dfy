/**
 * The multipart/form-data strip inside req_handle of http_server_nng.c,
 * as an operation of its own: the body handed to the REST callback
 * starts after the blank line that ends the part headers, and ends at the
 * last CRLF before the closing boundary, where a NUL is written.
 */
module HttpMultipart {
  import opened Options

  const MULTIPART := "multipart/form-data"

  /** strncmp(contentType, "multipart/form-data", 19) == 0 on a non-NULL content type. */
  predicate IsMultipart(ct: Option<string>)
  {
    ct.Some? && |ct.value| >= |MULTIPART| && ct.value[..|MULTIPART|] == MULTIPART
  }

  /** The character at `i` of a NUL-terminated body: the terminator past the end. */
  function At(s: string, i: nat): char
  {
    if i < |s| then s[i] else '\0'
  }

  /** Position `p` is a '\n' followed by "\r\n": the end of the part headers. */
  predicate BlankLineAt(s: string, p: nat)
    requires p < |s|
  {
    s[p] == '\n' && At(s, p + 1) == '\r' && At(s, p + 2) == '\n'
  }

  /** The first position from `from` where the headers end, visiting each '\n' in turn as the strchr loop does. */
  function HeaderEndFrom(s: string, from: nat): (r: Option<nat>)
    requires from <= |s|
    ensures r.Some? ==> from <= r.value && r.value + 3 <= |s| && BlankLineAt(s, r.value)
    ensures r.Some? ==> forall p :: from <= p < r.value ==> !BlankLineAt(s, p)
    ensures r.None? ==> forall p :: from <= p < |s| ==> !BlankLineAt(s, p)
    decreases |s| - from
  {
    if from == |s| then None
    else if BlankLineAt(s, from) then Some(from)
    else HeaderEndFrom(s, from + 1)
  }

  /** Position `j` holds the '\n' of a CRLF. */
  predicate CrlfAt(b: string, j: nat)
    requires 1 <= j < |b|
  {
    b[j] == '\n' && b[j - 1] == '\r'
  }

  /** The backward scan over the body from `i` down to 1 for a CRLF; the index of its '\n'. */
  function CrlfBackFrom(b: string, i: int): (r: Option<nat>)
    requires i < |b|
    ensures r.Some? ==> 1 <= r.value <= i && CrlfAt(b, r.value)
    ensures r.Some? ==> forall j :: r.value < j <= i ==> !CrlfAt(b, j)
    ensures r.None? ==> forall j :: 1 <= j <= i ==> !CrlfAt(b, j)
    decreases i
  {
    if i <= 0 then None
    else if CrlfAt(b, i) then Some(i)
    else CrlfBackFrom(b, i - 1)
  }

  /** Where the body handed on starts, its size, and the position overwritten with NUL. */
  datatype Part = Part(start: nat, size: nat, cut: Option<nat>)

  /**
   * The strip with the size corrected: without a closing CRLF the size is
   * what remains of the body after the headers.
   */
  function Strip(ct: Option<string>, s: string): (p: Part)
    ensures p.start + p.size <= |s|
    ensures p.cut.Some? ==> p.cut.value == p.start + p.size < |s| && s[p.cut.value] == '\r'
    ensures p.cut.None? ==> p.start + p.size == |s|
  {
    if !IsMultipart(ct) then Part(0, |s|, None)
    else
      var e := HeaderEndFrom(s, 0);
      if e.None? then Part(0, |s|, None)
      else
        var start := e.value + 3;
        var b := s[start..];
        var i := CrlfBackFrom(b, |b| - 2);
        if i.None? then Part(start, |b|, None)
        else Part(start, i.value - 1, Some(start + i.value - 1))
  }

  /** The strip as written: without a closing CRLF the size stays the whole request body's. */
  function StripAsWritten(ct: Option<string>, s: string): (p: Part)
    ensures p.start == Strip(ct, s).start && p.cut == Strip(ct, s).cut
    ensures p.cut.Some? || p.start == 0 ==> p == Strip(ct, s)
    ensures p.cut.None? ==> p.size == |s|
  {
    if !IsMultipart(ct) then Part(0, |s|, None)
    else
      var e := HeaderEndFrom(s, 0);
      if e.None? then Part(0, |s|, None)
      else
        var start := e.value + 3;
        var b := s[start..];
        var i := CrlfBackFrom(b, |b| - 2);
        if i.None? then Part(start, |s|, None)
        else Part(start, i.value - 1, Some(start + i.value - 1))
  }

  /**
   * As written, a part whose data has no closing CRLF is handed on from
   * offset 4 with the full size 6, so the callback reads four characters
   * past the end of the body.
   */
  lemma StripAsWrittenOverruns()
    ensures StripAsWritten(Some(MULTIPART), "x\n\r\nab") == Part(4, 6, None)
    ensures var p := StripAsWritten(Some(MULTIPART), "x\n\r\nab"); p.start + p.size > |"x\n\r\nab"|
  {
    var s := "x\n\r\nab";
    assert !BlankLineAt(s, 0) && BlankLineAt(s, 1);
    assert HeaderEndFrom(s, 0) == Some(1);
    assert s[4..] == "ab";
  }

  /** Header lines never begin with '\r' right after a '\n'. */
  predicate NoBlankLine(h: string)
  {
    forall p :: 0 <= p && p + 1 < |h| && h[p] == '\n' ==> h[p + 1] != '\r'
  }

  /**
   * For a part laid out as headers, the blank line, the data, a CRLF and
   * a closing boundary line with no '\n' before its final character, the
   * strip hands on exactly the data.
   */
  lemma StripFindsData(ct: Option<string>, h: string, d: string, t: string)
    requires IsMultipart(ct) && NoBlankLine(h)
    requires |t| >= 1 && '\n' !in t[..|t| - 1]
    ensures var s := h + "\n\r\n" + d + "\r\n" + t;
      Strip(ct, s) == Part(|h| + 3, |d|, Some(|h| + 3 + |d|)) &&
      s[|h| + 3..|h| + 3 + |d|] == d
  {
    var s := h + "\n\r\n" + d + "\r\n" + t;
    HeaderEndIsFirst(h, s);
    var start := |h| + 3;
    var b := s[start..];
    assert b == d + "\r\n" + t;
    CrlfBeforeTrailer(d, t, b);
    assert s[start..start + |d|] == d;
  }

  lemma HeaderEndIsFirst(h: string, s: string)
    requires NoBlankLine(h) && |s| > |h| + 2 && s[..|h| + 3] == h + "\n\r\n"
    ensures HeaderEndFrom(s, 0) == Some(|h|)
  {
    assert forall p :: 0 <= p < |h| + 3 ==> s[p] == (h + "\n\r\n")[p];
    assert BlankLineAt(s, |h|);
    forall p | 0 <= p < |h|
      ensures !BlankLineAt(s, p)
    {
      assert s[p] == h[p];
      if p + 1 < |h| {
        assert s[p + 1] == h[p + 1];
      } else {
        assert s[p + 1] == '\n';
      }
    }
  }

  lemma CrlfBeforeTrailer(d: string, t: string, b: string)
    requires |t| >= 1 && '\n' !in t[..|t| - 1]
    requires b == d + "\r\n" + t
    ensures CrlfBackFrom(b, |b| - 2) == Some(|d| + 1)
  {
    assert CrlfAt(b, |d| + 1);
    forall j | |d| + 1 < j <= |b| - 2
      ensures !CrlfAt(b, j)
    {
      assert b[j] == t[j - |d| - 2];
      assert t[j - |d| - 2] == t[..|t| - 1][j - |d| - 2];
    }
  }

  /** strchr(s + from, '\n') as an offset into `s`, or -1 for NULL. */
  function NewlineFrom(s: string, from: nat): (r: int)
    requires from <= |s|
    ensures r == -1 || (from <= r < |s| && s[r] == '\n')
    ensures r == -1 ==> forall p :: from <= p < |s| ==> s[p] != '\n'
    ensures r >= 0 ==> forall p :: from <= p < r ==> s[p] != '\n'
    decreases |s| - from
  {
    if from == |s| then -1
    else if s[from] == '\n' then from
    else NewlineFrom(s, from + 1)
  }

  /**
   * req_handle's strip on the request body `a` (no NUL inside, a
   * terminator after it): find the end of the headers line by line, then
   * scan back from two characters before the end for a CRLF, overwrite
   * its '\r' with NUL and return the start and size of the data.
   */
  method StripMultipart(ct: Option<string>, a: array<char>) returns (start: nat, sz: nat)
    requires forall i :: 0 <= i < a.Length ==> a[i] != '\0'
    modifies a
    ensures var p := Strip(ct, old(a[..])); start == p.start && sz == p.size
    ensures var p := Strip(ct, old(a[..]));
      a[..] == (if p.cut.Some? then old(a[..])[p.cut.value := '\0'] else old(a[..]))
  {
    start, sz := 0, a.Length;
    if !IsMultipart(ct) {
      return;
    }
    var found, head := HeaderEnd(a);
    if !found {
      return;
    }
    start := head + 2;
    var len := a.Length - start;
    var i := CutClosingCrlf(a, start);
    if i > 0 {
      sz := i - 1;
    } else {
      sz := len;
    }
  }

  /**
   * The strchr loop of req_handle: visit each '\n' until one is followed by
   * "\r\n". `head` is the position after that '\n'.
   */
  method HeaderEnd(a: array<char>) returns (found: bool, head: nat)
    ensures found <==> HeaderEndFrom(a[..], 0).Some?
    ensures found ==> HeaderEndFrom(a[..], 0) == Some(head - 1) && head + 2 <= a.Length
  {
    ghost var s := a[..];
    head := 0;
    var nl := NewlineFrom(a[..], 0);
    if nl < 0 {
      assert HeaderEndFrom(s, 0).None?;
      return false, 0;
    }
    head := nl + 1;
    found := At(a[..], head) == '\r' && At(a[..], head + 1) == '\n';
    while !found
      invariant 1 <= head <= a.Length
      invariant s[head - 1] == '\n'
      invariant forall p :: 0 <= p < head - 1 ==> !BlankLineAt(s, p)
      invariant found <==> BlankLineAt(s, head - 1)
      decreases a.Length - head, if found then 0 else 1
    {
      nl := NewlineFrom(a[..], head);
      if nl < 0 {
        break;
      }
      head := nl + 1;
      found := At(a[..], head) == '\r' && At(a[..], head + 1) == '\n';
    }
    if !found {
      assert HeaderEndFrom(s, 0).None?;
      return;
    }
    assert HeaderEndFrom(s, 0) == Some(head - 1);
  }

  /**
   * The backward scan of req_handle over the data from `start`: from two
   * characters before the end down to 1, look for a CRLF and overwrite its
   * '\r' with NUL. Returns the offset of the '\n' found, or 0.
   */
  method CutClosingCrlf(a: array<char>, start: nat) returns (i: int)
    requires start <= a.Length
    modifies a
    ensures var b := old(a[start..]); var c := CrlfBackFrom(b, |b| - 2);
      (c.None? ==> i <= 0 && a[..] == old(a[..])) &&
      (c.Some? ==> i == c.value && a[..] == old(a[..])[start + i - 1 := '\0'])
  {
    ghost var s := a[..];
    var len := a.Length - start;
    i := len - 2;
    while i > 0
      invariant i <= len - 2 && a[..] == s
      invariant |s[start..]| == len
      invariant forall j :: 1 <= j && i < j <= len - 2 ==> !CrlfAt(s[start..], j)
    {
      if a[start + i] == '\n' && a[start + i - 1] == '\r' {
        assert CrlfAt(s[start..], i);
        a[start + i - 1] := '\0';
        break;
      }
      i := i - 1;
    }
    if i > 0 {
      assert CrlfBackFrom(s[start..], len - 2) == Some(i);
    } else {
      assert CrlfBackFrom(s[start..], len - 2).None?;
    }
  }
}
