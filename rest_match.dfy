/**
 * check_uri and search_cb: finding the module that owns a request by its
 * first path segment, then the first registered pattern of that module
 * whose segments accept the rest of the path.
 */
module RestMatch {
  import opened Options
  import opened RestDefs

  /** The identity of a registered callback (a rest_cb_t function pointer). */
  type Handler = nat

  /** One handler slot per HTTP method; None is a NULL slot. */
  datatype Handlers = Handlers(
    post: Option<Handler>,
    get: Option<Handler>,
    put: Option<Handler>,
    patch: Option<Handler>,
    delete: Option<Handler>)

  const NO_HANDLERS: Handlers := Handlers(None, None, None, None, None)

  /**
   * A REST_API_CB node: the URI it was registered with, the level
   * init_uri returned for it, its segments and its handler slots.
   */
  datatype Pattern = Pattern(uri: string, level: int, segments: seq<string>, handlers: Handlers)

  /** search_cb reads only segments below `level`, so they must exist. */
  predicate Indexed(p: Pattern)
  {
    p.level <= |p.segments|
  }

  /** A segment whose first character is '#': it accepts the rest of the path. */
  predicate IsCatchAll(seg: string)
  {
    |seg| > 0 && seg[0] == '#'
  }

  /** A segment whose first character is '+': it accepts any one path segment. */
  predicate IsAnyOne(seg: string)
  {
    |seg| > 0 && seg[0] == '+'
  }

  /** Pattern segment `seg` accepts path segment `s` on its own. */
  predicate Accepts(seg: string, s: string)
  {
    IsAnyOne(seg) || seg == s
  }

  /**
   * search_cb's inner loop from position `i`: pattern segment i is
   * compared with path segment i + 1, since path segment 0 is the module
   * prefix.
   */
  predicate ScanFrom(segs: seq<string>, level: nat, list: seq<string>, i: nat)
    requires i <= level <= |segs| && level < |list|
    decreases level - i
  {
    i == level || IsCatchAll(segs[i]) || (Accepts(segs[i], list[i + 1]) && ScanFrom(segs, level, list, i + 1))
  }

  /** Pattern `p` accepts the split path `list`: the path is long enough and the scan completes. */
  predicate Matches(p: Pattern, list: seq<string>)
    requires Indexed(p)
  {
    0 <= p.level < |list| && ScanFrom(p.segments, p.level, list, 0)
  }

  /** The index of the first pattern matching `list`, the node search_cb returns. */
  function FirstFrom(ps: seq<Pattern>, list: seq<string>, n: nat): (r: Option<nat>)
    requires n <= |ps|
    requires forall k :: 0 <= k < |ps| ==> Indexed(ps[k])
    ensures r.Some? ==> n <= r.value < |ps| && Matches(ps[r.value], list)
    ensures r.Some? ==> forall k :: n <= k < r.value ==> !Matches(ps[k], list)
    ensures r.None? ==> forall k :: n <= k < |ps| ==> !Matches(ps[k], list)
    decreases |ps| - n
  {
    if n == |ps| then None
    else if Matches(ps[n], list) then Some(n)
    else FirstFrom(ps, list, n + 1)
  }

  /** search_cb's result as an index into the pattern list; None when it returns NULL. */
  function FirstMatch(ps: seq<Pattern>, list: seq<string>): (r: Option<nat>)
    requires forall k :: 0 <= k < |ps| ==> Indexed(ps[k])
    ensures r.Some? ==> r.value < |ps| && |list| > 1 && Matches(ps[r.value], list)
    ensures r.Some? ==> forall k :: 0 <= k < r.value ==> !Matches(ps[k], list)
    ensures r.None? ==> |list| <= 1 || forall k :: 0 <= k < |ps| ==> !Matches(ps[k], list)
  {
    if |ps| == 0 || |list| <= 1 then None else FirstFrom(ps, list, 0)
  }

  /**
   * search_cb: walk the patterns in registration order; for each whose
   * level fits the path, compare segment by segment, returning at once on
   * '#', skipping on '+', and giving up on the first literal mismatch.
   */
  method SearchCb(ps: seq<Pattern>, list: seq<string>) returns (r: Option<nat>)
    requires forall k :: 0 <= k < |ps| ==> Indexed(ps[k])
    ensures r == FirstMatch(ps, list)
  {
    if |ps| == 0 || |list| <= 1 {
      return None;
    }
    var n := 0;
    while n < |ps|
      invariant 0 <= n <= |ps|
      invariant forall k :: 0 <= k < n ==> !Matches(ps[k], list)
    {
      var p := ps[n];
      if |list| - 1 >= p.level {
        var i := 0;
        while i < p.level
          invariant 0 <= i && (p.level >= 0 ==> i <= p.level)
          invariant 0 <= p.level ==> (ScanFrom(p.segments, p.level, list, 0) <==> ScanFrom(p.segments, p.level, list, i))
        {
          var seg := p.segments[i];
          if |seg| > 0 && seg[0] == '#' {
            return Some(n);
          }
          if |seg| > 0 && seg[0] == '+' {
            i := i + 1;
            continue;
          }
          if list[i + 1] != seg {
            break;
          }
          i := i + 1;
        }
        if i == p.level {
          return Some(n);
        }
      }
      n := n + 1;
    }
    return None;
  }

  /** check_uri's result: the first of the first `cnt` modules whose prefix equals `name`. */
  function ModuleIndex(prefixes: seq<Option<string>>, cnt: nat, name: string): (r: Option<nat>)
    requires cnt <= |prefixes|
    ensures r.Some? ==> r.value < cnt && prefixes[r.value] == Some(name)
    ensures r.Some? ==> forall j :: 0 <= j < r.value ==> prefixes[j] != Some(name)
    ensures r.None? ==> forall j :: 0 <= j < cnt ==> prefixes[j] != Some(name)
  {
    if cnt == 0 then None
    else
      var r := ModuleIndex(prefixes, cnt - 1, name);
      if r.Some? then r
      else if prefixes[cnt - 1] == Some(name) then Some(cnt - 1)
      else None
  }

  /**
   * check_uri: scan the first `maxItemNum` module slots for the prefix
   * equal to path segment 0. A NULL prefix compares unequal.
   */
  method CheckUri(list: seq<string>, prefixes: seq<Option<string>>, maxItemNum: nat) returns (ret: int, itemIdx: nat)
    requires |list| >= 1 && maxItemNum <= |prefixes|
    ensures ret == REST_OK || ret == REST_URL_NOTDEFINE
    ensures ret == REST_OK <==> ModuleIndex(prefixes, maxItemNum, list[0]).Some?
    ensures ret == REST_OK ==> itemIdx == ModuleIndex(prefixes, maxItemNum, list[0]).value
  {
    var i := 0;
    itemIdx := 0;
    while i < maxItemNum
      invariant 0 <= i <= maxItemNum
      invariant forall j :: 0 <= j < i ==> prefixes[j] != Some(list[0])
    {
      if prefixes[i] == Some(list[0]) {
        itemIdx := i;
        break;
      }
      i := i + 1;
    }
    if i == maxItemNum {
      return REST_URL_NOTDEFINE, itemIdx;
    }
    return REST_OK, itemIdx;
  }

  /** Every pattern segment from `i` up to `k` accepts its path segment. */
  predicate AcceptedUpTo(segs: seq<string>, list: seq<string>, i: nat, k: nat)
    requires k <= |segs| && k < |list|
  {
    forall j :: i <= j < k ==> Accepts(segs[j], list[j + 1])
  }

  /** Position `k` ends the scan: it is the level itself or a '#' segment. */
  predicate StopsAt(segs: seq<string>, level: nat, k: nat)
    requires k <= level <= |segs|
  {
    k == level || IsCatchAll(segs[k])
  }

  /**
   * The scan completes exactly when some position k (the level itself, or
   * a '#' segment) is reached with every earlier segment accepting its
   * path segment.
   */
  lemma {:induction false} ScanFromIff(segs: seq<string>, level: nat, list: seq<string>, i: nat)
    requires i <= level <= |segs| && level < |list|
    ensures ScanFrom(segs, level, list, i) <==>
      exists k :: i <= k <= level && StopsAt(segs, level, k) && AcceptedUpTo(segs, list, i, k)
    decreases level - i
  {
    if i == level {
      assert StopsAt(segs, level, i) && AcceptedUpTo(segs, list, i, i);
    } else {
      ScanFromIff(segs, level, list, i + 1);
      if ScanFrom(segs, level, list, i) {
        if IsCatchAll(segs[i]) {
          assert StopsAt(segs, level, i) && AcceptedUpTo(segs, list, i, i);
        } else {
          var k :| i + 1 <= k <= level && StopsAt(segs, level, k) && AcceptedUpTo(segs, list, i + 1, k);
          assert AcceptedUpTo(segs, list, i, k);
        }
      }
      if exists k :: i <= k <= level && StopsAt(segs, level, k) && AcceptedUpTo(segs, list, i, k) {
        var k :| i <= k <= level && StopsAt(segs, level, k) && AcceptedUpTo(segs, list, i, k);
        if k > i {
          assert Accepts(segs[i], list[i + 1]);
          assert AcceptedUpTo(segs, list, i + 1, k);
        }
      }
    }
  }

  /** A pattern matches a path that repeats its segments literally after the module prefix. */
  lemma LiteralMatch(p: Pattern, list: seq<string>)
    requires Indexed(p) && 0 <= p.level < |list|
    requires forall j :: 0 <= j < p.level ==> p.segments[j] == list[j + 1]
    ensures Matches(p, list)
  {
    ScanFromIff(p.segments, p.level, list, 0);
    assert StopsAt(p.segments, p.level, p.level) && AcceptedUpTo(p.segments, list, 0, p.level);
  }

  /**
   * A '#' segment ends the comparison: whatever the path holds from that
   * position on, the pattern matches once the earlier segments accept and
   * the path has at least `level` segments after the prefix.
   */
  lemma CatchAllMatch(p: Pattern, list: seq<string>, k: nat)
    requires Indexed(p) && 0 <= p.level < |list|
    requires k < p.level && IsCatchAll(p.segments[k])
    requires forall j :: 0 <= j < k ==> Accepts(p.segments[j], list[j + 1])
    ensures Matches(p, list)
  {
    ScanFromIff(p.segments, p.level, list, 0);
    assert StopsAt(p.segments, p.level, k) && AcceptedUpTo(p.segments, list, 0, k);
  }

  /** A pattern never matches a path with fewer than `level` segments after the prefix, '#' or not. */
  lemma ShortPathNoMatch(p: Pattern, list: seq<string>)
    requires Indexed(p) && |list| - 1 < p.level
    ensures !Matches(p, list)
  {
  }

  /**
   * A literal segment that differs from its path segment, with no '#'
   * before it, rules the pattern out. This is why '+' stands for exactly
   * one segment: the literal after it is compared with the next path
   * segment, never a later one.
   */
  lemma LiteralMismatch(p: Pattern, list: seq<string>, k: nat)
    requires Indexed(p) && 0 <= p.level < |list|
    requires k < p.level && !IsAnyOne(p.segments[k]) && !IsCatchAll(p.segments[k]) && p.segments[k] != list[k + 1]
    requires forall j :: 0 <= j < k ==> !IsCatchAll(p.segments[j])
    ensures !Matches(p, list)
  {
    ScanFromIff(p.segments, p.level, list, 0);
    forall m | 0 <= m <= p.level && StopsAt(p.segments, p.level, m)
      ensures !AcceptedUpTo(p.segments, list, 0, m)
    {
      assert k < m;
      assert !Accepts(p.segments[k], list[k + 1]);
    }
  }

  /** Only the first `level` path segments after the prefix are compared: extra trailing segments do not change a match. */
  lemma {:induction false} ScanIgnoresTail(segs: seq<string>, level: nat, list: seq<string>, more: seq<string>, i: nat)
    requires i <= level <= |segs| && level < |list|
    ensures ScanFrom(segs, level, list, i) == ScanFrom(segs, level, list + more, i)
    decreases level - i
  {
    if i < level {
      assert (list + more)[i + 1] == list[i + 1];
      ScanIgnoresTail(segs, level, list, more, i + 1);
    }
  }

  /** A pattern that matches a path also matches the path with more segments appended. */
  lemma MatchesExtended(p: Pattern, list: seq<string>, more: seq<string>)
    requires Indexed(p) && Matches(p, list)
    ensures Matches(p, list + more)
  {
    ScanIgnoresTail(p.segments, p.level, list, more, 0);
  }

  /**
   * Registration appends at the tail, so a new pattern never takes over a
   * path an earlier pattern already matches; it only catches paths no
   * earlier pattern did.
   */
  lemma FirstMatchAppend(ps: seq<Pattern>, q: Pattern, list: seq<string>)
    requires forall k :: 0 <= k < |ps| ==> Indexed(ps[k])
    requires Indexed(q)
    ensures FirstMatch(ps, list).Some? ==> FirstMatch(ps + [q], list) == FirstMatch(ps, list)
    ensures FirstMatch(ps, list).None? && |list| > 1 && Matches(q, list) ==> FirstMatch(ps + [q], list) == Some(|ps|)
  {
    var qs := ps + [q];
    assert forall k :: 0 <= k < |ps| ==> qs[k] == ps[k];
    assert qs[|ps|] == q;
  }
}
