/**
 * The response accumulator as values: what rest_write and rest_write_file
 * leave in the output buffer and in REST_OUTPUT_INFO after a sequence of
 * successful calls made by one handler.
 */
module RestOutput {
  import opened Options
  import opened RestDefs

  /** REST_OUTPUT_INFO: the length handed back, the data kind and the file name (desc). */
  datatype OutputInfo = OutputInfo(len: nat, kind: int, desc: Option<string>)

  /** What the dispatcher resets the info to before it calls a handler. */
  const RESET_INFO: OutputInfo := OutputInfo(0, REST_DATA_TYPE_NULL, None)

  /** The buffer contents up to the write index, and the info. */
  datatype Acc = Acc(content: seq<char>, info: OutputInfo)

  const EMPTY_ACC: Acc := Acc([], RESET_INFO)

  /** One call a handler makes: rest_write(data) or rest_write_file(name, data). */
  datatype OutputCall = WriteCall(data: seq<char>) | WriteFileCall(name: string, data: seq<char>)

  /**
   * The effect of one call whose allocations succeed. A call with no data
   * is refused and changes nothing. rest_write marks the output JSON and
   * clears the file name; rest_write_file marks it FILE and records its
   * name only when none is recorded.
   */
  function Apply(a: Acc, c: OutputCall): (r: Acc)
    ensures r.content == a.content + c.data
    ensures c.data == [] ==> r == a
    ensures c.data != [] ==>
      r.info.len == |r.content| && r.info.kind == (if c.WriteCall? then REST_DATA_TYPE_JSON else REST_DATA_TYPE_FILE)
    ensures a.info.len == |a.content| ==> r.info.len == |r.content|
  {
    if c.data == [] then a
    else
      var content := a.content + c.data;
      match c
      case WriteCall(_) => Acc(content, OutputInfo(|content|, REST_DATA_TYPE_JSON, None))
      case WriteFileCall(name, _) =>
        Acc(content, OutputInfo(|content|, REST_DATA_TYPE_FILE, if a.info.desc.None? then Some(name) else a.info.desc))
  }

  /** The state after the calls, in order, starting from `a`. */
  function ReplayFrom(a: Acc, calls: seq<OutputCall>): Acc
    decreases |calls|
  {
    if calls == [] then a else ReplayFrom(Apply(a, calls[0]), calls[1..])
  }

  /** The state a handler leaves after the calls, starting from the dispatcher's reset. */
  function Replay(calls: seq<OutputCall>): Acc
  {
    ReplayFrom(EMPTY_ACC, calls)
  }

  /** All the data of the calls, concatenated in call order. */
  function Concat(calls: seq<OutputCall>): seq<char>
    decreases |calls|
  {
    if calls == [] then [] else calls[0].data + Concat(calls[1..])
  }

  /** The kind tag of the last call that carried data, or the reset kind when none did. */
  function LastKind(calls: seq<OutputCall>, dflt: int): int
    decreases |calls|
  {
    if calls == [] then dflt
    else
      var here := if calls[0].data == [] then dflt
        else if calls[0].WriteCall? then REST_DATA_TYPE_JSON else REST_DATA_TYPE_FILE;
      LastKind(calls[1..], here)
  }

  /** No call carrying data is a rest_write. */
  predicate NoJsonWrite(calls: seq<OutputCall>)
  {
    forall i :: 0 <= i < |calls| ==> calls[i].WriteCall? ==> calls[i].data == []
  }

  /** The name of the first rest_write_file call that carried data, if any. */
  function FirstFileName(calls: seq<OutputCall>): Option<string>
    decreases |calls|
  {
    if calls == [] then None
    else if calls[0].WriteFileCall? && calls[0].data != [] then Some(calls[0].name)
    else FirstFileName(calls[1..])
  }

  /** Appending keeps what was written: the buffer holds all data in call order and the length is its size. */
  lemma {:induction false} ReplayContent(a: Acc, calls: seq<OutputCall>)
    requires a.info.len == |a.content|
    ensures ReplayFrom(a, calls).content == a.content + Concat(calls)
    ensures ReplayFrom(a, calls).info.len == |ReplayFrom(a, calls).content|
    decreases |calls|
  {
    if calls != [] {
      ReplayContent(Apply(a, calls[0]), calls[1..]);
      assert a.content + calls[0].data + Concat(calls[1..]) == a.content + (calls[0].data + Concat(calls[1..]));
    }
  }

  /** The kind is that of the most recent call that carried data. */
  lemma {:induction false} ReplayKind(a: Acc, calls: seq<OutputCall>)
    ensures ReplayFrom(a, calls).info.kind == LastKind(calls, a.info.kind)
    decreases |calls|
  {
    if calls != [] {
      ReplayKind(Apply(a, calls[0]), calls[1..]);
    }
  }

  /** rest_write clears the file name, whatever came before. */
  lemma WriteClearsDesc(a: Acc, data: seq<char>)
    requires data != []
    ensures Apply(a, WriteCall(data)).info.desc == None
    ensures Apply(a, WriteCall(data)).info.kind == REST_DATA_TYPE_JSON
  {
  }

  /**
   * First file name wins: with no rest_write carrying data among the calls,
   * a recorded name stays, and otherwise the first rest_write_file's name
   * is the one recorded.
   */
  lemma {:induction false} ReplayDesc(a: Acc, calls: seq<OutputCall>)
    requires NoJsonWrite(calls)
    ensures a.info.desc.Some? ==> ReplayFrom(a, calls).info.desc == a.info.desc
    ensures a.info.desc.None? ==> ReplayFrom(a, calls).info.desc == FirstFileName(calls)
    decreases |calls|
  {
    if calls != [] {
      assert NoJsonWrite(calls[1..]) by {
        forall i | 0 <= i < |calls[1..]|
          ensures calls[1..][i].WriteCall? ==> calls[1..][i].data == []
        {
          assert calls[1..][i] == calls[i + 1];
        }
      }
      ReplayDesc(Apply(a, calls[0]), calls[1..]);
    }
  }

  /** Replaying two call sequences one after the other is replaying their concatenation. */
  lemma {:induction false} ReplayAppend(a: Acc, xs: seq<OutputCall>, ys: seq<OutputCall>)
    ensures ReplayFrom(a, xs + ys) == ReplayFrom(ReplayFrom(a, xs), ys)
    decreases |xs|
  {
    if xs != [] {
      assert (xs + ys)[0] == xs[0];
      assert (xs + ys)[1..] == xs[1..] + ys;
      ReplayAppend(Apply(a, xs[0]), xs[1..], ys);
    } else {
      assert xs + ys == ys;
    }
  }

  /**
   * After a rest_write and then only file writes, the recorded name is the
   * first of those file writes' names: rest_write resets the description,
   * and the next rest_write_file records a new one.
   */
  lemma FileNameAfterWrite(pre: seq<OutputCall>, data: seq<char>, post: seq<OutputCall>)
    requires data != [] && NoJsonWrite(post)
    ensures Replay(pre + [WriteCall(data)] + post).info.desc == FirstFileName(post)
  {
    var mid := ReplayFrom(EMPTY_ACC, pre + [WriteCall(data)]);
    ReplayAppend(EMPTY_ACC, pre + [WriteCall(data)], post);
    ReplayAppend(EMPTY_ACC, pre, [WriteCall(data)]);
    assert mid.info.desc == None;
    ReplayDesc(mid, post);
  }
}
