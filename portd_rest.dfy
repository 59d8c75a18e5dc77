/**
 * string_hash of portd_rest.c: the djb2 hash of a NUL-terminated string,
 * read as unsigned bytes into an unsigned 32-bit accumulator.
 */
module PortdRest {

  /** An unsigned byte, as `*p` reads it through an `unsigned char *`. */
  newtype uint8 = x: int | 0 <= x < 0x100

  /** The values of an unsigned int. */
  newtype uint32 = x: int | 0 <= x < 0x1_0000_0000

  const DJB2_SEED: uint32 := 5381
  const TWO_32 := 0x1_0000_0000

  /** The characters of a C string held in `b`: everything before its first NUL. */
  function CStr(b: seq<uint8>): (r: seq<uint8>)
    ensures r <= b && 0 !in r
    ensures |r| < |b| ==> b[|r|] == 0
    ensures 0 !in b ==> r == b
  {
    if b == [] || b[0] == 0 then []
    else
      var r := [b[0]] + CStr(b[1..]);
      assert b == [b[0]] + b[1..];
      r
  }

  /** djb2: start from 5381 and, byte by byte in order, multiply by 33 and add the byte, modulo 2^32. */
  function Djb2(b: seq<uint8>): (h: uint32)
    ensures h as int == Poly(b) % TWO_32
    decreases |b|
  {
    if b == [] then DJB2_SEED
    else
      var prev := Djb2(b[..|b| - 1]);
      ModStep(Poly(b[..|b| - 1]), b[|b| - 1] as int);
      ((prev as int * 33 + b[|b| - 1] as int) % TWO_32) as uint32
  }

  /** djb2 in unbounded integers: 5381, then times 33 plus each byte, with no wrap-around at all. */
  ghost function Poly(b: seq<uint8>): int
    decreases |b|
  {
    if b == [] then 5381 else Poly(b[..|b| - 1]) * 33 + b[|b| - 1] as int
  }

  /** Reducing before a step gives the same remainder as reducing after it. */
  lemma ModStep(p: int, c: int)
    ensures ((p % TWO_32) * 33 + c) % TWO_32 == (p * 33 + c) % TWO_32
  {
    var q := p / TWO_32;
    assert p == q * TWO_32 + p % TWO_32;
    assert (p % TWO_32) * 33 + c == p * 33 + c - (q * 33) * TWO_32;
    ModShift(p * 33 + c, q * 33);
  }

  /** `(h << 5) + h + c` in unsigned int arithmetic, where the shift and each addition wrap. */
  function Step(h: uint32, c: uint8): uint32
  {
    var shifted := (h as int * 32) % TWO_32;
    var sum := (shifted + h as int) % TWO_32;
    ((sum + c as int) % TWO_32) as uint32
  }

  /** Wrapping after every operation gives the same as wrapping once: the step is `h*33 + c` modulo 2^32. */
  lemma StepIsDjb2(h: uint32, c: uint8)
    ensures Step(h, c) as int == (h as int * 33 + c as int) % TWO_32
  {
    var x := h as int * 32;
    var q := x / TWO_32;
    assert x == q * TWO_32 + x % TWO_32;
    var y := x % TWO_32 + h as int;
    var r := y / TWO_32;
    assert y == r * TWO_32 + y % TWO_32;
    var z := y % TWO_32 + c as int;
    assert z == h as int * 33 + c as int - (q + r) * TWO_32;
    ModShift(h as int * 33 + c as int, q + r);
  }

  lemma ModShift(a: int, k: int)
    ensures (a - k * TWO_32) % TWO_32 == a % TWO_32
  {
  }

  /** Appending a byte applies one step to the hash so far. */
  lemma Djb2Snoc(b: seq<uint8>, c: uint8)
    ensures Djb2(b + [c]) as int == (Djb2(b) as int * 33 + c as int) % TWO_32
  {
    assert (b + [c])[..|b|] == b;
  }

  /** Nothing after the terminator affects the hash. */
  lemma StopsAtNul(b: seq<uint8>, tail: seq<uint8>)
    requires 0 !in b
    ensures CStr(b + [0] + tail) == b
  {
    var s := b + [0] + tail;
    assert s[..|b|] == b && s[|b|] == 0;
  }

  /**
   * The hash StringHash returns for a buffer holding the one-byte string
   * "\xff": the byte counts as its unsigned value 255 (a signed read would
   * add -1), and nothing after the terminator matters.
   */
  lemma HighByteString(tail: seq<uint8>)
    ensures Djb2(CStr([0xff, 0] + tail)) as int == 5381 * 33 + 255
  {
    StopsAtNul([0xff], tail);
    assert [0xff as uint8] + [0] + tail == [0xff, 0] + tail;
    Djb2Snoc([], 0xff);
    assert [] + [0xff as uint8] == [0xff];
  }

  /**
   * string_hash: walk the string `s` up to its terminator, updating the
   * accumulator with each unsigned byte.
   */
  method StringHash(s: array<uint8>) returns (result: uint32)
    requires 0 in s[..]
    ensures result == Djb2(CStr(s[..]))
  {
    ghost var str := CStr(s[..]);
    result := DJB2_SEED;
    var p := 0;
    while s[p] != 0
      invariant 0 <= p <= |str| < s.Length
      invariant s[..p] == str[..p]
      invariant result == Djb2(s[..p])
      decreases |str| - p
    {
      assert s[p] == str[p] by {
        assert s[..][..|str|] == str;
      }
      StepIsDjb2(result, s[p]);
      Djb2Snoc(s[..p], s[p]);
      assert s[..p + 1] == s[..p] + [s[p]];
      result := Step(result, s[p]);
      p := p + 1;
    }
    assert s[..p] == str;
  }
}
