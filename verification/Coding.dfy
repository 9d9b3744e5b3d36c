/** Fixed-size and variable-length numbers and length-prefixed strings (util/coding.h, util/coding.cc). */
module Coding {
  import opened DbFormat

  const WORD := 0x1_0000_0000
  type Word = w: nat | w < 0x1_0000_0000

  const TWO_64: nat := 0x1_0000_0000_0000_0000

  // ---- Fixed 32 ----

  function Low8(n: nat): Byte {
    n % 256
  }

  function EncodeFixed32(w: Word): (r: Bytes)
    ensures |r| == 4
  {
    [Low8(w), Low8(w / 256), Low8(w / 256 / 256), Low8(w / 256 / 256 / 256)]
  }

  function DecodeFixed32(b: Bytes): Word
    requires |b| >= 4
  {
    var b0: nat, b1: nat, b2: nat, b3: nat := b[0], b[1], b[2], b[3];
    b0 + 256 * (b1 + 256 * (b2 + 256 * b3))
  }

  lemma Fixed32RoundTrip(w: Word, rest: Bytes)
    ensures DecodeFixed32(EncodeFixed32(w) + rest) == w
  {
    var b := EncodeFixed32(w) + rest;
    assert b[0] == w % 256 && b[1] == w / 256 % 256 && b[2] == w / 256 / 256 % 256 && b[3] == w / 256 / 256 / 256;
  }

  // ---- Fixed 64 ----

  function EncodeFixed64(n: nat): (r: Bytes)
    requires n < TWO_64
    ensures |r| == 8
  {
    EncodeFixed32(n % WORD) + EncodeFixed32(n / WORD)
  }

  function DecodeFixed64(b: Bytes): nat
    requires |b| >= 8
  {
    DecodeFixed32(b) + WORD * DecodeFixed32(b[4..])
  }

  lemma Fixed64RoundTrip(n: nat, rest: Bytes)
    requires n < TWO_64
    ensures DecodeFixed64(EncodeFixed64(n) + rest) == n
  {
    var low, high := EncodeFixed32(n % WORD), EncodeFixed32(n / WORD);
    Regroup(low, high, rest);
    Fixed32RoundTrip(n % WORD, high + rest);
    Fixed32RoundTrip(n / WORD, rest);
    assert (low + (high + rest))[4..] == high + rest;
  }

  // ---- Varints ----

  /** EncodeVarint32 and EncodeVarint64: seven bits at a time, lowest first; the high bit says that more follow. */
  function EncodeVarint(v: nat): (r: Bytes)
    ensures |r| >= 1
  {
    if v < 128 then [v] else [v % 128 + 128] + EncodeVarint(v / 128)
  }

  /** The loop of EncodeVarint64. */
  method PutVarint(dst: Bytes, v: nat) returns (r: Bytes)
    ensures r == dst + EncodeVarint(v)
  {
    r := dst;
    var rest := v;
    while rest >= 128
      invariant r + EncodeVarint(rest) == dst + EncodeVarint(v)
    {
      r := r + [rest % 128 + 128];
      rest := rest / 128;
    }
    r := r + [rest];
  }

  function Power128(n: nat): (p: nat)
    ensures p >= 1
  {
    if n == 0 then 1 else 128 * Power128(n - 1)
  }

  /** What a parser returns: the value and the input that is left. */
  datatype Parsed<+T> = Failed | Parsed(value: T, rest: Bytes)

  /** GetVarint32Ptr and GetVarint64Ptr up to the truncation to the width of the result: at most `room` bytes. */
  function GetVarint(input: Bytes, room: nat): (r: Parsed<nat>)
    ensures r.Parsed? ==> |r.rest| < |input|
  {
    if room == 0 || input == [] then Failed
    else if input[0] < 128 then Parsed(input[0], input[1..])
    else
      var more := GetVarint(input[1..], room - 1);
      if more.Failed? then Failed else Parsed(input[0] - 128 + 128 * more.value, more.rest)
  }

  /** A number of at most `room` groups of seven bits is read back, whatever follows it. */
  lemma {:induction false} VarintRoundTrip(v: nat, room: nat, rest: Bytes)
    requires 0 < room && v < Power128(room)
    ensures GetVarint(EncodeVarint(v) + rest, room) == Parsed(v, rest)
    decreases room
  {
    var input := EncodeVarint(v) + rest;
    if v < 128 {
      assert input[1..] == rest;
    } else {
      assert input[1..] == EncodeVarint(v / 128) + rest;
      VarintRoundTrip(v / 128, room - 1, rest);
    }
  }

  const VARINT32_ROOM := 5
  const VARINT64_ROOM := 10

  function GetVarint32(input: Bytes): (r: Parsed<nat>)
    ensures r.Parsed? ==> |r.rest| < |input| && r.value < WORD
  {
    var r := GetVarint(input, VARINT32_ROOM);
    if r.Failed? then Failed else Parsed(r.value % WORD, r.rest)
  }

  function GetVarint64(input: Bytes): (r: Parsed<nat>)
    ensures r.Parsed? ==> |r.rest| < |input| && r.value < TWO_64
  {
    var r := GetVarint(input, VARINT64_ROOM);
    if r.Failed? then Failed else Parsed(r.value % TWO_64, r.rest)
  }

  lemma Power5()
    ensures Power128(5) == 34359738368
  {
  }

  lemma Power10()
    ensures Power128(10) == 1180591620717411303424
  {
    Power5();
    assert Power128(6) == 128 * Power128(5) && Power128(7) == 128 * Power128(6) && Power128(8) == 128 * Power128(7);
    assert Power128(9) == 128 * Power128(8) && Power128(10) == 128 * Power128(9);
  }

  lemma SmallMod(v: nat, width: nat)
    requires v < width
    ensures v % width == v
  {
  }

  lemma Varint32RoundTrip(v: nat, rest: Bytes)
    requires v < WORD
    ensures GetVarint32(EncodeVarint(v) + rest) == Parsed(v, rest)
  {
    assert v < Power128(VARINT32_ROOM) by { Power5(); }
    VarintRoundTrip(v, VARINT32_ROOM, rest);
    SmallMod(v, WORD);
  }

  lemma Varint64RoundTrip(v: nat, rest: Bytes)
    requires v < TWO_64
    ensures GetVarint64(EncodeVarint(v) + rest) == Parsed(v, rest)
  {
    assert v < Power128(VARINT64_ROOM) by { Power10(); }
    VarintRoundTrip(v, VARINT64_ROOM, rest);
    SmallMod(v, TWO_64);
  }

  // ---- Length-prefixed strings ----

  /** PutLengthPrefixedSlice. */
  function EncodeSlice(s: Bytes): Bytes {
    EncodeVarint(|s|) + s
  }

  function GetSlice(input: Bytes): (r: Parsed<Bytes>)
    ensures r.Parsed? ==> |r.rest| < |input|
  {
    var length := GetVarint32(input);
    if length.Parsed? && length.value <= |length.rest| then
      Parsed(length.rest[..length.value], length.rest[length.value..])
    else Failed
  }

  lemma SliceRoundTrip(s: Bytes, rest: Bytes)
    requires |s| < WORD
    ensures GetSlice(EncodeSlice(s) + rest) == Parsed(s, rest)
  {
    assert EncodeSlice(s) + rest == EncodeVarint(|s|) + (s + rest);
    Varint32RoundTrip(|s|, s + rest);
  }
}
