/** What nanopb encodes it decodes again, for every well-formed descriptor and every struct. */
module PbRoundTrip {
  import opened DbFormat
  import opened Coding
  import opened PbSchemas
  import opened PbEncoding
  import opened PbDecoding

  // ---- Numbers ----

  lemma {:induction false} ShiftSum(a: nat, b: nat, k: nat)
    ensures Shift(a + b, k) == Shift(a, k) + Shift(b, k)
  {
    if k > 0 {
      ShiftSum(a, b, k - 1);
    }
  }

  lemma {:induction false} ShiftMore(a: nat, k: nat)
    ensures Shift(128 * a, k) == Shift(a, k + 1)
  {
    if k > 0 {
      ShiftMore(a, k - 1);
    }
  }

  lemma SplitDigit(hi: nat, k: nat)
    ensures Shift(hi, k) == Shift(hi % 128, k) + Shift(hi / 128, k + 1)
  {
    ShiftSum(hi % 128, 128 * (hi / 128), k);
    ShiftMore(hi / 128, k);
  }

  lemma {:induction false} FewBytes(hi: nat, k: nat)
    requires hi >= 1
    ensures k >= 5 ==> Shift(hi, k) >= 0x8_0000_0000
    decreases k
  {
    if k == 5 {
      ShiftFour(hi);
    } else if k > 5 {
      FewBytes(hi, k - 1);
    }
  }

  lemma ShiftFour(n: nat)
    ensures Shift(n, 4) == 0x1000_0000 * n
  {
    assert Shift(n, 0) == n;
    assert Shift(n, 1) == 128 * Shift(n, 0) == 0x80 * n;
    assert Shift(n, 2) == 128 * Shift(n, 1) == 0x4000 * n;
    assert Shift(n, 3) == 128 * Shift(n, 2) == 0x20_0000 * n;
    assert Shift(n, 4) == 128 * Shift(n, 3);
  }

  lemma LastByte(hi: nat, k: nat, result: nat, rest: Bytes)
    requires 0 < k <= 4 && 1 <= hi < 128 && Shift(hi, k) < WORD
    ensures MoreVarint32([hi] + rest, k, result) == Parsed(result + Shift(hi, k), rest)
  {
    assert ([hi] + rest)[1..] == rest;
    SmallMod(Shift(hi, k), WORD);
    ShiftFour(hi);
  }

  lemma OtherByte(digit: nat, k: nat, result: nat, rest: Bytes)
    requires 0 < k <= 4 && digit < 128 && Shift(digit, k) < WORD
    ensures MoreVarint32([digit + 128] + rest, k, result) == MoreVarint32(rest, k + 1, result + Shift(digit, k))
  {
    assert ([digit + 128] + rest)[1..] == rest;
    SmallMod(Shift(digit, k), WORD);
  }

  lemma VarintSplit(v: nat, rest: Bytes)
    requires v >= 128
    ensures EncodeVarint(v) + rest == [v % 128 + 128] + (EncodeVarint(v / 128) + rest)
  {
  }

  lemma {:induction false} MoreVarint32RoundTrip(hi: nat, k: nat, result: nat, rest: Bytes)
    requires k > 0 && hi >= 1 && Shift(hi, k) < WORD
    ensures MoreVarint32(EncodeVarint(hi) + rest, k, result) == Parsed(result + Shift(hi, k), rest)
    decreases hi
  {
    FewBytes(hi, k);
    if hi < 128 {
      LastByte(hi, k, result, rest);
    } else {
      SplitDigit(hi, k);
      VarintSplit(hi, rest);
      OtherByte(hi % 128, k, result, EncodeVarint(hi / 128) + rest);
      MoreVarint32RoundTrip(hi / 128, k + 1, result + Shift(hi % 128, k), rest);
    }
  }

  lemma DecodeVarint32RoundTrip(v: nat, rest: Bytes)
    requires v < WORD
    ensures DecodeVarint32(EncodeVarint(v) + rest) == Parsed(v, rest)
  {
    if v < 128 {
      assert (EncodeVarint(v) + rest)[1..] == rest;
    } else {
      VarintSplit(v, rest);
      var input, tail := EncodeVarint(v) + rest, EncodeVarint(v / 128) + rest;
      assert input[0] == v % 128 + 128 && input[1..] == tail;
      assert Shift(v / 128, 1) == 128 * Shift(v / 128, 0);
      MoreVarint32RoundTrip(v / 128, 1, v % 128, rest);
    }
  }

  // ---- Numbers that do not fit into 32 bits ----

  lemma ShiftSmall(n: nat)
    ensures Shift(n, 1) == 0x80 * n && Shift(n, 2) == 0x4000 * n && Shift(n, 3) == 0x20_0000 * n
  {
    assert Shift(n, 0) == n;
    assert Shift(n, 1) == 128 * Shift(n, 0);
    assert Shift(n, 2) == 128 * Shift(n, 1);
    assert Shift(n, 3) == 128 * Shift(n, 2);
  }

  /** The groups from the k-th on are all zero or all one, one by one, and the last group of a 64-bit number is 1. */
  ghost predicate SignGroups(hi: nat, k: nat)
    decreases hi
  {
    if k >= 9 then hi == 1 else hi >= 128 && (hi % 128 == 0 || hi % 128 == 127) && SignGroups(hi / 128, k + 1)
  }

  /** What is left of a 64-bit number after k groups. */
  function Room(k: nat): nat
    requires 5 <= k <= 9
    decreases 9 - k
  {
    if k == 9 then 2 else 128 * Room(k + 1)
  }

  lemma LateByte(hi: nat, k: nat, result: nat, rest: Bytes)
    requires 5 <= k <= 9 && 1 <= hi < 128
    ensures MoreVarint32(EncodeVarint(hi) + rest, k, result)
         == if 0x8000_0000 <= result && k == 9 && hi == 1 then Parsed(result, rest) else Failed
  {
    assert ([hi] + rest)[1..] == rest;
  }

  lemma LateStep(hi: nat, k: nat, result: nat, rest: Bytes)
    requires 5 <= k < 9 && hi >= 128
    ensures MoreVarint32(EncodeVarint(hi) + rest, k, result)
         == if hi % 128 == 0 || (0x8000_0000 <= result && hi % 128 == 127)
            then MoreVarint32(EncodeVarint(hi / 128) + rest, k + 1, result) else Failed
  {
    VarintSplit(hi, rest);
    assert ([hi % 128 + 128] + (EncodeVarint(hi / 128) + rest))[1..] == EncodeVarint(hi / 128) + rest;
  }

  lemma {:induction false} LateBytes(hi: nat, k: nat, result: nat, rest: Bytes)
    requires 5 <= k <= 9 && 1 <= hi < Room(k)
    ensures MoreVarint32(EncodeVarint(hi) + rest, k, result)
         == if 0x8000_0000 <= result && SignGroups(hi, k) then Parsed(result, rest) else Failed
    decreases 9 - k
  {
    if hi < 128 {
      LateByte(hi, k, result, rest);
    } else {
      LateStep(hi, k, result, rest);
      LateBytes(hi / 128, k + 1, result, rest);
    }
  }

  lemma DigitStep(hi: nat, k: nat, result: nat, rest: Bytes)
    requires 0 < k <= 3 && hi >= 128
    ensures MoreVarint32(EncodeVarint(hi) + rest, k, result)
         == MoreVarint32(EncodeVarint(hi / 128) + rest, k + 1, result + Shift(hi % 128, k))
  {
    VarintSplit(hi, rest);
    ShiftSmall(hi % 128);
    OtherByte(hi % 128, k, result, EncodeVarint(hi / 128) + rest);
  }

  lemma FifthValue(digit: nat)
    ensures 0x1000_0000 * digit % WORD == 0x1000_0000 * (digit % 16)
  {
    var low: nat, high: nat := 0x1000_0000 * (digit % 16), digit / 16;
    assert 0x1000_0000 * digit == low + WORD * high;
    ModOfSum(low, high);
  }

  lemma FifthDigit(digit: nat, result: nat, rest: Bytes)
    requires digit < 128
    ensures MoreVarint32([digit + 128] + rest, 4, result) == MoreVarint32(rest, 5, result + 0x1000_0000 * (digit % 16))
  {
    assert ([digit + 128] + rest)[1..] == rest;
    ShiftFour(digit);
    FifthValue(digit);
  }

  /** The fifth byte counts modulo 2^32. */
  lemma FifthByte(hi: nat, result: nat, rest: Bytes)
    requires hi >= 128
    ensures MoreVarint32(EncodeVarint(hi) + rest, 4, result)
         == MoreVarint32(EncodeVarint(hi / 128) + rest, 5, result + 0x1000_0000 * (hi % 16))
  {
    VarintSplit(hi, rest);
    FifthDigit(hi % 128, result, EncodeVarint(hi / 128) + rest);
    assert hi % 128 % 16 == hi % 16;
  }

  lemma ModOfSum(low: nat, high: nat)
    requires low < WORD
    ensures (low + WORD * high) % WORD == low
  {
  }

  /** A last byte in that place must be below 16. */
  lemma FifthIsLast(hi: nat, result: nat, rest: Bytes)
    requires 16 <= hi < 128
    ensures MoreVarint32(EncodeVarint(hi) + rest, 4, result) == Failed
  {
  }

  /** What MoreVarint32 makes of the bytes from group k on, given what it makes of those from group k + 1 on. */
  lemma OneMore(hi: nat, k: nat, unit: nat, result: nat, r: Parsed<nat>, rest: Bytes)
    requires 0 < k <= 3 && hi >= 128 && Shift(hi % 128, k) == unit * (hi % 128)
    requires MoreVarint32(EncodeVarint(hi / 128) + rest, k + 1, result + unit * (hi % 128)) == r
    ensures MoreVarint32(EncodeVarint(hi) + rest, k, result) == r
  {
    DigitStep(hi, k, result, rest);
  }

  /** The first four groups. */
  lemma FourGroups(q0: nat, q1: nat, q2: nat, q3: nat, q4: nat, r: Parsed<nat>, rest: Bytes)
    requires q1 == q0 / 128 && q2 == q1 / 128 && q3 == q2 / 128 && q4 == q3 / 128 && q3 >= 128
    requires MoreVarint32(EncodeVarint(q4) + rest, 4, q0 % 128 + 0x80 * (q1 % 128) + 0x4000 * (q2 % 128) + 0x20_0000 * (q3 % 128)) == r
    ensures DecodeVarint32(EncodeVarint(q0) + rest) == r
  {
    ShiftSmall(q1 % 128);
    ShiftSmall(q2 % 128);
    ShiftSmall(q3 % 128);
    OneMore(q3, 3, 0x20_0000, q0 % 128 + 0x80 * (q1 % 128) + 0x4000 * (q2 % 128), r, rest);
    OneMore(q2, 2, 0x4000, q0 % 128 + 0x80 * (q1 % 128), r, rest);
    OneMore(q1, 1, 0x80, q0 % 128, r, rest);
    FirstGroup(q0, r, rest);
  }

  lemma FirstGroup(v: nat, r: Parsed<nat>, rest: Bytes)
    requires v >= 128 && MoreVarint32(EncodeVarint(v / 128) + rest, 1, v % 128) == r
    ensures DecodeVarint32(EncodeVarint(v) + rest) == r
  {
    VarintSplit(v, rest);
    assert ([v % 128 + 128] + (EncodeVarint(v / 128) + rest))[1..] == EncodeVarint(v / 128) + rest;
  }

  /** A number with a negative 32-bit half whose groups above are each zero or all one. */
  ghost predicate LooksSigned(v: nat) {
    v % WORD >= 0x8000_0000 && v >= 0x8_0000_0000 && SignGroups(v / 0x8_0000_0000, 5)
  }

  /** Of the 64-bit numbers that do not fit, the 32-bit decoder refuses exactly those that do not look signed to it. */
  lemma OverflowExact(v: nat, rest: Bytes)
    requires WORD <= v < TWO_64
    ensures DecodeVarint32(EncodeVarint(v) + rest) == if LooksSigned(v) then Parsed(v % WORD, rest) else Failed
  {
    var q1 := v / 128;
    var q2 := q1 / 128;
    var q3 := q2 / 128;
    var q4 := q3 / 128;
    var low := v % 128 + 0x80 * (q1 % 128) + 0x4000 * (q2 % 128) + 0x20_0000 * (q3 % 128);
    assert v == low + 0x1000_0000 * q4;
    if q4 < 128 {
      FifthIsLast(q4, low, rest);
    } else {
      var q5 := q4 / 128;
      FifthByte(q4, low, rest);
      HighPart(v, low, q4);
      assert Room(9) == 2 && Room(8) == 256 && Room(7) == 32768 && Room(6) == 4194304 && Room(5) == 536870912;
      LateBytes(q5, 5, v % WORD, rest);
    }
    FourGroups(v, q1, q2, q3, q4, if LooksSigned(v) then Parsed(v % WORD, rest) else Failed, rest);
  }

  lemma HighPart(v: nat, low: nat, q4: nat)
    requires v == low + 0x1000_0000 * q4 && low < 0x1000_0000 && v < TWO_64
    ensures v % WORD == low + 0x1000_0000 * (q4 % 16) && v / 0x8_0000_0000 == q4 / 128 < 536870912
  {
    assert v == low + 0x1000_0000 * (q4 % 16) + WORD * (q4 / 16);
    ModOfSum(low + 0x1000_0000 * (q4 % 16), q4 / 16);
  }

  lemma AllOnes()
    ensures SignGroups(0x1FFF_FFFF, 5)
  {
    assert SignGroups(1, 9) && SignGroups(0xFF, 8) && SignGroups(0x7FFF, 7) && SignGroups(0x3F_FFFF, 6);
  }

  /** A small negative number in its 64-bit form is read as its 32-bit form. */
  lemma SignExtendedRoundTrip(m: nat, rest: Bytes)
    requires 1 <= m <= 0x8000_0000
    ensures DecodeVarint32(EncodeVarint(TWO_64 - m) + rest) == Parsed(WORD - m, rest)
  {
    var v: nat := TWO_64 - m;
    ModOfSum(WORD - m, 0xFFFF_FFFF);
    assert v == WORD - m + WORD * 0xFFFF_FFFF;
    assert v / 0x8_0000_0000 == 0x1FFF_FFFF;
    AllOnes();
    OverflowExact(v, rest);
  }

  /** A number far above 32 bits, not the 64-bit form of any 32-bit number, that is taken for 2^31. */
  lemma OverflowIsAccepted(rest: Bytes)
    ensures DecodeVarint32(EncodeVarint(0x8000_0000_8000_0000) + rest) == Parsed(0x8000_0000, rest)
  {
    OverflowExact(0x8000_0000_8000_0000, rest);
  }

  lemma SignedRoundTrip(n: int, w: nat)
    requires w == 0x100 || w == 0x1_0000 || w == WORD || w == TWO_64
    requires 0 <= 2 * n + w < 2 * w
    ensures Signed(n % TWO_64, w) == n
  {
    var u := if n >= 0 then n else n + TWO_64;
    assert n % TWO_64 == u;
    if w == 0x100 {
      assert u % 0x100 == if n >= 0 then n else n + 0x100;
    } else if w == 0x1_0000 {
      assert u % 0x1_0000 == if n >= 0 then n else n + 0x1_0000;
    } else if w == WORD {
      assert u % 0x1_0000_0000 == if n >= 0 then n else n + 0x1_0000_0000;
    } else {
      assert u % TWO_64 == u;
    }
  }

  // ---- Scalars ----

  lemma VarintValue(size: nat, n: int, anew: bool, dest: Value, rest: Bytes)
    requires ValueOk(Varint, size, Number(n))
    ensures DecodeValue(Varint, size, anew, dest, EncodeVarint(n % TWO_64) + rest) == Parsed(Number(n), rest)
  {
    Varint64RoundTrip(n % TWO_64, rest);
    SignedRoundTrip(n, if size == 8 then TWO_64 else WORD);
    SignedRoundTrip(n, Width(size));
  }

  lemma SvarintValue(size: nat, n: int, anew: bool, dest: Value, rest: Bytes)
    requires ValueOk(Svarint, size, Number(n))
    ensures DecodeValue(Svarint, size, anew, dest, EncodeVarint(ZigZag(n) % TWO_64) + rest) == Parsed(Number(n), rest)
  {
    SmallMod(ZigZag(n), TWO_64);
    Varint64RoundTrip(ZigZag(n), rest);
    assert UnZigZag(ZigZag(n)) == n;
    SignedRoundTrip(n, Width(size));
  }

  lemma UvarintValue(size: nat, n: nat, anew: bool, dest: Value, rest: Bytes)
    requires ValueOk(Uvarint, size, Number(n))
    ensures DecodeValue(Uvarint, size, anew, dest, EncodeVarint(n % TWO_64) + rest) == Parsed(Number(n), rest)
  {
    SmallMod(n, TWO_64);
    Varint64RoundTrip(n, rest);
    SmallMod(n, Width(size));
  }

  lemma FixedValue(t: FieldType, size: nat, n: nat, anew: bool, dest: Value, rest: Bytes)
    requires (t.Fixed32? || t.Fixed64?) && ValueOk(t, size, Number(n))
    ensures DecodeValue(t, size, anew, dest, EncodeValue(t, size, Number(n)).value + rest) == Parsed(Number(n), rest)
  {
    var w := EncodeValue(t, size, Number(n)).value;
    assert (w + rest)[..|w|] == w && (w + rest)[|w|..] == rest && w + [] == w;
    if t.Fixed32? {
      SmallMod(n, WORD);
      Fixed32RoundTrip(n, []);
    } else {
      SmallMod(n, TWO_64);
      Fixed64RoundTrip(n, []);
    }
  }

  /** Numbers and truth values come back as they are. */
  lemma ScalarRoundTrip(t: FieldType, size: nat, v: Value, anew: bool, dest: Value, rest: Bytes)
    requires t.Packable() && ValueOk(t, size, v)
    ensures EncodeValue(t, size, v).Some?
    ensures DecodeValue(t, size, anew, dest, EncodeValue(t, size, v).value + rest) == Parsed(v, rest)
  {
    match t
    case Bool =>
      DecodeVarint32RoundTrip(if v.b then 1 else 0, rest);
    case Varint =>
      VarintValue(size, v.n, anew, dest, rest);
    case Uvarint =>
      UvarintValue(size, v.n, anew, dest, rest);
    case Svarint =>
      SvarintValue(size, v.n, anew, dest, rest);
    case Fixed32 =>
      FixedValue(t, size, v.n, anew, dest, rest);
    case Fixed64 =>
      FixedValue(t, size, v.n, anew, dest, rest);
  }

  // ---- What can be read back ----

  /** The encoder accepts a string that fills its buffer without a terminating zero; the decoder does not. */
  ghost predicate Readable(t: FieldType, size: nat, v: Value)
    decreases t
  {
    match t
    case CString => v.Raw? ==> |v.bytes| < size
    case Submessage(d) => v.Struct? && |v.members| == |d.fields| ==> MembersReadable(d, v.members, |v.members|)
    case _ => true
  }

  /** Only what is encoded counts. */
  ghost predicate MemberReadable(f: Field, m: Member)
    decreases f
  {
    match m
    case Always(v) => (f.rule.Singular? && IsDefault(f, m)) || Readable(f.ftype, f.dataSize, v)
    case Maybe(has, v) => has ==> Readable(f.ftype, f.dataSize, v)
    case Choice(chosen, v) => chosen ==> Readable(f.ftype, f.dataSize, v)
    case Items(items) => forall i :: 0 <= i < |items| ==> Readable(f.ftype, f.dataSize, items[i])
  }

  ghost predicate MembersReadable(d: Descriptor, members: seq<Member>, n: nat)
    requires n <= |members| == |d.fields|
    decreases d
  {
    forall i :: 0 <= i < n ==> MemberReadable(d.fields[i], members[i])
  }

  ghost function Meanings(d: Descriptor, members: seq<Member>): (r: seq<Member>)
    requires |members| == |d.fields|
    ensures |r| == |members| && forall i :: 0 <= i < |r| ==> r[i] == MemberMeaning(d.fields[i], members[i])
  {
    seq(|members|, i requires 0 <= i < |members| => MemberMeaning(d.fields[i], members[i]))
  }

  /** What the round trip assumes of a message; the key keeps it out of sight of proofs that only pass it on. */
  ghost predicate Sound(d: Descriptor, members: seq<Member>) {
    |members| == |d.fields| && forall key {:trigger SoundNow(d, members, key)} :: SoundNow(d, members, key)
  }

  ghost predicate SoundNow(d: Descriptor, members: seq<Member>, key: nat) {
    WellFormed(d) && MembersOk(d, members)
  }

  // ---- Where the decoder stands after the first n fields ----

  ghost function LastFixed(d: Descriptor, members: seq<Member>, n: nat): (r: Option<nat>)
    requires n <= |members| == |d.fields|
    ensures r.Some? ==> r.value < n && d.fields[r.value].rule.Repeated? && d.fields[r.value].rule.fixedCount
  {
    if n == 0 then None
    else if d.fields[n - 1].rule.Repeated? && d.fields[n - 1].rule.fixedCount && members[n - 1] != Items([]) then Some(n - 1)
    else LastFixed(d, members, n - 1)
  }

  ghost function AfterMembers(d: Descriptor, members: seq<Member>, n: nat): (r: seq<Member>)
    requires n <= |members| == |d.fields|
    ensures |r| == |members|
    ensures forall i :: 0 <= i < |r| ==>
      r[i] == if i < n then MemberMeaning(d.fields[i], members[i]) else DefaultMember(d.fields[i])
  {
    seq(|members|, i requires 0 <= i < |members| =>
      if i < n then MemberMeaning(d.fields[i], members[i]) else DefaultMember(d.fields[i]))
  }

  ghost function SeenBefore(d: Descriptor, n: nat): (seen: set<nat>)
    requires n <= |d.fields|
    ensures forall r :: r in seen <==> 0 <= r < RequiredBefore(d, n) && r < MAX_REQUIRED_FIELDS
  {
    if n == 0 then {}
    else if d.fields[n - 1].rule.Required? && RequiredBefore(d, n - 1) < MAX_REQUIRED_FIELDS then
      SeenBefore(d, n - 1) + {RequiredBefore(d, n - 1)}
    else SeenBefore(d, n - 1)
  }

  ghost function After(d: Descriptor, members: seq<Member>, n: nat): (p: Progress)
    requires n <= |members| == |d.fields|
    ensures |p.members| == |d.fields|
  {
    Progress(AfterMembers(d, members, n), SeenBefore(d, n), LastFixed(d, members, n))
  }

  lemma {:induction false} FindIs(d: Descriptor, i: nat, n: nat)
    requires WellFormed(d) && i < n <= |d.fields|
    ensures FindField(d, d.fields[i].tag, n) == Some(i)
    decreases n
  {
    if i < n - 1 {
      FindIs(d, i, n - 1);
    }
  }

  /** One turn of the decoding loop, at the tag of field i. */
  lemma LoopStep(d: Descriptor, i: nat, wireType: nat, p: Progress, body: Bytes)
    requires WellFormed(d) && i < |d.fields| == |p.members| && wireType < 8
    ensures DecodeLoop(d, p, Tag(d.fields[i], wireType) + body)
         == (var next := DecodeFieldAt(d, i, wireType, p, body);
             if next.Failed? then None else DecodeLoop(d, next.value, next.rest))
  {
    var f := d.fields[i];
    assert FieldWellFormed(f);
    var n := 8 * f.tag + wireType;
    DecodeVarint32RoundTrip(n, body);
    assert n / 8 == f.tag && n % 8 == wireType;
    FindIs(d, i, |d.fields|);
  }

  // ---- Absent fields ----

  /** A value that proto3 leaves out means what decoding starts from. */
  lemma {:induction false} DefaultMeaning(f: Field, m: Member)
    requires FieldWellFormed(f) && MemberOk(f, m) && IsDefault(f, m)
    ensures MemberMeaning(f, m) == DefaultMember(f)
    decreases f
  {
    if f.rule.Singular? {
      var v := m.value;
      if f.ftype.Submessage? {
        var d := f.ftype.message;
        assert ValueOk(f.ftype, f.dataSize, v);
        assert WellFormed(d) && MembersOk(d, v.members);
        forall i | 0 <= i < |v.members| ensures MemberMeaning(d.fields[i], v.members[i]) == DefaultMember(d.fields[i]) {
          DefaultPrefix(d, v.members, i + 1, |v.members|);
          assert FieldWellFormed(d.fields[i]) && MemberOk(d.fields[i], v.members[i]);
          assert IsDefault(d.fields[i], v.members[i]);
          DefaultMeaning(d.fields[i], v.members[i]);
        }
        assert Meaning(f.ftype, v) == DefaultValue(f);
      } else if f.ftype.FixedBytes? {
        assert v.bytes == seq(f.dataSize, _ => 0);
      }
    }
  }

  lemma AbsentMembers(d: Descriptor, members: seq<Member>, n: nat)
    requires |members| == |d.fields| && n < |members| && MemberMeaning(d.fields[n], members[n]) == DefaultMember(d.fields[n])
    ensures AfterMembers(d, members, n + 1) == AfterMembers(d, members, n)
  {
    var before, after := AfterMembers(d, members, n), AfterMembers(d, members, n + 1);
    forall j: nat | j < |members| ensures after[j] == before[j] {
      if j == n {
        assert after[j] == MemberMeaning(d.fields[n], members[n]);
      }
    }
  }

  lemma AbsentStep(d: Descriptor, members: seq<Member>, n: nat)
    requires |members| == |d.fields| && n < |members|
    requires !d.fields[n].rule.Required? && MemberMeaning(d.fields[n], members[n]) == DefaultMember(d.fields[n])
    requires d.fields[n].rule.Repeated? ==> members[n] == Items([])
    ensures After(d, members, n + 1) == After(d, members, n)
  {
    AbsentMembers(d, members, n);
    assert SeenBefore(d, n + 1) == SeenBefore(d, n);
    assert LastFixed(d, members, n + 1) == LastFixed(d, members, n);
  }

  // ---- Values, one tag at a time ----

  lemma StringTaken(s: Bytes, rest: Bytes)
    requires |s| < WORD
    ensures TakeString(EncodeSlice(s) + rest) == Parsed(s, rest)
  {
    assert EncodeSlice(s) + rest == EncodeVarint(|s|) + (s + rest);
    DecodeVarint32RoundTrip(|s|, s + rest);
    assert (s + rest)[..|s|] == s && (s + rest)[|s|..] == rest;
  }

  lemma StringValue(t: FieldType, size: nat, v: Value, anew: bool, dest: Value, rest: Bytes)
    requires (t.BytesArray? || t.CString? || t.FixedBytes?) && ValueOk(t, size, v) && EncodeValue(t, size, v).Some?
    requires |v.bytes| < WORD
    ensures DecodeValue(t, size, anew, dest, EncodeValue(t, size, v).value + rest)
         == if Readable(t, size, v) then Parsed(v, rest) else Failed
  {
    var s := v.bytes;
    assert EncodeSlice(s) + rest == EncodeVarint(|s|) + (s + rest);
    DecodeVarint32RoundTrip(|s|, s + rest);
    assert (s + rest)[..|s|] == s && (s + rest)[|s|..] == rest;
    if t.FixedBytes? && size == 0 {
      assert s == seq(size, _ => 0);
    }
  }

  /** A value comes back as what it means, or is refused if it cannot be read. */
  lemma {:induction false} ValueRoundTrip(t: FieldType, size: nat, v: Value, anew: bool, dest: Value, rest: Bytes)
    requires ValueOk(t, size, v) && (t.Submessage? ==> WellFormed(t.message))
    requires EncodeValue(t, size, v).Some? && |EncodeValue(t, size, v).value| < WORD
    requires t.Submessage? && !anew ==> dest == Struct(Defaults(t.message))
    ensures DecodeValue(t, size, anew, dest, EncodeValue(t, size, v).value + rest)
         == if Readable(t, size, v) then Parsed(Meaning(t, v), rest) else Failed
    decreases t, 0
  {
    if t.Packable() {
      ScalarRoundTrip(t, size, v, anew, dest, rest);
    } else if t.Submessage? {
      var d := t.message;
      assert MembersOk(d, v.members);
      var w := Encode(d, v.members).value;
      StringTaken(w, rest);
      MessageRoundTrip(d, v.members);
      assert Meaning(t, v) == Struct(Meanings(d, v.members));
    } else {
      StringValue(t, size, v, anew, dest, rest);
    }
  }

  /** A field with one value that is present. */
  lemma {:induction false} SingleStep(d: Descriptor, members: seq<Member>, n: nat, v: Value, rest: Bytes)
    requires Sound(d, members) && n < |members|
    requires members[n] == Always(v) || members[n] == Maybe(true, v) || members[n] == Choice(true, v)
    requires EncodeTagged(d.fields[n], v).Some? && |EncodeTagged(d.fields[n], v).value| < WORD
    ensures DecodeLoop(d, After(d, members, n), EncodeTagged(d.fields[n], v).value + rest)
         == if Readable(d.fields[n].ftype, d.fields[n].dataSize, v) then DecodeLoop(d, After(d, members, n + 1), rest) else None
    decreases d, 0
  {
    assert SoundNow(d, members, 0);
    var f, p := d.fields[n], After(d, members, n);
    assert FieldWellFormed(f) && MemberOk(f, members[n]);
    var w := EncodeValue(f.ftype, f.dataSize, v).value;
    assert EncodeTagged(f, v).value + rest == Tag(f, WireType(f.ftype)) + (w + rest);
    LoopStep(d, n, WireType(f.ftype), p, w + rest);
    ValueRoundTrip(f.ftype, f.dataSize, v, false, DefaultValue(f), rest);
    SingleDecoded(d, members, n, v, w + rest, rest);
  }

  /** What DecodeFieldAt makes of a value, depending on what its decoder makes of it. */
  lemma SingleDecoded(d: Descriptor, members: seq<Member>, n: nat, v: Value, body: Bytes, rest: Bytes)
    requires MembersOk(d, members) && n < |members|
    requires members[n] == Always(v) || members[n] == Maybe(true, v) || members[n] == Choice(true, v)
    requires var f := d.fields[n];
      DecodeValue(f.ftype, f.dataSize, false, DefaultValue(f), body)
      == if Readable(f.ftype, f.dataSize, v) then Parsed(Meaning(f.ftype, v), rest) else Failed
    ensures DecodeFieldAt(d, n, WireType(d.fields[n].ftype), After(d, members, n), body)
         == if Readable(d.fields[n].ftype, d.fields[n].dataSize, v) then Parsed(After(d, members, n + 1), rest) else Failed
  {
    var f, p := d.fields[n], After(d, members, n);
    assert MemberOk(f, members[n]);
    var begun := Begun(d, n, p).value;
    var m := DecodeMember(f, WireType(f.ftype), begun.members[n], body);
    if Readable(f.ftype, f.dataSize, v) {
      assert m == Parsed(MemberMeaning(f, members[n]), rest);
      SingleMembers(d, members, n, begun.members);
    }
  }

  lemma SingleMembers(d: Descriptor, members: seq<Member>, n: nat, begun: seq<Member>)
    requires MembersOk(d, members) && n < |members| && begun == After(d, members, n).members
    requires members[n].Choice? ==> members[n].chosen
    ensures Replaced(d, begun, n)[n := MemberMeaning(d.fields[n], members[n])] == AfterMembers(d, members, n + 1)
  {
    var f := d.fields[n];
    assert MemberOk(f, members[n]);
    var done := Replaced(d, begun, n)[n := MemberMeaning(f, members[n])];
    forall j: nat | j < |members| ensures done[j] == AfterMembers(d, members, n + 1)[j] {
      if j != n && f.rule.Oneof? && d.fields[j].rule == f.rule {
        assert MemberOk(d.fields[j], members[j]) && !IsChosen(members[j]);
      }
    }
    assert done == AfterMembers(d, members, n + 1);
  }

  // ---- Arrays ----

  ghost predicate IsArray(d: Descriptor, members: seq<Member>, n: nat, items: seq<Value>)
    requires |members| == |d.fields|
  {
    && n < |members| && d.fields[n].rule.Repeated? && members[n] == Items(items)
    && 0 < |items| <= d.fields[n].rule.capacity
  }

  ghost function FirstMeanings(f: Field, items: seq<Value>, k: nat): (r: seq<Value>)
    requires k <= |items|
    ensures |r| == k && forall i :: 0 <= i < k ==> r[i] == Meaning(f.ftype, items[i])
  {
    seq(k, i requires 0 <= i < k => Meaning(f.ftype, items[i]))
  }

  /** The decoder after the first k items of field n. */
  ghost function AfterItems(d: Descriptor, members: seq<Member>, n: nat, items: seq<Value>, k: nat): (p: Progress)
    requires |members| == |d.fields| && IsArray(d, members, n, items) && k <= |items|
    ensures |p.members| == |d.fields|
  {
    var p := After(d, members, n);
    Progress(p.members[n := Items(FirstMeanings(d.fields[n], items, k))], p.seen,
             if k > 0 && d.fields[n].rule.fixedCount then Some(n) else p.counting)
  }

  lemma AfterNoItems(d: Descriptor, members: seq<Member>, n: nat, items: seq<Value>)
    requires |members| == |d.fields| && IsArray(d, members, n, items)
    ensures AfterItems(d, members, n, items, 0) == After(d, members, n)
  {
    assert FirstMeanings(d.fields[n], items, 0) == [];
    assert After(d, members, n).members[n] == Items([]);
  }

  lemma AfterAllItems(d: Descriptor, members: seq<Member>, n: nat, items: seq<Value>)
    requires |members| == |d.fields| && IsArray(d, members, n, items)
    ensures AfterItems(d, members, n, items, |items|) == After(d, members, n + 1)
  {
    var f := d.fields[n];
    assert MemberMeaning(f, members[n]) == Items(FirstMeanings(f, items, |items|));
    assert AfterItems(d, members, n, items, |items|).members == AfterMembers(d, members, n + 1);
  }

  /** The array of fixed count before this one is complete. */
  lemma LastIsComplete(d: Descriptor, members: seq<Member>, n: nat)
    requires MembersOk(d, members) && n <= |members|
    ensures CountComplete(d, After(d, members, n))
  {
    var last := LastFixed(d, members, n);
    if last.Some? {
      assert MemberOk(d.fields[last.value], members[last.value]);
    }
  }

  /** What decoding notes before the item with index k. */
  lemma ItemBegun(d: Descriptor, members: seq<Member>, n: nat, items: seq<Value>, k: nat)
    requires MembersOk(d, members) && IsArray(d, members, n, items) && k < |items|
    ensures var b := Begun(d, n, AfterItems(d, members, n, items, k));
      && b.Some? && b.value.members == AfterItems(d, members, n, items, k).members
      && b.value.seen == After(d, members, n).seen
      && b.value.counting == AfterItems(d, members, n, items, k + 1).counting
  {
    AfterNoItems(d, members, n, items);
    LastIsComplete(d, members, n);
    if k == 0 {
      var was := After(d, members, n).members;
      assert was[n := Items([])] == was;
    }
  }

  lemma ItemMembers(d: Descriptor, members: seq<Member>, n: nat, items: seq<Value>, k: nat)
    requires |members| == |d.fields| && IsArray(d, members, n, items) && k < |items|
    ensures var was := AfterItems(d, members, n, items, k).members;
      Replaced(d, was, n)[n := Items(FirstMeanings(d.fields[n], items, k) + [Meaning(d.fields[n].ftype, items[k])])]
      == AfterItems(d, members, n, items, k + 1).members
  {
    var was := AfterItems(d, members, n, items, k).members;
    assert Replaced(d, was, n) == was;
    assert FirstMeanings(d.fields[n], items, k) + [Meaning(d.fields[n].ftype, items[k])] == FirstMeanings(d.fields[n], items, k + 1);
  }

  /** One item of an array that is not packed. */
  lemma {:induction false} ItemStep(d: Descriptor, members: seq<Member>, n: nat, items: seq<Value>, k: nat,
                                    e: Bytes, rest: Bytes)
    requires Sound(d, members) && IsArray(d, members, n, items) && k < |items|
    requires EncodeTagged(d.fields[n], items[k]) == Some(e) && |e| < WORD
    ensures DecodeLoop(d, AfterItems(d, members, n, items, k), e + rest)
         == if Readable(d.fields[n].ftype, d.fields[n].dataSize, items[k])
            then DecodeLoop(d, AfterItems(d, members, n, items, k + 1), rest) else None
    decreases d, 0
  {
    assert SoundNow(d, members, 0);
    var f, p := d.fields[n], AfterItems(d, members, n, items, k);
    assert FieldWellFormed(f) && MemberOk(f, members[n]);
    var w := EncodeValue(f.ftype, f.dataSize, items[k]).value;
    assert e + rest == Tag(f, WireType(f.ftype)) + (w + rest);
    LoopStep(d, n, WireType(f.ftype), p, w + rest);
    ValueRoundTrip(f.ftype, f.dataSize, items[k], true, Zero(f.ftype, f.dataSize), rest);
    ItemDecoded(d, members, n, items, k, w + rest, rest);
  }

  /** What DecodeFieldAt makes of an item, depending on what the decoder of its value makes of it. */
  lemma ItemDecoded(d: Descriptor, members: seq<Member>, n: nat, items: seq<Value>, k: nat, body: Bytes, rest: Bytes)
    requires MembersOk(d, members) && IsArray(d, members, n, items) && k < |items|
    requires var f := d.fields[n];
      DecodeValue(f.ftype, f.dataSize, true, Zero(f.ftype, f.dataSize), body)
      == if Readable(f.ftype, f.dataSize, items[k]) then Parsed(Meaning(f.ftype, items[k]), rest) else Failed
    ensures DecodeFieldAt(d, n, WireType(d.fields[n].ftype), AfterItems(d, members, n, items, k), body)
         == if Readable(d.fields[n].ftype, d.fields[n].dataSize, items[k])
            then Parsed(AfterItems(d, members, n, items, k + 1), rest) else Failed
  {
    ItemBegun(d, members, n, items, k);
    ItemMembers(d, members, n, items, k);
    assert AfterItems(d, members, n, items, k).members[n] == Items(FirstMeanings(d.fields[n], items, k));
  }

  lemma ItemsMore(f: Field, items: seq<Value>, k: nat, w: Bytes, rest: Bytes) returns (before: Bytes, e: Bytes)
    requires 0 < k <= |items| && EncodeItems(f, items, k) == Some(w)
    ensures EncodeTagged(f, items[k - 1]) == Some(e) && EncodeItems(f, items, k - 1) == Some(before)
    ensures |e| <= |w| && |before| <= |w| && w + rest == before + (e + rest)
  {
    before, e := EncodeItems(f, items, k - 1).value, EncodeTagged(f, items[k - 1]).value;
    assert before + e + rest == before + (e + rest);
  }

  ghost predicate SameAfterItems(d: Descriptor, members: seq<Member>, n: nat, items: seq<Value>, a: nat, input: Bytes,
                                 b: nat, rest: Bytes, key: nat)
    requires |members| == |d.fields| && IsArray(d, members, n, items) && a <= |items| && b <= |items|
  {
    DecodeLoop(d, AfterItems(d, members, n, items, a), input) == DecodeLoop(d, AfterItems(d, members, n, items, b), rest)
  }

  /** Decoding the input after the first a items ends as decoding the rest after the first b items does. The key keeps
      the decoding loop out of sight of proofs that only compose such facts. */
  ghost predicate PassesItems(d: Descriptor, members: seq<Member>, n: nat, items: seq<Value>, a: nat, input: Bytes,
                              b: nat, rest: Bytes)
    requires |members| == |d.fields| && IsArray(d, members, n, items) && a <= |items| && b <= |items|
  {
    forall key {:trigger SameAfterItems(d, members, n, items, a, input, b, rest, key)} ::
      SameAfterItems(d, members, n, items, a, input, b, rest, key)
  }

  lemma PassNoItem(d: Descriptor, members: seq<Member>, n: nat, items: seq<Value>, rest: Bytes)
    requires |members| == |d.fields| && IsArray(d, members, n, items)
    ensures PassesItems(d, members, n, items, 0, [] + rest, 0, rest)
  {
    assert [] + rest == rest;
  }

  lemma PassItemsOn(d: Descriptor, members: seq<Member>, n: nat, items: seq<Value>, a: nat, x: Bytes, b: nat, y: Bytes,
                    c: nat, z: Bytes)
    requires |members| == |d.fields| && IsArray(d, members, n, items) && a <= |items| && b <= |items| && c <= |items|
    requires PassesItems(d, members, n, items, a, x, b, y) && PassesItems(d, members, n, items, b, y, c, z)
    ensures PassesItems(d, members, n, items, a, x, c, z)
  {
    assert SameAfterItems(d, members, n, items, a, x, b, y, 0) && SameAfterItems(d, members, n, items, b, y, c, z, 0);
  }

  lemma {:induction false} PassItem(d: Descriptor, members: seq<Member>, n: nat, items: seq<Value>, k: nat,
                                    e: Bytes, rest: Bytes)
    requires Sound(d, members) && IsArray(d, members, n, items) && 0 < k <= |items|
    requires Readable(d.fields[n].ftype, d.fields[n].dataSize, items[k - 1])
    requires EncodeTagged(d.fields[n], items[k - 1]) == Some(e) && |e| < WORD
    ensures PassesItems(d, members, n, items, k - 1, e + rest, k, rest)
    decreases d, 1
  {
    ItemStep(d, members, n, items, k - 1, e, rest);
  }

  ghost predicate ItemsReadable(f: Field, items: seq<Value>, k: nat)
    requires k <= |items|
  {
    forall i :: 0 <= i < k ==> Readable(f.ftype, f.dataSize, items[i])
  }

  /** One item after the ones that have been passed. */
  lemma {:induction false} PassOneMore(d: Descriptor, members: seq<Member>, n: nat, items: seq<Value>, k: nat, input: Bytes,
                                       e: Bytes, rest: Bytes)
    requires Sound(d, members) && IsArray(d, members, n, items) && 0 < k <= |items|
    requires Readable(d.fields[n].ftype, d.fields[n].dataSize, items[k - 1])
    requires EncodeTagged(d.fields[n], items[k - 1]) == Some(e) && |e| < WORD
    requires PassesItems(d, members, n, items, 0, input, k - 1, e + rest)
    ensures PassesItems(d, members, n, items, 0, input, k, rest)
    decreases d, 2
  {
    PassItem(d, members, n, items, k, e, rest);
    PassItemsOn(d, members, n, items, 0, input, k - 1, e + rest, k, rest);
  }

  lemma {:induction false} ItemsReach(d: Descriptor, members: seq<Member>, n: nat, items: seq<Value>, k: nat,
                                      w: Bytes, rest: Bytes)
    requires Sound(d, members) && IsArray(d, members, n, items) && k <= |items|
    requires EncodeItems(d.fields[n], items, k) == Some(w) && |w| < WORD && ItemsReadable(d.fields[n], items, k)
    ensures PassesItems(d, members, n, items, 0, w + rest, k, rest)
    decreases d, 3, k
  {
    if k == 0 {
      PassNoItem(d, members, n, items, rest);
    } else {
      var before, e := ItemsMore(d.fields[n], items, k, w, rest);
      ItemsReach(d, members, n, items, k - 1, before, e + rest);
      PassOneMore(d, members, n, items, k, before + (e + rest), e, rest);
    }
  }

  lemma {:induction false} ItemsSplit(f: Field, items: seq<Value>, k: nat, n: nat) returns (tail: Bytes)
    requires k <= n <= |items| && EncodeItems(f, items, n).Some?
    ensures EncodeItems(f, items, k).Some? && EncodeItems(f, items, n).value == EncodeItems(f, items, k).value + tail
    decreases n
  {
    if k == n {
      tail := [];
    } else {
      tail := ItemsSplit(f, items, k, n - 1);
      tail := tail + EncodeTagged(f, items[n - 1]).value;
    }
  }

  lemma {:induction false} ReadableItems(d: Descriptor, members: seq<Member>, n: nat, items: seq<Value>, w: Bytes, rest: Bytes)
    requires Sound(d, members) && IsArray(d, members, n, items)
    requires EncodeItems(d.fields[n], items, |items|) == Some(w) && |w| < WORD && ItemsReadable(d.fields[n], items, |items|)
    ensures DecodeLoop(d, After(d, members, n), w + rest) == DecodeLoop(d, After(d, members, n + 1), rest)
    decreases d, 4
  {
    ItemsReach(d, members, n, items, |items|, w, rest);
    assert SameAfterItems(d, members, n, items, 0, w + rest, |items|, rest, 0);
    AfterNoItems(d, members, n, items);
    AfterAllItems(d, members, n, items);
  }

  /** Arrays that are encoded packed are read item by item as well. */
  lemma UnpackedReads(d: Descriptor, members: seq<Member>, n: nat, items: seq<Value>, w: Bytes, rest: Bytes)
    requires Sound(d, members) && IsArray(d, members, n, items) && d.fields[n].ftype.Packable()
    requires EncodeItems(d.fields[n], items, |items|) == Some(w) && |w| < WORD
    ensures DecodeLoop(d, After(d, members, n), w + rest) == DecodeLoop(d, After(d, members, n + 1), rest)
  {
    ReadableItems(d, members, n, items, w, rest);
  }

  lemma {:induction false} UnreadableItems(d: Descriptor, members: seq<Member>, n: nat, items: seq<Value>, w: Bytes, rest: Bytes)
    requires Sound(d, members) && IsArray(d, members, n, items)
    requires EncodeItems(d.fields[n], items, |items|) == Some(w) && |w| < WORD && !ItemsReadable(d.fields[n], items, |items|)
    ensures DecodeLoop(d, After(d, members, n), w + rest) == None
    decreases d, 4
  {
    var f := d.fields[n];
    var k := FirstUnreadable(f, items, 0);
    var tail := ItemsSplit(f, items, k + 1, |items|);
    var upTo := EncodeItems(f, items, k + 1).value;
    assert w + rest == upTo + (tail + rest);
    var before, e := ItemsMore(f, items, k + 1, upTo, tail + rest);
    ItemsReach(d, members, n, items, k, before, e + (tail + rest));
    assert SameAfterItems(d, members, n, items, 0, before + (e + (tail + rest)), k, e + (tail + rest), 0);
    AfterNoItems(d, members, n, items);
    ItemStep(d, members, n, items, k, e, tail + rest);
  }

  ghost function FirstUnreadable(f: Field, items: seq<Value>, from: nat): (k: nat)
    requires from <= |items| && exists i :: from <= i < |items| && !Readable(f.ftype, f.dataSize, items[i])
    ensures from <= k < |items| && !Readable(f.ftype, f.dataSize, items[k])
    ensures forall i :: from <= i < k ==> Readable(f.ftype, f.dataSize, items[i])
    decreases |items| - from
  {
    if Readable(f.ftype, f.dataSize, items[from]) then FirstUnreadable(f, items, from + 1) else from
  }

  ghost predicate SamePacked(f: Field, capacity: nat, items: seq<Value>, a: Bytes, more: seq<Value>, b: Bytes, key: nat) {
    DecodePacked(f, capacity, items, a) == DecodePacked(f, capacity, more, b)
  }

  /** PassesItems, for packed items. */
  ghost predicate PackedLeads(f: Field, capacity: nat, items: seq<Value>, a: Bytes, more: seq<Value>, b: Bytes) {
    forall key {:trigger SamePacked(f, capacity, items, a, more, b, key)} :: SamePacked(f, capacity, items, a, more, b, key)
  }

  lemma PackedNow(f: Field, capacity: nat, items: seq<Value>, rest: Bytes)
    ensures PackedLeads(f, capacity, items[..0], [] + rest, items[..0], rest)
  {
    assert [] + rest == rest;
  }

  lemma PackedOn(f: Field, capacity: nat, items: seq<Value>, a: Bytes, more: seq<Value>, b: Bytes, all: seq<Value>, c: Bytes)
    requires PackedLeads(f, capacity, items, a, more, b) && PackedLeads(f, capacity, more, b, all, c)
    ensures PackedLeads(f, capacity, items, a, all, c)
  {
    assert SamePacked(f, capacity, items, a, more, b, 0) && SamePacked(f, capacity, more, b, all, c, 0);
  }

  lemma PackedItem(f: Field, capacity: nat, items: seq<Value>, k: nat, e: Bytes, rest: Bytes)
    requires f.ftype.Packable() && k < |items| <= capacity && ValueOk(f.ftype, f.dataSize, items[k])
    requires EncodeValue(f.ftype, f.dataSize, items[k]) == Some(e)
    ensures PackedLeads(f, capacity, items[..k], e + rest, items[..k + 1], rest)
  {
    ScalarRoundTrip(f.ftype, f.dataSize, items[k], true, Zero(f.ftype, f.dataSize), rest);
    assert items[..k] + [items[k]] == items[..k + 1];
  }

  lemma PackedMore(f: Field, items: seq<Value>, k: nat, w: Bytes, rest: Bytes) returns (before: Bytes, e: Bytes)
    requires 0 < k <= |items| && EncodePacked(f, items, k) == Some(w)
    ensures EncodePacked(f, items, k - 1) == Some(before) && EncodeValue(f.ftype, f.dataSize, items[k - 1]) == Some(e)
    ensures w + rest == before + (e + rest)
  {
    before, e := EncodePacked(f, items, k - 1).value, EncodeValue(f.ftype, f.dataSize, items[k - 1]).value;
    assert before + e + rest == before + (e + rest);
  }

  lemma {:induction false} PackedRoundTrip(f: Field, capacity: nat, items: seq<Value>, k: nat, w: Bytes, rest: Bytes)
    requires f.ftype.Packable() && k <= |items| <= capacity && EncodePacked(f, items, k) == Some(w)
    requires forall i :: 0 <= i < |items| ==> ValueOk(f.ftype, f.dataSize, items[i])
    ensures PackedLeads(f, capacity, items[..0], w + rest, items[..k], rest)
    decreases k
  {
    if k == 0 {
      PackedNow(f, capacity, items, rest);
    } else {
      var before, e := PackedMore(f, items, k, w, rest);
      PackedRoundTrip(f, capacity, items, k - 1, before, e + rest);
      PackedItem(f, capacity, items, k - 1, e, rest);
      PackedOn(f, capacity, items[..0], w + rest, items[..k - 1], e + rest, items[..k], rest);
    }
  }

  lemma PackedDecodes(f: Field, capacity: nat, items: seq<Value>, w: Bytes)
    requires f.ftype.Packable() && |items| <= capacity && EncodePacked(f, items, |items|) == Some(w)
    requires forall i :: 0 <= i < |items| ==> ValueOk(f.ftype, f.dataSize, items[i])
    ensures DecodePacked(f, capacity, [], w) == Some(items)
  {
    PackedRoundTrip(f, capacity, items, |items|, w, []);
    assert SamePacked(f, capacity, items[..0], w + [], items[..|items|], [], 0);
    assert w + [] == w && items[..|items|] == items && items[..0] == [];
  }

  lemma {:induction false} PackedStep(d: Descriptor, members: seq<Member>, n: nat, items: seq<Value>, rest: Bytes)
    requires Sound(d, members) && IsArray(d, members, n, items) && d.fields[n].ftype.Packable()
    requires var w := EncodeArray(d.fields[n], d.fields[n].rule.capacity, items); w.Some? && |w.value| < WORD
    ensures DecodeLoop(d, After(d, members, n), EncodeArray(d.fields[n], d.fields[n].rule.capacity, items).value + rest)
         == DecodeLoop(d, After(d, members, n + 1), rest)
  {
    assert SoundNow(d, members, 0);
    var f, p := d.fields[n], After(d, members, n);
    assert FieldWellFormed(f) && MemberOk(f, members[n]);
    var w := EncodePacked(f, items, |items|).value;
    assert Tag(f, 2) + EncodeSlice(w) + rest == Tag(f, 2) + (EncodeSlice(w) + rest);
    LoopStep(d, n, 2, p, EncodeSlice(w) + rest);
    StringTaken(w, rest);
    PackedDecodes(f, f.rule.capacity, items, w);
    AfterNoItems(d, members, n, items);
    ItemBegun(d, members, n, items, 0);
    PackedDecoded(d, members, n, items, EncodeSlice(w) + rest, rest);
  }

  lemma PackedDecoded(d: Descriptor, members: seq<Member>, n: nat, items: seq<Value>, body: Bytes, rest: Bytes)
    requires MembersOk(d, members) && IsArray(d, members, n, items) && d.fields[n].ftype.Packable()
    requires DecodeMember(d.fields[n], 2, Items([]), body) == Parsed(Items(items), rest)
    ensures DecodeFieldAt(d, n, 2, After(d, members, n), body) == Parsed(After(d, members, n + 1), rest)
  {
    AfterNoItems(d, members, n, items);
    ItemBegun(d, members, n, items, 0);
    AfterAllItems(d, members, n, items);
    var f, was := d.fields[n], After(d, members, n).members;
    assert FirstMeanings(f, items, |items|) == items;
    assert Replaced(d, was, n) == was;
  }

  // ---- Messages ----

  /** The next field. */
  lemma {:induction false} FieldStep(d: Descriptor, members: seq<Member>, n: nat, next: nat, e: Bytes, rest: Bytes)
    requires Sound(d, members) && next == n + 1 <= |members|
    requires EncodeField(d.fields[n], members[n]) == Some(e) && |e| < WORD
    ensures DecodeLoop(d, After(d, members, n), e + rest)
         == if MemberReadable(d.fields[n], members[n]) then DecodeLoop(d, After(d, members, next), rest) else None
    decreases d, 5
  {
    assert SoundNow(d, members, 0);
    var f, m := d.fields[n], members[n];
    assert FieldWellFormed(f) && MemberOk(f, m);
    if IsAbsent(f, m) {
      assert [] + rest == rest;
      AbsentMeaning(f, m);
      AbsentStep(d, members, n);
    } else if m.Items? {
      assert IsArray(d, members, n, m.items);
      if f.ftype.Packable() {
        PackedStep(d, members, n, m.items, rest);
      } else {
        if ItemsReadable(f, m.items, |m.items|) {
          ReadableItems(d, members, n, m.items, e, rest);
        } else {
          UnreadableItems(d, members, n, m.items, e, rest);
        }
      }
    } else {
      SingleStep(d, members, n, m.value, rest);
    }
  }

  /** Nothing is written for the field. */
  ghost predicate IsAbsent(f: Field, m: Member) {
    match m
    case Always(_) => f.rule.Singular? && IsDefault(f, m)
    case Maybe(has, _) => !has
    case Choice(chosen, _) => !chosen
    case Items(items) => items == []
  }

  lemma AbsentMeaning(f: Field, m: Member)
    requires FieldWellFormed(f) && MemberOk(f, m) && IsAbsent(f, m)
    ensures MemberMeaning(f, m) == DefaultMember(f) && EncodeField(f, m) == Some([]) && !f.rule.Required?
    ensures f.rule.Repeated? ==> m == Items([])
    ensures MemberReadable(f, m)
  {
    if m.Always? {
      DefaultMeaning(f, m);
    }
  }

  lemma FieldsMore(d: Descriptor, members: seq<Member>, n: nat, w: Bytes, rest: Bytes) returns (before: Bytes, e: Bytes)
    requires 0 < n <= |members| == |d.fields| && EncodeUpTo(d, members, n) == Some(w)
    ensures EncodeField(d.fields[n - 1], members[n - 1]) == Some(e) && EncodeUpTo(d, members, n - 1) == Some(before)
    ensures |e| <= |w| && |before| <= |w| && w + rest == before + (e + rest)
  {
    before, e := EncodeUpTo(d, members, n - 1).value, EncodeField(d.fields[n - 1], members[n - 1]).value;
    assert before + e + rest == before + (e + rest);
  }

  ghost predicate SameAfter(d: Descriptor, members: seq<Member>, a: nat, input: Bytes, b: nat, rest: Bytes, key: nat)
    requires |members| == |d.fields| && a <= |members| && b <= |members|
  {
    DecodeLoop(d, After(d, members, a), input) == DecodeLoop(d, After(d, members, b), rest)
  }

  /** PassesItems, for fields. */
  ghost predicate Passes(d: Descriptor, members: seq<Member>, a: nat, input: Bytes, b: nat, rest: Bytes)
    requires |members| == |d.fields| && a <= |members| && b <= |members|
  {
    forall key {:trigger SameAfter(d, members, a, input, b, rest, key)} :: SameAfter(d, members, a, input, b, rest, key)
  }

  lemma PassNothing(d: Descriptor, members: seq<Member>, rest: Bytes)
    requires |members| == |d.fields|
    ensures Passes(d, members, 0, [] + rest, 0, rest)
  {
    assert [] + rest == rest;
  }

  lemma PassOn(d: Descriptor, members: seq<Member>, a: nat, x: Bytes, b: nat, y: Bytes, c: nat, z: Bytes)
    requires |members| == |d.fields| && a <= |members| && b <= |members| && c <= |members|
    requires Passes(d, members, a, x, b, y) && Passes(d, members, b, y, c, z)
    ensures Passes(d, members, a, x, c, z)
  {
    assert SameAfter(d, members, a, x, b, y, 0) && SameAfter(d, members, b, y, c, z, 0);
  }

  lemma {:induction false} PassField(d: Descriptor, members: seq<Member>, n: nat, e: Bytes, rest: Bytes)
    requires Sound(d, members) && 0 < n <= |members| && MemberReadable(d.fields[n - 1], members[n - 1])
    requires EncodeField(d.fields[n - 1], members[n - 1]) == Some(e) && |e| < WORD
    ensures Passes(d, members, n - 1, e + rest, n, rest)
    decreases d, 6
  {
    FieldStep(d, members, n - 1, n, e, rest);
  }

  /** One field after the ones that have been passed. */
  lemma {:induction false} PassOneField(d: Descriptor, members: seq<Member>, n: nat, input: Bytes, e: Bytes, rest: Bytes)
    requires Sound(d, members) && 0 < n <= |members| && MemberReadable(d.fields[n - 1], members[n - 1])
    requires EncodeField(d.fields[n - 1], members[n - 1]) == Some(e) && |e| < WORD
    requires Passes(d, members, 0, input, n - 1, e + rest)
    ensures Passes(d, members, 0, input, n, rest)
    decreases d, 7
  {
    PassField(d, members, n, e, rest);
    PassOn(d, members, 0, input, n - 1, e + rest, n, rest);
  }

  lemma {:induction false} Reach(d: Descriptor, members: seq<Member>, n: nat, w: Bytes, rest: Bytes)
    requires Sound(d, members) && n <= |members|
    requires EncodeUpTo(d, members, n) == Some(w) && |w| < WORD
    requires forall i {:trigger members[i]} :: 0 <= i < n ==> MemberReadable(d.fields[i], members[i])
    ensures Passes(d, members, 0, w + rest, n, rest)
    decreases d, 8, n
  {
    if n == 0 {
      PassNothing(d, members, rest);
    } else {
      var before, e := FieldsMore(d, members, n, w, rest);
      Reach(d, members, n - 1, before, e + rest);
      PassOneField(d, members, n, before + (e + rest), e, rest);
    }
  }

  lemma {:induction false} EncodeSplit(d: Descriptor, members: seq<Member>, k: nat, n: nat) returns (tail: Bytes)
    requires k <= n <= |members| == |d.fields| && EncodeUpTo(d, members, n).Some?
    ensures EncodeUpTo(d, members, k).Some?
    ensures EncodeUpTo(d, members, n).value == EncodeUpTo(d, members, k).value + tail
    decreases n
  {
    if k == n {
      tail := [];
    } else {
      tail := EncodeSplit(d, members, k, n - 1);
      tail := tail + EncodeField(d.fields[n - 1], members[n - 1]).value;
    }
  }

  ghost function FirstUnreadableMember(d: Descriptor, members: seq<Member>, from: nat): (k: nat)
    requires from <= |members| == |d.fields| && exists i :: from <= i < |members| && !MemberReadable(d.fields[i], members[i])
    ensures from <= k < |members| && !MemberReadable(d.fields[k], members[k])
    ensures forall i :: from <= i < k ==> MemberReadable(d.fields[i], members[i])
    decreases |members| - from
  {
    if MemberReadable(d.fields[from], members[from]) then FirstUnreadableMember(d, members, from + 1) else from
  }

  lemma AfterNothing(d: Descriptor, members: seq<Member>)
    requires |members| == |d.fields|
    ensures After(d, members, 0) == Progress(Defaults(d), {}, None)
  {
    assert AfterMembers(d, members, 0) == Defaults(d);
  }

  /** After the last field, the decoder accepts. */
  lemma Accepted(d: Descriptor, members: seq<Member>)
    requires MembersOk(d, members)
    ensures var p := After(d, members, |members|);
      && DecodeLoop(d, p, []) == Some(p) && p.members == Meanings(d, members)
      && CountComplete(d, p) && RequiredSeen(d, p.seen)
  {
    LastIsComplete(d, members, |members|);
    assert AfterMembers(d, members, |members|) == Meanings(d, members);
  }

  lemma {:induction false} ReadableMessage(d: Descriptor, members: seq<Member>, w: Bytes, rest: Bytes)
    requires Sound(d, members) && MembersReadable(d, members, |members|)
    requires EncodeUpTo(d, members, |members|) == Some(w) && |w| < WORD
    ensures DecodeLoop(d, Progress(Defaults(d), {}, None), w + rest) == DecodeLoop(d, After(d, members, |members|), rest)
    decreases d, 9
  {
    Reach(d, members, |members|, w, rest);
    assert SameAfter(d, members, 0, w + rest, |members|, rest, 0);
    AfterNothing(d, members);
  }

  lemma {:induction false} UnreadableMessage(d: Descriptor, members: seq<Member>, w: Bytes, rest: Bytes)
    requires Sound(d, members) && !MembersReadable(d, members, |members|)
    requires EncodeUpTo(d, members, |members|) == Some(w) && |w| < WORD
    ensures DecodeLoop(d, Progress(Defaults(d), {}, None), w + rest) == None
    decreases d, 9
  {
    var k := FirstUnreadableMember(d, members, 0);
    var before, e, tail := MemberAt(d, members, k, w, rest);
    Reach(d, members, k, before, e + tail);
    assert SameAfter(d, members, 0, before + (e + tail), k, e + tail, 0);
    AfterNothing(d, members);
    FieldStep(d, members, k, k + 1, e, tail);
  }

  /** The bytes of field k, and what is before and behind them. */
  lemma MemberAt(d: Descriptor, members: seq<Member>, k: nat, w: Bytes, rest: Bytes) returns (before: Bytes, e: Bytes, tail: Bytes)
    requires k < |members| == |d.fields| && EncodeUpTo(d, members, |members|) == Some(w)
    ensures EncodeUpTo(d, members, k) == Some(before) && EncodeField(d.fields[k], members[k]) == Some(e)
    ensures |before| <= |w| && |e| <= |w| && w + rest == before + (e + tail)
  {
    var more := EncodeSplit(d, members, k + 1, |members|);
    var upTo := EncodeUpTo(d, members, k + 1).value;
    tail := more + rest;
    assert w + rest == upTo + tail;
    before, e := FieldsMore(d, members, k + 1, upTo, tail);
  }

  /** The round trip: what is encoded decodes to what the struct means, exactly if every string that is encoded leaves
      room for its terminator. */
  lemma {:induction false} MessageRoundTrip(d: Descriptor, members: seq<Member>)
    requires WellFormed(d) && MembersOk(d, members)
    requires Encode(d, members).Some? && |Encode(d, members).value| < WORD
    ensures Decode(d, Encode(d, members).value)
         == if MembersReadable(d, members, |members|) then Some(Meanings(d, members)) else None
    decreases d, 10
  {
    var w := Encode(d, members).value;
    assert w + [] == w;
    if MembersReadable(d, members, |members|) {
      ReadableMessage(d, members, w, []);
      Accepted(d, members);
    } else {
      UnreadableMessage(d, members, w, []);
    }
  }

  /** A zero tag ends the message, whatever follows it. */
  lemma TerminatorEndsMessage(d: Descriptor, members: seq<Member>, rest: Bytes)
    requires WellFormed(d) && MembersOk(d, members)
    requires Encode(d, members).Some? && |Encode(d, members).value| < WORD
    ensures Decode(d, Encode(d, members).value + ([0] + rest)) == Decode(d, Encode(d, members).value)
  {
    var w := Encode(d, members).value;
    MessageRoundTrip(d, members);
    if MembersReadable(d, members, |members|) {
      ReadableMessage(d, members, w, [0] + rest);
      Accepted(d, members);
    } else {
      UnreadableMessage(d, members, w, [0] + rest);
    }
  }

  /** A struct whose two-byte string field holds two characters is encoded, but cannot be decoded. */
  lemma UnterminatedStringIsRefused()
    ensures var d, members := Descriptor([Field(1, CString, Required, 2, Raw([]))]), [Always(Raw([65, 66]))];
      && WellFormed(d) && MembersOk(d, members)
      && Encode(d, members).Some? && Decode(d, Encode(d, members).value) == None
  {
    var f := Field(1, CString, Required, 2, Raw([]));
    var d, members := Descriptor([f]), [Always(Raw([65, 66]))];
    assert FieldWellFormed(f) && ValueOk(f.ftype, f.dataSize, Raw([65, 66])) && MemberOk(f, members[0]);
    assert EncodeUpTo(d, members, 0) == Some([]) && EncodeUpTo(d, members, 1) == Then(Some([]), EncodeField(f, members[0]));
    assert EncodeField(f, members[0]) == Some([10] + ([2] + [65, 66]));
    assert !MemberReadable(f, members[0]);
    MessageRoundTrip(d, members);
  }
}
