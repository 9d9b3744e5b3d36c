/** Peers with different versions of a message: unknown fields are skipped, and required fields must be there
    (nanopb/pb_decode.c: pb_skip_field, pb_decode_noinit). */
module PbCompatibility {
  import opened DbFormat
  import opened Coding
  import opened PbSchemas
  import opened PbEncoding
  import opened PbDecoding
  import opened PbRoundTrip

  // ---- Skipping ----

  lemma {:induction false} SkipsVarint(n: nat, rest: Bytes)
    ensures SkipVarint(EncodeVarint(n) + rest) == Parsed((), rest)
    decreases n
  {
    if n < 128 {
      assert (EncodeVarint(n) + rest)[1..] == rest;
    } else {
      VarintSplit(n, rest);
      var tail := EncodeVarint(n / 128) + rest;
      assert ([n % 128 + 128] + tail)[1..] == tail;
      SkipsVarint(n / 128, rest);
    }
  }

  lemma SkipsString(s: Bytes, rest: Bytes)
    requires |s| < WORD
    ensures SkipField(2, EncodeSlice(s) + rest) == Parsed((), rest)
  {
    StringTaken(s, rest);
  }

  lemma SkipsFixed(w: Bytes, wireType: nat, rest: Bytes)
    requires (wireType == 5 && |w| == 4) || (wireType == 1 && |w| == 8)
    ensures SkipField(wireType, w + rest) == Parsed((), rest)
  {
    assert (w + rest)[|w|..] == rest;
  }

  lemma SliceIsLonger(s: Bytes)
    ensures |s| < |EncodeSlice(s)|
  {
  }

  /** Whatever the encoder writes for a value, the decoder can skip by its wire type alone. */
  lemma SkipsValue(t: FieldType, size: nat, v: Value, rest: Bytes)
    requires EncodeValue(t, size, v).Some? && |EncodeValue(t, size, v).value| < WORD
    ensures SkipField(WireType(t), EncodeValue(t, size, v).value + rest) == Parsed((), rest)
  {
    match t
    case Bool => SkipsVarint(if v.b then 1 else 0, rest);
    case Varint => SkipsVarint(v.n % TWO_64, rest);
    case Uvarint => SkipsVarint(v.n % TWO_64, rest);
    case Svarint => SkipsVarint(ZigZag(v.n) % TWO_64, rest);
    case Fixed32 => SkipsFixed(EncodeFixed32(v.n % WORD), 5, rest);
    case Fixed64 => SkipsFixed(EncodeFixed64(v.n % TWO_64), 1, rest);
    case BytesArray => SliceIsLonger(v.bytes); SkipsString(v.bytes, rest);
    case CString => SliceIsLonger(v.bytes); SkipsString(v.bytes, rest);
    case FixedBytes => SliceIsLonger(v.bytes); SkipsString(v.bytes, rest);
    case Submessage(d) =>
      var w := EncodeUpTo(d, v.members, |v.members|).value;
      SliceIsLonger(w);
      SkipsString(w, rest);
  }

  // ---- Unknown fields ----

  ghost predicate Unknown(d: Descriptor, f: Field) {
    1 <= f.tag < 0x2000_0000 && forall i :: 0 <= i < |d.fields| ==> d.fields[i].tag != f.tag
  }

  lemma TagParts(tag: nat, wireType: nat)
    requires wireType < 8
    ensures (8 * tag + wireType) / 8 == tag && (8 * tag + wireType) % 8 == wireType
  {
  }

  /** One turn of the decoding loop at a tag that the descriptor does not have. */
  lemma UnknownStep(d: Descriptor, p: Progress, f: Field, wireType: nat, body: Bytes, rest: Bytes)
    requires |p.members| == |d.fields| && Unknown(d, f) && wireType < 8 && SkipField(wireType, body) == Parsed((), rest)
    ensures DecodeLoop(d, p, Tag(f, wireType) + body) == DecodeLoop(d, p, rest)
  {
    var n := 8 * f.tag + wireType;
    DecodeVarint32RoundTrip(n, body);
    TagParts(f.tag, wireType);
    var input := Tag(f, wireType) + body;
    assert DecodeVarint32(input) == Parsed(n, body);
    assert FindField(d, f.tag, |d.fields|) == None;
  }

  lemma UnknownTagged(d: Descriptor, p: Progress, f: Field, v: Value, e: Bytes, rest: Bytes)
    requires |p.members| == |d.fields| && Unknown(d, f) && EncodeTagged(f, v) == Some(e) && |e| < WORD
    ensures DecodeLoop(d, p, e + rest) == DecodeLoop(d, p, rest)
  {
    var w := EncodeValue(f.ftype, f.dataSize, v).value;
    assert e + rest == Tag(f, WireType(f.ftype)) + (w + rest);
    SkipsValue(f.ftype, f.dataSize, v, rest);
    UnknownStep(d, p, f, WireType(f.ftype), w + rest, rest);
  }

  lemma {:induction false} UnknownItems(d: Descriptor, p: Progress, f: Field, items: seq<Value>, k: nat, w: Bytes, rest: Bytes)
    requires |p.members| == |d.fields| && Unknown(d, f) && k <= |items| && EncodeItems(f, items, k) == Some(w) && |w| < WORD
    ensures DecodeLoop(d, p, w + rest) == DecodeLoop(d, p, rest)
    decreases k
  {
    if k == 0 {
      assert [] + rest == rest;
    } else {
      var before, e := ItemsMore(f, items, k, w, rest);
      UnknownItems(d, p, f, items, k - 1, before, e + rest);
      UnknownTagged(d, p, f, items[k - 1], e, rest);
    }
  }

  lemma UnknownPacked(d: Descriptor, p: Progress, f: Field, s: Bytes, rest: Bytes)
    requires |p.members| == |d.fields| && Unknown(d, f) && |s| < WORD
    ensures DecodeLoop(d, p, Tag(f, 2) + EncodeSlice(s) + rest) == DecodeLoop(d, p, rest)
  {
    assert Tag(f, 2) + EncodeSlice(s) + rest == Tag(f, 2) + (EncodeSlice(s) + rest);
    SkipsString(s, rest);
    UnknownStep(d, p, f, 2, EncodeSlice(s) + rest, rest);
  }

  /** All that is written for a field is skipped by a decoder that does not know the field. */
  lemma UnknownField(d: Descriptor, p: Progress, f: Field, m: Member, e: Bytes, rest: Bytes)
    requires |p.members| == |d.fields| && Unknown(d, f) && EncodeField(f, m) == Some(e) && |e| < WORD
    ensures DecodeLoop(d, p, e + rest) == DecodeLoop(d, p, rest)
  {
    if e == [] {
      assert [] + rest == rest;
    } else if m.Items? {
      if f.ftype.Packable() {
        var s := EncodePacked(f, m.items, |m.items|).value;
        SliceIsLonger(s);
        UnknownPacked(d, p, f, s, rest);
      } else {
        UnknownItems(d, p, f, m.items, |m.items|, e, rest);
      }
    } else {
      UnknownTagged(d, p, f, m.value, e, rest);
    }
  }

  // ---- Required fields ----

  /** The fields that the decoding loop meets in the input. */
  function Met(d: Descriptor, p: Progress, input: Bytes): set<nat>
    requires |d.fields| == |p.members|
    decreases |input|
  {
    if input == [] then {}
    else
      var tag := DecodeVarint32(input);
      if tag.Failed? || tag.value == 0 then {}
      else
        var i := FindField(d, tag.value / 8, |d.fields|);
        if i.Some? then
          var next := DecodeFieldAt(d, i.value, tag.value % 8, p, tag.rest);
          {i.value} + if next.Failed? then {} else Met(d, next.value, next.rest)
        else
          var skipped := SkipField(tag.value % 8, tag.rest);
          if skipped.Failed? then {} else Met(d, p, skipped.rest)
  }

  ghost predicate MustBeSeen(d: Descriptor, i: nat) {
    i < |d.fields| && d.fields[i].rule.Required? && RequiredBefore(d, i) < MAX_REQUIRED_FIELDS
  }

  /** Required fields are counted one by one. */
  lemma {:induction false} CountsRise(d: Descriptor, i: nat, n: nat)
    requires i < n <= |d.fields|
    ensures RequiredBefore(d, i) <= RequiredBefore(d, n)
    ensures d.fields[i].rule.Required? ==> RequiredBefore(d, i) < RequiredBefore(d, n)
    decreases n
  {
    if i < n - 1 {
      CountsRise(d, i, n - 1);
    }
  }

  lemma OwnCount(d: Descriptor, i: nat, j: nat)
    requires i < |d.fields| && j < |d.fields| && d.fields[i].rule.Required? && d.fields[j].rule.Required?
    requires RequiredBefore(d, i) == RequiredBefore(d, j)
    ensures i == j
  {
    if i < j {
      CountsRise(d, i, j);
    }
    if j < i {
      CountsRise(d, j, i);
    }
  }

  lemma {:induction false} CountedField(d: Descriptor, r: nat, n: nat) returns (i: nat)
    requires n <= |d.fields| && r < RequiredBefore(d, n)
    ensures i < n && d.fields[i].rule.Required? && RequiredBefore(d, i) == r
    decreases n
  {
    if r < RequiredBefore(d, n - 1) {
      i := CountedField(d, r, n - 1);
    } else {
      i := n - 1;
    }
  }

  /** Decoding a field notes that field and no other. */
  lemma NotesField(d: Descriptor, j: nat, wireType: nat, p: Progress, input: Bytes, i: nat)
    requires j < |d.fields| == |p.members| && MustBeSeen(d, i)
    requires DecodeFieldAt(d, j, wireType, p, input).Parsed?
    ensures RequiredBefore(d, i) in DecodeFieldAt(d, j, wireType, p, input).value.seen
            <==> RequiredBefore(d, i) in p.seen || i == j
  {
    var r := RequiredBefore(d, i);
    var begun := Begun(d, j, p).value;
    assert DecodeFieldAt(d, j, wireType, p, input).value.seen == begun.seen;
    if r in begun.seen && r !in p.seen {
      OwnCount(d, i, j);
    }
  }

  /** The bitfield of required fields holds exactly those that were met. */
  lemma {:induction false} SeenIsMet(d: Descriptor, p: Progress, input: Bytes, i: nat)
    requires |d.fields| == |p.members| && MustBeSeen(d, i) && DecodeLoop(d, p, input).Some?
    ensures RequiredBefore(d, i) in DecodeLoop(d, p, input).value.seen
            <==> RequiredBefore(d, i) in p.seen || i in Met(d, p, input)
    decreases |input|
  {
    if input != [] {
      var tag := DecodeVarint32(input);
      if tag.value != 0 {
        var j := FindField(d, tag.value / 8, |d.fields|);
        if j.Some? {
          var next := DecodeFieldAt(d, j.value, tag.value % 8, p, tag.rest);
          NotesField(d, j.value, tag.value % 8, p, tag.rest, i);
          SeenIsMet(d, next.value, next.rest, i);
        } else {
          SeenIsMet(d, p, SkipField(tag.value % 8, tag.rest).rest, i);
        }
      }
    }
  }

  ghost predicate AllMet(d: Descriptor, met: set<nat>) {
    forall i: nat :: MustBeSeen(d, i) ==> i in met
  }

  lemma AllSeenIsAllMet(d: Descriptor, seen: set<nat>, met: set<nat>)
    requires forall i: nat :: MustBeSeen(d, i) ==>
      (RequiredBefore(d, i) in seen <==> i in met)
    ensures RequiredSeen(d, seen) <==> AllMet(d, met)
  {
    if RequiredSeen(d, seen) {
      forall i: nat | MustBeSeen(d, i) ensures i in met {
        CountsRise(d, i, |d.fields|);
        assert RequiredBefore(d, i) in seen;
      }
    }
    if AllMet(d, met) {
      forall r: nat | 0 <= r < RequiredBefore(d, |d.fields|) && r < MAX_REQUIRED_FIELDS ensures r in seen {
        var i := CountedField(d, r, |d.fields|);
        assert MustBeSeen(d, i) && i in met;
      }
    }
  }

  /** A message is accepted exactly if it can be decoded to its end, its arrays of fixed count are complete, and it
      has every required field, as far as the decoder keeps track of them. */
  lemma RequiredIsNeeded(d: Descriptor, input: Bytes, members: seq<Member>)
    requires |members| == |d.fields|
    ensures var start := Progress(members, {}, None);
      var end := DecodeLoop(d, start, input);
      DecodeMessage(d, input, members).Some?
      <==> end.Some? && CountComplete(d, end.value) && AllMet(d, Met(d, start, input))
  {
    var start := Progress(members, {}, None);
    var end := DecodeLoop(d, start, input);
    if end.Some? {
      forall i: nat | MustBeSeen(d, i)
        ensures RequiredBefore(d, i) in end.value.seen <==> i in Met(d, start, input)
      {
        SeenIsMet(d, start, input, i);
      }
      AllSeenIsAllMet(d, end.value.seen, Met(d, start, input));
    }
  }
}
