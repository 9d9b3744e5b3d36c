/** What decoding arbitrary bytes leaves in a struct (nanopb/pb_decode.c). */
module PbSafety {
  import opened DbFormat
  import opened Coding
  import opened PbSchemas
  import opened PbDecoding
  import opened PbCompatibility

  // ---- Structs that keep to their bounds ----

  /** A value that fits into its member of the struct: strings with their counter or terminator. */
  ghost predicate ValueLegal(t: FieldType, size: nat, v: Value)
    decreases t
  {
    match t
    case Bool => v.Truth?
    case Varint => v.Number? && IntSize(size) && 0 <= 2 * v.n + Width(size) < 2 * Width(size)
    case Svarint => v.Number? && IntSize(size) && 0 <= 2 * v.n + Width(size) < 2 * Width(size)
    case Uvarint => v.Number? && IntSize(size) && 0 <= v.n < Width(size)
    case Fixed32 => v.Number? && 0 <= v.n < WORD
    case Fixed64 => v.Number? && 0 <= v.n < TWO_64
    case BytesArray => v.Raw? && |v.bytes| + BYTES_HEADER <= size
    case CString => v.Raw? && |v.bytes| + 1 <= size && forall i :: 0 <= i < |v.bytes| ==> v.bytes[i] != 0
    case FixedBytes => v.Raw? && |v.bytes| == size
    case Submessage(d) => v.Struct? && MembersLegal(d, v.members)
  }

  ghost predicate MemberLegal(f: Field, m: Member)
    decreases f
  {
    match f.rule
    case Required => m.Always? && ValueLegal(f.ftype, f.dataSize, m.value)
    case Singular => m.Always? && ValueLegal(f.ftype, f.dataSize, m.value)
    case Optional => m.Maybe? && ValueLegal(f.ftype, f.dataSize, m.value)
    case Oneof(_) => m.Choice? && (m.chosen ==> ValueLegal(f.ftype, f.dataSize, m.value))
    case Repeated(capacity, _) =>
      m.Items? && |m.items| <= capacity && forall i :: 0 <= i < |m.items| ==> ValueLegal(f.ftype, f.dataSize, m.items[i])
  }

  /** Every member keeps to its bounds, and a union holds at most one of its fields. */
  ghost predicate MembersLegal(d: Descriptor, members: seq<Member>)
    decreases d
  {
    && |members| == |d.fields| && OneChosen(d, members)
    && forall i :: 0 <= i < |members| ==> MemberLegal(d.fields[i], members[i])
  }

  /** The defaults that the descriptor names fit. */
  ghost predicate InitialsLegal(d: Descriptor)
    decreases d
  {
    forall i :: 0 <= i < |d.fields| ==>
      var f := d.fields[i];
      if f.ftype.Submessage? then InitialsLegal(f.ftype.message) else ValueLegal(f.ftype, f.dataSize, f.initial)
  }

  lemma {:induction false} DefaultsLegal(d: Descriptor)
    requires InitialsLegal(d)
    ensures MembersLegal(d, Defaults(d))
    ensures forall i :: 0 <= i < |d.fields| ==> ValueLegal(d.fields[i].ftype, d.fields[i].dataSize, DefaultValue(d.fields[i]))
    decreases d
  {
    forall i | 0 <= i < |d.fields|
      ensures ValueLegal(d.fields[i].ftype, d.fields[i].dataSize, DefaultValue(d.fields[i]))
      ensures MemberLegal(d.fields[i], DefaultMember(d.fields[i]))
    {
      var f := d.fields[i];
      if f.ftype.Submessage? {
        DefaultsLegal(f.ftype.message);
      }
    }
  }

  // ---- Decoding any bytes ----

  lemma {:induction false} UpToZeroFits(s: Bytes)
    ensures |UpToZero(s)| <= |s| && forall i :: 0 <= i < |UpToZero(s)| ==> UpToZero(s)[i] != 0
  {
    if s != [] && s[0] != 0 {
      UpToZeroFits(s[1..]);
    }
  }

  lemma SignedFits(n: nat, width: nat)
    requires width > 0
    ensures 0 <= 2 * Signed(n, width) + width < 2 * width
  {
  }

  ghost predicate TypeLegal(t: FieldType) {
    t.Submessage? ==> InitialsLegal(t.message)
  }

  lemma ScalarDecoded(t: FieldType, size: nat, anew: bool, dest: Value, input: Bytes)
    requires !t.Submessage? && DecodeValue(t, size, anew, dest, input).Parsed?
    ensures ValueLegal(t, size, DecodeValue(t, size, anew, dest, input).value)
  {
    match t
    case Varint =>
      var n := GetVarint64(input).value;
      SignedFits(Signed(n, if size == 8 then TWO_64 else WORD) % TWO_64, Width(size));
    case Svarint =>
      SignedFits(UnZigZag(GetVarint64(input).value) % TWO_64, Width(size));
    case CString =>
      var n := DecodeVarint32(input);
      UpToZeroFits(n.rest[..n.value]);
    case _ =>
  }

  /** Whatever the bytes, a value that is accepted fits. */
  lemma {:induction false} ValueDecoded(t: FieldType, size: nat, anew: bool, dest: Value, input: Bytes)
    requires TypeLegal(t) && (t.Submessage? && !anew ==> ValueLegal(t, size, dest))
    requires DecodeValue(t, size, anew, dest, input).Parsed?
    ensures ValueLegal(t, size, DecodeValue(t, size, anew, dest, input).value)
    decreases t
  {
    if t.Submessage? {
      var d := t.message;
      DefaultsLegal(d);
      MessageDecoded(d, TakeString(input).value, if anew then Defaults(d) else dest.members);
    } else {
      ScalarDecoded(t, size, anew, dest, input);
    }
  }

  lemma {:induction false} PackedDecoded(f: Field, capacity: nat, items: seq<Value>, input: Bytes)
    requires !f.ftype.Submessage? && |items| <= capacity && DecodePacked(f, capacity, items, input).Some?
    requires forall i :: 0 <= i < |items| ==> ValueLegal(f.ftype, f.dataSize, items[i])
    ensures var r := DecodePacked(f, capacity, items, input).value;
      |r| <= capacity && forall i :: 0 <= i < |r| ==> ValueLegal(f.ftype, f.dataSize, r[i])
    decreases |input|
  {
    if input != [] {
      var v := DecodeValue(f.ftype, f.dataSize, true, Zero(f.ftype, f.dataSize), input);
      ScalarDecoded(f.ftype, f.dataSize, true, Zero(f.ftype, f.dataSize), input);
      PackedDecoded(f, capacity, items + [v.value], v.rest);
    }
  }

  lemma {:induction false} MemberDecoded(f: Field, wireType: nat, m: Member, input: Bytes)
    requires TypeLegal(f.ftype) && MemberLegal(f, m) && DecodeMember(f, wireType, m, input).Parsed?
    requires ValueLegal(f.ftype, f.dataSize, DefaultValue(f))
    ensures MemberLegal(f, DecodeMember(f, wireType, m, input).value)
    decreases f
  {
    match f.rule
    case Repeated(capacity, _) =>
      if wireType == 2 && f.ftype.Packable() {
        PackedDecoded(f, capacity, m.items, TakeString(input).value);
      } else {
        ValueDecoded(f.ftype, f.dataSize, true, Zero(f.ftype, f.dataSize), input);
      }
    case Oneof(_) => ValueDecoded(f.ftype, f.dataSize, false, DefaultValue(f), input);
    case _ => ValueDecoded(f.ftype, f.dataSize, false, m.value, input);
  }

  lemma ReplacedLegal(d: Descriptor, members: seq<Member>, i: nat, m: Member)
    requires InitialsLegal(d) && MembersLegal(d, members) && i < |members| && MemberLegal(d.fields[i], m)
    ensures MembersLegal(d, Replaced(d, members, i)[i := m])
  {
    DefaultsLegal(d);
    var r := Replaced(d, members, i)[i := m];
    forall j | 0 <= j < |r| ensures MemberLegal(d.fields[j], r[j]) {
      assert MemberLegal(d.fields[j], members[j]) && MemberLegal(d.fields[j], Defaults(d)[j]);
    }
    assert OneChosen(d, r) by {
      assert MemberLegal(d.fields[i], members[i]);
    }
  }

  lemma BegunLegal(d: Descriptor, i: nat, p: Progress)
    requires MembersLegal(d, p.members) && i < |p.members| && Begun(d, i, p).Some?
    ensures MembersLegal(d, Begun(d, i, p).value.members)
  {
    var r := Begun(d, i, p).value.members;
    forall j | 0 <= j < |r| ensures MemberLegal(d.fields[j], r[j]) {
      assert MemberLegal(d.fields[j], p.members[j]);
    }
  }

  lemma {:induction false} FieldDecoded(d: Descriptor, i: nat, wireType: nat, p: Progress, input: Bytes)
    requires InitialsLegal(d) && MembersLegal(d, p.members) && i < |d.fields|
    requires DecodeFieldAt(d, i, wireType, p, input).Parsed?
    ensures MembersLegal(d, DecodeFieldAt(d, i, wireType, p, input).value.members)
    decreases d, 0
  {
    DefaultsLegal(d);
    BegunLegal(d, i, p);
    var begun := Begun(d, i, p).value.members;
    assert MemberLegal(d.fields[i], begun[i]);
    MemberDecoded(d.fields[i], wireType, begun[i], input);
    ReplacedLegal(d, begun, i, DecodeMember(d.fields[i], wireType, begun[i], input).value);
  }

  lemma {:induction false} LoopDecoded(d: Descriptor, p: Progress, input: Bytes)
    requires InitialsLegal(d) && MembersLegal(d, p.members) && DecodeLoop(d, p, input).Some?
    ensures MembersLegal(d, DecodeLoop(d, p, input).value.members)
    decreases d, 1, |input|
  {
    if input != [] {
      var tag := DecodeVarint32(input);
      if tag.value != 0 {
        var i := FindField(d, tag.value / 8, |d.fields|);
        if i.Some? {
          var next := DecodeFieldAt(d, i.value, tag.value % 8, p, tag.rest);
          FieldDecoded(d, i.value, tag.value % 8, p, tag.rest);
          LoopDecoded(d, next.value, next.rest);
        } else if d.fields == [] && tag.value / 8 == 0 {
          LoopDecoded(d, p, DecodeVarint32(tag.rest).rest);
        } else {
          LoopDecoded(d, p, SkipField(tag.value % 8, tag.rest).rest);
        }
      }
    }
  }

  /** Whatever the bytes, a struct that keeps to its bounds still does when they have been decoded into it. */
  lemma {:induction false} MessageDecoded(d: Descriptor, input: Bytes, members: seq<Member>)
    requires InitialsLegal(d) && MembersLegal(d, members) && DecodeMessage(d, input, members).Some?
    ensures MembersLegal(d, DecodeMessage(d, input, members).value)
    decreases d, 2
  {
    LoopDecoded(d, Progress(members, {}, None), input);
  }

  lemma DecodedIsLegal(d: Descriptor, input: Bytes)
    requires InitialsLegal(d) && Decode(d, input).Some?
    ensures MembersLegal(d, Decode(d, input).value)
  {
    DefaultsLegal(d);
    MessageDecoded(d, input, Defaults(d));
  }

  // ---- What the input does not mention ----

  /** The input has neither field i nor another one of its union. */
  ghost predicate NotMet(d: Descriptor, met: set<nat>, i: nat)
    requires i < |d.fields|
  {
    forall j :: j in met ==> j != i && (j < |d.fields| && d.fields[i].rule.Oneof? ==> d.fields[j].rule != d.fields[i].rule)
  }

  lemma OtherUntouched(d: Descriptor, j: nat, wireType: nat, p: Progress, input: Bytes, i: nat)
    requires i < |d.fields| == |p.members| && j < |d.fields| && i != j
    requires d.fields[i].rule.Oneof? ==> d.fields[j].rule != d.fields[i].rule
    requires DecodeFieldAt(d, j, wireType, p, input).Parsed?
    ensures DecodeFieldAt(d, j, wireType, p, input).value.members[i] == p.members[i]
  {
  }

  /** What the input does not mention stays as the struct had it. */
  lemma {:induction false} Untouched(d: Descriptor, p: Progress, input: Bytes, i: nat)
    requires i < |d.fields| == |p.members| && DecodeLoop(d, p, input).Some? && NotMet(d, Met(d, p, input), i)
    ensures DecodeLoop(d, p, input).value.members[i] == p.members[i]
    decreases |input|
  {
    if input != [] {
      var tag := DecodeVarint32(input);
      if tag.value != 0 {
        var j := FindField(d, tag.value / 8, |d.fields|);
        if j.Some? {
          var next := DecodeFieldAt(d, j.value, tag.value % 8, p, tag.rest);
          OtherUntouched(d, j.value, tag.value % 8, p, tag.rest, i);
          Untouched(d, next.value, next.rest, i);
        } else {
          Untouched(d, p, SkipField(tag.value % 8, tag.rest).rest, i);
        }
      }
    }
  }

  /** A submessage that comes again goes on from what was there: only what it mentions changes. The items of an array
      start from the defaults. */
  lemma SubmessageGoesOn(d: Descriptor, size: nat, anew: bool, members: seq<Member>, input: Bytes, i: nat)
    requires i < |d.fields| == |members| && DecodeValue(Submessage(d), size, anew, Struct(members), input).Parsed?
    requires var start := Progress(if anew then Defaults(d) else members, {}, None);
      NotMet(d, Met(d, start, TakeString(input).value), i)
    ensures var r := DecodeValue(Submessage(d), size, anew, Struct(members), input).value;
      r.Struct? && |r.members| == |d.fields| && r.members[i] == if anew then DefaultMember(d.fields[i]) else members[i]
  {
    Untouched(d, Progress(if anew then Defaults(d) else members, {}, None), TakeString(input).value, i);
  }

  // ---- Arrays of fixed count ----

  ghost predicate IsFixed(d: Descriptor, i: nat) {
    i < |d.fields| && d.fields[i].rule.Repeated? && d.fields[i].rule.fixedCount
  }

  /** All items of the array are there, or they are still being counted. */
  ghost predicate CompleteOrCounting(d: Descriptor, p: Progress, i: nat)
    requires IsFixed(d, i) && |p.members| == |d.fields|
  {
    p.counting == Some(i) || (p.members[i].Items? ==> |p.members[i].items| == d.fields[i].rule.capacity)
  }

  /** What an array of fixed count held before it begins does not matter. */
  lemma FixedStartsAnew(d: Descriptor, i: nat, wireType: nat, p: Progress, items: seq<Value>, input: Bytes)
    requires IsFixed(d, i) && |p.members| == |d.fields| && p.counting != Some(i)
    ensures DecodeFieldAt(d, i, wireType, p.(members := p.members[i := Items(items)]), input) == DecodeFieldAt(d, i, wireType, p, input)
  {
    var q := p.(members := p.members[i := Items(items)]);
    assert CountComplete(d, q) <==> CountComplete(d, p);
    assert q.members[i := Items([])] == p.members[i := Items([])];
  }

  lemma FixedStep(d: Descriptor, j: nat, wireType: nat, p: Progress, input: Bytes, i: nat)
    requires IsFixed(d, i) && j < |d.fields| == |p.members| && DecodeFieldAt(d, j, wireType, p, input).Parsed?
    ensures var next := DecodeFieldAt(d, j, wireType, p, input).value;
      j == i || CompleteOrCounting(d, p, i) ==> CompleteOrCounting(d, next, i)
  {
  }

  lemma {:induction false} FixedLoop(d: Descriptor, p: Progress, input: Bytes, i: nat)
    requires IsFixed(d, i) && |d.fields| == |p.members| && DecodeLoop(d, p, input).Some?
    requires i in Met(d, p, input) || CompleteOrCounting(d, p, i)
    ensures CompleteOrCounting(d, DecodeLoop(d, p, input).value, i)
    decreases |input|
  {
    if input != [] {
      var tag := DecodeVarint32(input);
      if tag.value != 0 {
        var j := FindField(d, tag.value / 8, |d.fields|);
        if j.Some? {
          var next := DecodeFieldAt(d, j.value, tag.value % 8, p, tag.rest);
          FixedStep(d, j.value, tag.value % 8, p, tag.rest, i);
          FixedLoop(d, next.value, next.rest, i);
        } else {
          FixedLoop(d, p, SkipField(tag.value % 8, tag.rest).rest, i);
        }
      }
    }
  }

  /** An array of fixed count that an accepted message mentions has all its items. */
  lemma FixedIsComplete(d: Descriptor, input: Bytes, members: seq<Member>, i: nat)
    requires |members| == |d.fields| && IsFixed(d, i) && DecodeMessage(d, input, members).Some?
    requires i in Met(d, Progress(members, {}, None), input)
    ensures var m := DecodeMessage(d, input, members).value[i]; m.Items? ==> |m.items| == d.fields[i].rule.capacity
  {
    FixedLoop(d, Progress(members, {}, None), input, i);
  }
}
