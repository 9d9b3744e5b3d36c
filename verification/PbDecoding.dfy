/** The nanopb decoder (nanopb/pb_decode.c) and its field iterator (nanopb/pb_common.c). */
module PbDecoding {
  import opened DbFormat
  import opened Coding
  import opened PbSchemas

  // ---- Numbers ----

  /** n moved up by k groups of seven bits. */
  function Shift(n: nat, k: nat): nat {
    if k == 0 then n else 128 * Shift(n, k - 1)
  }

  /** pb_decode_varint32 after k bytes: bytes past the 32 bits must be zero or repeat the sign. */
  function MoreVarint32(input: Bytes, k: nat, result: nat): (r: Parsed<nat>)
    ensures r.Parsed? ==> |r.rest| < |input|
  {
    if input == [] then Failed
    else
      var byte: nat := input[0];
      if k >= 5 && byte % 128 != 0 && (result < 0x8000_0000 || byte != if k < 9 then 0xFF else 0x01) then Failed
      else
        var more := if k >= 5 then result else result + Shift(byte % 128, k) % WORD;
        if byte >= 128 then MoreVarint32(input[1..], k + 1, more)
        else if k == 4 && byte / 16 % 8 != 0 then Failed
        else Parsed(more, input[1..])
  }

  function DecodeVarint32(input: Bytes): (r: Parsed<nat>)
    ensures r.Parsed? ==> |r.rest| < |input|
  {
    if input == [] then Failed
    else if input[0] < 128 then Parsed(input[0], input[1..])
    else MoreVarint32(input[1..], 1, input[0] - 128)
  }

  function Signed(n: nat, width: nat): int
    requires width > 0
  {
    var low := n % width;
    if 2 * low < width then low else low - width
  }

  function UnZigZag(n: nat): int {
    if n % 2 == 1 then -(n / 2) - 1 else n / 2
  }

  function Take(input: Bytes, n: nat): (r: Parsed<Bytes>)
    ensures r.Parsed? ==> |r.rest| + n == |input|
  {
    if |input| < n then Failed else Parsed(input[..n], input[n..])
  }

  /** A length and as many bytes (pb_make_string_substream). */
  function TakeString(input: Bytes): (r: Parsed<Bytes>)
    ensures r.Parsed? ==> |r.rest| < |input|
  {
    var size := DecodeVarint32(input);
    if size.Failed? then Failed else Take(size.rest, size.value)
  }

  function SkipVarint(input: Bytes): (r: Parsed<()>)
    ensures r.Parsed? ==> |r.rest| < |input|
  {
    if input == [] then Failed else if input[0] >= 128 then SkipVarint(input[1..]) else Parsed((), input[1..])
  }

  /** pb_skip_field. */
  function SkipField(wireType: nat, input: Bytes): (r: Parsed<()>)
    ensures r.Parsed? ==> |r.rest| <= |input|
  {
    if wireType == 0 then SkipVarint(input)
    else if wireType == 2 then
      var s := TakeString(input);
      if s.Failed? then Failed else Parsed((), s.rest)
    else if wireType == 1 || wireType == 5 then
      var s := Take(input, if wireType == 1 then 8 else 4);
      if s.Failed? then Failed else Parsed((), s.rest)
    else Failed
  }

  /** A C string ends at its first zero. */
  function UpToZero(s: Bytes): (r: Bytes)
    ensures (forall i :: 0 <= i < |s| ==> s[i] != 0) ==> r == s
  {
    if s == [] || s[0] == 0 then [] else [s[0]] + UpToZero(s[1..])
  }

  function Checked(n: int, clamped: int, rest: Bytes): Parsed<Value> {
    if n == clamped then Parsed(Number(n), rest) else Failed
  }

  // ---- Values, members, messages ----

  /** How far the decoding of a message has come: the struct, which required fields were seen (of the first 64), and
      the last array of fixed count. */
  datatype Progress = Progress(members: seq<Member>, seen: set<nat>, counting: Option<nat>)

  const MAX_REQUIRED_FIELDS: nat := 64

  function RequiredBefore(d: Descriptor, n: nat): (r: nat)
    requires n <= |d.fields|
  {
    if n == 0 then 0 else RequiredBefore(d, n - 1) + if d.fields[n - 1].rule.Required? then 1 else 0
  }

  /** pb_field_iter_find, when tags are distinct: the field with the tag. */
  function FindField(d: Descriptor, tag: nat, n: nat): (r: Option<nat>)
    requires n <= |d.fields|
    ensures r.Some? ==> r.value < n && d.fields[r.value].tag == tag
    ensures r.None? ==> forall i :: 0 <= i < n ==> d.fields[i].tag != tag
  {
    if n == 0 then None else if d.fields[n - 1].tag == tag then Some(n - 1) else FindField(d, tag, n - 1)
  }

  /** The decoder functions of PB_DECODERS. A submessage is decoded into what the struct already holds, except that
      the items of an array start from the defaults. */
  function DecodeValue(t: FieldType, size: nat, anew: bool, dest: Value, input: Bytes): (r: Parsed<Value>)
    ensures r.Parsed? ==> |r.rest| < |input|
    decreases t
  {
    match t
    case Bool =>
      var n := DecodeVarint32(input);
      if n.Failed? then Failed else Parsed(Truth(n.value != 0), n.rest)
    case Varint =>
      var n := GetVarint64(input);
      if n.Failed? || !IntSize(size) then Failed
      else
        var signed := Signed(n.value, if size == 8 then TWO_64 else WORD);
        Checked(signed, Signed(signed % TWO_64, Width(size)), n.rest)
    case Uvarint =>
      var n := GetVarint64(input);
      if n.Failed? || !IntSize(size) then Failed else Checked(n.value, n.value % Width(size), n.rest)
    case Svarint =>
      var n := GetVarint64(input);
      if n.Failed? || !IntSize(size) then Failed
      else Checked(UnZigZag(n.value), Signed(UnZigZag(n.value) % TWO_64, Width(size)), n.rest)
    case Fixed32 =>
      var b := Take(input, 4);
      if b.Failed? then Failed else Parsed(Number(DecodeFixed32(b.value)), b.rest)
    case Fixed64 =>
      var b := Take(input, 8);
      if b.Failed? then Failed else Parsed(Number(DecodeFixed64(b.value)), b.rest)
    case BytesArray =>
      var n := DecodeVarint32(input);
      if n.Failed? || n.value + BYTES_HEADER > size || |n.rest| < n.value then Failed
      else Parsed(Raw(n.rest[..n.value]), n.rest[n.value..])
    case CString =>
      var n := DecodeVarint32(input);
      if n.Failed? || n.value + 1 > size || |n.rest| < n.value then Failed
      else Parsed(Raw(UpToZero(n.rest[..n.value])), n.rest[n.value..])
    case FixedBytes =>
      var n := DecodeVarint32(input);
      if n.Failed? then Failed
      else if n.value == 0 then Parsed(Zero(FixedBytes, size), n.rest)
      else if n.value != size || |n.rest| < n.value then Failed
      else Parsed(Raw(n.rest[..n.value]), n.rest[n.value..])
    case Submessage(d) =>
      var s := TakeString(input);
      if s.Failed? || !(anew || (dest.Struct? && |dest.members| == |d.fields|)) then Failed
      else
        var members := DecodeMessage(d, s.value, if anew then Defaults(d) else dest.members);
        if members.None? then Failed else Parsed(Struct(members.value), s.rest)
  }

  /** The items of a packed array. */
  function DecodePacked(f: Field, capacity: nat, items: seq<Value>, input: Bytes): (r: Option<seq<Value>>)
    decreases f, 0, |input|
  {
    if input == [] then Some(items)
    else if |items| >= capacity then None
    else
      var v := DecodeValue(f.ftype, f.dataSize, true, Zero(f.ftype, f.dataSize), input);
      if v.Failed? then None else DecodePacked(f, capacity, items + [v.value], v.rest)
  }

  /** decode_static_field, for the struct's share of the field. */
  function DecodeMember(f: Field, wireType: nat, m: Member, input: Bytes): (r: Parsed<Member>)
    ensures r.Parsed? ==> |r.rest| < |input|
    decreases f, 1, 0
  {
    match f.rule
    case Repeated(capacity, _) =>
      if !m.Items? then Failed
      else if wireType == 2 && f.ftype.Packable() then
        var s := TakeString(input);
        if s.Failed? then Failed
        else
          var items := DecodePacked(f, capacity, m.items, s.value);
          if items.None? then Failed else Parsed(Items(items.value), s.rest)
      else if |m.items| >= capacity then Failed
      else
        var v := DecodeValue(f.ftype, f.dataSize, true, Zero(f.ftype, f.dataSize), input);
        if v.Failed? then Failed else Parsed(Items(m.items + [v.value]), v.rest)
    case Oneof(_) =>
      var v := DecodeValue(f.ftype, f.dataSize, false, DefaultValue(f), input);
      if v.Failed? then Failed else Parsed(Choice(true, v.value), v.rest)
    case Optional =>
      if !m.Maybe? then Failed
      else
        var v := DecodeValue(f.ftype, f.dataSize, false, m.value, input);
        if v.Failed? then Failed else Parsed(Maybe(true, v.value), v.rest)
    case _ =>
      if !m.Always? then Failed
      else
        var v := DecodeValue(f.ftype, f.dataSize, false, m.value, input);
        if v.Failed? then Failed else Parsed(Always(v.value), v.rest)
  }

  /** An array of fixed count that was begun has all its items. */
  predicate CountComplete(d: Descriptor, p: Progress)
    requires |p.members| == |d.fields|
  {
    p.counting.Some? && p.counting.value < |d.fields| ==>
      var f, m := d.fields[p.counting.value], p.members[p.counting.value];
      f.rule.Repeated? && m.Items? ==> |m.items| == f.rule.capacity
  }

  /** Which union members give way to a new one. */
  function Replaced(d: Descriptor, members: seq<Member>, i: nat): (r: seq<Member>)
    requires i < |members| == |d.fields|
    ensures |r| == |members|
    ensures forall j :: 0 <= j < |r| ==>
      r[j] == if j != i && d.fields[i].rule.Oneof? && d.fields[j].rule == d.fields[i].rule then DefaultMember(d.fields[j])
              else members[j]
  {
    seq(|members|, j requires 0 <= j < |members| =>
      if j != i && d.fields[i].rule.Oneof? && d.fields[j].rule == d.fields[i].rule then DefaultMember(d.fields[j])
      else members[j])
  }

  /** What pb_decode_noinit notes before it decodes field i: an array of fixed count starts anew unless it goes on. */
  function Begun(d: Descriptor, i: nat, p: Progress): (r: Option<Progress>)
    requires i < |d.fields| == |p.members|
    ensures r.Some? ==> |r.value.members| == |p.members|
  {
    var f := d.fields[i];
    if f.rule.Repeated? && f.rule.fixedCount && p.counting != Some(i) then
      if CountComplete(d, p) then Some(Progress(p.members[i := Items([])], p.seen, Some(i))) else None
    else if f.rule.Required? && RequiredBefore(d, i) < MAX_REQUIRED_FIELDS then
      Some(p.(seen := p.seen + {RequiredBefore(d, i)}))
    else Some(p)
  }

  /** One field of the input, after its tag. */
  function DecodeFieldAt(d: Descriptor, i: nat, wireType: nat, p: Progress, input: Bytes): (r: Parsed<Progress>)
    requires i < |d.fields| == |p.members|
    ensures r.Parsed? ==> |r.rest| < |input| && |r.value.members| == |p.members|
    decreases d, 0
  {
    var begun := Begun(d, i, p);
    if begun.None? then Failed
    else
      var m := DecodeMember(d.fields[i], wireType, begun.value.members[i], input);
      if m.Failed? then Failed
      else Parsed(begun.value.(members := Replaced(d, begun.value.members, i)[i := m.value]), m.rest)
  }

  /** The loop of pb_decode_noinit. The terminator of an empty descriptor has tag 0 and the type of a required bool. */
  function DecodeLoop(d: Descriptor, p: Progress, input: Bytes): (r: Option<Progress>)
    requires |d.fields| == |p.members|
    ensures r.Some? ==> |r.value.members| == |p.members|
    decreases d, 1, |input|
  {
    if input == [] then Some(p)
    else
      var tag := DecodeVarint32(input);
      if tag.Failed? then None
      else if tag.value == 0 then Some(p)
      else
        var i := FindField(d, tag.value / 8, |d.fields|);
        if i.Some? then
          var next := DecodeFieldAt(d, i.value, tag.value % 8, p, tag.rest);
          if next.Failed? then None else DecodeLoop(d, next.value, next.rest)
        else if d.fields == [] && tag.value / 8 == 0 then
          var ignored := DecodeVarint32(tag.rest);
          if ignored.Failed? then None else DecodeLoop(d, p, ignored.rest)
        else
          var skipped := SkipField(tag.value % 8, tag.rest);
          if skipped.Failed? then None else DecodeLoop(d, p, skipped.rest)
  }

  /** All required fields were seen, up to the number that the decoder keeps track of. */
  predicate RequiredSeen(d: Descriptor, seen: set<nat>) {
    forall r :: 0 <= r < RequiredBefore(d, |d.fields|) && r < MAX_REQUIRED_FIELDS ==> r in seen
  }

  /** pb_decode_noinit. */
  function DecodeMessage(d: Descriptor, input: Bytes, members: seq<Member>): (r: Option<seq<Member>>)
    requires |members| == |d.fields|
    ensures r.Some? ==> |r.value| == |d.fields|
    decreases d, 2
  {
    var p := DecodeLoop(d, Progress(members, {}, None), input);
    if p.Some? && CountComplete(d, p.value) && RequiredSeen(d, p.value.seen) then Some(p.value.members) else None
  }

  /** pb_decode. */
  function Decode(d: Descriptor, input: Bytes): Option<seq<Member>> {
    DecodeMessage(d, input, Defaults(d))
  }
}
