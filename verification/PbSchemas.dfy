/** nanopb's message descriptors and the structs that they describe (nanopb/pb.h), restricted to static fields:
    pointers, callbacks and extensions are not part of this model. */
module PbSchemas {
  import opened DbFormat
  import opened Coding

  /** The scalar type of a field (PB_LTYPE). */
  datatype FieldType =
    | Bool | Varint | Uvarint | Svarint | Fixed32 | Fixed64
    | BytesArray | CString | Submessage(message: Descriptor) | FixedBytes
  {
    /** Up to PB_LTYPE_LAST_PACKABLE. */
    predicate Packable() {
      Bool? || Varint? || Uvarint? || Svarint? || Fixed32? || Fixed64?
    }
  }

  /** How often a field occurs (PB_HTYPE). A singular field is optional without a has_ flag, as in proto3; a repeated
      field of fixed count has no counter; the fields of one oneof share a union. */
  datatype Rule = Required | Optional | Singular | Repeated(capacity: nat, fixedCount: bool) | Oneof(group: nat)

  /** The size is that of one item in the struct; the initial value is the default that decoding starts from. */
  datatype Field = Field(tag: nat, ftype: FieldType, rule: Rule, dataSize: nat, initial: Value)

  datatype Descriptor = Descriptor(fields: seq<Field>)

  datatype Value = Truth(b: bool) | Number(n: int) | Raw(bytes: Bytes) | Struct(members: seq<Member>)

  /** What the struct holds for a field: a value, a value with a has_ flag, counted items, or its share of a union. */
  datatype Member = Always(value: Value) | Maybe(has: bool, value: Value) | Items(items: seq<Value>) | Choice(chosen: bool, value: Value)

  /** The counter in front of a bytes array (pb_size_t, with PB_FIELD_32BIT). */
  const BYTES_HEADER: nat := 4

  predicate IntSize(size: nat) {
    size == 1 || size == 2 || size == 4 || size == 8
  }

  function Width(size: nat): (w: nat)
    requires IntSize(size)
  {
    if size == 1 then 0x100 else if size == 2 then 0x1_0000 else if size == 4 then WORD else TWO_64
  }

  // ---- What a struct may hold ----

  /** A value that a C variable of the field's type can have. */
  ghost predicate ValueOk(t: FieldType, size: nat, v: Value)
    decreases t
  {
    match t
    case Bool => v.Truth?
    case Varint => v.Number? && IntSize(size) && 0 <= 2 * v.n + Width(size) < 2 * Width(size)
    case Svarint => v.Number? && IntSize(size) && 0 <= 2 * v.n + Width(size) < 2 * Width(size)
    case Uvarint => v.Number? && IntSize(size) && 0 <= v.n < Width(size)
    case Fixed32 => v.Number? && 0 <= v.n < WORD
    case Fixed64 => v.Number? && 0 <= v.n < TWO_64
    case BytesArray => v.Raw? && |v.bytes| < WORD
    case CString => v.Raw? && |v.bytes| <= size && forall i :: 0 <= i < |v.bytes| ==> v.bytes[i] != 0
    case FixedBytes => v.Raw? && |v.bytes| == size
    case Submessage(d) => v.Struct? && MembersOk(d, v.members)
  }

  ghost predicate MemberOk(f: Field, m: Member)
    decreases f
  {
    match f.rule
    case Required => m.Always? && ValueOk(f.ftype, f.dataSize, m.value)
    case Singular => m.Always? && ValueOk(f.ftype, f.dataSize, m.value)
    case Optional => m.Maybe? && (m.has ==> ValueOk(f.ftype, f.dataSize, m.value))
    case Oneof(_) => m.Choice? && (m.chosen ==> ValueOk(f.ftype, f.dataSize, m.value))
    case Repeated(capacity, fixedCount) =>
      && m.Items? && (forall i :: 0 <= i < |m.items| ==> ValueOk(f.ftype, f.dataSize, m.items[i]))
      && (fixedCount ==> |m.items| == capacity)
  }

  predicate IsChosen(m: Member) {
    m.Choice? && m.chosen
  }

  /** A union holds at most one of its fields. */
  ghost predicate OneChosen(d: Descriptor, members: seq<Member>)
    requires |members| == |d.fields|
  {
    forall i, j :: 0 <= i < j < |members| && d.fields[i].rule.Oneof? && d.fields[j].rule == d.fields[i].rule ==>
      !(IsChosen(members[i]) && IsChosen(members[j]))
  }

  ghost predicate MembersOk(d: Descriptor, members: seq<Member>)
    decreases d
  {
    && |members| == |d.fields| && OneChosen(d, members)
    && forall i :: 0 <= i < |members| ==> MemberOk(d.fields[i], members[i])
  }

  // ---- Well-formed descriptors ----

  ghost predicate FieldWellFormed(f: Field)
    decreases f
  {
    && 1 <= f.tag < 0x2000_0000
    && (f.ftype.Submessage? ==> WellFormed(f.ftype.message))
    && ((f.ftype.Varint? || f.ftype.Uvarint? || f.ftype.Svarint?) ==> IntSize(f.dataSize))
    && (f.rule.Singular? && !f.ftype.Submessage? ==> f.initial == Zero(f.ftype, f.dataSize))
  }

  /** Tags are distinct and in range, and proto3 fields have no defaults of their own. */
  ghost predicate WellFormed(d: Descriptor)
    decreases d
  {
    && (forall i, j :: 0 <= i < j < |d.fields| ==> d.fields[i].tag != d.fields[j].tag)
    && forall i :: 0 <= i < |d.fields| ==> FieldWellFormed(d.fields[i])
  }

  // ---- Defaults ----

  /** All bytes zero. */
  function Zero(t: FieldType, size: nat): Value {
    match t
    case Bool => Truth(false)
    case BytesArray => Raw([])
    case CString => Raw([])
    case FixedBytes => Raw(seq(size, _ => 0))
    case _ => Number(0)
  }

  /** The value that pb_field_set_to_default leaves: the field's default, or for a submessage its own defaults. */
  function DefaultValue(f: Field): Value
    decreases f, 0
  {
    if f.ftype.Submessage? then Struct(Defaults(f.ftype.message)) else f.initial
  }

  function DefaultMember(f: Field): Member
    decreases f, 1
  {
    match f.rule
    case Required => Always(DefaultValue(f))
    case Singular => Always(DefaultValue(f))
    case Optional => Maybe(false, DefaultValue(f))
    case Repeated(_, _) => Items([])
    case Oneof(_) => Choice(false, DefaultValue(f))
  }

  /** pb_message_set_to_defaults. */
  function Defaults(d: Descriptor): (members: seq<Member>)
    ensures |members| == |d.fields|
    ensures forall i :: 0 <= i < |members| ==> members[i] == DefaultMember(d.fields[i])
    decreases d
  {
    seq(|d.fields|, i requires 0 <= i < |d.fields| => DefaultMember(d.fields[i]))
  }

  // ---- What a message means ----

  /** The message without what its flags declare absent. */
  ghost function Meaning(t: FieldType, v: Value): Value
    decreases t
  {
    if t.Submessage? && v.Struct? && |v.members| == |t.message.fields| then
      Struct(seq(|v.members|, i requires 0 <= i < |v.members| => MemberMeaning(t.message.fields[i], v.members[i])))
    else v
  }

  ghost function MemberMeaning(f: Field, m: Member): Member
    decreases f
  {
    match m
    case Always(v) => Always(Meaning(f.ftype, v))
    case Maybe(has, v) => Maybe(has, if has then Meaning(f.ftype, v) else DefaultValue(f))
    case Items(items) => Items(seq(|items|, i requires 0 <= i < |items| => Meaning(f.ftype, items[i])))
    case Choice(chosen, v) => Choice(chosen, if chosen then Meaning(f.ftype, v) else DefaultValue(f))
  }
}
