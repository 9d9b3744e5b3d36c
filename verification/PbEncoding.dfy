/** The nanopb encoder (nanopb/pb_encode.c). */
module PbEncoding {
  import opened DbFormat
  import opened Coding
  import opened PbSchemas

  // ---- What is written ----

  function Then(a: Option<Bytes>, b: Option<Bytes>): (r: Option<Bytes>) {
    if a.Some? && b.Some? then Some(a.value + b.value) else None
  }

  /** pb_encode_svarint: small magnitudes to small numbers. */
  function ZigZag(n: int): nat {
    if n < 0 then -2 * n - 1 else 2 * n
  }

  function WireType(t: FieldType): nat {
    match t
    case Bool => 0
    case Varint => 0
    case Uvarint => 0
    case Svarint => 0
    case Fixed32 => 5
    case Fixed64 => 1
    case _ => 2
  }

  function Tag(f: Field, wireType: nat): Bytes {
    EncodeVarint(8 * f.tag + wireType)
  }

  /** The encoder functions of PB_ENCODERS; None is an error. */
  function EncodeValue(t: FieldType, size: nat, v: Value): (r: Option<Bytes>)
    decreases t
  {
    match t
    case Bool => if v.Truth? then Some(EncodeVarint(if v.b then 1 else 0)) else None
    case Varint => if v.Number? && IntSize(size) then Some(EncodeVarint(v.n % TWO_64)) else None
    case Uvarint => if v.Number? && IntSize(size) then Some(EncodeVarint(v.n % TWO_64)) else None
    case Svarint => if v.Number? && IntSize(size) then Some(EncodeVarint(ZigZag(v.n) % TWO_64)) else None
    case Fixed32 => if v.Number? then Some(EncodeFixed32(v.n % WORD)) else None
    case Fixed64 => if v.Number? then Some(EncodeFixed64(v.n % TWO_64)) else None
    case BytesArray => if v.Raw? && |v.bytes| + BYTES_HEADER <= size then Some(EncodeSlice(v.bytes)) else None
    case CString => if v.Raw? then Some(EncodeSlice(v.bytes)) else None
    case FixedBytes => if v.Raw? then Some(EncodeSlice(v.bytes)) else None
    case Submessage(d) =>
      if v.Struct? && |v.members| == |d.fields| then
        var w := EncodeUpTo(d, v.members, |v.members|);
        if w.Some? then Some(EncodeSlice(w.value)) else None
      else None
  }

  function EncodeTagged(f: Field, v: Value): Option<Bytes>
    decreases f, 0, 0
  {
    Then(Some(Tag(f, WireType(f.ftype))), EncodeValue(f.ftype, f.dataSize, v))
  }

  /** The first n items, one after the other. */
  function EncodePacked(f: Field, items: seq<Value>, n: nat): Option<Bytes>
    requires n <= |items|
    decreases f, 0, n
  {
    if n == 0 then Some([]) else Then(EncodePacked(f, items, n - 1), EncodeValue(f.ftype, f.dataSize, items[n - 1]))
  }

  /** The first n items, each with its tag. */
  function EncodeItems(f: Field, items: seq<Value>, n: nat): Option<Bytes>
    requires n <= |items|
    decreases f, 1, n
  {
    if n == 0 then Some([]) else Then(EncodeItems(f, items, n - 1), EncodeTagged(f, items[n - 1]))
  }

  /** encode_array: arrays are packed if the type allows it. */
  function EncodeArray(f: Field, capacity: nat, items: seq<Value>): Option<Bytes>
    decreases f, 2, 0
  {
    if items == [] then Some([])
    else if |items| > capacity then None
    else if f.ftype.Packable() then
      var w := EncodePacked(f, items, |items|);
      if w.Some? then Some(Tag(f, 2) + EncodeSlice(w.value)) else None
    else EncodeItems(f, items, |items|)
  }

  /** pb_check_proto3_default_value. A union is checked once for each of its fields. */
  function IsDefault(f: Field, m: Member): bool
    decreases f, 0
  {
    match f.rule
    case Required => false
    case Repeated(_, fixedCount) => !fixedCount && m.Items? && m.items == []
    case Oneof(_) => !IsChosen(m)
    case Optional => m.Maybe? && !m.has
    case Singular => m.Always? && IsDefaultValue(f.ftype, f.dataSize, m.value)
  }

  function IsDefaultValue(t: FieldType, size: nat, v: Value): bool
    decreases t, 1
  {
    match t
    case BytesArray => v.Raw? && v.bytes == []
    case CString => v.Raw? && v.bytes == []
    case FixedBytes => size == 0
    case Submessage(d) => v.Struct? && |v.members| == |d.fields| && AllDefault(d, v.members, |v.members|)
    case Bool => v.Truth? && !v.b
    case _ => v.Number? && v.n == 0
  }

  predicate AllDefault(d: Descriptor, members: seq<Member>, n: nat)
    requires n <= |members| == |d.fields|
    decreases d, n
  {
    n == 0 || (AllDefault(d, members, n - 1) && IsDefault(d.fields[n - 1], members[n - 1]))
  }

  /** encode_basic_field. */
  function EncodeField(f: Field, m: Member): Option<Bytes>
    decreases f, 3, 0
  {
    match f.rule
    case Required => if m.Always? then EncodeTagged(f, m.value) else None
    case Singular =>
      if m.Always? then (if IsDefault(f, m) then Some([]) else EncodeTagged(f, m.value)) else None
    case Optional => if m.Maybe? then (if m.has then EncodeTagged(f, m.value) else Some([])) else None
    case Oneof(_) => if m.Choice? then (if m.chosen then EncodeTagged(f, m.value) else Some([])) else None
    case Repeated(capacity, _) => if m.Items? then EncodeArray(f, capacity, m.items) else None
  }

  /** The first n fields. */
  function EncodeUpTo(d: Descriptor, members: seq<Member>, n: nat): Option<Bytes>
    requires n <= |members| == |d.fields|
    decreases d, n
  {
    if n == 0 then Some([]) else Then(EncodeUpTo(d, members, n - 1), EncodeField(d.fields[n - 1], members[n - 1]))
  }

  /** pb_encode. */
  function Encode(d: Descriptor, members: seq<Member>): Option<Bytes>
    requires |members| == |d.fields|
  {
    EncodeUpTo(d, members, |members|)
  }

  /** pb_check_proto3_default_value, whose loop over a submessage stops at the first field that is set. */
  method CheckDefault(f: Field, m: Member) returns (absent: bool)
    requires MemberOk(f, m)
    ensures absent == IsDefault(f, m)
    decreases f
  {
    if !f.rule.Singular? || !f.ftype.Submessage? {
      return IsDefault(f, m);
    }
    assert ValueOk(f.ftype, f.dataSize, m.value);
    var d, members := f.ftype.message, m.value.members;
    for i := 0 to |members|
      invariant AllDefault(d, members, i)
    {
      var zero := CheckDefault(d.fields[i], members[i]);
      if !zero {
        DefaultPrefix(d, members, i + 1, |members|);
        return false;
      }
    }
    return true;
  }

  lemma {:induction false} DefaultPrefix(d: Descriptor, members: seq<Member>, n: nat, m: nat)
    requires n <= m <= |members| == |d.fields|
    ensures AllDefault(d, members, m) ==> AllDefault(d, members, n)
    decreases m
  {
    if n < m {
      DefaultPrefix(d, members, n, m - 1);
    }
  }

  /** The size of a packed array of fixed-size items needs no pass over them. */
  lemma {:induction false} PackedSize(f: Field, items: seq<Value>, n: nat)
    requires f.ftype.Packable() && n <= |items|
    requires forall i :: 0 <= i < |items| ==> ValueOk(f.ftype, f.dataSize, items[i])
    ensures EncodePacked(f, items, n).Some?
    ensures f.ftype.Fixed32? ==> |EncodePacked(f, items, n).value| == 4 * n
    ensures f.ftype.Fixed64? ==> |EncodePacked(f, items, n).value| == 8 * n
    decreases n
  {
    if n > 0 {
      PackedSize(f, items, n - 1);
      assert ValueOk(f.ftype, f.dataSize, items[n - 1]);
    }
  }

  // ---- The output stream ----

  /** A buffer stream, or with no callback a stream that only counts. */
  class OStream {
    const writes: bool
    const maxSize: nat
    var out: Bytes
    var bytesWritten: nat

    predicate Valid()
      reads this
    {
      writes ==> bytesWritten <= maxSize
    }

    /** The stream takes n more bytes. */
    predicate Fits(n: nat)
      reads this
    {
      writes ==> bytesWritten + n <= maxSize
    }

    constructor (writes: bool, maxSize: nat, out: Bytes)
      ensures Valid() && this.writes == writes && this.maxSize == maxSize && this.out == out && bytesWritten == 0
    {
      this.writes, this.maxSize, this.out, bytesWritten := writes, maxSize, out, 0;
    }

    /** The effect of writing w: a counting stream counts what a writing stream writes. */
    twostate predicate Wrote(new w: Bytes)
      reads this
    {
      && bytesWritten == old(bytesWritten) + |w| && out == old(out) + if writes then w else []
    }

    /** What a call promises that is to write w, or to fail if there is an error or no room. */
    twostate predicate Did(ok: bool, new w: Option<Bytes>)
      reads this
    {
      && Valid() && (ok <==> w.Some? && old(Fits(|w.value|)))
      && (ok ==> Wrote(w.value))
    }

    /** pb_write. */
    method Write(bytes: Bytes) returns (ok: bool)
      requires Valid()
      modifies this
      ensures Did(ok, Some(bytes))
    {
      if |bytes| > 0 && writes {
        if bytesWritten + |bytes| > maxSize {
          return false;
        }
        out := out + bytes;
      }
      bytesWritten := bytesWritten + |bytes|;
      return true;
    }

    /** pb_write without a buffer, on a stream that only counts. */
    method Count(n: nat)
      requires !writes
      modifies this
      ensures Valid() && bytesWritten == old(bytesWritten) + n && out == old(out)
    {
      bytesWritten := bytesWritten + n;
    }

    /** pb_encode_varint. */
    method WriteVarint(value: nat) returns (ok: bool)
      requires Valid()
      modifies this
      ensures Did(ok, Some(EncodeVarint(value)))
    {
      if value <= 0x7F {
        ok := Write([value]);
        return;
      }
      var buffer: Bytes := [];
      var rest: nat := value;
      while rest > 0
        invariant rest > 0 ==> buffer + EncodeVarint(rest) == EncodeVarint(value)
        invariant rest == 0 ==> buffer != [] && buffer[|buffer| - 1] >= 128
        invariant rest == 0 ==> buffer[..|buffer| - 1] + [buffer[|buffer| - 1] - 128] == EncodeVarint(value)
        modifies {}
      {
        buffer := buffer + [rest % 128 + 128];
        rest := rest / 128;
      }
      var last := |buffer| - 1;
      ok := Write(buffer[last := buffer[last] - 128]);
    }

    /** pb_encode_string. */
    method WriteString(bytes: Bytes) returns (ok: bool)
      requires Valid()
      modifies this
      ensures Did(ok, Some(EncodeSlice(bytes)))
    {
      ok := WriteVarint(|bytes|);
      if ok {
        ok := Write(bytes);
      }
    }

    method WriteTag(f: Field, wireType: nat) returns (ok: bool)
      requires Valid()
      modifies this
      ensures Did(ok, Some(Tag(f, wireType)))
    {
      ok := WriteVarint(8 * f.tag + wireType);
    }

    /** The encoder functions. */
    method WriteValue(t: FieldType, size: nat, v: Value) returns (ok: bool)
      requires Valid() && ValueOk(t, size, v)
      modifies this
      ensures Did(ok, EncodeValue(t, size, v))
      decreases t
    {
      match t
      case Bool => ok := WriteVarint(if v.b then 1 else 0);
      case Varint => ok := WriteVarint(v.n % TWO_64);
      case Uvarint => ok := WriteVarint(v.n % TWO_64);
      case Svarint => ok := WriteVarint(ZigZag(v.n) % TWO_64);
      case Fixed32 => ok := Write(EncodeFixed32(v.n % WORD));
      case Fixed64 => ok := Write(EncodeFixed64(v.n % TWO_64));
      case BytesArray =>
        if |v.bytes| + BYTES_HEADER > size {
          return false;
        }
        ok := WriteString(v.bytes);
      case CString => ok := WriteString(v.bytes);
      case FixedBytes => ok := WriteString(v.bytes);
      case Submessage(d) => ok := WriteSubmessage(d, v.members);
    }

    method WriteTagged(f: Field, v: Value) returns (ok: bool)
      requires Valid() && ValueOk(f.ftype, f.dataSize, v)
      modifies this
      ensures Did(ok, EncodeTagged(f, v))
      decreases f, 0
    {
      ok := WriteTag(f, WireType(f.ftype));
      if ok {
        ok := WriteValue(f.ftype, f.dataSize, v);
      }
    }

    method WritePacked(f: Field, items: seq<Value>) returns (ok: bool)
      requires Valid() && forall i :: 0 <= i < |items| ==> ValueOk(f.ftype, f.dataSize, items[i])
      modifies this
      ensures Did(ok, EncodePacked(f, items, |items|))
      decreases f, 1
    {
      for i := 0 to |items|
        invariant Did(true, EncodePacked(f, items, i))
      {
        ok := WriteValue(f.ftype, f.dataSize, items[i]);
        if !ok {
          PackedPrefix(f, items, i + 1, |items|);
          return false;
        }
      }
      return true;
    }

    /** encode_array. */
    method WriteArray(f: Field, capacity: nat, items: seq<Value>) returns (ok: bool)
      requires Valid() && forall i :: 0 <= i < |items| ==> ValueOk(f.ftype, f.dataSize, items[i])
      modifies this
      ensures Did(ok, EncodeArray(f, capacity, items))
      decreases f, 5
    {
      if |items| == 0 {
        return true;
      }
      if |items| > capacity {
        return false;
      }
      if f.ftype.Packable() {
        ok := WritePackedArray(f, items);
      } else {
        for i := 0 to |items|
          invariant Did(true, EncodeItems(f, items, i))
        {
          ok := WriteTagged(f, items[i]);
          if !ok {
            ItemsPrefix(f, items, i + 1, |items|);
            return;
          }
        }
        return true;
      }
    }

    /** The total size of a packed array. */
    method PackedLength(f: Field, items: seq<Value>) returns (size: nat)
      requires f.ftype.Packable() && forall i :: 0 <= i < |items| ==> ValueOk(f.ftype, f.dataSize, items[i])
      ensures EncodePacked(f, items, |items|).Some? && size == |EncodePacked(f, items, |items|).value|
      decreases f, 2
    {
      PackedSize(f, items, |items|);
      if f.ftype.Fixed32? {
        return 4 * |items|;
      } else if f.ftype.Fixed64? {
        return 8 * |items|;
      } else {
        var sizing := new OStream(false, 0, []);
        var _ := sizing.WritePacked(f, items);
        return sizing.bytesWritten;
      }
    }

    method WritePackedArray(f: Field, items: seq<Value>) returns (ok: bool)
      requires Valid() && f.ftype.Packable() && |items| > 0
      requires forall i :: 0 <= i < |items| ==> ValueOk(f.ftype, f.dataSize, items[i])
      modifies this
      ensures Did(ok, EncodeArray(f, |items|, items))
      decreases f, 4
    {
      PackedSize(f, items, |items|);
      ok := WriteTag(f, 2);
      if !ok {
        return;
      }
      ok := WriteLengthAndItems(f, items);
    }

    /** What follows the tag of a packed array; while sizing, its items are not encoded a second time. */
    method WriteLengthAndItems(f: Field, items: seq<Value>) returns (ok: bool)
      requires Valid() && f.ftype.Packable() && forall i :: 0 <= i < |items| ==> ValueOk(f.ftype, f.dataSize, items[i])
      modifies this
      ensures EncodePacked(f, items, |items|).Some? && Did(ok, Some(EncodeSlice(EncodePacked(f, items, |items|).value)))
      decreases f, 3
    {
      var size := PackedLength(f, items);
      ok := WriteVarint(size);
      if !ok {
        return;
      }
      if !writes {
        Count(size);
        return;
      }
      ok := WritePacked(f, items);
    }

    /** encode_basic_field. */
    method WriteField(f: Field, m: Member) returns (ok: bool)
      requires Valid() && MemberOk(f, m)
      modifies this
      ensures Did(ok, EncodeField(f, m))
      decreases f, 6
    {
      match f.rule
      case Required => ok := WriteTagged(f, m.value);
      case Singular =>
        var absent := CheckDefault(f, m);
        if absent {
          return true;
        }
        ok := WriteTagged(f, m.value);
      case Optional =>
        if !m.has {
          return true;
        }
        ok := WriteTagged(f, m.value);
      case Oneof(_) =>
        if !m.chosen {
          return true;
        }
        ok := WriteTagged(f, m.value);
      case Repeated(capacity, _) => ok := WriteArray(f, capacity, m.items);
    }

    /** pb_encode_submessage: one pass to find the size, one to write. */
    method WriteSubmessage(d: Descriptor, members: seq<Member>) returns (ok: bool)
      requires Valid() && MembersOk(d, members)
      modifies this
      ensures Did(ok, var w := Encode(d, members); if w.Some? then Some(EncodeSlice(w.value)) else None)
      decreases d, 1
    {
      var sizing := new OStream(false, 0, []);
      ok := sizing.WriteMessage(d, members);
      if !ok {
        return;
      }
      var size := sizing.bytesWritten;
      ok := WriteVarint(size);
      if !ok {
        return;
      }
      if !writes {
        Count(size);
        return;
      }
      if bytesWritten + size > maxSize {
        return false;
      }
      var substream := new OStream(true, size, out);
      ok := substream.WriteMessage(d, members);
      bytesWritten := bytesWritten + substream.bytesWritten;
      out := substream.out;
      ok := ok && substream.bytesWritten == size;
    }

    /** pb_encode. */
    method WriteMessage(d: Descriptor, members: seq<Member>) returns (ok: bool)
      requires Valid() && MembersOk(d, members)
      modifies this
      ensures Did(ok, Encode(d, members))
      decreases d, 0
    {
      for i := 0 to |d.fields|
        invariant Did(true, EncodeUpTo(d, members, i))
      {
        ok := WriteField(d.fields[i], members[i]);
        if !ok {
          EncodePrefix(d, members, i + 1, |members|);
          return false;
        }
      }
      return true;
    }
  }

  // ---- The loops may stop at the first failure ----

  ghost predicate Longer(a: Option<Bytes>, b: Option<Bytes>) {
    b.Some? ==> a.Some? && |a.value| <= |b.value|
  }

  lemma {:induction false} PackedPrefix(f: Field, items: seq<Value>, n: nat, m: nat)
    requires n <= m <= |items|
    ensures Longer(EncodePacked(f, items, n), EncodePacked(f, items, m))
    decreases m
  {
    if n < m {
      PackedPrefix(f, items, n, m - 1);
    }
  }

  lemma {:induction false} ItemsPrefix(f: Field, items: seq<Value>, n: nat, m: nat)
    requires n <= m <= |items|
    ensures Longer(EncodeItems(f, items, n), EncodeItems(f, items, m))
    decreases m
  {
    if n < m {
      ItemsPrefix(f, items, n, m - 1);
    }
  }

  lemma {:induction false} EncodePrefix(d: Descriptor, members: seq<Member>, n: nat, m: nat)
    requires n <= m <= |members| == |d.fields|
    ensures Longer(EncodeUpTo(d, members, n), EncodeUpTo(d, members, m))
    decreases m
  {
    if n < m {
      EncodePrefix(d, members, n, m - 1);
    }
  }
}
