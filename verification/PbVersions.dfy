/** Messages of a newer version, decoded with the descriptor of an older one: at every depth the older one may lack fields
    (nanopb/pb_decode.c: pb_decode_noinit, pb_skip_field). */
module PbVersions {
  import opened DbFormat
  import opened Coding
  import opened PbSchemas
  import opened PbEncoding
  import opened PbDecoding
  import opened PbRoundTrip
  import opened PbCompatibility

  // ---- Some of the fields ----

  /** The elements whose flag is set. */
  function Kept<T>(s: seq<T>, kept: seq<bool>): seq<T>
    requires |s| == |kept|
  {
    if s == [] then []
    else
      var n := |s| - 1;
      Kept(s[..n], kept[..n]) + if kept[n] then [s[n]] else []
  }

  /** How many of the first n flags are set. */
  function Rank(kept: seq<bool>, n: nat): nat
    requires n <= |kept|
  {
    if n == 0 then 0 else Rank(kept, n - 1) + if kept[n - 1] then 1 else 0
  }

  lemma {:induction false} RankOfPrefix(kept: seq<bool>, n: nat, m: nat)
    requires n <= m <= |kept|
    ensures Rank(kept[..m], n) == Rank(kept, n)
    ensures Rank(kept, n) <= Rank(kept, m)
    decreases m, n
  {
    if n > 0 {
      RankOfPrefix(kept, n - 1, m);
    }
    if n < m {
      RankOfPrefix(kept, n, m - 1);
    }
  }

  lemma {:induction false} KeptAt<T>(s: seq<T>, kept: seq<bool>, n: nat)
    requires |s| == |kept|
    ensures |Kept(s, kept)| == Rank(kept, |kept|)
    ensures n < |s| && kept[n] ==> Rank(kept, n) < |Kept(s, kept)| && Kept(s, kept)[Rank(kept, n)] == s[n]
    decreases |s|
  {
    if s != [] {
      var last := |s| - 1;
      KeptAt(s[..last], kept[..last], n);
      RankOfPrefix(kept, last, last);
      if n < last {
        RankOfPrefix(kept, n, last);
      }
    }
  }

  /** Where an element that was kept comes from. */
  lemma {:induction false} Origin(kept: seq<bool>, j: nat, n: nat) returns (i: nat)
    requires n <= |kept| && j < Rank(kept, n)
    ensures i < n && kept[i] && Rank(kept, i) == j
    decreases n
  {
    if Rank(kept, n - 1) > j {
      i := Origin(kept, j, n - 1);
    } else {
      i := n - 1;
    }
  }

  lemma RanksRise(kept: seq<bool>, i: nat, j: nat)
    requires i < |kept| && j < |kept| && Rank(kept, i) < Rank(kept, j)
    ensures i < j
  {
    if j <= i {
      RankOfPrefix(kept, j, i);
    }
  }

  lemma KeptFrom<T>(s: seq<T>, kept: seq<bool>, j: nat) returns (n: nat)
    requires |s| == |kept| && j < |Kept(s, kept)|
    ensures n < |kept| && kept[n] && Rank(kept, n) == j && Kept(s, kept)[j] == s[n]
  {
    KeptAt(s, kept, 0);
    n := Origin(kept, j, |kept|);
    KeptAt(s, kept, n);
  }

  // ---- The older version ----

  /** Which fields the older version has, and the same for the submessages of each. */
  datatype Trim = Trim(kept: seq<bool>, inner: seq<Trim>)

  ghost predicate Trims(tr: Trim, d: Descriptor)
    decreases tr, 0
  {
    && |tr.kept| == |tr.inner| == |d.fields|
    && forall i :: 0 <= i < |d.fields| ==> TrimsType(tr.inner[i], d.fields[i].ftype)
  }

  ghost predicate TrimsType(tr: Trim, t: FieldType)
    decreases tr, 1
  {
    t.Submessage? ==> Trims(tr, t.message)
  }

  ghost function OlderType(tr: Trim, t: FieldType): FieldType
    requires TrimsType(tr, t)
    decreases tr, 2
  {
    if t.Submessage? then Submessage(Older(tr, t.message)) else t
  }

  ghost function OlderField(tr: Trim, f: Field): Field
    requires TrimsType(tr, f.ftype)
    decreases tr, 3
  {
    f.(ftype := OlderType(tr, f.ftype))
  }

  ghost function OlderFields(tr: Trim, d: Descriptor): (fields: seq<Field>)
    requires Trims(tr, d)
    ensures |fields| == |d.fields| && forall i :: 0 <= i < |fields| ==> fields[i] == OlderField(tr.inner[i], d.fields[i])
    decreases tr, 0
  {
    seq(|d.fields|, i requires 0 <= i < |d.fields| => OlderField(tr.inner[i], d.fields[i]))
  }

  ghost function Older(tr: Trim, d: Descriptor): Descriptor
    requires Trims(tr, d)
    decreases tr, 1
  {
    Descriptor(Kept(OlderFields(tr, d), tr.kept))
  }

  /** What the older version can hold of a struct. */
  ghost function OlderValue(tr: Trim, t: FieldType, v: Value): Value
    requires TrimsType(tr, t)
    decreases tr, 3
  {
    if t.Submessage? && v.Struct? && |v.members| == |t.message.fields| then Struct(OlderMembers(tr, t.message, v.members)) else v
  }

  ghost function OlderItems(tr: Trim, t: FieldType, items: seq<Value>): (r: seq<Value>)
    requires TrimsType(tr, t)
    ensures |r| == |items| && forall i :: 0 <= i < |r| ==> r[i] == OlderValue(tr, t, items[i])
    decreases tr, 4
  {
    seq(|items|, i requires 0 <= i < |items| => OlderValue(tr, t, items[i]))
  }

  ghost function OlderMember(tr: Trim, t: FieldType, m: Member): Member
    requires TrimsType(tr, t)
    decreases tr, 5
  {
    match m
    case Always(v) => Always(OlderValue(tr, t, v))
    case Maybe(has, v) => Maybe(has, OlderValue(tr, t, v))
    case Choice(chosen, v) => Choice(chosen, OlderValue(tr, t, v))
    case Items(items) => Items(OlderItems(tr, t, items))
  }

  ghost function EachOlder(tr: Trim, d: Descriptor, members: seq<Member>): (r: seq<Member>)
    requires Trims(tr, d) && |members| == |d.fields|
    ensures |r| == |members| && forall i :: 0 <= i < |r| ==> r[i] == OlderMember(tr.inner[i], d.fields[i].ftype, members[i])
    decreases tr, 1
  {
    seq(|members|, i requires 0 <= i < |members| => OlderMember(tr.inner[i], d.fields[i].ftype, members[i]))
  }

  ghost function OlderMembers(tr: Trim, d: Descriptor, members: seq<Member>): (r: seq<Member>)
    requires Trims(tr, d) && |members| == |d.fields|
    decreases tr, 2
  {
    Kept(EachOlder(tr, d, members), tr.kept)
  }

  /** Field n of the newer version is field j of the older one. */
  ghost predicate Stems(tr: Trim, d: Descriptor, members: seq<Member>, n: nat, j: nat)
    requires Trims(tr, d) && |members| == |d.fields|
  {
    var o, ms := Older(tr, d), OlderMembers(tr, d, members);
    && n < |members| && tr.kept[n] && Rank(tr.kept, n) == j < |ms| == |o.fields|
    && o.fields[j] == OlderField(tr.inner[n], d.fields[n]) && ms[j] == OlderMember(tr.inner[n], d.fields[n].ftype, members[n])
  }

  lemma OlderCounts(tr: Trim, d: Descriptor, members: seq<Member>)
    requires Trims(tr, d) && |members| == |d.fields|
    ensures |OlderMembers(tr, d, members)| == |Older(tr, d).fields| == Rank(tr.kept, |tr.kept|)
  {
    KeptAt(OlderFields(tr, d), tr.kept, 0);
    KeptAt(EachOlder(tr, d, members), tr.kept, 0);
  }

  lemma OlderRanks(tr: Trim, d: Descriptor, members: seq<Member>, n: nat)
    requires Trims(tr, d) && n <= |members| == |d.fields|
    ensures Rank(tr.kept, n) <= |OlderMembers(tr, d, members)| == |Older(tr, d).fields|
  {
    OlderCounts(tr, d, members);
    RankOfPrefix(tr.kept, n, |tr.kept|);
  }

  lemma StemsForward(tr: Trim, d: Descriptor, members: seq<Member>, n: nat)
    requires Trims(tr, d) && n < |members| == |d.fields| && tr.kept[n]
    ensures Stems(tr, d, members, n, Rank(tr.kept, n))
  {
    OlderCounts(tr, d, members);
    KeptAt(OlderFields(tr, d), tr.kept, n);
    KeptAt(EachOlder(tr, d, members), tr.kept, n);
  }

  lemma StemsBack(tr: Trim, d: Descriptor, members: seq<Member>, j: nat) returns (n: nat)
    requires Trims(tr, d) && |members| == |d.fields| && j < |Older(tr, d).fields|
    ensures Stems(tr, d, members, n, j)
  {
    OlderCounts(tr, d, members);
    n := Origin(tr.kept, j, |tr.kept|);
    StemsForward(tr, d, members, n);
  }

  lemma {:induction false} OlderFieldWellFormed(tr: Trim, f: Field)
    requires TrimsType(tr, f.ftype) && FieldWellFormed(f)
    ensures FieldWellFormed(OlderField(tr, f))
    decreases tr, 1
  {
    if f.ftype.Submessage? {
      OlderWellFormed(tr, f.ftype.message);
    }
  }

  lemma {:induction false} OlderWellFormed(tr: Trim, d: Descriptor)
    requires Trims(tr, d) && WellFormed(d)
    ensures WellFormed(Older(tr, d))
    decreases tr, 0
  {
    var o, fields := Older(tr, d), OlderFields(tr, d);
    forall i, j | 0 <= i < j < |o.fields| ensures o.fields[i].tag != o.fields[j].tag {
      var a := KeptFrom(fields, tr.kept, i);
      var b := KeptFrom(fields, tr.kept, j);
      RanksRise(tr.kept, a, b);
      assert d.fields[a].tag != d.fields[b].tag;
    }
    forall i | 0 <= i < |o.fields| ensures FieldWellFormed(o.fields[i]) {
      var a := KeptFrom(fields, tr.kept, i);
      OlderFieldWellFormed(tr.inner[a], d.fields[a]);
    }
  }

  lemma {:induction false} OlderValueOk(tr: Trim, t: FieldType, size: nat, v: Value)
    requires TrimsType(tr, t) && ValueOk(t, size, v)
    ensures ValueOk(OlderType(tr, t), size, OlderValue(tr, t, v))
    decreases tr, 1
  {
    if t.Submessage? {
      OlderMembersOk(tr, t.message, v.members);
    }
  }

  lemma {:induction false} OlderMemberOk(tr: Trim, f: Field, m: Member)
    requires TrimsType(tr, f.ftype) && MemberOk(f, m)
    ensures MemberOk(OlderField(tr, f), OlderMember(tr, f.ftype, m))
    decreases tr, 2
  {
    match m
    case Always(v) => OlderValueOk(tr, f.ftype, f.dataSize, v);
    case Maybe(has, v) => if has { OlderValueOk(tr, f.ftype, f.dataSize, v); }
    case Choice(chosen, v) => if chosen { OlderValueOk(tr, f.ftype, f.dataSize, v); }
    case Items(items) =>
      forall i | 0 <= i < |items| ensures ValueOk(OlderType(tr, f.ftype), f.dataSize, OlderValue(tr, f.ftype, items[i])) {
        OlderValueOk(tr, f.ftype, f.dataSize, items[i]);
      }
  }

  lemma {:induction false} OlderMembersOk(tr: Trim, d: Descriptor, members: seq<Member>)
    requires Trims(tr, d) && MembersOk(d, members)
    ensures MembersOk(Older(tr, d), OlderMembers(tr, d, members))
    decreases tr, 0
  {
    var o, ms := Older(tr, d), OlderMembers(tr, d, members);
    OlderCounts(tr, d, members);
    forall i, j | 0 <= i < j < |ms| && o.fields[i].rule.Oneof? && o.fields[j].rule == o.fields[i].rule
      ensures !(IsChosen(ms[i]) && IsChosen(ms[j]))
    {
      var a := StemsBack(tr, d, members, i);
      var b := StemsBack(tr, d, members, j);
      RanksRise(tr.kept, a, b);
    }
    forall i | 0 <= i < |ms| ensures MemberOk(o.fields[i], ms[i]) {
      var a := StemsBack(tr, d, members, i);
      OlderMemberOk(tr.inner[a], d.fields[a], members[a]);
    }
  }

  lemma LeftOutIsUnknown(tr: Trim, d: Descriptor, n: nat)
    requires Trims(tr, d) && WellFormed(d) && n < |d.fields| && !tr.kept[n]
    ensures Unknown(Older(tr, d), d.fields[n])
  {
    var o := Older(tr, d);
    assert FieldWellFormed(d.fields[n]);
    forall i | 0 <= i < |o.fields| ensures o.fields[i].tag != d.fields[n].tag {
      var a := KeptFrom(OlderFields(tr, d), tr.kept, i);
    }
  }

  // ---- Defaults ----

  lemma {:induction false} AllDefaultIf(d: Descriptor, members: seq<Member>, n: nat)
    requires n <= |members| == |d.fields| && forall i :: 0 <= i < n ==> IsDefault(d.fields[i], members[i])
    ensures AllDefault(d, members, n)
    decreases n
  {
    if n > 0 {
      AllDefaultIf(d, members, n - 1);
    }
  }

  lemma AllDefaultAt(d: Descriptor, members: seq<Member>, n: nat)
    requires n < |members| == |d.fields| && AllDefault(d, members, |members|)
    ensures IsDefault(d.fields[n], members[n])
  {
    DefaultPrefix(d, members, n + 1, |members|);
  }

  /** What the newer version leaves out is left out by the older one. */
  lemma {:induction false} OlderDefault(tr: Trim, f: Field, m: Member)
    requires TrimsType(tr, f.ftype) && IsDefault(f, m)
    ensures IsDefault(OlderField(tr, f), OlderMember(tr, f.ftype, m))
    decreases tr, 1
  {
    if f.rule.Singular? && f.ftype.Submessage? {
      OlderAllDefault(tr, f.ftype.message, m.value.members);
    }
  }

  lemma {:induction false} OlderAllDefault(tr: Trim, d: Descriptor, members: seq<Member>)
    requires Trims(tr, d) && |members| == |d.fields| && AllDefault(d, members, |members|)
    ensures |OlderMembers(tr, d, members)| == |Older(tr, d).fields|
    ensures AllDefault(Older(tr, d), OlderMembers(tr, d, members), |OlderMembers(tr, d, members)|)
    decreases tr, 0
  {
    var o, ms := Older(tr, d), OlderMembers(tr, d, members);
    OlderCounts(tr, d, members);
    forall j | 0 <= j < |ms| ensures IsDefault(o.fields[j], ms[j]) {
      var n := StemsBack(tr, d, members, j);
      AllDefaultAt(d, members, n);
      OlderDefault(tr.inner[n], d.fields[n], members[n]);
    }
    AllDefaultIf(o, ms, |ms|);
  }

  /** A submessage of defaults has no string that could not be read. */
  lemma DefaultIsReadable(f: Field, m: Member)
    requires f.rule.Singular? && f.ftype.Submessage? && MemberOk(f, m) && IsDefault(f, m)
    ensures Readable(f.ftype, f.dataSize, m.value)
  {
    var d, members := f.ftype.message, m.value.members;
    assert ValueOk(f.ftype, f.dataSize, m.value);
    assert MembersOk(d, members);
    forall i | 0 <= i < |members| ensures MemberReadable(d.fields[i], members[i]) {
      AllDefaultAt(d, members, i);
      assert MemberOk(d.fields[i], members[i]);
    }
  }

  // ---- One field ----

  /** The message of a submessage, decoded by the older version, is what it means there. */
  ghost predicate Forwards(tr: Trim, d: Descriptor, members: seq<Member>, w: Bytes)
    requires Trims(tr, d) && |members| == |d.fields|
  {
    var o, ms := Older(tr, d), OlderMembers(tr, d, members);
    |ms| == |o.fields| && Decode(o, w) == if MembersReadable(o, ms, |ms|) then Some(Meanings(o, ms)) else None
  }

  lemma ValueForwards(tr: Trim, t: FieldType, size: nat, v: Value, w: Bytes, anew: bool, dest: Value, rest: Bytes)
    requires t.Submessage? && Trims(tr, t.message) && v.Struct? && |v.members| == |t.message.fields| && |w| < WORD
    requires Forwards(tr, t.message, v.members, w) && (!anew ==> dest == Struct(Defaults(Older(tr, t.message))))
    ensures var ot, ov := OlderType(tr, t), OlderValue(tr, t, v);
      DecodeValue(ot, size, anew, dest, EncodeSlice(w) + rest)
      == if Readable(ot, size, ov) then Parsed(Meaning(ot, ov), rest) else Failed
  {
    StringTaken(w, rest);
    var o, ms := Older(tr, t.message), OlderMembers(tr, t.message, v.members);
    assert Meaning(Submessage(o), Struct(ms)) == Struct(Meanings(o, ms));
  }

  /** Field r of the older version, and its member, stem from this field and member of the newer one. */
  ghost predicate StemsFrom(o: Descriptor, ms: seq<Member>, r: nat, tr: Trim, f: Field, m: Member) {
    && r < |ms| == |o.fields| && TrimsType(tr, f.ftype) && FieldWellFormed(f) && MemberOk(f, m)
    && o.fields[r] == OlderField(tr, f) && ms[r] == OlderMember(tr, f.ftype, m)
  }

  /** What the older version makes of the bytes of a field: it goes on after the field, or refuses. */
  ghost predicate FieldForwards(o: Descriptor, ms: seq<Member>, r: nat, e: Bytes, rest: Bytes)
    requires r < |ms| == |o.fields|
  {
    DecodeLoop(o, After(o, ms, r), e + rest)
      == if MemberReadable(o.fields[r], ms[r]) then DecodeLoop(o, After(o, ms, r + 1), rest) else None
  }

  lemma AbsentForwards(o: Descriptor, ms: seq<Member>, r: nat, tr: Trim, f: Field, m: Member, rest: Bytes)
    requires Sound(o, ms) && StemsFrom(o, ms, r, tr, f, m) && IsAbsent(f, m)
    ensures FieldForwards(o, ms, r, [], rest)
  {
    assert SoundNow(o, ms, 0);
    var of, om := o.fields[r], ms[r];
    if m.Always? {
      OlderDefault(tr, f, m);
    }
    assert IsAbsent(of, om) && FieldWellFormed(of) && MemberOk(of, om);
    AbsentMeaning(of, om);
    AbsentStep(o, ms, r);
    assert [] + rest == rest;
  }

  /** A submessage that is present. */
  lemma SingleForwards(o: Descriptor, ms: seq<Member>, r: nat, tr: Trim, f: Field, m: Member, v: Value, w: Bytes, rest: Bytes)
    requires Sound(o, ms) && StemsFrom(o, ms, r, tr, f, m) && f.ftype.Submessage? && ValueOk(f.ftype, f.dataSize, v)
    requires m == Always(v) || m == Maybe(true, v) || m == Choice(true, v)
    requires v.Struct? && |v.members| == |f.ftype.message.fields| && |w| < WORD && Forwards(tr, f.ftype.message, v.members, w)
    ensures DecodeLoop(o, After(o, ms, r), Tag(f, 2) + EncodeSlice(w) + rest)
         == if Readable(o.fields[r].ftype, f.dataSize, OlderValue(tr, f.ftype, v)) then DecodeLoop(o, After(o, ms, r + 1), rest) else None
  {
    assert SoundNow(o, ms, 0);
    var ov, body := OlderValue(tr, f.ftype, v), EncodeSlice(w) + rest;
    assert Tag(f, 2) + EncodeSlice(w) + rest == Tag(o.fields[r], 2) + body;
    assert o.fields[r].ftype == OlderType(tr, f.ftype) == Submessage(Older(tr, f.ftype.message));
    ValueForwards(tr, f.ftype, f.dataSize, v, w, false, DefaultValue(o.fields[r]), rest);
    LoopStep(o, r, 2, After(o, ms, r), body);
    SingleDecoded(o, ms, r, ov, body, rest);
  }

  // ---- Arrays of submessages ----

  /** What one field encodes for an item, the other one decodes as this item. */
  ghost predicate ReadsAs(f: Field, item: Value, of: Field, was: Value, e: Bytes, rest: Bytes) {
    EncodeTagged(f, item) == Some(e) && |e| < WORD ==>
      exists body :: e + rest == Tag(of, WireType(of.ftype)) + body && ReadsBody(of, was, body, rest)
  }

  ghost predicate ReadsBody(of: Field, was: Value, body: Bytes, rest: Bytes) {
    DecodeValue(of.ftype, of.dataSize, true, Zero(of.ftype, of.dataSize), body)
      == if Readable(of.ftype, of.dataSize, was) then Parsed(Meaning(of.ftype, was), rest) else Failed
  }

  ghost predicate AllReadAs(f: Field, items: seq<Value>, of: Field, olds: seq<Value>) {
    && |items| == |olds|
    && forall i, e, rest {:trigger ReadsAs(f, items[i], of, olds[i], e, rest)} :: 0 <= i < |items| ==>
         ReadsAs(f, items[i], of, olds[i], e, rest)
  }

  lemma ItemStepAs(o: Descriptor, ms: seq<Member>, r: nat, olds: seq<Value>, f: Field, items: seq<Value>, k: nat, e: Bytes, rest: Bytes)
    requires Sound(o, ms) && IsArray(o, ms, r, olds) && k < |olds| && AllReadAs(f, items, o.fields[r], olds)
    requires EncodeTagged(f, items[k]) == Some(e) && |e| < WORD
    ensures DecodeLoop(o, AfterItems(o, ms, r, olds, k), e + rest)
         == if Readable(o.fields[r].ftype, o.fields[r].dataSize, olds[k])
            then DecodeLoop(o, AfterItems(o, ms, r, olds, k + 1), rest) else None
  {
    assert SoundNow(o, ms, 0);
    var of := o.fields[r];
    assert ReadsAs(f, items[k], of, olds[k], e, rest);
    var body :| e + rest == Tag(of, WireType(of.ftype)) + body && ReadsBody(of, olds[k], body, rest);
    LoopStep(o, r, WireType(of.ftype), AfterItems(o, ms, r, olds, k), body);
    ItemDecoded(o, ms, r, olds, k, body, rest);
  }

  lemma ItemPassesAs(o: Descriptor, ms: seq<Member>, r: nat, olds: seq<Value>, f: Field, items: seq<Value>, k: nat, input: Bytes,
                     e: Bytes, rest: Bytes)
    requires Sound(o, ms) && IsArray(o, ms, r, olds) && 0 < k <= |olds| && AllReadAs(f, items, o.fields[r], olds)
    requires EncodeTagged(f, items[k - 1]) == Some(e) && |e| < WORD
    requires Readable(o.fields[r].ftype, o.fields[r].dataSize, olds[k - 1])
    requires PassesItems(o, ms, r, olds, 0, input, k - 1, e + rest)
    ensures PassesItems(o, ms, r, olds, 0, input, k, rest)
  {
    ItemStepAs(o, ms, r, olds, f, items, k - 1, e, rest);
    assert PassesItems(o, ms, r, olds, k - 1, e + rest, k, rest);
    PassItemsOn(o, ms, r, olds, 0, input, k - 1, e + rest, k, rest);
  }

  lemma {:induction false} ItemsReachAs(o: Descriptor, ms: seq<Member>, r: nat, olds: seq<Value>, f: Field, items: seq<Value>, k: nat,
                                        w: Bytes, rest: Bytes)
    requires Sound(o, ms) && IsArray(o, ms, r, olds) && k <= |olds| && AllReadAs(f, items, o.fields[r], olds)
    requires EncodeItems(f, items, k) == Some(w) && |w| < WORD && ItemsReadable(o.fields[r], olds, k)
    ensures PassesItems(o, ms, r, olds, 0, w + rest, k, rest)
    decreases k
  {
    if k == 0 {
      PassNoItem(o, ms, r, olds, rest);
    } else {
      var before, e := ItemsMore(f, items, k, w, rest);
      ItemsReachAs(o, ms, r, olds, f, items, k - 1, before, e + rest);
      ItemPassesAs(o, ms, r, olds, f, items, k, before + (e + rest), e, rest);
    }
  }

  /** The bytes of item k, and what is before and behind them. */
  lemma ItemsAt(f: Field, items: seq<Value>, k: nat, w: Bytes, rest: Bytes) returns (before: Bytes, e: Bytes, tail: Bytes)
    requires k < |items| && EncodeItems(f, items, |items|) == Some(w)
    ensures EncodeItems(f, items, k) == Some(before) && EncodeTagged(f, items[k]) == Some(e)
    ensures |before| <= |w| && |e| <= |w| && w + rest == before + (e + tail)
  {
    var more := ItemsSplit(f, items, k + 1, |items|);
    var upTo := EncodeItems(f, items, k + 1).value;
    tail := more + rest;
    assert w + rest == upTo + tail;
    before, e := ItemsMore(f, items, k + 1, upTo, tail);
  }

  /** The whole array is read, or stops at the first item that cannot be. */
  lemma ItemsReadAs(o: Descriptor, ms: seq<Member>, r: nat, olds: seq<Value>, f: Field, items: seq<Value>, w: Bytes, rest: Bytes)
    requires Sound(o, ms) && IsArray(o, ms, r, olds) && AllReadAs(f, items, o.fields[r], olds)
    requires EncodeItems(f, items, |items|) == Some(w) && |w| < WORD
    ensures DecodeLoop(o, After(o, ms, r), w + rest)
         == if ItemsReadable(o.fields[r], olds, |olds|) then DecodeLoop(o, After(o, ms, r + 1), rest) else None
  {
    AfterNoItems(o, ms, r, olds);
    if ItemsReadable(o.fields[r], olds, |olds|) {
      ItemsReachAs(o, ms, r, olds, f, items, |items|, w, rest);
      assert SameAfterItems(o, ms, r, olds, 0, w + rest, |items|, rest, 0);
      AfterAllItems(o, ms, r, olds);
    } else {
      var k := FirstUnreadable(o.fields[r], olds, 0);
      var before, e, tail := ItemsAt(f, items, k, w, rest);
      ItemsReachAs(o, ms, r, olds, f, items, k, before, e + tail);
      assert SameAfterItems(o, ms, r, olds, 0, before + (e + tail), k, e + tail, 0);
      ItemStepAs(o, ms, r, olds, f, items, k, e, tail);
    }
  }

  lemma TaggedSubmessage(f: Field, v: Value, e: Bytes)
    requires f.ftype.Submessage? && v.Struct? && |v.members| == |f.ftype.message.fields| && EncodeTagged(f, v) == Some(e)
    ensures var w := Encode(f.ftype.message, v.members);
      w.Some? && e == Tag(f, 2) + EncodeSlice(w.value) && |w.value| < |e|
  {
    assert EncodeValue(f.ftype, f.dataSize, v).Some?;
    SliceIsLonger(EncodeUpTo(f.ftype.message, v.members, |v.members|).value);
  }

  lemma ItemBodyReads(tr: Trim, f: Field, v: Value, w: Bytes, rest: Bytes)
    requires f.ftype.Submessage? && Trims(tr, f.ftype.message) && v.Struct? && |v.members| == |f.ftype.message.fields|
    requires |w| < WORD && Forwards(tr, f.ftype.message, v.members, w)
    ensures ReadsBody(OlderField(tr, f), OlderValue(tr, f.ftype, v), EncodeSlice(w) + rest, rest)
  {
    var g := OlderField(tr, f);
    assert g.ftype == OlderType(tr, f.ftype) == Submessage(Older(tr, f.ftype.message));
    ValueForwards(tr, f.ftype, f.dataSize, v, w, true, Zero(g.ftype, g.dataSize), rest);
  }

  /** The message inside the bytes of the item, decoded by the older version, is what it means there. */
  ghost predicate ItemForwards(tr: Trim, f: Field, v: Value, e: Bytes)
    requires f.ftype.Submessage? && Trims(tr, f.ftype.message) && v.Struct? && |v.members| == |f.ftype.message.fields|
  {
    EncodeTagged(f, v) == Some(e) && |e| < WORD ==>
      (var w := Encode(f.ftype.message, v.members); w.Some? && Forwards(tr, f.ftype.message, v.members, w.value))
  }

  /** What is encoded for the item is read by the older version as this item. */
  lemma ItemReadsAs(tr: Trim, f: Field, v: Value, e: Bytes, rest: Bytes)
    requires f.ftype.Submessage? && Trims(tr, f.ftype.message) && v.Struct? && |v.members| == |f.ftype.message.fields|
    requires ItemForwards(tr, f, v, e)
    ensures ReadsAs(f, v, OlderField(tr, f), OlderValue(tr, f.ftype, v), e, rest)
  {
    if EncodeTagged(f, v) == Some(e) && |e| < WORD {
      var g, w := OlderField(tr, f), Encode(f.ftype.message, v.members).value;
      TaggedSubmessage(f, v, e);
      ItemBodyReads(tr, f, v, w, rest);
      assert g.ftype == OlderType(tr, f.ftype);
      assert e + rest == Tag(g, WireType(g.ftype)) + (EncodeSlice(w) + rest);
    }
  }

  // ---- All fields ----

  /** One more field of the newer version that the older one has. */
  lemma {:induction false} FieldReadsAs(o: Descriptor, ms: seq<Member>, r: nat, tr: Trim, f: Field, m: Member, e: Bytes, rest: Bytes)
    requires Sound(o, ms) && StemsFrom(o, ms, r, tr, f, m) && EncodeField(f, m) == Some(e) && |e| < WORD
    ensures FieldForwards(o, ms, r, e, rest)
    decreases tr, 11
  {
    if !f.ftype.Submessage? {
      assert OlderType(tr, f.ftype) == f.ftype;
      SameMember(tr, f.ftype, m);
      FieldStep(o, ms, r, r + 1, e, rest);
    } else if IsAbsent(f, m) {
      AbsentEncodes(f, m);
      AbsentForwards(o, ms, r, tr, f, m, rest);
    } else if m.Items? {
      ArrayReadsAs(o, ms, r, tr, f, m.items, e, rest);
    } else {
      SubmessageReadsAs(o, ms, r, tr, f, m, m.value, e, rest);
    }
  }

  lemma SameMember(tr: Trim, t: FieldType, m: Member)
    requires !t.Submessage?
    ensures OlderMember(tr, t, m) == m
  {
    if m.Items? {
      assert OlderItems(tr, t, m.items) == m.items;
    }
  }

  lemma AbsentEncodes(f: Field, m: Member)
    requires FieldWellFormed(f) && MemberOk(f, m) && IsAbsent(f, m)
    ensures EncodeField(f, m) == Some([])
  {
    AbsentMeaning(f, m);
  }

  lemma {:induction false} SubmessageReadsAs(o: Descriptor, ms: seq<Member>, r: nat, tr: Trim, f: Field, m: Member, v: Value,
                                             e: Bytes, rest: Bytes)
    requires Sound(o, ms) && StemsFrom(o, ms, r, tr, f, m) && f.ftype.Submessage? && !IsAbsent(f, m)
    requires m == Always(v) || m == Maybe(true, v) || m == Choice(true, v)
    requires EncodeField(f, m) == Some(e) && |e| < WORD
    ensures FieldForwards(o, ms, r, e, rest)
    decreases tr, 10
  {
    assert ValueOk(f.ftype, f.dataSize, v) && MembersOk(f.ftype.message, v.members);
    assert EncodeTagged(f, v) == Some(e);
    TaggedSubmessage(f, v, e);
    var w := Encode(f.ftype.message, v.members).value;
    ForwardCompatible(tr, f.ftype.message, v.members);
    SingleForwards(o, ms, r, tr, f, m, v, w, rest);
    PresentReadable(o, ms, r, tr, f, m, v);
  }

  lemma PresentReadable(o: Descriptor, ms: seq<Member>, r: nat, tr: Trim, f: Field, m: Member, v: Value)
    requires Sound(o, ms) && StemsFrom(o, ms, r, tr, f, m) && f.ftype.Submessage?
    requires m == Always(v) || m == Maybe(true, v) || m == Choice(true, v)
    ensures MemberReadable(o.fields[r], ms[r]) <==> Readable(o.fields[r].ftype, f.dataSize, OlderValue(tr, f.ftype, v))
  {
    assert SoundNow(o, ms, 0);
    var g := o.fields[r];
    assert g.ftype == OlderType(tr, f.ftype) && MemberOk(g, ms[r]);
    if m.Always? && g.rule.Singular? && IsDefault(g, ms[r]) {
      DefaultIsReadable(g, ms[r]);
    }
  }

  lemma {:induction false} ArrayReadsAs(o: Descriptor, ms: seq<Member>, r: nat, tr: Trim, f: Field, items: seq<Value>, e: Bytes, rest: Bytes)
    requires Sound(o, ms) && StemsFrom(o, ms, r, tr, f, Items(items)) && f.ftype.Submessage? && items != []
    requires EncodeField(f, Items(items)) == Some(e) && |e| < WORD
    ensures FieldForwards(o, ms, r, e, rest)
    decreases tr, 10
  {
    var d, g, olds := f.ftype.message, o.fields[r], OlderItems(tr, f.ftype, items);
    forall i, x, y | 0 <= i < |items| ensures ReadsAs(f, items[i], g, olds[i], x, y) {
      var v := items[i];
      assert ValueOk(f.ftype, f.dataSize, v) && MembersOk(d, v.members);
      if EncodeTagged(f, v) == Some(x) && |x| < WORD {
        TaggedSubmessage(f, v, x);
        ForwardCompatible(tr, d, v.members);
      }
      ItemReadsAs(tr, f, v, x, y);
    }
    ItemsReadAs(o, ms, r, olds, f, items, e, rest);
  }

  /** The older decoder gets past the first n fields of the newer message: it stands after those that it knows. */
  lemma {:induction false} ReachOlder(tr: Trim, d: Descriptor, members: seq<Member>, n: nat, w: Bytes, rest: Bytes)
    requires Trims(tr, d) && WellFormed(d) && MembersOk(d, members) && n <= |members|
    requires EncodeUpTo(d, members, n) == Some(w) && |w| < WORD
    requires forall i :: 0 <= i < n && tr.kept[i] ==> OlderReadable(tr, d, members, i)
    ensures var o, ms := Older(tr, d), OlderMembers(tr, d, members);
      |ms| == |o.fields| && Rank(tr.kept, n) <= |ms| && Passes(o, ms, 0, w + rest, Rank(tr.kept, n), rest)
    decreases tr, 7, n
  {
    var o, ms := Older(tr, d), OlderMembers(tr, d, members);
    OlderRanks(tr, d, members, n);
    if n == 0 {
      PassNothing(o, ms, rest);
    } else {
      var before, e := FieldsMore(d, members, n, w, rest);
      ReachOlder(tr, d, members, n - 1, before, e + rest);
      PassOneOlder(tr, d, members, n, before + (e + rest), e, rest);
    }
  }

  lemma {:induction false} PassOneOlder(tr: Trim, d: Descriptor, members: seq<Member>, n: nat, input: Bytes, e: Bytes, rest: Bytes)
    requires Trims(tr, d) && WellFormed(d) && MembersOk(d, members) && 0 < n <= |members|
    requires EncodeField(d.fields[n - 1], members[n - 1]) == Some(e) && |e| < WORD
    requires tr.kept[n - 1] ==> OlderReadable(tr, d, members, n - 1)
    requires var o, ms := Older(tr, d), OlderMembers(tr, d, members);
      |ms| == |o.fields| && Rank(tr.kept, n - 1) <= |ms| && Passes(o, ms, 0, input, Rank(tr.kept, n - 1), e + rest)
    ensures var o, ms := Older(tr, d), OlderMembers(tr, d, members);
      Rank(tr.kept, n) <= |ms| && Passes(o, ms, 0, input, Rank(tr.kept, n), rest)
    decreases tr, 6
  {
    PassOlder(tr, d, members, n - 1, e, rest);
    PassOn(Older(tr, d), OlderMembers(tr, d, members), 0, input, Rank(tr.kept, n - 1), e + rest, Rank(tr.kept, n), rest);
  }

  /** What the older version keeps of field i can be read. */
  ghost predicate OlderReadable(tr: Trim, d: Descriptor, members: seq<Member>, i: nat)
    requires Trims(tr, d) && i < |members| == |d.fields|
  {
    MemberReadable(OlderField(tr.inner[i], d.fields[i]), OlderMember(tr.inner[i], d.fields[i].ftype, members[i]))
  }

  lemma OlderSound(tr: Trim, d: Descriptor, members: seq<Member>)
    requires Trims(tr, d) && WellFormed(d) && MembersOk(d, members)
    ensures Sound(Older(tr, d), OlderMembers(tr, d, members))
  {
    OlderCounts(tr, d, members);
    OlderWellFormed(tr, d);
    OlderMembersOk(tr, d, members);
  }

  lemma KeptField(tr: Trim, d: Descriptor, members: seq<Member>, n: nat)
    requires Trims(tr, d) && WellFormed(d) && MembersOk(d, members) && n < |members| && tr.kept[n]
    ensures StemsFrom(Older(tr, d), OlderMembers(tr, d, members), Rank(tr.kept, n), tr.inner[n], d.fields[n], members[n])
  {
    StemsForward(tr, d, members, n);
    assert FieldWellFormed(d.fields[n]) && MemberOk(d.fields[n], members[n]);
  }

  /** One more field of the newer message: known or unknown. */
  lemma {:induction false} PassOlder(tr: Trim, d: Descriptor, members: seq<Member>, n: nat, e: Bytes, rest: Bytes)
    requires Trims(tr, d) && WellFormed(d) && MembersOk(d, members) && n < |members|
    requires EncodeField(d.fields[n], members[n]) == Some(e) && |e| < WORD && (tr.kept[n] ==> OlderReadable(tr, d, members, n))
    ensures var o, ms := Older(tr, d), OlderMembers(tr, d, members);
      && |ms| == |o.fields| && Rank(tr.kept, n) <= |ms| && Rank(tr.kept, n + 1) <= |ms|
      && Passes(o, ms, Rank(tr.kept, n), e + rest, Rank(tr.kept, n + 1), rest)
    decreases tr, 5
  {
    var o, ms := Older(tr, d), OlderMembers(tr, d, members);
    OlderRanks(tr, d, members, n);
    OlderRanks(tr, d, members, n + 1);
    OlderSound(tr, d, members);
    if tr.kept[n] {
      KeptField(tr, d, members, n);
      FieldReadsAs(o, ms, Rank(tr.kept, n), tr.inner[n], d.fields[n], members[n], e, rest);
      KnownPasses(o, ms, Rank(tr.kept, n), e, rest);
    } else {
      LeftOutIsUnknown(tr, d, n);
      UnknownPasses(o, ms, Rank(tr.kept, n), d.fields[n], members[n], e, rest);
    }
  }

  lemma KnownPasses(o: Descriptor, ms: seq<Member>, r: nat, e: Bytes, rest: Bytes)
    requires r < |ms| == |o.fields| && FieldForwards(o, ms, r, e, rest) && MemberReadable(o.fields[r], ms[r])
    ensures Passes(o, ms, r, e + rest, r + 1, rest)
  {
  }

  lemma UnknownPasses(o: Descriptor, ms: seq<Member>, r: nat, f: Field, m: Member, e: Bytes, rest: Bytes)
    requires r <= |ms| == |o.fields| && Unknown(o, f) && EncodeField(f, m) == Some(e) && |e| < WORD
    ensures Passes(o, ms, r, e + rest, r, rest)
  {
    UnknownField(o, After(o, ms, r), f, m, e, rest);
  }

  lemma OlderReadableIff(tr: Trim, d: Descriptor, members: seq<Member>)
    requires Trims(tr, d) && |members| == |d.fields|
    ensures |OlderMembers(tr, d, members)| == |Older(tr, d).fields|
    ensures MembersReadable(Older(tr, d), OlderMembers(tr, d, members), |OlderMembers(tr, d, members)|)
      <==> forall i :: 0 <= i < |members| && tr.kept[i] ==> OlderReadable(tr, d, members, i)
  {
    var o, ms := Older(tr, d), OlderMembers(tr, d, members);
    OlderCounts(tr, d, members);
    if MembersReadable(o, ms, |ms|) {
      forall i | 0 <= i < |members| && tr.kept[i] ensures OlderReadable(tr, d, members, i) {
        StemsForward(tr, d, members, i);
        assert MemberReadable(o.fields[Rank(tr.kept, i)], ms[Rank(tr.kept, i)]);
      }
    }
    if forall i :: 0 <= i < |members| && tr.kept[i] ==> OlderReadable(tr, d, members, i) {
      forall j | 0 <= j < |ms| ensures MemberReadable(o.fields[j], ms[j]) {
        var n := StemsBack(tr, d, members, j);
        assert OlderReadable(tr, d, members, n);
      }
    }
  }

  lemma {:induction false} OlderReads(tr: Trim, d: Descriptor, members: seq<Member>, w: Bytes)
    requires Trims(tr, d) && WellFormed(d) && MembersOk(d, members)
    requires EncodeUpTo(d, members, |members|) == Some(w) && |w| < WORD
    requires forall i :: 0 <= i < |members| && tr.kept[i] ==> OlderReadable(tr, d, members, i)
    ensures |OlderMembers(tr, d, members)| == |Older(tr, d).fields|
    ensures Decode(Older(tr, d), w) == Some(Meanings(Older(tr, d), OlderMembers(tr, d, members)))
    decreases tr, 8
  {
    var o, ms := Older(tr, d), OlderMembers(tr, d, members);
    OlderCounts(tr, d, members);
    OlderSound(tr, d, members);
    ReachOlder(tr, d, members, |members|, w, []);
    assert SameAfter(o, ms, 0, w + [], |ms|, [], 0);
    assert w + [] == w;
    AfterNothing(o, ms);
    assert SoundNow(o, ms, 0);
    Accepted(o, ms);
  }

  ghost function FirstUnreadableKept(tr: Trim, d: Descriptor, members: seq<Member>, from: nat): (k: nat)
    requires Trims(tr, d) && from <= |members| == |d.fields|
    requires exists i :: from <= i < |members| && tr.kept[i] && !OlderReadable(tr, d, members, i)
    ensures from <= k < |members| && tr.kept[k] && !OlderReadable(tr, d, members, k)
    ensures forall i :: from <= i < k && tr.kept[i] ==> OlderReadable(tr, d, members, i)
    decreases |members| - from
  {
    if tr.kept[from] && !OlderReadable(tr, d, members, from) then from else FirstUnreadableKept(tr, d, members, from + 1)
  }

  /** The older decoder stops at a string that it knows and cannot read. */
  lemma {:induction false} OlderStops(tr: Trim, d: Descriptor, members: seq<Member>, k: nat, e: Bytes, rest: Bytes)
    requires Trims(tr, d) && WellFormed(d) && MembersOk(d, members) && k < |members| && tr.kept[k]
    requires !OlderReadable(tr, d, members, k) && EncodeField(d.fields[k], members[k]) == Some(e) && |e| < WORD
    ensures var o, ms := Older(tr, d), OlderMembers(tr, d, members);
      |ms| == |o.fields| && Rank(tr.kept, k) <= |ms| && DecodeLoop(o, After(o, ms, Rank(tr.kept, k)), e + rest) == None
    decreases tr, 5
  {
    var o, ms := Older(tr, d), OlderMembers(tr, d, members);
    OlderSound(tr, d, members);
    KeptField(tr, d, members, k);
    FieldReadsAs(o, ms, Rank(tr.kept, k), tr.inner[k], d.fields[k], members[k], e, rest);
    assert !MemberReadable(o.fields[Rank(tr.kept, k)], ms[Rank(tr.kept, k)]);
  }

  lemma {:induction false} OlderRefuses(tr: Trim, d: Descriptor, members: seq<Member>, w: Bytes)
    requires Trims(tr, d) && WellFormed(d) && MembersOk(d, members)
    requires EncodeUpTo(d, members, |members|) == Some(w) && |w| < WORD
    requires exists i :: 0 <= i < |members| && tr.kept[i] && !OlderReadable(tr, d, members, i)
    ensures Decode(Older(tr, d), w) == None
    decreases tr, 8
  {
    var o, ms := Older(tr, d), OlderMembers(tr, d, members);
    var k := FirstUnreadableKept(tr, d, members, 0);
    var before, e, tail := MemberAt(d, members, k, w, []);
    assert w + [] == w;
    ReachOlder(tr, d, members, k, before, e + tail);
    OlderStops(tr, d, members, k, e, tail);
    assert SameAfter(o, ms, 0, before + (e + tail), Rank(tr.kept, k), e + tail, 0);
    AfterNothing(o, ms);
  }

  /** Decoding a message with a descriptor that, at any depth, lacks some of its fields: the fields that are known mean what they
      meant to the encoder, whatever the others are. Only strings of known fields can be in the way. */
  lemma {:induction false} ForwardCompatible(tr: Trim, d: Descriptor, members: seq<Member>)
    requires Trims(tr, d) && WellFormed(d) && MembersOk(d, members)
    requires Encode(d, members).Some? && |Encode(d, members).value| < WORD
    ensures Forwards(tr, d, members, Encode(d, members).value)
    decreases tr, 9
  {
    OlderReadableIff(tr, d, members);
    if forall i :: 0 <= i < |members| && tr.kept[i] ==> OlderReadable(tr, d, members, i) {
      OlderReads(tr, d, members, Encode(d, members).value);
    } else {
      OlderRefuses(tr, d, members, Encode(d, members).value);
    }
  }
}
