/** What the decoders accept: exactly the byte strings that are built as the formats say, numbers padded with empty groups
    included (util/coding.cc, db/write_batch.cc, db/version_edit.cc,
    table/block.cc). */
module WireFormats {
  import opened DbFormat
  import opened Coding
  import opened BatchBytes
  import opened TornLogs
  import WriteBatches
  import Versions
  import EditCodec
  import Blocks

  // ---- Numbers and strings ----

  /** Groups of seven bits: the high bit is set in all but the last. */
  ghost predicate Groups(w: Bytes) {
    w != [] && w[|w| - 1] < 128 && forall i :: 0 <= i < |w| - 1 ==> w[i] >= 128
  }

  ghost function GroupsValue(w: Bytes): nat {
    if w == [] then 0 else w[0] as nat % 128 + 128 * GroupsValue(w[1..])
  }

  /** The input begins with n groups that make the number. */
  ghost predicate NumberAt(input: Bytes, n: nat, v: nat, rest: Bytes) {
    n <= |input| && Groups(input[..n]) && v == GroupsValue(input[..n]) && rest == input[n..]
  }

  lemma {:induction false} NumberFound(input: Bytes, room: nat) returns (n: nat)
    requires GetVarint(input, room).Parsed?
    ensures n <= room && NumberAt(input, n, GetVarint(input, room).value, GetVarint(input, room).rest)
    decreases room
  {
    if input[0] < 128 {
      n := 1;
      assert input[..1][1..] == [];
    } else {
      n := NumberFound(input[1..], room - 1);
      NumberMore(input, n, GetVarint(input[1..], room - 1).value, GetVarint(input, room).rest);
      n := n + 1;
    }
  }

  lemma NumberMore(input: Bytes, n: nat, v: nat, rest: Bytes)
    requires input != [] && input[0] >= 128
    ensures NumberAt(input[1..], n, v, rest) <==> n > 0 && NumberAt(input, n + 1, input[0] as nat - 128 + 128 * v, rest)
  {
    if n < |input| {
      var w, tail := input[..n + 1], input[1..][..n];
      assert w[1..] == tail;
      assert n > 0 ==> w[|w| - 1] == tail[|tail| - 1];
      assert forall i :: 0 < i < |w| ==> w[i] == tail[i - 1];
      assert forall i :: 0 <= i < |tail| ==> tail[i] == w[i + 1];
    }
  }

  lemma HighBit(b: Byte)
    requires b >= 128
    ensures b as nat % 128 == b as nat - 128
  {
  }

  lemma NumberTail(input: Bytes, n: nat, v: nat, rest: Bytes) returns (u: nat)
    requires NumberAt(input, n, v, rest) && n > 1
    ensures input[0] >= 128 && v == input[0] as nat - 128 + 128 * u && NumberAt(input[1..], n - 1, u, rest)
  {
    var w, tail := input[..n], input[1..][..n - 1];
    assert w[1..] == tail && w[0] == input[0];
    assert w[0] >= 128 && tail[|tail| - 1] == w[|w| - 1];
    forall i | 0 <= i < |tail| - 1 ensures tail[i] >= 128 {
      assert tail[i] == w[i + 1];
    }
    u := GroupsValue(tail);
    HighBit(w[0]);
    assert v == w[0] as nat % 128 + 128 * u;
    assert rest == input[1..][n - 1..];
    assert Groups(tail);
  }

  lemma OneGroup(input: Bytes, v: nat, rest: Bytes)
    requires NumberAt(input, 1, v, rest)
    ensures input[0] < 128 && v == input[0] as nat && rest == input[1..]
  {
    var w := input[..1];
    assert w[|w| - 1] == input[0] && w[0] == input[0] && w[1..] == [];
    assert GroupsValue(w) == w[0] as nat % 128 + 128 * GroupsValue(w[1..]);
  }

  lemma {:induction false} NumberRead(input: Bytes, room: nat, n: nat, v: nat, rest: Bytes)
    requires NumberAt(input, n, v, rest) && n <= room
    ensures GetVarint(input, room) == Parsed(v, rest)
    decreases n
  {
    if n == 1 {
      OneGroup(input, v, rest);
    } else {
      var u := NumberTail(input, n, v, rest);
      NumberRead(input[1..], room - 1, n - 1, u, rest);
    }
  }

  /** The input begins with a number of at most `room` groups, of which only the part below the width counts. */
  ghost predicate ReadsNumber(input: Bytes, room: nat, width: nat, v: nat, rest: Bytes)
    requires width > 0
  {
    exists n: nat, whole: nat :: NumberAt(input, n, whole, rest) && n <= room && v == whole % width
  }

  lemma NumberExact(input: Bytes, room: nat, width: nat, v: nat, rest: Bytes)
    requires width > 0
    ensures ReadsNumber(input, room, width, v, rest)
            <==> GetVarint(input, room).Parsed? && GetVarint(input, room).value % width == v && GetVarint(input, room).rest == rest
  {
    if GetVarint(input, room).Parsed? {
      var n := NumberFound(input, room);
    }
    if ReadsNumber(input, room, width, v, rest) {
      var n: nat, whole: nat :| NumberAt(input, n, whole, rest) && n <= room && v == whole % width;
      NumberRead(input, room, n, whole, rest);
    }
  }

  ghost predicate Reads32(input: Bytes, v: nat, rest: Bytes) {
    ReadsNumber(input, 5, 0x1_0000_0000, v, rest)
  }

  ghost predicate Reads64(input: Bytes, v: nat, rest: Bytes) {
    ReadsNumber(input, 10, 0x1_0000_0000_0000_0000, v, rest)
  }

  lemma Varint32Exact(input: Bytes, v: nat, rest: Bytes)
    ensures GetVarint32(input) == Parsed(v, rest) <==> Reads32(input, v, rest)
  {
    NumberExact(input, 5, 0x1_0000_0000, v, rest);
  }

  lemma Varint64Exact(input: Bytes, v: nat, rest: Bytes)
    ensures GetVarint64(input) == Parsed(v, rest) <==> Reads64(input, v, rest)
  {
    NumberExact(input, 10, 0x1_0000_0000_0000_0000, v, rest);
  }

  /** A length and as many bytes. */
  ghost predicate ReadsString(input: Bytes, s: Bytes, rest: Bytes) {
    Reads32(input, |s|, s + rest)
  }

  lemma StringExact(input: Bytes, s: Bytes, rest: Bytes)
    ensures GetSlice(input) == Parsed(s, rest) <==> ReadsString(input, s, rest)
  {
    Varint32Exact(input, |s|, s + rest);
    var length := GetVarint32(input);
    if GetSlice(input) == Parsed(s, rest) {
      assert length.rest == s + rest;
    }
    if ReadsString(input, s, rest) {
      assert (s + rest)[..|s|] == s && (s + rest)[|s|..] == rest;
    }
  }

  // ---- Batches ----

  ghost predicate ReadsTwo(input: Bytes, a: Bytes, b: Bytes, rest: Bytes) {
    exists middle :: ReadsString(input, a, middle) && ReadsString(middle, b, rest)
  }

  ghost predicate ReadsOp(input: Bytes, op: BatchOp, rest: Bytes) {
    input != [] &&
    match op
    case PutOp(key, value) => input[0] == 1 && ReadsTwo(input[1..], key, value, rest)
    case DeleteOp(key) => input[0] == 0 && ReadsString(input[1..], key, rest)
  }

  lemma OpExact(input: Bytes, op: BatchOp, rest: Bytes)
    requires input != []
    ensures ParseOp(input) == Good(op, rest) <==> ReadsOp(input, op, rest)
  {
    match op
    case PutOp(k, v) =>
      if ParseOp(input) == Good(op, rest) {
        StringExact(input[1..], k, GetSlice(input[1..]).rest);
        StringExact(GetSlice(input[1..]).rest, v, rest);
      }
      if ReadsOp(input, op, rest) {
        var middle :| ReadsString(input[1..], k, middle) && ReadsString(middle, v, rest);
        StringExact(input[1..], k, middle);
        StringExact(middle, v, rest);
      }
    case DeleteOp(k) => StringExact(input[1..], k, rest);
  }

  ghost predicate ReadsOps(input: Bytes, ops: seq<BatchOp>)
    decreases |ops|
  {
    if ops == [] then input == [] else exists rest :: ReadsOp(input, ops[0], rest) && ReadsOps(rest, ops[1..])
  }

  lemma OpsCons(input: Bytes, op: BatchOp, rest: Bytes, more: seq<BatchOp>)
    requires ReadsOp(input, op, rest) && ReadsOps(rest, more)
    ensures ReadsOps(input, [op] + more)
  {
    assert ([op] + more)[1..] == more;
  }

  lemma OpsFirst(input: Bytes, ops: seq<BatchOp>) returns (rest: Bytes)
    requires ReadsOps(input, ops) && ops != []
    ensures ReadsOps(rest, ops[1..]) && input != [] && ParseOp(input) == Good(ops[0], rest)
  {
    rest :| ReadsOp(input, ops[0], rest) && ReadsOps(rest, ops[1..]);
    OpExact(input, ops[0], rest);
  }

  lemma {:induction false} OpsFound(found: seq<BatchOp>, input: Bytes) returns (ops: seq<BatchOp>)
    requires ParseOps(found, input).error.None?
    ensures ReadsOps(input, ops)
    decreases |input|
  {
    if input == [] {
      ops := [];
    } else {
      var first := ParseOp(input);
      OpExact(input, first.op, first.rest);
      ParseStep(found, input, first.op, first.rest);
      var more := OpsFound(found + [first.op], first.rest);
      OpsCons(input, first.op, first.rest, more);
      ops := [first.op] + more;
    }
  }

  lemma {:induction false} OpsParsed(found: seq<BatchOp>, input: Bytes, ops: seq<BatchOp>)
    requires ReadsOps(input, ops)
    ensures ParseOps(found, input) == Iterated(found + ops, None)
    decreases |ops|
  {
    if ops == [] {
      assert found + ops == found;
    } else {
      var rest := OpsFirst(input, ops);
      ParseStep(found, input, ops[0], rest);
      OpsParsed(found + [ops[0]], rest, ops[1..]);
      Rejoined(found, ops);
    }
  }

  /** A batch is accepted exactly if it is a header and as many operations as the header says. */
  lemma BatchExact(rep: Bytes, ops: seq<BatchOp>)
    ensures Iteration(rep) == Iterated(ops, None)
            <==> |rep| >= HEADER && ReadsOps(rep[HEADER..], ops) && CountOf(rep) == |ops|
  {
    if Iteration(rep) == Iterated(ops, None) {
      var found := OpsFound([], rep[HEADER..]);
      OpsParsed([], rep[HEADER..], found);
      assert [] + found == found;
    }
    if |rep| >= HEADER && ReadsOps(rep[HEADER..], ops) && CountOf(rep) == |ops| {
      OpsParsed([], rep[HEADER..], ops);
      assert [] + ops == ops;
    }
  }

  /** A log record counts exactly if it is such a batch. */
  lemma RecordExact(c: KeyCoder, record: Bytes, sequence: nat, ops: seq<WriteBatches.WriteOp>)
    ensures RecordOf(c, record) == Some(WriteBatches.LogRecord(sequence, ops))
            <==> |record| >= HEADER && SequenceOf(record) == sequence && exists read: seq<BatchOp> ::
                   ReadsOps(record[HEADER..], read) && CountOf(record) == |read| && ops == OpsRead(c, read)
  {
    if RecordOf(c, record) == Some(WriteBatches.LogRecord(sequence, ops)) {
      BatchExact(record, Iteration(record).ops);
    }
    forall read: seq<BatchOp> | |record| >= HEADER && ReadsOps(record[HEADER..], read) && CountOf(record) == |read|
      ensures Iteration(record) == Iterated(read, None)
    {
      BatchExact(record, read);
    }
  }

  // ---- Edits ----

  ghost predicate ReadsLevel(input: Bytes, level: nat, rest: Bytes) {
    Reads32(input, level, rest) && level < Versions.NUM_LEVELS
  }

  lemma LevelExact(input: Bytes, level: nat, rest: Bytes)
    ensures EditCodec.GetLevel(input) == Parsed(level, rest) <==> ReadsLevel(input, level, rest)
  {
    Varint32Exact(input, level, rest);
  }

  ghost predicate ReadsFile(input: Bytes, file: EditCodec.FileRecord, rest: Bytes) {
    exists a, b :: Reads64(input, file.number, a) && Reads64(a, file.fileSize, b) && ReadsTwo(b, file.smallest, file.largest, rest)
  }

  ghost predicate ReadsPointer(input: Bytes, level: nat, key: Bytes, rest: Bytes) {
    exists middle :: ReadsLevel(input, level, middle) && ReadsString(middle, key, rest)
  }

  ghost predicate ReadsDeleted(input: Bytes, level: nat, number: nat, rest: Bytes) {
    exists middle :: ReadsLevel(input, level, middle) && Reads64(middle, number, rest)
  }

  ghost predicate ReadsNew(input: Bytes, level: nat, file: EditCodec.FileRecord, rest: Bytes) {
    exists middle :: ReadsLevel(input, level, middle) && ReadsFile(middle, file, rest)
  }

  /** What follows the tag of an item. */
  ghost predicate ReadsBody(input: Bytes, item: EditCodec.Item, rest: Bytes) {
    match item
    case Comparator(name) => ReadsString(input, name, rest)
    case Number(_, number) => Reads64(input, number, rest)
    case CompactPointer(level, key) => ReadsPointer(input, level, key, rest)
    case DeletedFile(level, number) => ReadsDeleted(input, level, number, rest)
    case NewFile(level, file) => ReadsNew(input, level, file, rest)
  }

  ghost predicate ReadsItem(input: Bytes, item: EditCodec.Item, rest: Bytes) {
    exists body :: Reads32(input, EditCodec.TagOf(item), body) && ReadsBody(body, item, rest)
  }

  lemma TwoFound(input: Bytes)
    requires GetSlice(input).Parsed? && GetSlice(GetSlice(input).rest).Parsed?
    ensures var a := GetSlice(input); var b := GetSlice(a.rest); ReadsTwo(input, a.value, b.value, b.rest)
  {
    var a := GetSlice(input);
    var b := GetSlice(a.rest);
    StringExact(input, a.value, a.rest);
    StringExact(a.rest, b.value, b.rest);
  }

  lemma TwoRead(input: Bytes, a: Bytes, b: Bytes, rest: Bytes) returns (middle: Bytes)
    requires ReadsTwo(input, a, b, rest)
    ensures GetSlice(input) == Parsed(a, middle) && GetSlice(middle) == Parsed(b, rest)
  {
    middle :| ReadsString(input, a, middle) && ReadsString(middle, b, rest);
    StringExact(input, a, middle);
    StringExact(middle, b, rest);
  }

  lemma FileExact(level: nat, input: Bytes, file: EditCodec.FileRecord, rest: Bytes)
    ensures EditCodec.GetFile(level, input) == Parsed(EditCodec.NewFile(level, file), rest) <==> ReadsFile(input, file, rest)
  {
    if EditCodec.GetFile(level, input) == Parsed(EditCodec.NewFile(level, file), rest) {
      var number := GetVarint64(input);
      var size := GetVarint64(number.rest);
      Varint64Exact(input, file.number, number.rest);
      Varint64Exact(number.rest, file.fileSize, size.rest);
      TwoFound(size.rest);
    }
    if ReadsFile(input, file, rest) {
      var a, b :| Reads64(input, file.number, a) && Reads64(a, file.fileSize, b) && ReadsTwo(b, file.smallest, file.largest, rest);
      Varint64Exact(input, file.number, a);
      Varint64Exact(a, file.fileSize, b);
      var middle := TwoRead(b, file.smallest, file.largest, rest);
    }
  }

  lemma BodyFound(tag: nat, input: Bytes)
    requires EditCodec.GetBody(tag, input).Parsed?
    ensures var r := EditCodec.GetBody(tag, input); EditCodec.TagOf(r.value) == tag && ReadsBody(input, r.value, r.rest)
  {
    var r := EditCodec.GetBody(tag, input);
    var level := EditCodec.GetLevel(input);
    if level.Parsed? {
      LevelExact(input, level.value, level.rest);
    }
    match r.value
    case Comparator(name) => StringExact(input, name, r.rest);
    case Number(_, number) => Varint64Exact(input, number, r.rest);
    case CompactPointer(_, key) => StringExact(level.rest, key, r.rest);
    case DeletedFile(_, number) => Varint64Exact(level.rest, number, r.rest);
    case NewFile(_, file) => FileExact(level.value, level.rest, file, r.rest);
  }

  lemma PointerRead(input: Bytes, level: nat, key: Bytes, rest: Bytes)
    requires ReadsPointer(input, level, key, rest)
    ensures EditCodec.GetBody(5, input) == Parsed(EditCodec.CompactPointer(level, key), rest)
  {
    var middle :| ReadsLevel(input, level, middle) && ReadsString(middle, key, rest);
    LevelExact(input, level, middle);
    StringExact(middle, key, rest);
    EditCodec.PointerBody(input, level, middle, key, rest);
  }

  lemma DeletedRead(input: Bytes, level: nat, number: nat, rest: Bytes)
    requires ReadsDeleted(input, level, number, rest)
    ensures EditCodec.GetBody(6, input) == Parsed(EditCodec.DeletedFile(level, number), rest)
  {
    var middle :| ReadsLevel(input, level, middle) && Reads64(middle, number, rest);
    LevelExact(input, level, middle);
    Varint64Exact(middle, number, rest);
    EditCodec.DeletedBody(input, level, middle, number, rest);
  }

  lemma NewRead(input: Bytes, level: nat, file: EditCodec.FileRecord, rest: Bytes)
    requires ReadsNew(input, level, file, rest)
    ensures EditCodec.GetBody(7, input) == Parsed(EditCodec.NewFile(level, file), rest)
  {
    var middle :| ReadsLevel(input, level, middle) && ReadsFile(middle, file, rest);
    LevelExact(input, level, middle);
    FileExact(level, middle, file, rest);
    EditCodec.NewFileBody(input, level, middle, file, rest);
  }

  lemma BodyRead(input: Bytes, item: EditCodec.Item, rest: Bytes)
    requires ReadsBody(input, item, rest)
    ensures EditCodec.GetBody(EditCodec.TagOf(item), input) == Parsed(item, rest)
  {
    match item
    case Comparator(name) => StringExact(input, name, rest);
    case Number(_, number) => Varint64Exact(input, number, rest);
    case CompactPointer(level, key) => PointerRead(input, level, key, rest);
    case DeletedFile(level, number) => DeletedRead(input, level, number, rest);
    case NewFile(level, file) => NewRead(input, level, file, rest);
  }

  lemma ItemExact(input: Bytes, item: EditCodec.Item, rest: Bytes)
    ensures EditCodec.GetItem(input) == Parsed(item, rest) <==> ReadsItem(input, item, rest)
  {
    if EditCodec.GetItem(input) == Parsed(item, rest) {
      var tag := GetVarint32(input);
      Varint32Exact(input, tag.value, tag.rest);
      BodyFound(tag.value, tag.rest);
    }
    if ReadsItem(input, item, rest) {
      var body :| Reads32(input, EditCodec.TagOf(item), body) && ReadsBody(body, item, rest);
      Varint32Exact(input, EditCodec.TagOf(item), body);
      BodyRead(body, item, rest);
    }
  }

  ghost predicate ReadsItems(input: Bytes, items: seq<EditCodec.Item>)
    decreases |items|
  {
    if items == [] then input == [] else exists rest :: ReadsItem(input, items[0], rest) && ReadsItems(rest, items[1..])
  }

  lemma {:induction false} ItemsFound(e: EditCodec.Edit, input: Bytes) returns (items: seq<EditCodec.Item>)
    requires EditCodec.DecodeItems(e, input).Some?
    ensures ReadsItems(input, items) && EditCodec.DecodeItems(e, input) == Some(EditCodec.StoreAll(e, items))
    decreases |input|
  {
    if input == [] {
      items := [];
    } else {
      var first := EditCodec.GetItem(input);
      ItemExact(input, first.value, first.rest);
      var more := ItemsFound(EditCodec.Store(e, first.value), first.rest);
      items := [first.value] + more;
      assert items[1..] == more;
    }
  }

  lemma {:induction false} ItemsParsed(e: EditCodec.Edit, input: Bytes, items: seq<EditCodec.Item>)
    requires ReadsItems(input, items)
    ensures EditCodec.DecodeItems(e, input) == Some(EditCodec.StoreAll(e, items))
    decreases |items|
  {
    if items != [] {
      var rest :| ReadsItem(input, items[0], rest) && ReadsItems(rest, items[1..]);
      ItemExact(input, items[0], rest);
      assert input != [];
      ItemsParsed(EditCodec.Store(e, items[0]), rest, items[1..]);
    }
  }

  /** An edit is accepted exactly if it is a list of tagged items with levels in range; they are stored in order. */
  lemma EditExact(e: EditCodec.Edit, input: Bytes, x: EditCodec.Edit)
    ensures EditCodec.DecodeItems(e, input) == Some(x)
            <==> exists items :: ReadsItems(input, items) && x == EditCodec.StoreAll(e, items)
  {
    if EditCodec.DecodeItems(e, input) == Some(x) {
      var items := ItemsFound(e, input);
    }
    if items :| ReadsItems(input, items) && x == EditCodec.StoreAll(e, items) {
      ItemsParsed(e, input, items);
    }
  }

  // ---- Block entries ----

  ghost predicate ReadsThree(input: Bytes, a: nat, b: nat, c: nat, rest: Bytes) {
    exists x, y :: Reads32(input, a, x) && Reads32(x, b, y) && Reads32(y, c, rest)
  }

  lemma LengthsExact(input: Bytes, d: Blocks.Decoded)
    ensures Blocks.DecodeLengths(input) == Some(d) <==> ReadsThree(input, d.shared, d.nonShared, d.valueLength, d.delta)
  {
    if Blocks.DecodeLengths(input) == Some(d) {
      var x := GetVarint32(input).rest;
      var y := GetVarint32(x).rest;
      Varint32Exact(input, d.shared, x);
      Varint32Exact(x, d.nonShared, y);
      Varint32Exact(y, d.valueLength, d.delta);
    }
    if ReadsThree(input, d.shared, d.nonShared, d.valueLength, d.delta) {
      var x, y :| Reads32(input, d.shared, x) && Reads32(x, d.nonShared, y) && Reads32(y, d.valueLength, d.delta);
      Varint32Exact(input, d.shared, x);
      Varint32Exact(x, d.nonShared, y);
      Varint32Exact(y, d.valueLength, d.delta);
    }
  }

  /** An entry is accepted exactly if it has three lengths and as many bytes as the last two say. */
  lemma EntryExact(input: Bytes, d: Blocks.Decoded)
    ensures Blocks.DecodeEntry(input) == Some(d)
            <==> ReadsThree(input, d.shared, d.nonShared, d.valueLength, d.delta) && d.nonShared + d.valueLength <= |d.delta|
  {
    LengthsExact(input, d);
    if |input| >= 3 && input[0] < 128 && input[1] < 128 && input[2] < 128 {
      Blocks.FastPathAgrees(input);
    }
  }

  /** A block is opened exactly if the restart array that its last four bytes announce fits. */
  lemma OpenExact(data: Bytes)
    ensures Blocks.Open(data).Some? <==> |data| >= 4 && 4 * DecodeFixed32(data[|data| - 4..]) + 4 <= |data|
  {
  }
}
