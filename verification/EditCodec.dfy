/** Version edits as bytes (db/version_edit.h, db/version_edit.cc). Internal keys are byte strings here. */
module EditCodec {
  import opened DbFormat
  import opened Coding
  import Versions

  datatype FileRecord = FileRecord(number: nat, fileSize: nat, smallest: Bytes, largest: Bytes)

  /** The value of an edit; deleted files are a std::set of (level, number), kept here in its order. */
  datatype Edit = Edit(
    comparator: Option<Bytes>,
    logNumber: Option<nat>,
    prevLogNumber: Option<nat>,
    nextFileNumber: Option<nat>,
    lastSequence: Option<nat>,
    compactPointers: seq<(nat, Bytes)>,
    deletedFiles: seq<(nat, nat)>,
    newFiles: seq<(nat, FileRecord)>)

  const EMPTY_EDIT := Edit(None, None, None, None, None, [], [], [])

  datatype Counter = LogNumber | PrevLogNumber | NextFileNumber | LastSequence

  /** One tagged item of the encoding. */
  datatype Item =
    | Comparator(name: Bytes)
    | Number(counter: Counter, number: nat)
    | CompactPointer(level: nat, key: Bytes)
    | DeletedFile(level: nat, number: nat)
    | NewFile(level: nat, file: FileRecord)

  function CounterTag(counter: Counter): nat {
    match counter
    case LogNumber => 2
    case NextFileNumber => 3
    case LastSequence => 4
    case PrevLogNumber => 9
  }

  function TagOf(item: Item): nat {
    match item
    case Comparator(_) => 1
    case Number(counter, _) => CounterTag(counter)
    case CompactPointer(_, _) => 5
    case DeletedFile(_, _) => 6
    case NewFile(_, _) => 7
  }

  // ---- Encoding ----

  function EncodeFile(file: FileRecord): Bytes {
    EncodeVarint(file.number) + (EncodeVarint(file.fileSize) + (EncodeSlice(file.smallest) + EncodeSlice(file.largest)))
  }

  function EncodeBody(item: Item): Bytes {
    match item
    case Comparator(name) => EncodeSlice(name)
    case Number(_, number) => EncodeVarint(number)
    case CompactPointer(level, key) => EncodeVarint(level) + EncodeSlice(key)
    case DeletedFile(level, number) => EncodeVarint(level) + EncodeVarint(number)
    case NewFile(level, file) => EncodeVarint(level) + EncodeFile(file)
  }

  function EncodeItem(item: Item): Bytes {
    EncodeVarint(TagOf(item)) + EncodeBody(item)
  }

  function EncodeItems(items: seq<Item>): Bytes {
    if items == [] then [] else EncodeItem(items[0]) + EncodeItems(items[1..])
  }

  function NumberItem(counter: Counter, number: Option<nat>): seq<Item> {
    if number.Some? then [Number(counter, number.value)] else []
  }

  function PointerItems(pointers: seq<(nat, Bytes)>): seq<Item> {
    if pointers == [] then [] else [CompactPointer(pointers[0].0, pointers[0].1)] + PointerItems(pointers[1..])
  }

  function DeletedItems(deleted: seq<(nat, nat)>): seq<Item> {
    if deleted == [] then [] else [DeletedFile(deleted[0].0, deleted[0].1)] + DeletedItems(deleted[1..])
  }

  function NewItems(files: seq<(nat, FileRecord)>): seq<Item> {
    if files == [] then [] else [NewFile(files[0].0, files[0].1)] + NewItems(files[1..])
  }

  /** The single-valued items, in the order in which EncodeTo writes them. */
  function HeaderItems(e: Edit): seq<Item> {
    (if e.comparator.Some? then [Comparator(e.comparator.value)] else []) +
    NumberItem(LogNumber, e.logNumber) + NumberItem(PrevLogNumber, e.prevLogNumber) +
    NumberItem(NextFileNumber, e.nextFileNumber) + NumberItem(LastSequence, e.lastSequence)
  }

  function ItemsOf(e: Edit): seq<Item> {
    HeaderItems(e) + PointerItems(e.compactPointers) + DeletedItems(e.deletedFiles) + NewItems(e.newFiles)
  }

  /** VersionEdit::EncodeTo. */
  function Encode(e: Edit): Bytes {
    EncodeItems(ItemsOf(e))
  }

  // ---- Decoding ----

  function GetLevel(input: Bytes): (r: Parsed<nat>)
    ensures r.Parsed? ==> |r.rest| < |input| && r.value < Versions.NUM_LEVELS
  {
    var v := GetVarint32(input);
    if v.Parsed? && v.value < Versions.NUM_LEVELS then v else Failed
  }

  function GetNumber(counter: Counter, input: Bytes): (r: Parsed<Item>)
    ensures r.Parsed? ==> |r.rest| < |input|
  {
    var v := GetVarint64(input);
    if v.Parsed? then Parsed(Number(counter, v.value), v.rest) else Failed
  }

  function GetFile(level: nat, input: Bytes): (r: Parsed<Item>)
    ensures r.Parsed? ==> |r.rest| < |input|
  {
    var number := GetVarint64(input);
    if number.Failed? then Failed else
      var size := GetVarint64(number.rest);
      if size.Failed? then Failed else
        var smallest := GetSlice(size.rest);
        if smallest.Failed? then Failed else
          var largest := GetSlice(smallest.rest);
          if largest.Failed? then Failed
          else Parsed(NewFile(level, FileRecord(number.value, size.value, smallest.value, largest.value)), largest.rest)
  }

  /** The switch of DecodeFrom: what follows a tag. An unknown tag fails. */
  function GetBody(tag: nat, input: Bytes): (r: Parsed<Item>)
    ensures r.Parsed? ==> |r.rest| < |input|
  {
    if tag == 1 then
      var name := GetSlice(input);
      if name.Parsed? then Parsed(Comparator(name.value), name.rest) else Failed
    else if tag == 2 then GetNumber(LogNumber, input)
    else if tag == 9 then GetNumber(PrevLogNumber, input)
    else if tag == 3 then GetNumber(NextFileNumber, input)
    else if tag == 4 then GetNumber(LastSequence, input)
    else if tag == 5 || tag == 6 || tag == 7 then
      var level := GetLevel(input);
      if level.Failed? then Failed
      else if tag == 5 then
        var key := GetSlice(level.rest);
        if key.Parsed? then Parsed(CompactPointer(level.value, key.value), key.rest) else Failed
      else if tag == 6 then
        var number := GetVarint64(level.rest);
        if number.Parsed? then Parsed(DeletedFile(level.value, number.value), number.rest) else Failed
      else GetFile(level.value, level.rest)
    else Failed
  }

  function GetItem(input: Bytes): (r: Parsed<Item>)
    ensures r.Parsed? ==> |r.rest| < |input|
  {
    var tag := GetVarint32(input);
    if tag.Failed? then Failed else GetBody(tag.value, tag.rest)
  }

  predicate PairBefore(a: (nat, nat), b: (nat, nat)) {
    a.0 < b.0 || (a.0 == b.0 && a.1 < b.1)
  }

  /** std::set::insert. */
  function InsertPair(set_: seq<(nat, nat)>, p: (nat, nat)): seq<(nat, nat)> {
    if set_ == [] || PairBefore(p, set_[0]) then [p] + set_
    else if set_[0] == p then set_
    else [set_[0]] + InsertPair(set_[1..], p)
  }

  /** What one item does to the edit. */
  function Store(e: Edit, item: Item): Edit {
    match item
    case Comparator(name) => e.(comparator := Some(name))
    case Number(counter, number) => StoreCounter(e, counter, number)
    case CompactPointer(level, key) => e.(compactPointers := e.compactPointers + [(level, key)])
    case DeletedFile(level, number) => e.(deletedFiles := InsertPair(e.deletedFiles, (level, number)))
    case NewFile(level, file) => e.(newFiles := e.newFiles + [(level, file)])
  }

  function StoreCounter(e: Edit, counter: Counter, number: nat): Edit {
    match counter
    case LogNumber => e.(logNumber := Some(number))
    case PrevLogNumber => e.(prevLogNumber := Some(number))
    case NextFileNumber => e.(nextFileNumber := Some(number))
    case LastSequence => e.(lastSequence := Some(number))
  }

  /** The loop of DecodeFrom: None is a corruption. */
  function DecodeItems(e: Edit, input: Bytes): Option<Edit>
    decreases |input|
  {
    if input == [] then Some(e)
    else
      var item := GetItem(input);
      if item.Failed? then None else DecodeItems(Store(e, item.value), item.rest)
  }

  /** VersionEdit::Clear keeps the compaction pointers. */
  function Cleared(e: Edit): Edit {
    EMPTY_EDIT.(compactPointers := e.compactPointers)
  }

  class EditRecord {
    var edit: Edit

    constructor ()
      ensures edit == EMPTY_EDIT
    {
      edit := EMPTY_EDIT;
    }

    method Clear()
      modifies this
      ensures edit == Cleared(old(edit))
    {
      edit := edit.(comparator := None, logNumber := None, prevLogNumber := None, nextFileNumber := None,
                    lastSequence := None, deletedFiles := [], newFiles := []);
    }

    method EncodeTo(dst: Bytes) returns (r: Bytes)
      ensures r == dst + Encode(edit)
    {
      r := dst;
      var items := ItemsOf(edit);
      for i := 0 to |items|
        invariant r + EncodeItems(items[i..]) == dst + Encode(edit)
      {
        assert items[i..][0] == items[i] && items[i..][1..] == items[i + 1..];
        r := r + EncodeItem(items[i]);
      }
    }

    /** DecodeFrom: clears the edit, then stores item after item until the input ends or cannot be parsed. */
    method DecodeFrom(src: Bytes) returns (ok: bool)
      modifies this
      ensures ok <==> DecodeItems(Cleared(old(edit)), src).Some?
      ensures ok ==> Some(edit) == DecodeItems(Cleared(old(edit)), src)
    {
      Clear();
      var input := src;
      while input != []
        invariant DecodeItems(edit, input) == DecodeItems(Cleared(old(edit)), src)
        decreases |input|
      {
        var item := GetItem(input);
        if item.Failed? {
          return false;
        }
        edit := Store(edit, item.value);
        input := item.rest;
      }
      return true;
    }
  }

  // ---- Round trip ----

  ghost predicate Fits(item: Item) {
    match item
    case Comparator(name) => |name| < WORD
    case Number(_, number) => number < TWO_64
    case CompactPointer(level, key) => level < Versions.NUM_LEVELS && |key| < WORD
    case DeletedFile(level, number) => level < Versions.NUM_LEVELS && number < TWO_64
    case NewFile(level, file) =>
      level < Versions.NUM_LEVELS && file.number < TWO_64 && file.fileSize < TWO_64 && |file.smallest| < WORD && |file.largest| < WORD
  }

  lemma FileRoundTrip(level: nat, file: FileRecord, rest: Bytes)
    requires Fits(NewFile(level, file))
    ensures GetFile(level, EncodeFile(file) + rest) == Parsed(NewFile(level, file), rest)
  {
    var d := EncodeSlice(file.largest) + rest;
    var c := EncodeSlice(file.smallest) + d;
    var b := EncodeVarint(file.fileSize) + c;
    SliceRoundTrip(file.largest, rest);
    SliceRoundTrip(file.smallest, d);
    Varint64RoundTrip(file.fileSize, c);
    Varint64RoundTrip(file.number, b);
    assert EncodeFile(file) + rest == EncodeVarint(file.number) + b;
  }

  lemma LevelRoundTrip(level: nat, rest: Bytes)
    requires level < Versions.NUM_LEVELS
    ensures GetLevel(EncodeVarint(level) + rest) == Parsed(level, rest)
  {
    Varint32RoundTrip(level, rest);
  }

  lemma PointerBody(input: Bytes, level: nat, keyInput: Bytes, key: Bytes, rest: Bytes)
    requires GetLevel(input) == Parsed(level, keyInput) && GetSlice(keyInput) == Parsed(key, rest)
    ensures GetBody(5, input) == Parsed(CompactPointer(level, key), rest)
  {
  }

  lemma DeletedBody(input: Bytes, level: nat, numberInput: Bytes, number: nat, rest: Bytes)
    requires GetLevel(input) == Parsed(level, numberInput) && GetVarint64(numberInput) == Parsed(number, rest)
    ensures GetBody(6, input) == Parsed(DeletedFile(level, number), rest)
  {
  }

  lemma PointerRoundTrip(level: nat, key: Bytes, rest: Bytes)
    requires Fits(CompactPointer(level, key))
    ensures GetBody(5, EncodeVarint(level) + EncodeSlice(key) + rest) == Parsed(CompactPointer(level, key), rest)
  {
    Regroup(EncodeVarint(level), EncodeSlice(key), rest);
    LevelRoundTrip(level, EncodeSlice(key) + rest);
    SliceRoundTrip(key, rest);
    PointerBody(EncodeVarint(level) + (EncodeSlice(key) + rest), level, EncodeSlice(key) + rest, key, rest);
  }

  lemma DeletedRoundTrip(level: nat, number: nat, rest: Bytes)
    requires Fits(DeletedFile(level, number))
    ensures GetBody(6, EncodeVarint(level) + EncodeVarint(number) + rest) == Parsed(DeletedFile(level, number), rest)
  {
    Regroup(EncodeVarint(level), EncodeVarint(number), rest);
    LevelRoundTrip(level, EncodeVarint(number) + rest);
    Varint64RoundTrip(number, rest);
    DeletedBody(EncodeVarint(level) + (EncodeVarint(number) + rest), level, EncodeVarint(number) + rest, number, rest);
  }

  lemma NewFileBody(input: Bytes, level: nat, fileInput: Bytes, file: FileRecord, rest: Bytes)
    requires GetLevel(input) == Parsed(level, fileInput) && GetFile(level, fileInput) == Parsed(NewFile(level, file), rest)
    ensures GetBody(7, input) == Parsed(NewFile(level, file), rest)
  {
  }

  lemma NewFileRoundTrip(level: nat, file: FileRecord, rest: Bytes)
    requires Fits(NewFile(level, file))
    ensures GetBody(7, EncodeVarint(level) + EncodeFile(file) + rest) == Parsed(NewFile(level, file), rest)
  {
    Regroup(EncodeVarint(level), EncodeFile(file), rest);
    LevelRoundTrip(level, EncodeFile(file) + rest);
    FileRoundTrip(level, file, rest);
    NewFileBody(EncodeVarint(level) + (EncodeFile(file) + rest), level, EncodeFile(file) + rest, file, rest);
  }

  lemma BodyRoundTrip(item: Item, rest: Bytes)
    requires Fits(item)
    ensures GetBody(TagOf(item), EncodeBody(item) + rest) == Parsed(item, rest)
  {
    match item
    case Comparator(name) => SliceRoundTrip(name, rest);
    case Number(counter, number) => Varint64RoundTrip(number, rest);
    case CompactPointer(level, key) => PointerRoundTrip(level, key, rest);
    case DeletedFile(level, number) => DeletedRoundTrip(level, number, rest);
    case NewFile(level, file) => NewFileRoundTrip(level, file, rest);
  }

  lemma ItemRoundTrip(item: Item, rest: Bytes)
    requires Fits(item)
    ensures GetItem(EncodeItem(item) + rest) == Parsed(item, rest)
  {
    assert EncodeItem(item) + rest == EncodeVarint(TagOf(item)) + (EncodeBody(item) + rest);
    Varint32RoundTrip(TagOf(item), EncodeBody(item) + rest);
    BodyRoundTrip(item, rest);
  }

  function StoreAll(e: Edit, items: seq<Item>): Edit
    decreases |items|
  {
    if items == [] then e else StoreAll(Store(e, items[0]), items[1..])
  }

  /** Decoding a list of items stores them one by one. */
  lemma {:induction false} ItemsRoundTrip(e: Edit, items: seq<Item>)
    requires forall i :: 0 <= i < |items| ==> Fits(items[i])
    ensures DecodeItems(e, EncodeItems(items)) == Some(StoreAll(e, items))
    decreases |items|
  {
    if items != [] {
      var rest := EncodeItems(items[1..]);
      ItemRoundTrip(items[0], rest);
      assert EncodeItems(items) == EncodeItem(items[0]) + rest && EncodeItem(items[0]) != [];
      ItemsRoundTrip(Store(e, items[0]), items[1..]);
    }
  }

  lemma {:induction false} StoreAllConcat(e: Edit, a: seq<Item>, b: seq<Item>)
    ensures StoreAll(e, a + b) == StoreAll(StoreAll(e, a), b)
    decreases |a|
  {
    if a == [] {
      assert a + b == b;
    } else {
      assert (a + b)[1..] == a[1..] + b;
      StoreAllConcat(Store(e, a[0]), a[1..], b);
    }
  }

  lemma Shift<T>(a: seq<T>, b: seq<T>)
    requires b != []
    ensures a + [b[0]] + b[1..] == a + b
  {
  }

  lemma {:induction false} StorePointers(e: Edit, pointers: seq<(nat, Bytes)>)
    ensures StoreAll(e, PointerItems(pointers)) == e.(compactPointers := e.compactPointers + pointers)
    decreases |pointers|
  {
    if pointers == [] {
      assert e.compactPointers + pointers == e.compactPointers;
    } else {
      StorePointers(Store(e, CompactPointer(pointers[0].0, pointers[0].1)), pointers[1..]);
      assert PointerItems(pointers)[1..] == PointerItems(pointers[1..]);
      Shift(e.compactPointers, pointers);
    }
  }

  ghost predicate Increasing(pairs: seq<(nat, nat)>) {
    forall i, j {:trigger PairBefore(pairs[i], pairs[j])} :: 0 <= i < j < |pairs| ==> PairBefore(pairs[i], pairs[j])
  }

  lemma {:induction false} InsertLast(pairs: seq<(nat, nat)>, p: (nat, nat))
    requires forall i :: 0 <= i < |pairs| ==> PairBefore(pairs[i], p)
    ensures InsertPair(pairs, p) == pairs + [p]
    decreases |pairs|
  {
    if pairs != [] {
      InsertLast(pairs[1..], p);
      assert [pairs[0]] + (pairs[1..] + [p]) == pairs + [p];
    }
  }

  lemma {:induction false} StoreDeleted(e: Edit, deleted: seq<(nat, nat)>)
    requires Increasing(e.deletedFiles + deleted)
    ensures StoreAll(e, DeletedItems(deleted)) == e.(deletedFiles := e.deletedFiles + deleted)
    decreases |deleted|
  {
    var all := e.deletedFiles + deleted;
    if deleted == [] {
      assert all == e.deletedFiles;
    } else {
      forall i | 0 <= i < |e.deletedFiles| ensures PairBefore(e.deletedFiles[i], deleted[0]) {
        assert PairBefore(all[i], all[|e.deletedFiles|]);
      }
      InsertLast(e.deletedFiles, deleted[0]);
      assert e.deletedFiles + [deleted[0]] + deleted[1..] == all;
      StoreDeleted(Store(e, DeletedFile(deleted[0].0, deleted[0].1)), deleted[1..]);
      assert DeletedItems(deleted)[1..] == DeletedItems(deleted[1..]);
    }
  }

  lemma {:induction false} StoreNew(e: Edit, files: seq<(nat, FileRecord)>)
    ensures StoreAll(e, NewItems(files)) == e.(newFiles := e.newFiles + files)
    decreases |files|
  {
    if files == [] {
      assert e.newFiles + files == e.newFiles;
    } else {
      StoreNew(Store(e, NewFile(files[0].0, files[0].1)), files[1..]);
      assert NewItems(files)[1..] == NewItems(files[1..]);
      assert e.newFiles + [(files[0].0, files[0].1)] + files[1..] == e.newFiles + files;
    }
  }

  lemma StoreNumber(e: Edit, counter: Counter, number: Option<nat>)
    ensures StoreAll(e, NumberItem(counter, number)) == if number.Some? then StoreCounter(e, counter, number.value) else e
  {
    if number.Some? {
      assert [Number(counter, number.value)][1..] == [];
    }
  }

  lemma StoreName(e: Edit)
    requires e.comparator.None?
    ensures forall name: Option<Bytes> {:trigger e.(comparator := name)} ::
      StoreAll(e, if name.Some? then [Comparator(name.value)] else []) == e.(comparator := name)
  {
    forall name: Option<Bytes>
      ensures StoreAll(e, if name.Some? then [Comparator(name.value)] else []) == e.(comparator := name)
    {
      if name.Some? {
        assert [Comparator(name.value)][1..] == [];
      }
    }
  }

  /** The single-valued items set exactly the fields that the edit has. */
  lemma StoreHeader(pointers: seq<(nat, Bytes)>, e: Edit)
    ensures StoreAll(EMPTY_EDIT.(compactPointers := pointers), HeaderItems(e))
         == e.(compactPointers := pointers, deletedFiles := [], newFiles := [])
  {
    var e0 := EMPTY_EDIT.(compactPointers := pointers);
    var name := if e.comparator.Some? then [Comparator(e.comparator.value)] else [];
    var a, b := NumberItem(LogNumber, e.logNumber), NumberItem(PrevLogNumber, e.prevLogNumber);
    var c, d := NumberItem(NextFileNumber, e.nextFileNumber), NumberItem(LastSequence, e.lastSequence);
    StoreAllConcat(e0, name + a + b + c, d);
    StoreAllConcat(e0, name + a + b, c);
    StoreAllConcat(e0, name + a, b);
    StoreAllConcat(e0, name, a);
    StoreName(e0);
    var e1 := e0.(comparator := e.comparator);
    StoreNumber(e1, LogNumber, e.logNumber);
    var e2 := e1.(logNumber := e.logNumber);
    StoreNumber(e2, PrevLogNumber, e.prevLogNumber);
    var e3 := e2.(prevLogNumber := e.prevLogNumber);
    StoreNumber(e3, NextFileNumber, e.nextFileNumber);
    var e4 := e3.(nextFileNumber := e.nextFileNumber);
    StoreNumber(e4, LastSequence, e.lastSequence);
  }

  ghost predicate EditFits(e: Edit) {
    (forall i :: 0 <= i < |ItemsOf(e)| ==> Fits(ItemsOf(e)[i])) && Increasing(e.deletedFiles)
  }

  /** Decoding what was encoded gives the edit back, except that the compaction pointers which the receiving object
      already had stay in front: only a fresh object decodes to an equal edit. */
  lemma EditRoundTrip(before: Edit, e: Edit)
    requires EditFits(e)
    ensures DecodeItems(Cleared(before), Encode(e)) == Some(e.(compactPointers := before.compactPointers + e.compactPointers))
    ensures DecodeItems(Cleared(before), Encode(e)) == Some(e) <==> before.compactPointers == []
  {
    var start, pointers := Cleared(before), before.compactPointers + e.compactPointers;
    var h, p, d, n := HeaderItems(e), PointerItems(e.compactPointers), DeletedItems(e.deletedFiles), NewItems(e.newFiles);
    ItemsRoundTrip(start, ItemsOf(e));
    StoreAllConcat(start, h + p + d, n);
    StoreAllConcat(start, h + p, d);
    StoreAllConcat(start, h, p);
    StoreHeader(before.compactPointers, e);
    var e1 := e.(compactPointers := before.compactPointers, deletedFiles := [], newFiles := []);
    StorePointers(e1, e.compactPointers);
    assert [] + e.deletedFiles == e.deletedFiles && [] + e.newFiles == e.newFiles;
    StoreDeleted(e1.(compactPointers := pointers), e.deletedFiles);
    StoreNew(e1.(compactPointers := pointers, deletedFiles := e.deletedFiles), e.newFiles);
    assert before.compactPointers == [] ==> pointers == e.compactPointers;
    assert pointers == e.compactPointers ==> |before.compactPointers| == 0;
  }
}
