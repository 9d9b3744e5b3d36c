/** The records of a manifest as bytes: what LogAndApply writes, Recover reads and replays
    (db/version_set.cc: LogAndApply, Recover; db/version_edit.cc). */
module ManifestBytes {
  import opened DbFormat
  import opened Versions
  import opened Builder
  import opened Coding
  import EditCodec

  /** How internal keys are written as bytes and read back, and the contents of the table files: an edit names a file
      by its number and key range. */
  datatype Coder = Coder(code: InternalKey -> Bytes, decode: Bytes -> InternalKey, tables: map<nat, seq<Entry>>)

  /** The coder can read back what it writes for the file. */
  ghost predicate FileReadable(c: Coder, f: File) {
    && c.decode(c.code(f.smallest)) == f.smallest && c.decode(c.code(f.largest)) == f.largest
    && f.number in c.tables && c.tables[f.number] == f.entries
  }

  ghost predicate EditReadable(c: Coder, e: VersionEdit) {
    forall i :: 0 <= i < |e.newFiles| ==> FileReadable(c, e.newFiles[i].1)
  }

  function FileRecordOf(c: Coder, f: File): EditCodec.FileRecord {
    EditCodec.FileRecord(f.number, f.size, c.code(f.smallest), c.code(f.largest))
  }

  function FileOf(c: Coder, r: EditCodec.FileRecord): File {
    File(r.number, r.fileSize, c.decode(r.smallest), c.decode(r.largest), if r.number in c.tables then c.tables[r.number] else [])
  }

  /** The edit that a decoded record stands for. */
  function Meaning(c: Coder, x: EditCodec.Edit): VersionEdit {
    VersionEdit(x.logNumber, x.nextFileNumber,
                if x.lastSequence.Some? && x.lastSequence.value <= MAX_SEQUENCE_NUMBER then Some(x.lastSequence.value) else None,
                set d | d in x.deletedFiles,
                seq(|x.newFiles|, i requires 0 <= i < |x.newFiles| => (x.newFiles[i].0, FileOf(c, x.newFiles[i].1))))
  }

  /** x is the edit e, as it is written; compaction pointers and the comparator name may come with it. */
  ghost predicate Writes(c: Coder, e: VersionEdit, x: EditCodec.Edit) {
    && x.logNumber == e.logNumber && x.nextFileNumber == e.nextFileNumber && SameSequence(x.lastSequence, e.lastSequence)
    && (forall d :: d in x.deletedFiles <==> d in e.deletedFiles)
    && |x.newFiles| == |e.newFiles|
    && (forall i :: 0 <= i < |e.newFiles| ==> x.newFiles[i] == (e.newFiles[i].0, FileRecordOf(c, e.newFiles[i].1)))
    && EditCodec.EditFits(x)
  }

  ghost predicate SameSequence(a: Option<nat>, b: Option<SequenceNumber>) {
    if b.Some? then a == Some(b.value) else a.None?
  }

  lemma MeaningIsEdit(c: Coder, e: VersionEdit, x: EditCodec.Edit)
    requires Writes(c, e, x) && EditReadable(c, e)
    ensures Meaning(c, x) == e
  {
    var m := Meaning(c, x);
    forall i | 0 <= i < |e.newFiles| ensures m.newFiles[i] == e.newFiles[i] {
      assert FileReadable(c, e.newFiles[i].1);
    }
    assert m.newFiles == e.newFiles;
    assert m.deletedFiles == e.deletedFiles;
  }

  /** The record is some encoding of the edit. */
  ghost predicate Encodes(c: Coder, e: VersionEdit, record: Bytes) {
    exists x :: Writes(c, e, x) && record == EditCodec.Encode(x)
  }

  ghost predicate ManifestEncodes(c: Coder, edits: seq<VersionEdit>, records: seq<Bytes>) {
    |records| == |edits| && forall i {:trigger RecordOk(c, edits, records, i)} :: 0 <= i < |edits| ==> RecordOk(c, edits, records, i)
  }

  ghost predicate RecordOk(c: Coder, edits: seq<VersionEdit>, records: seq<Bytes>, i: nat)
    requires i < |edits| == |records|
  {
    EditReadable(c, edits[i]) && Encodes(c, edits[i], records[i])
  }

  /** What a record decodes to, into a fresh edit. */
  function DecodedEdit(c: Coder, record: Bytes): Option<VersionEdit> {
    var x := EditCodec.DecodeItems(EditCodec.Cleared(EditCodec.EMPTY_EDIT), record);
    if x.Some? then Some(Meaning(c, x.value)) else None
  }

  function Decoder(c: Coder): Bytes -> Option<VersionEdit> {
    record => DecodedEdit(c, record)
  }

  function DecodeAll(decode: Bytes -> Option<VersionEdit>, records: seq<Bytes>, n: nat): Option<seq<VersionEdit>>
    requires n <= |records|
  {
    if n == 0 then Some([])
    else
      var before, last := DecodeAll(decode, records, n - 1), decode(records[n - 1]);
      if before.None? || last.None? then None else Some(before.value + [last.value])
  }

  method DecodeRecord(c: Coder, record: Bytes) returns (edit: Option<VersionEdit>)
    ensures edit == Decoder(c)(record)
  {
    var x := new EditCodec.EditRecord();
    var ok := x.DecodeFrom(record);
    edit := if ok then Some(Meaning(c, x.edit)) else None;
  }

  /** The loop of Recover over the records: every one is decoded into a fresh edit. */
  method ReadManifest(c: Coder, records: seq<Bytes>) returns (edits: Option<seq<VersionEdit>>)
    ensures edits == DecodeAll(Decoder(c), records, |records|)
  {
    var all := [];
    ghost var decode := Decoder(c);
    for n := 0 to |records|
      invariant DecodeAll(decode, records, n) == Some(all)
    {
      var edit := DecodeRecord(c, records[n]);
      if edit.None? {
        NoneStays(decode, records, n + 1, |records|);
        return None;
      }
      all := all + [edit.value];
    }
    return Some(all);
  }

  lemma {:induction false} NoneStays(decode: Bytes -> Option<VersionEdit>, records: seq<Bytes>, n: nat, m: nat)
    requires n <= m <= |records| && DecodeAll(decode, records, n).None?
    ensures DecodeAll(decode, records, m).None?
    decreases m
  {
    if n < m {
      NoneStays(decode, records, n, m - 1);
    }
  }

  lemma RecordDecodes(c: Coder, e: VersionEdit, record: Bytes)
    requires EditReadable(c, e) && Encodes(c, e, record)
    ensures Decoder(c)(record) == Some(e)
  {
    var x :| Writes(c, e, x) && record == EditCodec.Encode(x);
    EditCodec.EditRoundTrip(EditCodec.EMPTY_EDIT, x);
    MeaningIsEdit(c, e, x);
  }

  lemma {:induction false} AllDecode(decode: Bytes -> Option<VersionEdit>, edits: seq<VersionEdit>, records: seq<Bytes>, n: nat)
    requires n <= |records| && n <= |edits|
    requires forall i {:trigger records[i]} :: 0 <= i < n ==> decode(records[i]) == Some(edits[i])
    ensures DecodeAll(decode, records, n) == Some(edits[..n])
  {
    if n > 0 {
      AllDecode(decode, edits, records, n - 1);
      TakeOneMore(edits, n - 1);
    }
  }

  /** Written as bytes, decoded into fresh edits and replayed through one builder, the edits of a manifest give the
      version that installing them one at a time gave. */
  lemma BytesReplay(c: Coder, edits: seq<VersionEdit>, records: seq<Bytes>)
    requires FreshChain(edits) && ManifestEncodes(c, edits, records)
    ensures var read := DecodeAll(Decoder(c), records, |records|);
      read.Some? && Replay(read.value) == InstallAll(edits)
  {
    forall i {:trigger records[i]} | 0 <= i < |records| ensures Decoder(c)(records[i]) == Some(edits[i]) {
      assert RecordOk(c, edits, records, i);
      RecordDecodes(c, edits[i], records[i]);
    }
    AllDecode(Decoder(c), edits, records, |records|);
    assert edits[..|records|] == edits;
    ReplayIsInstallAll(edits);
  }

  // ---- Every edit can be written ----

  lemma {:induction false} InsertedPair(pairs: seq<(nat, nat)>, p: (nat, nat))
    requires EditCodec.Increasing(pairs)
    ensures EditCodec.Increasing(EditCodec.InsertPair(pairs, p))
    ensures forall d :: d in EditCodec.InsertPair(pairs, p) <==> d in pairs || d == p
    decreases |pairs|
  {
    if pairs != [] && pairs[0] != p && !EditCodec.PairBefore(p, pairs[0]) {
      var rest := pairs[1..];
      forall i, j | 0 <= i < j < |rest| ensures EditCodec.PairBefore(rest[i], rest[j]) {
        assert EditCodec.PairBefore(pairs[i + 1], pairs[j + 1]);
      }
      InsertedPair(rest, p);
      var more := EditCodec.InsertPair(rest, p);
      forall d | d in more ensures EditCodec.PairBefore(pairs[0], d) {
        if d != p {
          var i :| 0 <= i < |rest| && rest[i] == d;
          assert EditCodec.PairBefore(pairs[0], pairs[i + 1]);
        }
      }
    } else if pairs != [] && EditCodec.PairBefore(p, pairs[0]) {
      forall i | 0 <= i < |pairs| ensures EditCodec.PairBefore(p, pairs[i]) {
        assert i > 0 ==> EditCodec.PairBefore(pairs[0], pairs[i]);
      }
    }
  }

  /** The std::set order of deleted files. */
  lemma {:induction false} SortedPairs(s: set<(nat, nat)>) returns (pairs: seq<(nat, nat)>)
    ensures EditCodec.Increasing(pairs) && forall d :: d in pairs <==> d in s
    decreases |s|
  {
    if s == {} {
      pairs := [];
    } else {
      var d :| d in s;
      pairs := SortedPairs(s - {d});
      InsertedPair(pairs, d);
      pairs := EditCodec.InsertPair(pairs, d);
    }
  }

  lemma {:induction false} DeletedFit(deleted: seq<(nat, nat)>)
    requires forall d :: d in deleted ==> d.0 < NUM_LEVELS && d.1 < TWO_64
    ensures forall i :: 0 <= i < |EditCodec.DeletedItems(deleted)| ==> EditCodec.Fits(EditCodec.DeletedItems(deleted)[i])
    decreases |deleted|
  {
    if deleted != [] {
      DeletedFit(deleted[1..]);
    }
  }

  lemma {:induction false} NewFit(files: seq<(nat, EditCodec.FileRecord)>)
    requires forall i :: 0 <= i < |files| ==> EditCodec.Fits(EditCodec.NewFile(files[i].0, files[i].1))
    ensures forall i :: 0 <= i < |EditCodec.NewItems(files)| ==> EditCodec.Fits(EditCodec.NewItems(files)[i])
    decreases |files|
  {
    if files != [] {
      NewFit(files[1..]);
    }
  }

  /** The numbers of the edit are 64-bit numbers, and its keys are not too long to be written. */
  ghost predicate Writable(c: Coder, e: VersionEdit) {
    && e.InRange()
    && (e.logNumber.Some? ==> e.logNumber.value < TWO_64) && (e.nextFileNumber.Some? ==> e.nextFileNumber.value < TWO_64)
    && (forall d :: d in e.deletedFiles ==> d.1 < TWO_64)
    && forall i :: 0 <= i < |e.newFiles| ==> FileWritable(c, e.newFiles[i].1)
  }

  ghost predicate FileWritable(c: Coder, f: File) {
    f.number < TWO_64 && f.size < TWO_64 && |c.code(f.smallest)| < WORD && |c.code(f.largest)| < WORD
  }

  /** Such an edit has an encoding. */
  lemma EditIsWritten(c: Coder, e: VersionEdit) returns (x: EditCodec.Edit)
    requires Writable(c, e)
    ensures Writes(c, e, x)
  {
    var deleted := SortedPairs(e.deletedFiles);
    var files := seq(|e.newFiles|, i requires 0 <= i < |e.newFiles| => (e.newFiles[i].0, FileRecordOf(c, e.newFiles[i].1)));
    x := EditCodec.Edit(None, e.logNumber, None, e.nextFileNumber, e.lastSequence, [], deleted, files);
    forall i | 0 <= i < |files| ensures EditCodec.Fits(EditCodec.NewFile(files[i].0, files[i].1)) {
      assert FileWritable(c, e.newFiles[i].1);
    }
    DeletedFit(deleted);
    NewFit(files);
  }
}
