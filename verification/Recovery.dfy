/** Reopening a database: replaying the manifest, then the logs (db/version_set.cc: VersionSet::Recover;
    db/db_impl.cc: Recover, RecoverLogFile, WriteLevel0Table; db/builder.cc). */
module Recovery {
  import opened DbFormat
  import opened Versions
  import opened Builder
  import opened Installs
  import opened Manifests
  import opened WriteBatches
  import opened Logs
  import opened DbStates

  /** What the file system and the options decide: how large tables become and when a memtable is full. */
  datatype Sizes = Sizes(table: seq<Entry> -> nat, memFull: seq<Entry> -> bool)

  datatype Recovered = Recovered(version: Version, logNumber: nat, nextFileNumber: nat, lastSequence: SequenceNumber)

  /** VersionSet::Recover: all records through one builder; a missing counter is a corruption. */
  method RecoverVersion(manifest: seq<VersionEdit>) returns (r: Option<Recovered>)
    requires forall i :: 0 <= i < |manifest| ==> manifest[i].InRange()
    ensures var meta := MetaOf(manifest);
      && (r.Some? <==> meta.logNumber.Some? && meta.nextFileNumber.Some? && meta.lastSequence.Some?)
      && (r.Some? ==> r.value == Recovered(Replay(manifest), meta.logNumber.value, meta.nextFileNumber.value + 1,
                                           meta.lastSequence.value))
  {
    var builder := new VersionBuilder(EmptyVersion());
    var logNumber, nextFile, lastSequence := None, None, None;
    for i := 0 to |manifest|
      invariant fresh(builder) && builder.Valid() && builder.base == EmptyVersion()
      invariant builder.levels == ReplayState(manifest[..i])
      invariant Meta(logNumber, nextFile, lastSequence) == MetaOf(manifest[..i])
    {
      var edit := manifest[i];
      assert manifest[..i + 1][..i] == manifest[..i];
      builder.Apply(edit);
      if edit.logNumber.Some? {
        logNumber := edit.logNumber;
      }
      if edit.nextFileNumber.Some? {
        nextFile := edit.nextFileNumber;
      }
      if edit.lastSequence.Some? {
        lastSequence := edit.lastSequence;
      }
    }
    assert manifest[..|manifest|] == manifest;
    if logNumber.None? || nextFile.None? || lastSequence.None? {
      return None;
    }
    var v := builder.SaveTo();
    r := Some(Recovered(v, logNumber.value, nextFile.value + 1, lastSequence.value));
  }

  /** BuildTable: a table of all entries of a memtable; an empty memtable leaves no file. */
  method BuildTable(number: nat, es: seq<Entry>, sizes: Sizes) returns (f: Option<File>)
    requires Sorted(es)
    ensures f.None? <==> es == []
    ensures f.Some? ==> f.value.Valid() && f.value.number == number && f.value.entries == es && f.value.size == sizes.table(es)
  {
    if es == [] {
      return None;
    }
    var last := |es| - 1;
    forall e | e in es ensures AtMost(es[0].key, e.key) && AtMost(e.key, es[last].key) {
      var i :| 0 <= i < |es| && es[i] == e;
      assert 0 < i ==> Less(es[0].key, es[i].key);
      assert i < last ==> Less(es[i].key, es[last].key);
    }
    f := Some(File(number, sizes.table(es), es[0].key, es[last].key, es));
  }

  /** One more table with the writes that follow keeps the tables of a flush in order of age. */
  lemma TablesHoldSnoc(tables: seq<File>, f: File, h: History, p: nat, q: nat, r: nat)
    requires IsHistory(h) && TablesHold(tables, h, p, q) && q <= r <= |h|
    requires f.Valid() && ToSet(f.entries) == Writes(h[q..r]) && forall t :: t in tables ==> t.number < f.number
    ensures TablesHold(tables + [f], h, p, r)
  {
    HistorySet(h, p, q);
    HistorySet(h, q, r);
    HistorySplits(h, p, q, r);
    NewerTable(tables, f);
  }

  lemma NewerTable(tables: seq<File>, f: File)
    requires NewerByNumber(tables) && forall t :: t in tables ==> t.number < f.number
    requires forall x, y :: x in ToSet(f.entries) && y in EntriesOf(tables) ==> x.key.seqNo > y.key.seqNo
    ensures NewerByNumber(tables + [f]) && EntriesOf(tables + [f]) == EntriesOf(tables) + ToSet(f.entries)
  {
    var more := tables + [f];
    forall a, b | a in more && b in more && a.number > b.number ensures FileShadows(a, b) {
      if a in tables {
        assert FileShadows(a, b);
      } else {
        forall x, y | x in a.entries && y in b.entries ensures x.key.seqNo > y.key.seqNo {
          assert x in ToSet(f.entries) && y in EntriesOf(tables);
        }
      }
    }
  }

  lemma TablesHoldNothing(h: History, p: nat)
    requires p <= |h|
    ensures TablesHold([], h, p, p)
  {
    assert h[p..p] == [];
  }

  /** Inserting the next batch into a memtable with the writes from a on. */
  method InsertNext(batch: LogRecord, mem: Option<seq<Entry>>, ghost h: History, ghost a: nat, ghost at: nat)
    returns (r: seq<Entry>)
    requires IsHistory(h) && NextBatch(batch, h, at) && MaybeMemHolds(mem, h, a, at)
    ensures MemHolds(r, h, a, at + |batch.ops|)
  {
    var es := if mem.Some? then mem.value else [];
    assert a == at ==> h[a..at] == [];
    forall x | x in es ensures x.key.seqNo < batch.sequence {
      HistorySet(h, a, at);
      assert x in ToSet(es);
    }
    r := InsertInto(batch, es);
    assert OpHistory(batch.ops, batch.sequence) == h[at..at + |batch.ops|];
    OpWrites(batch.ops, batch.sequence);
    HistorySplits(h, a, at, at + |batch.ops|);
  }

  /** What replaying the logs has produced so far: the tables added to the edit, the table files, the file number
      counter and max_sequence. */
  datatype Progress = Progress(tables: seq<File>, onDisk: map<nat, seq<Entry>>, nextFileNumber: nat, maxSequence: nat)

  /** What is being recovered: the writes of the history after the first `flushed`, into files numbered from
      `first`, next to the table files that were there before. */
  datatype Goal = Goal(history: History, flushed: nat, first: nat, before: map<nat, seq<Entry>>)

  /** max_sequence is the last of the writes seen so far. */
  ghost predicate SequenceSeen(maxSequence: nat, p: nat, at: nat) {
    maxSequence <= at && (at == p || maxSequence == at)
  }

  ghost predicate FilesOk(g: Progress, goal: Goal) {
    && NumbersFrom(g.tables, goal.first) && goal.first <= g.nextFileNumber
    && (forall f :: f in g.tables ==> f.number < g.nextFileNumber && TableFor(g.onDisk, f))
    && forall n :: n in goal.before && n < goal.first ==> n in g.onDisk && g.onDisk[n] == goal.before[n]
  }

  /** The tables hold the writes up to `saved`, and the writes up to `at` have been read. */
  ghost predicate ProgressOk(g: Progress, goal: Goal, saved: nat, at: nat) {
    && IsHistory(goal.history) && TablesHold(g.tables, goal.history, goal.flushed, saved)
    && FilesOk(g, goal)
    && SequenceSeen(g.maxSequence, goal.flushed, at)
  }

  /** Everything that is left of the history is in tables, and the last sequence number is that of its last write. */
  ghost predicate Complete(g: Progress, goal: Goal, lastSequence: nat) {
    && IsHistory(goal.history) && TablesHold(g.tables, goal.history, goal.flushed, |goal.history|)
    && FilesOk(g, goal)
    && (if lastSequence < g.maxSequence then g.maxSequence else lastSequence) == |goal.history|
  }

  /** After the last log nothing is missing but what was lost. */
  lemma NothingMore(g: Progress, goal: Goal, at: nat, lastSequence: nat)
    requires ProgressOk(g, goal, at, at) && NothingAfter(goal.history, at, lastSequence)
    requires goal.flushed <= lastSequence <= |goal.history|
    ensures Complete(g, goal, lastSequence)
  {
    var h := goal.history;
    HistorySplits(h, goal.flushed, at, |h|);
    forall e ensures e !in Writes(h[at..|h|]) {
      WritesMember(h[at..|h|], e);
    }
  }

  /** WriteLevel0Table without a base version: the table goes to level 0. */
  method WriteLevel0Table(g: Progress, mem: seq<Entry>, sizes: Sizes, ghost goal: Goal, ghost saved: nat, ghost at: nat)
    returns (r: Progress)
    requires ProgressOk(g, goal, saved, at) && MemHolds(mem, goal.history, saved, at)
    ensures ProgressOk(r, goal, at, at) && r.nextFileNumber >= g.nextFileNumber
    ensures mem != [] ==> |r.tables| == |g.tables| + 1 && r.tables[|g.tables|].entries == mem
  {
    var number := g.nextFileNumber;
    var meta := BuildTable(number, mem, sizes);
    r := g.(nextFileNumber := number + 1);
    if meta.Some? {
      TablesHoldSnoc(g.tables, meta.value, goal.history, goal.flushed, saved, at);
      r := r.(tables := g.tables + [meta.value], onDisk := g.onDisk[number := mem]);
    } else {
      NothingToSave(goal.history, goal.flushed, saved, at);
    }
  }

  lemma NothingToSave(h: History, p: nat, a: nat, b: nat)
    requires p <= a && MemHolds([], h, a, b)
    ensures Writes(h[p..b]) == Writes(h[p..a])
  {
    HistorySplits(h, p, a, b);
  }

  /** A full memtable has become a table; one that is not full is kept. */
  ghost predicate FlushedIfFull(sizes: Sizes, mem: seq<Entry>, newMem: Option<seq<Entry>>, before: seq<File>, after: seq<File>) {
    if sizes.memFull(mem) then newMem == None && (mem != [] ==> |after| == |before| + 1 && after[|before|].entries == mem)
    else newMem == Some(mem) && after == before
  }

  /** One record of a log: insert it, and write a table when the memtable is full. */
  method RecoverRecord(g: Progress, batch: LogRecord, mem: Option<seq<Entry>>, sizes: Sizes,
                       ghost goal: Goal, ghost saved: nat, ghost at: nat)
    returns (r: Progress, newMem: Option<seq<Entry>>, ghost newSaved: nat)
    requires ProgressOk(g, goal, saved, at) && MaybeMemHolds(mem, goal.history, saved, at)
    requires NextBatch(batch, goal.history, at)
    ensures ProgressOk(r, goal, newSaved, at + |batch.ops|) && r.nextFileNumber >= g.nextFileNumber
    ensures MaybeMemHolds(newMem, goal.history, newSaved, at + |batch.ops|)
    ensures exists m :: MemHolds(m, goal.history, saved, at + |batch.ops|) && FlushedIfFull(sizes, m, newMem, g.tables, r.tables)
  {
    var inserted := InsertNext(batch, mem, goal.history, saved, at);
    newMem, newSaved, r := Some(inserted), saved, g;
    var lastSequence := batch.sequence + |batch.ops| - 1;
    if lastSequence > g.maxSequence {
      r := r.(maxSequence := lastSequence);
    }
    if sizes.memFull(inserted) {
      r := WriteLevel0Table(r, inserted, sizes, goal, saved, at + |batch.ops|);
      newMem, newSaved := None, at + |batch.ops|;
    }
    assert FlushedIfFull(sizes, inserted, newMem, g.tables, r.tables);
  }

  /** RecoverLogFile: every record goes into a memtable; full memtables and the last one become tables. */
  method RecoverLogFile(g: Progress, records: seq<LogRecord>, sizes: Sizes, ghost goal: Goal, ghost s: nat)
    returns (r: Progress)
    requires ProgressOk(g, goal, s, s) && RecordsHold(records, |records|, goal.history, s)
    ensures ProgressOk(r, goal, RecordsEnd(records, |records|, s), RecordsEnd(records, |records|, s))
    ensures r.nextFileNumber >= g.nextFileNumber
  {
    r := g;
    var mem: Option<seq<Entry>> := None;
    ghost var saved: nat := s;
    assert s <= |goal.history|;
    for i := 0 to |records|
      invariant ProgressOk(r, goal, saved, RecordsEnd(records, i, s)) && r.nextFileNumber >= g.nextFileNumber
      invariant MaybeMemHolds(mem, goal.history, saved, RecordsEnd(records, i, s))
    {
      NextRecord(records, |records|, goal.history, s, i);
      r, mem, saved := RecoverRecord(r, records[i], mem, sizes, goal, saved, RecordsEnd(records, i, s));
    }
    if mem.Some? {
      r := WriteLevel0Table(r, mem.value, sizes, goal, saved, RecordsEnd(records, |records|, s));
    }
  }

  /** VersionSet::MarkFileNumberUsed. */
  method MarkFileNumberUsed(g: Progress, number: nat, ghost goal: Goal, ghost saved: nat, ghost at: nat) returns (r: Progress)
    requires ProgressOk(g, goal, saved, at)
    ensures ProgressOk(r, goal, saved, at) && r.nextFileNumber > number && r.nextFileNumber >= g.nextFileNumber
  {
    r := if g.nextFileNumber <= number then g.(nextFileNumber := number + 1) else g;
  }

  /** One log file of Recover. */
  method RecoverLog(g: Progress, number: nat, records: seq<LogRecord>, sizes: Sizes, ghost goal: Goal, ghost s: nat)
    returns (r: Progress)
    requires ProgressOk(g, goal, s, s) && RecordsHold(records, |records|, goal.history, s)
    ensures ProgressOk(r, goal, RecordsEnd(records, |records|, s), RecordsEnd(records, |records|, s))
    ensures r.nextFileNumber > number && r.nextFileNumber >= g.nextFileNumber
  {
    r := RecoverLogFile(g, records, sizes, goal, s);
    r := MarkFileNumberUsed(r, number, goal, RecordsEnd(records, |records|, s), RecordsEnd(records, |records|, s));
  }

  /** The log part of DBImpl::Recover: afterwards every write that is left is in a table, max_sequence is the
      last of the replayed writes, and all log numbers count as used. */
  method RecoverLogs(logs: map<nat, seq<LogRecord>>, minLog: nat, g: Progress, sizes: Sizes,
                     ghost goal: Goal, ghost hi: nat, ghost lastSequence: nat)
    returns (r: Progress)
    requires LogsCover(logs, minLog, hi, goal.history, goal.flushed, lastSequence)
    requires ProgressOk(g, goal, goal.flushed, goal.flushed) && goal.flushed <= lastSequence <= |goal.history|
    ensures Complete(r, goal, lastSequence)
    ensures forall n :: n in logs && minLog <= n ==> n < r.nextFileNumber
  {
    r := g;
    var numbers := LogsToRecover(logs, minLog);
    ghost var at := goal.flushed;
    for i := 0 to |numbers|
      invariant at == LogsEnd(logs, minLog, After(numbers, minLog, i), goal.flushed)
      invariant ProgressOk(r, goal, at, at)
      invariant forall j :: 0 <= j < i ==> numbers[j] < r.nextFileNumber
    {
      var number: nat := numbers[i];
      NextLog(logs, numbers, minLog, hi, goal.history, goal.flushed, i);
      r := RecoverLog(r, number, logs[number], sizes, goal, at);
      at := LogEnd(logs, number, at);
    }
    NoMoreLogs(logs, numbers, minLog, hi, goal.history, goal.flushed);
    NothingMore(r, goal, at, lastSequence);
  }
}
