/** The state of an open database as a value, its invariant part by part, and the effect of every step as a
    function; each step keeps the invariant (db/db_impl.cc). */
module DbSteps {
  import opened DbFormat
  import opened Versions
  import opened Builder
  import opened Inputs
  import opened Compactions
  import opened Installs
  import opened Manifests
  import opened WriteBatches
  import opened Logs
  import opened DbStates
  import opened Recovery
  import opened Exposures
  import opened DbInvariants
  import opened Gaps

  /** The bookkeeping of the proof: all writes so far; how many of them are in tables; how many have left the
      current memtable; the oldest sequence number that can still be read; the keys whose reads compactions have
      changed; and how many writes were in tables when the running compaction started. */
  datatype Ledger = Ledger(history: History, flushed: nat, switched: nat, floor: nat, exposed: set<UserKey>,
                           pendingFrom: nat)

  datatype DbState = DbState(
    disk: Disk,
    mem: seq<Entry>,
    imm: Option<seq<Entry>>,
    current: Version,
    lastSequence: SequenceNumber,
    nextFileNumber: nat,
    logNumber: nat,
    logFileNumber: nat,
    snapshots: seq<SequenceNumber>,
    pinned: seq<Version>,
    pending: Option<Pending>,
    ledger: Ledger)

  datatype Part = VersionPart | MemoryPart | LogPart | CounterPart | SnapshotPart | PinnedPart | PendingPart

  ghost predicate PartOk(s: DbState, part: Part) {
    var led := s.ledger;
    match part
    case VersionPart =>
      VersionOk(s.disk.manifest, s.disk.tables, s.current, led.history, led.flushed, led.floor, led.exposed)
    case MemoryPart => MemoryOk(s.mem, s.imm, led.history, led.flushed, led.switched)
    case LogPart => LogFilesOk(s.disk.logs, s.logNumber, s.logFileNumber, led.history, led.flushed, led.switched)
    case CounterPart =>
      CountersOk(MetaOf(s.disk.manifest), s.logNumber, s.logFileNumber, s.nextFileNumber) && s.lastSequence == |led.history|
    case SnapshotPart => SnapshotsOk(s.snapshots, led.floor, |led.history|)
    case PinnedPart => PinnedOk(s.disk.tables, s.pinned, s.nextFileNumber)
    case PendingPart => s.pending.Some? ==> PendingOk(s, s.pending.value)
  }

  ghost predicate PendingOk(s: DbState, c: Pending) {
    && MergeDone(c) && OutputsOk(c.outputs, s.disk.manifest, s.disk.tables, s.nextFileNumber)
    && SinceStart(c.base, s.current, s.ledger.history, s.ledger.pendingFrom, s.ledger.flushed)
    && SnapshotOk(c.snap, s.snapshots, s.ledger.floor) && c.snap <= |s.ledger.history|
    && s.ledger.floor <= s.ledger.pendingFrom
    && TablesPresent(s.disk.tables, c.base)
  }

  /** The invariant of an open database. */
  ghost predicate StateOk(s: DbState) {
    forall part {:trigger PartOk(s, part)} :: PartOk(s, part)
  }

  /** A crash at any moment between two steps leaves a disk from which the whole history can be recovered. */
  lemma CrashBetweenSteps(s: DbState)
    requires StateOk(s)
    ensures DiskOk(s.disk, s.current, s.ledger.history, s.ledger.flushed, s.ledger.floor, s.ledger.exposed)
  {
    assert PartOk(s, VersionPart) && PartOk(s, LogPart) && PartOk(s, CounterPart);
    CrashIsSafe(s.disk, s.current, s.ledger.history, s.ledger.flushed, s.ledger.switched, s.ledger.floor,
                s.ledger.exposed, s.logNumber, s.logFileNumber);
  }

  /** The plain facts that follow from the invariant. */
  lemma StateBounds(s: DbState)
    requires StateOk(s)
    ensures |s.current.files| == NUM_LEVELS
    ensures s.ledger.flushed <= s.ledger.switched <= |s.ledger.history|
    ensures s.lastSequence == |s.ledger.history| && IsHistory(s.ledger.history)
    ensures s.logFileNumber in s.disk.logs
  {
    assert PartOk(s, VersionPart) && PartOk(s, MemoryPart) && PartOk(s, CounterPart) && PartOk(s, LogPart);
  }

  lemma CurrentValid(s: DbState)
    requires StateOk(s)
    ensures s.current.Valid()
  {
    assert PartOk(s, VersionPart);
  }

  // ---- Switching memtables ----

  function Switched(s: DbState): DbState {
    s.(disk := s.disk.(logs := s.disk.logs[s.nextFileNumber := []]),
       logFileNumber := s.nextFileNumber, nextFileNumber := s.nextFileNumber + 1,
       imm := Some(s.mem), mem := [],
       ledger := s.ledger.(switched := |s.ledger.history|))
  }

  lemma SwitchKeeps(s: DbState)
    requires StateOk(s) && s.imm.None?
    ensures StateOk(Switched(s))
  {
    var t, h := Switched(s), s.ledger.history;
    forall part ensures PartOk(t, part) {
      assert PartOk(s, part);
      match part
      case VersionPart =>
      case MemoryPart => assert h[|h|..|h|] == [];
      case LogPart =>
        assert PartOk(s, CounterPart) && PartOk(s, MemoryPart);
        SwitchHolds(s.disk.logs, s.logNumber, s.logFileNumber, h, s.ledger.flushed, s.nextFileNumber);
      case CounterPart =>
      case SnapshotPart =>
      case PinnedPart =>
      case PendingPart =>
    }
  }

  // ---- Writing ----

  /** After AddRecord and before the memtable insertion. */
  function AppendedDisk(s: DbState, ops: seq<WriteOp>): Disk
    requires s.logFileNumber in s.disk.logs
  {
    s.disk.(logs := s.disk.logs[s.logFileNumber :=
      s.disk.logs[s.logFileNumber] + [LogRecord(s.lastSequence + 1, ops)]])
  }

  function Grow(s: DbState, ops: seq<WriteOp>): Ledger {
    s.ledger.(history := s.ledger.history + OpHistory(ops, |s.ledger.history| + 1))
  }

  function Written(s: DbState, ops: seq<WriteOp>, mem: seq<Entry>): DbState
    requires s.logFileNumber in s.disk.logs && s.lastSequence + |ops| <= MAX_SEQUENCE_NUMBER
  {
    s.(disk := AppendedDisk(s, ops), mem := mem, lastSequence := s.lastSequence + |ops|, ledger := Grow(s, ops))
  }

  lemma WriteKeeps(s: DbState, ops: seq<WriteOp>, mem: seq<Entry>)
    requires StateOk(s) && |s.ledger.history| + |ops| < MAX_SEQUENCE_NUMBER
    requires MemHolds(mem, Grow(s, ops).history, s.ledger.switched, |s.ledger.history| + |ops|)
    ensures s.logFileNumber in s.disk.logs && s.lastSequence == |s.ledger.history| && StateOk(Written(s, ops, mem))
  {
    StateBounds(s);
    var led, t := s.ledger, Written(s, ops, mem);
    var h, g := led.history, t.ledger.history;
    HistoryGrows(h, ops);
    forall part ensures PartOk(t, part) {
      assert PartOk(s, part);
      match part
      case VersionPart => VersionGrows(s, t);
      case MemoryPart => MaybeMemGrows(s.imm, h, g, led.flushed, led.switched);
      case LogPart => AppendHolds(s.disk.logs, s.logNumber, s.logFileNumber, h, led.flushed, led.switched, ops);
      case CounterPart =>
      case SnapshotPart =>
      case PinnedPart =>
      case PendingPart => PendingGrows(s, t);
    }
  }

  /** Only the history, the logs and the current memtable differ. */
  ghost predicate OnlyWrites(s: DbState, t: DbState) {
    && IsHistory(t.ledger.history) && s.ledger.history <= t.ledger.history
    && t.ledger == s.ledger.(history := t.ledger.history)
    && t.disk == s.disk.(logs := t.disk.logs)
    && t.current == s.current && t.pending == s.pending && t.snapshots == s.snapshots && t.nextFileNumber == s.nextFileNumber
  }

  lemma VersionGrows(s: DbState, t: DbState)
    requires OnlyWrites(s, t) && PartOk(s, VersionPart)
    ensures PartOk(t, VersionPart)
  {
    HoldsGrows(s.current, s.ledger.history, t.ledger.history, s.ledger.flushed, s.ledger.floor, s.ledger.exposed);
  }

  lemma PendingGrows(s: DbState, t: DbState)
    requires OnlyWrites(s, t) && PartOk(s, PendingPart)
    ensures PartOk(t, PendingPart)
  {
    if s.pending.Some? {
      SinceStartGrows(s.pending.value.base, s.current, s.ledger.history, t.ledger.history, s.ledger.pendingFrom, s.ledger.flushed);
    }
  }

  lemma MaybeMemGrows(mem: Option<seq<Entry>>, h: History, g: History, a: nat, b: nat)
    requires MaybeMemHolds(mem, h, a, b) && h <= g
    ensures MaybeMemHolds(mem, g, a, b)
  {
    assert g[a..b] == h[a..b];
  }

  lemma SinceStartGrows(base: Version, current: Version, h: History, g: History, a: nat, b: nat)
    requires SinceStart(base, current, h, a, b) && h <= g
    ensures SinceStart(base, current, g, a, b)
  {
    assert g[..a] == h[..a] && g[a..b] == h[a..b];
  }

  lemma GrowIsHistory(s: DbState, ops: seq<WriteOp>)
    requires StateOk(s) && |s.ledger.history| + |ops| < MAX_SEQUENCE_NUMBER
    ensures IsHistory(Grow(s, ops).history)
    ensures NextBatch(LogRecord(|s.ledger.history| + 1, ops), Grow(s, ops).history, |s.ledger.history|)
  {
    StateBounds(s);
    HistoryGrows(s.ledger.history, ops);
  }

  lemma MemStays(s: DbState, g: History)
    requires StateOk(s) && s.ledger.history <= g
    ensures MaybeMemHolds(Some(s.mem), g, s.ledger.switched, |s.ledger.history|)
  {
    assert PartOk(s, MemoryPart);
    MaybeMemGrows(Some(s.mem), s.ledger.history, g, s.ledger.switched, |s.ledger.history|);
  }

  /** Inserting a logged batch into the current memtable. */
  method InsertWritten(ghost s: DbState, record: LogRecord, mem: seq<Entry>) returns (r: seq<Entry>)
    requires StateOk(s) && mem == s.mem && |s.ledger.history| + |record.ops| < MAX_SEQUENCE_NUMBER
    requires record.sequence == |s.ledger.history| + 1
    ensures MemHolds(r, Grow(s, record.ops).history, s.ledger.switched, |s.ledger.history| + |record.ops|)
  {
    GrowIsHistory(s, record.ops);
    MemStays(s, Grow(s, record.ops).history);
    r := InsertNext(record, Some(mem), Grow(s, record.ops).history, s.ledger.switched, |s.ledger.history|);
  }

  /** A crash after a record has been appended, before anything else has happened, does not lose it. */
  lemma CrashAfterAppend(s: DbState, ops: seq<WriteOp>)
    requires StateOk(s) && |s.ledger.history| + |ops| < MAX_SEQUENCE_NUMBER
    ensures s.logFileNumber in s.disk.logs
    ensures DiskOk(AppendedDisk(s, ops), s.current, Grow(s, ops).history, s.ledger.flushed, s.ledger.floor, s.ledger.exposed)
  {
    AppendedLogs(s, ops);
    AppendedVersion(s, ops);
    var led := s.ledger;
    CrashIsSafe(AppendedDisk(s, ops), s.current, Grow(s, ops).history, led.flushed, led.switched, led.floor, led.exposed,
                s.logNumber, s.logFileNumber);
  }

  lemma AppendedLogs(s: DbState, ops: seq<WriteOp>)
    requires StateOk(s) && |s.ledger.history| + |ops| < MAX_SEQUENCE_NUMBER
    ensures s.logFileNumber in s.disk.logs && MetaOf(s.disk.manifest).logNumber == Some(s.logNumber)
    ensures LogFilesOk(AppendedDisk(s, ops).logs, s.logNumber, s.logFileNumber, Grow(s, ops).history, s.ledger.flushed,
                       s.ledger.switched)
  {
    assert PartOk(s, LogPart) && PartOk(s, CounterPart);
    StateBounds(s);
    AppendHolds(s.disk.logs, s.logNumber, s.logFileNumber, s.ledger.history, s.ledger.flushed, s.ledger.switched, ops);
  }

  lemma AppendedVersion(s: DbState, ops: seq<WriteOp>)
    requires StateOk(s) && |s.ledger.history| + |ops| < MAX_SEQUENCE_NUMBER
    ensures VersionOk(s.disk.manifest, s.disk.tables, s.current, Grow(s, ops).history, s.ledger.flushed, s.ledger.floor,
                      s.ledger.exposed)
  {
    GrowIsHistory(s, ops);
    assert PartOk(s, VersionPart);
    VersionGrows(s, s.(ledger := Grow(s, ops)));
  }

  // ---- Table files ----

  function AddTables(tables: map<nat, seq<Entry>>, files: seq<File>): map<nat, seq<Entry>> {
    if files == [] then tables
    else
      var last := files[|files| - 1];
      AddTables(tables, files[..|files| - 1])[last.number := last.entries]
  }

  lemma {:induction false} TablesAdded(tables: map<nat, seq<Entry>>, files: seq<File>)
    requires OneFilePerNumber(files)
    ensures forall f :: f in files ==> TableFor(AddTables(tables, files), f)
    ensures forall n :: n in tables && n !in Numbers(files) ==> n in AddTables(tables, files) && AddTables(tables, files)[n] == tables[n]
    decreases |files|
  {
    if files != [] {
      var init, last := files[..|files| - 1], files[|files| - 1];
      assert files == init + [last];
      forall f | f in init ensures f in files {
      }
      TablesAdded(tables, init);
      forall f | f in files ensures TableFor(AddTables(tables, files), f) {
        if f in init && f.number == last.number {
          assert SameNumber(f, last);
        }
      }
      forall n | n in tables && n !in Numbers(files)
        ensures n in AddTables(tables, files) && AddTables(tables, files)[n] == tables[n]
      {
        assert last.number in Numbers(files);
        forall f | f in init ensures f.number in Numbers(files) {
        }
        assert n !in Numbers(init);
      }
    }
  }

  /** New tables never overwrite one that is in use. */
  lemma TablesSurvive(tables: map<nat, seq<Entry>>, files: seq<File>, first: nat, v: Version)
    requires NumbersFrom(files, first) && NumbersBelow(v, first) && TablesPresent(tables, v)
    ensures TablesPresent(AddTables(tables, files), v)
  {
    TablesAdded(tables, files);
    forall l, f | v.Has(l, f) ensures TableFor(AddTables(tables, files), f) {
      assert f.number !in Numbers(files);
    }
  }

  lemma OutputsSurvive(outputs: seq<File>, manifest: seq<VersionEdit>, tables: map<nat, seq<Entry>>, files: seq<File>, first: nat, next: nat)
    requires OutputsOk(outputs, manifest, tables, first) && NumbersFrom(files, first) && first <= next
    ensures OutputsOk(outputs, manifest, AddTables(tables, files), next)
  {
    TablesAdded(tables, files);
    forall o | o in outputs ensures TableFor(AddTables(tables, files), o) {
      assert o.number !in Numbers(files);
    }
  }

  /** Writing table files with new numbers keeps the invariant. */
  function WithTables(s: DbState, files: seq<File>, next: nat): DbState {
    s.(disk := s.disk.(tables := AddTables(s.disk.tables, files)), nextFileNumber := next)
  }

  lemma TablesKeep(s: DbState, files: seq<File>, next: nat)
    requires StateOk(s) && NumbersFrom(files, s.nextFileNumber) && s.nextFileNumber <= next
    ensures StateOk(WithTables(s, files, next))
  {
    var t := WithTables(s, files, next);
    var n := s.nextFileNumber;
    CurrentBelow(s);
    forall part ensures PartOk(t, part) {
      assert PartOk(s, part);
      match part
      case VersionPart => TablesSurvive(s.disk.tables, files, n, s.current);
      case MemoryPart =>
      case LogPart =>
      case CounterPart =>
      case SnapshotPart =>
      case PinnedPart =>
        forall v | v in s.pinned ensures TablesPresent(t.disk.tables, v) {
          TablesSurvive(s.disk.tables, files, n, v);
        }
      case PendingPart =>
        if s.pending.Some? {
          OutputsSurvive(s.pending.value.outputs, s.disk.manifest, s.disk.tables, files, n, next);
          BaseBelow(s, s.pending.value);
          TablesSurvive(s.disk.tables, files, n, s.pending.value.base);
        }
    }
  }

  lemma CurrentBelow(s: DbState)
    requires StateOk(s)
    ensures NumbersBelow(s.current, s.nextFileNumber) && Tracks(s.disk.manifest, s.current, s.nextFileNumber)
  {
    assert PartOk(s, VersionPart) && PartOk(s, CounterPart);
    VersionBelow(s.disk.manifest, s.disk.tables, s.current, s.ledger.flushed, |s.ledger.history|, s.nextFileNumber);
  }

  lemma BaseBelow(s: DbState, c: Pending)
    requires NumbersBelow(s.current, s.nextFileNumber) && PendingOk(s, c)
    ensures NumbersBelow(c.base, s.nextFileNumber)
  {
    assert Grown(c.base, s.current, Writes(s.ledger.history[s.ledger.pendingFrom..s.ledger.flushed]));
    forall l, f | c.base.Has(l, f) ensures f.number < s.nextFileNumber {
      assert s.current.Has(l, f);
    }
  }

  // ---- Flushing the immutable memtable ----

  /** LogAndApply: the edit, stamped with the counters, goes into the manifest and onto the current version. */
  function Recorded(s: DbState, edit: VersionEdit, logNumber: nat): DbState
    requires |s.current.files| == NUM_LEVELS
  {
    s.(disk := s.disk.(manifest := s.disk.manifest + [Stamped(edit, logNumber, s.nextFileNumber, s.lastSequence)]),
       current := Install(s.current, edit), logNumber := logNumber)
  }

  /** The edit of a flush; logs before the current one are no longer needed. */
  function Flushed(s: DbState, level: nat, files: seq<File>): DbState
    requires |s.current.files| == NUM_LEVELS
  {
    Recorded(s, FlushEdit(level, files), s.logFileNumber).(imm := None, ledger := s.ledger.(flushed := s.ledger.switched))
  }

  /** The table of the immutable memtable has been written, but is not yet in a version. */
  ghost predicate FlushReady(s: DbState, level: nat, files: seq<File>, first: nat) {
    && NewTables(files, s.disk.tables, first, s.nextFileNumber)
    && MetaOf(s.disk.manifest).nextFileNumber.Some? && MetaOf(s.disk.manifest).nextFileNumber.value <= first
    && NumbersBelow(s.current, first)
    && (s.pending.Some? ==> OutputsOk(s.pending.value.outputs, s.disk.manifest, s.disk.tables, first))
    && TablesHold(files, s.ledger.history, s.ledger.flushed, s.ledger.switched)
    && FlushPlace(s.current, level, files)
  }

  lemma EditInRange(s: DbState, level: nat, files: seq<File>)
    requires StateOk(s) && level < NUM_LEVELS
    ensures FlushEdit(level, files).InRange() && |s.current.files| == NUM_LEVELS
    ensures forall l :: 0 <= l < NUM_LEVELS ==> Ordered(s.current.files[l])
  {
    FilesAtLevel(level, files, level);
    LevelsOrdered(s);
  }

  /** At most one table, with all of the immutable memtable, for a level where it may go. */
  ghost predicate IsFlush(s: DbState, level: nat, files: seq<File>) {
    && s.imm.Some? && |files| <= 1 && level < NUM_LEVELS
    && (files == [] <==> s.imm.value == [])
    && (forall f :: f in files ==> f.Valid() && f.number == s.nextFileNumber && f.entries == s.imm.value)
    && (level > 0 ==> forall f, l :: f in files && 0 <= l <= level && l < |s.current.files| ==>
          NoOverlap(s.current.files[l], f.smallest.user, f.largest.user))
  }

  lemma FlushTables(s: DbState, level: nat, files: seq<File>)
    requires StateOk(s) && IsFlush(s, level, files)
    ensures TablesHold(files, s.ledger.history, s.ledger.flushed, s.ledger.switched)
    ensures NumbersFrom(files, s.nextFileNumber)
  {
    assert PartOk(s, MemoryPart);
    if files != [] {
      assert files == [files[0]] && files[0] in files;
      assert EntriesOf(files) == ToSet(s.imm.value);
      forall f, g | f in files && g in files ensures f == g {
      }
    } else {
      assert EntriesOf(files) == ToSet(s.imm.value);
    }
  }

  /** Once its file is written, the flush can be recorded. */
  lemma ReadyToFlush(s: DbState, level: nat, files: seq<File>)
    requires StateOk(s) && IsFlush(s, level, files)
    ensures var t := WithTables(s, files, s.nextFileNumber + 1);
      StateOk(t) && FlushReady(t, level, files, s.nextFileNumber)
  {
    var t, led := WithTables(s, files, s.nextFileNumber + 1), s.ledger;
    FlushTables(s, level, files);
    TablesKeep(s, files, s.nextFileNumber + 1);
    TablesAdded(s.disk.tables, files);
    CurrentBelow(s);
    assert PartOk(s, VersionPart) && PartOk(s, CounterPart);
    FlushFits(s.current, led.history, led.flushed, led.switched, led.floor, led.exposed, level, files);
    if s.pending.Some? {
      assert PartOk(s, PendingPart);
      OutputsSurvive(s.pending.value.outputs, s.disk.manifest, s.disk.tables, files, s.nextFileNumber, s.nextFileNumber);
    }
  }

  lemma FlushedEntries(s: DbState, level: nat, files: seq<File>, first: nat)
    requires StateOk(s) && FlushReady(s, level, files, first) && s.imm.Some?
    ensures |s.current.files| == NUM_LEVELS
    ensures Flushed(s, level, files).current.Entries() == s.current.Entries() + ToSet(s.imm.value)
  {
    assert PartOk(s, VersionPart) && PartOk(s, CounterPart) && PartOk(s, MemoryPart);
    var led := s.ledger;
    FlushStep(s.disk.manifest, s.disk.tables, s.current, led.history, led.flushed, led.switched, led.floor, led.exposed,
              level, files, s.logFileNumber, first, s.nextFileNumber);
  }

  lemma FlushKeeps(s: DbState, level: nat, files: seq<File>, first: nat)
    requires StateOk(s) && FlushReady(s, level, files, first)
    ensures |s.current.files| == NUM_LEVELS && StateOk(Flushed(s, level, files))
  {
    assert PartOk(s, VersionPart) && PartOk(s, CounterPart);
    var led, edit := s.ledger, FlushEdit(level, files);
    var t := Flushed(s, level, files);
    FlushStep(s.disk.manifest, s.disk.tables, s.current, led.history, led.flushed, led.switched, led.floor, led.exposed,
              level, files, s.logFileNumber, first, s.nextFileNumber);
    forall part ensures PartOk(t, part) {
      assert PartOk(s, part);
      match part
      case VersionPart =>
      case MemoryPart =>
      case LogPart => FlushedLogs(s.disk.logs, s.logNumber, s.logFileNumber, led.history, led.flushed, led.switched);
      case CounterPart =>
      case SnapshotPart =>
      case PinnedPart =>
      case PendingPart => if s.pending.Some? { FlushKeepsPending(s, level, files, first); }
    }
  }

  lemma FlushKeepsPending(s: DbState, level: nat, files: seq<File>, first: nat)
    requires s.pending.Some? && PendingOk(s, s.pending.value) && FlushReady(s, level, files, first)
    requires |s.current.files| == NUM_LEVELS && Tracks(s.disk.manifest, s.current, first)
    requires Adds(s.current, Install(s.current, FlushEdit(level, files)), level, files)
    requires Install(s.current, FlushEdit(level, files)).Entries() == s.current.Entries() + EntriesOf(files)
    ensures PendingOk(Flushed(s, level, files), s.pending.value)
  {
    var c, led, t := s.pending.value, s.ledger, Flushed(s, level, files);
    var stamped := t.disk.manifest[|s.disk.manifest|];
    OutputsAfterFlush(c.outputs, s.disk.manifest, s.disk.tables, s.current, t.current, level, files, stamped, first, s.nextFileNumber);
    GrownByFlush(c.base, s.current, t.current, led.history, led.pendingFrom, led.flushed, led.switched, level, files);
  }

  // ---- Compactions ----

  /** The oldest sequence number that a reader may ask for from now on. */
  function SmallestSnapshot(s: DbState): SequenceNumber {
    if s.snapshots == [] then s.lastSequence else s.snapshots[0]
  }

  lemma SmallestIsOldest(s: DbState)
    requires StateOk(s)
    ensures Oldest(s, SmallestSnapshot(s)) && s.ledger.floor <= SmallestSnapshot(s)
  {
    assert PartOk(s, SnapshotPart) && PartOk(s, CounterPart);
  }

  ghost predicate Oldest(s: DbState, snap: SequenceNumber) {
    snap <= s.lastSequence && forall i :: 0 <= i < |s.snapshots| ==> snap <= s.snapshots[i]
  }

  /** The outputs are written; other threads may go on before they are installed. */
  function Started(s: DbState, c: Pending): DbState {
    s.(pending := Some(c), ledger := s.ledger.(pendingFrom := s.ledger.flushed))
  }

  lemma StartKeeps(s: DbState, c: Pending, first: nat)
    requires StateOk(s) && c.base == s.current && MergeDone(c)
    requires NewTables(c.outputs, s.disk.tables, first, s.nextFileNumber)
    requires Tracks(s.disk.manifest, s.current, first)
    requires AllValid(c.outputs) && Disjoint(c.outputs)
    requires s.ledger.floor <= c.snap && Oldest(s, c.snap)
    ensures StateOk(Started(s, c))
  {
    var t := Started(s, c);
    var led := s.ledger;
    forall part ensures PartOk(t, part) {
      assert PartOk(s, part);
      match part
      case VersionPart =>
      case MemoryPart =>
      case LogPart =>
      case CounterPart =>
      case SnapshotPart =>
      case PinnedPart =>
      case PendingPart =>
        assert PartOk(s, VersionPart) && PartOk(s, CounterPart);
        forall o | o in c.outputs ensures UnseenAnywhere(s.disk.manifest, o) {
          NewNumberUnseen(s.disk.manifest, s.current, first, o);
        }
        JustStarted(s.current, led.history, led.flushed);
    }
  }

  lemma JustStarted(v: Version, h: History, p: nat)
    requires p <= |h| && v.Entries() <= Writes(h[..p])
    ensures SinceStart(v, v, h, p, p)
  {
    assert h[p..p] == [];
    assert v.Entries() + Writes(h[p..p]) == v.Entries();
  }

  /** What a compaction that has just been computed looks like. */
  ghost predicate IsCompaction(s: DbState, c: Pending) {
    && c.base == s.current && c.snap == SmallestSnapshot(s) && GoodInputs(c.base, c.level, c.in0, c.in1)
    && Flat(c.outputs) == Kept(c.base, c.level, MergeFiles(c.in0 + c.in1), c.snap, |MergeFiles(c.in0 + c.in1)|)
    && AllFinished(c.outputs, s.nextFileNumber) && AllValid(c.outputs) && Disjoint(c.outputs)
    && c.next == s.nextFileNumber + |c.outputs|
  }

  /** The step from the choice of the inputs to the finished outputs. */
  ghost predicate IsStart(s: DbState, t: DbState, c: Pending) {
    s.pending.None? && IsCompaction(s, c) && t == Started(WithTables(s, c.outputs, c.next), c)
  }

  lemma FinishedNumbers(outputs: seq<File>, first: nat)
    requires AllFinished(outputs, first)
    ensures NumbersFrom(outputs, first) && forall f :: f in outputs ==> f.number < first + |outputs|
  {
    forall f, g | f in outputs && g in outputs && SameNumber(f, g) ensures f == g {
      var i :| 0 <= i < |outputs| && outputs[i] == f;
      var j :| 0 <= j < |outputs| && outputs[j] == g;
    }
  }

  lemma RunKeeps(s: DbState, c: Pending)
    requires StateOk(s) && s.pending.None? && IsCompaction(s, c)
    ensures StateOk(Started(WithTables(s, c.outputs, c.next), c))
  {
    var first, t := s.nextFileNumber, WithTables(s, c.outputs, c.next);
    CurrentValid(s);
    CurrentBelow(s);
    SmallestIsOldest(s);
    FinishedNumbers(c.outputs, first);
    TablesKeep(s, c.outputs, c.next);
    TablesAdded(s.disk.tables, c.outputs);
    StartKeeps(t, c, first);
  }

  lemma MoveInRange(s: DbState, level: nat, in0: seq<File>, in1: seq<File>, outputs: seq<File>)
    requires StateOk(s) && level + 1 < NUM_LEVELS
    ensures CompactionEdit(level, in0, in1, outputs).InRange() && |s.current.files| == NUM_LEVELS
    ensures forall l :: 0 <= l < NUM_LEVELS ==> Ordered(s.current.files[l])
  {
    FilesAtLevel(level + 1, outputs, level);
    LevelsOrdered(s);
  }

  lemma LevelsOrdered(s: DbState)
    requires StateOk(s)
    ensures |s.current.files| == NUM_LEVELS && forall l :: 0 <= l < NUM_LEVELS ==> Ordered(s.current.files[l])
  {
    CurrentValid(s);
    forall l | 0 <= l < NUM_LEVELS ensures Ordered(s.current.files[l]) {
      assert s.current.LevelOk(l);
    }
  }

  lemma MergeLevel(s: DbState, c: Pending)
    requires StateOk(s) && s.pending == Some(c)
    ensures c.level + 1 < NUM_LEVELS
  {
    assert PartOk(s, PendingPart);
  }

  lemma InvalidVersion(s: DbState)
    requires !s.current.Valid()
    ensures !StateOk(s)
  {
    assert PartOk(s, VersionPart) ==> s.current.Valid();
  }

  /** LogAndApply of a trivial move. */
  function Moved(s: DbState, level: nat, f: File): DbState
    requires |s.current.files| == NUM_LEVELS
  {
    Recorded(s, CompactionEdit(level, [f], [], [f]), s.logNumber)
  }

  lemma MoveKeeps(s: DbState, level: nat, f: File)
    requires StateOk(s) && s.pending.None? && GoodInputs(s.current, level, [f], [])
    ensures |s.current.files| == NUM_LEVELS && StateOk(Moved(s, level, f))
  {
    assert PartOk(s, VersionPart) && PartOk(s, CounterPart) && PartOk(s, LogPart);
    var led, t := s.ledger, Moved(s, level, f);
    MoveStep(s.disk.manifest, s.disk.tables, s.current, led.history, led.flushed, led.floor, led.exposed, level, f,
             s.logNumber, s.nextFileNumber);
    forall part ensures PartOk(t, part) {
      assert PartOk(s, part);
    }
  }

  /** InstallCompactionResults. */
  function Installed(s: DbState, c: Pending): DbState
    requires |s.current.files| == NUM_LEVELS
  {
    Recorded(s, CompactionEdit(c.level, c.in0, c.in1, c.outputs), s.logNumber).(pending := None)
  }

  /** The ledger after the installation: snapshots below both the oldest one and what had been flushed when the
      compaction started are gone, and the exposed keys are on record. */
  ghost function Charge(s: DbState, c: Pending): Ledger
    requires s.ledger.flushed <= |s.ledger.history|
  {
    var d := Capped(c, s.ledger.pendingFrom);
    s.ledger.(floor := d.snap, exposed := s.ledger.exposed + ExposedBy(d, s.current, s.ledger.history, s.ledger.flushed))
  }

  /** Installing the outputs of a compaction keeps the invariant if they fit into the next level. */
  lemma InstallKeeps(s: DbState, c: Pending)
    requires StateOk(s) && s.pending == Some(c) && OutputsFit(s.current, c.level, c.in1, c.outputs)
    ensures |s.current.files| == NUM_LEVELS && s.ledger.flushed <= |s.ledger.history|
    ensures StateOk(Installed(s, c).(ledger := Charge(s, c)))
  {
    StateBounds(s);
    var t := Installed(s, c).(ledger := Charge(s, c));
    InstalledVersion(s, c);
    forall part ensures PartOk(t, part) {
      if part.SnapshotPart? {
        assert PartOk(s, PendingPart) && PartOk(s, SnapshotPart);
      } else if !part.VersionPart? && !part.CounterPart? {
        assert PartOk(s, part);
      }
    }
  }

  lemma InstalledVersion(s: DbState, c: Pending)
    requires StateOk(s) && s.pending == Some(c) && OutputsFit(s.current, c.level, c.in1, c.outputs)
    requires |s.current.files| == NUM_LEVELS && s.ledger.flushed <= |s.ledger.history|
    ensures var t := Installed(s, c).(ledger := Charge(s, c)); PartOk(t, VersionPart) && PartOk(t, CounterPart)
  {
    assert PartOk(s, VersionPart) && PartOk(s, CounterPart) && PartOk(s, LogPart);
    assert PendingOk(s, c) by { assert PartOk(s, PendingPart); }
    var led := s.ledger;
    CappedStep(c, s.disk.manifest, s.disk.tables, s.current, led.history, led.pendingFrom, led.flushed, led.floor,
               led.exposed, s.logNumber, s.nextFileNumber);
  }

  /** If they do not fit, the new version is broken. */
  lemma InstallBreaks(s: DbState, c: Pending)
    requires StateOk(s) && s.pending == Some(c) && !OutputsFit(s.current, c.level, c.in1, c.outputs)
    ensures |s.current.files| == NUM_LEVELS && !Installed(s, c).current.Valid()
  {
    StateBounds(s);
    CurrentValid(s);
    assert PendingOk(s, c) by { assert PartOk(s, PendingPart); }
    CurrentBelow(s);
    PendingInstalls(c, s.disk.manifest, s.disk.tables, s.current, s.ledger.history, s.ledger.pendingFrom, s.ledger.flushed,
                    s.nextFileNumber);
  }

  /** The tables that were put into the next level after the compaction started stay clear of its outputs. */
  ghost predicate AddedApart(v: Version, c: Pending) {
    forall o, g {:trigger Apart(o, g)} ::
      o in c.outputs && v.Has(c.level + 1, g) && !c.base.Has(c.level + 1, g) ==> Apart(o, g)
  }

  /** Only tables that flushes have added in the meantime can be in the way of the outputs. */
  lemma FitsIffAddedApart(s: DbState, c: Pending)
    requires StateOk(s) && s.pending == Some(c)
    ensures OutputsFit(s.current, c.level, c.in1, c.outputs) <==> AddedApart(s.current, c)
  {
    assert PendingOk(s, c) by { assert PartOk(s, PendingPart); }
    MergeResult(c);
    KeptFromInputs(c);
    GoodOutputsFit(c.base, c.level, c.in0, c.in1, c.outputs);
  }

  /** A table that a flush puts beside all inputs is never in the way. */
  lemma AddedBesideFits(s: DbState, c: Pending)
    requires StateOk(s) && s.pending == Some(c)
    requires forall g :: s.current.Has(c.level + 1, g) && !c.base.Has(c.level + 1, g) ==> Beside(c.in0 + c.in1, g)
    ensures OutputsFit(s.current, c.level, c.in1, c.outputs)
  {
    assert PendingOk(s, c) by { assert PartOk(s, PendingPart); }
    FitsIffAddedApart(s, c);
    InputsValid(c);
    KeptFromInputs(c);
    forall o, g | o in c.outputs && s.current.Has(c.level + 1, g) && !c.base.Has(c.level + 1, g) ensures Apart(o, g) {
      OutputBeside(c, o, g);
    }
  }

  lemma OutputBeside(c: Pending, o: File, g: File)
    requires AllValid(c.in0 + c.in1) && o in c.outputs && o.Valid() && OutputsFromInputs(c.in0, c.in1, c.outputs) && Beside(c.in0 + c.in1, g)
    ensures Apart(o, g)
  {
    var first, last := o.entries[0], o.entries[|o.entries| - 1];
    assert first in o.entries && last in o.entries;
    InsideHull(c, first);
    InsideHull(c, last);
    var a :| a in c.in0 + c.in1 && a.smallest.user <= first.key.user <= a.largest.user;
    var b :| b in c.in0 + c.in1 && b.smallest.user <= last.key.user <= b.largest.user;
    if g.largest.user < a.smallest.user {
      assert Less(g.largest, o.smallest);
    } else {
      assert b.largest.user < g.smallest.user;
      assert Less(o.largest, g.smallest);
    }
  }

  lemma InputsValid(c: Pending)
    requires MergeDone(c)
    ensures AllValid(c.in0 + c.in1)
  {
    assert c.base.LevelOk(c.level) && c.base.LevelOk(c.level + 1);
    forall f | f in c.in0 + c.in1 ensures f.Valid() {
      assert f in c.in0 ==> c.base.Has(c.level, f);
      assert f in c.in1 ==> c.base.Has(c.level + 1, f);
    }
  }

  lemma InsideHull(c: Pending, e: Entry)
    requires AllValid(c.in0 + c.in1) && FromInputs(c.in0, c.in1, e)
    ensures exists f :: f in c.in0 + c.in1 && f.smallest.user <= e.key.user <= f.largest.user
  {
    var f :| f in c.in0 + c.in1 && e in f.entries;
    ValidContains(f, e);
  }

  lemma ValidContains(f: File, e: Entry)
    requires f.Valid() && e in f.entries
    ensures f.smallest.user <= e.key.user <= f.largest.user
  {
  }

  lemma KeptFromInputs(c: Pending)
    requires MergeDone(c)
    ensures OutputsFromInputs(c.in0, c.in1, c.outputs)
  {
    var es := MergeFiles(c.in0 + c.in1);
    MergeResult(c);
    InputsAreMerged(c.base, c.level, c.in0, c.in1);
    KeptMembers(c.base, c.level, es, c.snap, |es|);
    FlatMembers(c.outputs);
    forall o, e | o in c.outputs && e in o.entries ensures FromInputs(c.in0, c.in1, e) {
      assert e in Flat(c.outputs);
    }
  }

  /** The installation and what follows it keep the invariant exactly when the outputs fit. */
  lemma InstallIff(s: DbState, c: Pending)
    requires StateOk(s) && s.pending == Some(c)
    ensures |s.current.files| == NUM_LEVELS && s.ledger.flushed <= |s.ledger.history|
    ensures var t := Installed(s, c).(ledger := Charge(s, c));
      && (StateOk(t) <==> OutputsFit(s.current, c.level, c.in1, c.outputs))
      && (StateOk(Cleaned(t)) <==> StateOk(t))
  {
    StateBounds(s);
    var t := Installed(s, c).(ledger := Charge(s, c));
    if OutputsFit(s.current, c.level, c.in1, c.outputs) {
      InstallKeeps(s, c);
      CleanKeeps(t);
    } else {
      InstallBreaks(s, c);
      InvalidVersion(t);
      InvalidVersion(Cleaned(t));
    }
  }

  /** Where no user key is split at the edge of the inputs, the installation changes no read. */
  lemma InstallExposesNothing(s: DbState, c: Pending)
    requires StateOk(s) && s.pending == Some(c)
    requires forall k :: !Straddles(c.base, c.level, c.in1, k)
    ensures s.ledger.flushed <= |s.ledger.history| && Charge(s, c).exposed == s.ledger.exposed
  {
    assert PartOk(s, VersionPart);
    assert PendingOk(s, c) by { assert PartOk(s, PendingPart); }
    CappedMerge(c, s.ledger.history, s.ledger.pendingFrom);
    NoSplitNoExposure(Capped(c, s.ledger.pendingFrom), s.current, s.ledger.history, s.ledger.pendingFrom, s.ledger.flushed, s.ledger.floor, s.ledger.exposed);
  }

  // ---- Cleaning up ----

  /** The versions that are still used: by readers, as the current one, or by the compaction. */
  function Listed(s: DbState): seq<Version> {
    s.pinned + [s.current] + if s.pending.Some? then [s.pending.value.base] else []
  }

  function LiveTables(s: DbState): set<nat> {
    AllLive(Listed(s)) + if s.pending.Some? then Numbers(s.pending.value.outputs) else {}
  }

  /** A table with this number is in a version that is still used, or it is an output of the compaction. */
  ghost predicate InUse(s: DbState, n: nat) {
    || (exists v, l, f {:trigger v.Has(l, f)} :: v in Listed(s) && v.Has(l, f) && f.number == n)
    || (s.pending.Some? && exists o :: o in s.pending.value.outputs && o.number == n)
  }

  lemma LiveIffInUse(s: DbState, n: nat)
    ensures n in LiveTables(s) <==> InUse(s, n)
  {
    if n in AllLive(Listed(s)) {
      var v := InSome(Listed(s), n);
      var l, f :| 0 <= l < |v.files| && f in v.files[l] && f.number == n;
      assert v.Has(l, f);
    }
    if v, l, f :| v in Listed(s) && v.Has(l, f) && f.number == n {
      LiveInAll(Listed(s), v);
      assert n in LiveFiles(v);
    }
  }

  /** DeleteObsoleteFiles. */
  function Cleaned(s: DbState): DbState {
    s.(disk := s.disk.(logs := LogsFrom(s.disk.logs, s.logNumber), tables := TablesIn(s.disk.tables, LiveTables(s))))
  }

  /** Nothing that is still needed is deleted: not the logs of the memtables, nor any table of a version that is
      current, in use by a reader or by the compaction, nor the outputs of the compaction. */
  lemma CleanKeeps(s: DbState)
    requires StateOk(s)
    ensures StateOk(Cleaned(s))
  {
    var t, led, live, versions := Cleaned(s), s.ledger, LiveTables(s), Listed(s);
    forall part ensures PartOk(t, part) {
      assert PartOk(s, part);
      match part
      case VersionPart =>
        LiveInAll(versions, s.current);
        KeepsTables(s.disk.tables, live, s.current);
      case MemoryPart =>
      case LogPart => DroppedLogs(s.disk.logs, s.logNumber, s.logFileNumber, led.history, led.flushed, led.switched);
      case CounterPart =>
      case SnapshotPart =>
      case PinnedPart =>
        forall v | v in s.pinned ensures TablesPresent(t.disk.tables, v) {
          LiveInAll(versions, v);
          KeepsTables(s.disk.tables, live, v);
        }
      case PendingPart =>
        if s.pending.Some? {
          var c := s.pending.value;
          LiveInAll(versions, c.base);
          KeepsTables(s.disk.tables, live, c.base);
          forall o | o in c.outputs ensures TableFor(t.disk.tables, o) {
            assert o.number in Numbers(c.outputs);
          }
        }
    }
  }

  /** What is left after the clean-up: exactly the tables in use and the logs from the recorded one on, all unchanged. */
  ghost predicate OnlyNeeded(s: DbState, t: DbState) {
    && t == s.(disk := Disk(t.disk.logs, s.disk.manifest, t.disk.tables))
    && (forall n :: n in t.disk.tables <==> n in s.disk.tables && InUse(s, n))
    && (forall n :: n in t.disk.tables ==> t.disk.tables[n] == s.disk.tables[n])
    && (forall n :: n in t.disk.logs <==> n in s.disk.logs && s.logNumber <= n)
    && (forall n :: n in t.disk.logs ==> t.disk.logs[n] == s.disk.logs[n])
  }

  lemma CleanedIs(s: DbState)
    ensures OnlyNeeded(s, Cleaned(s))
  {
    forall n ensures n in Cleaned(s).disk.tables <==> n in s.disk.tables && InUse(s, n) {
      LiveIffInUse(s, n);
    }
  }

  /** Installing a compaction takes its inputs out of the current version: no file with such a number is left in it. */
  lemma InputsAreGone(s: DbState, c: Pending, f: File)
    requires StateOk(s) && s.pending == Some(c) && (f in c.in0 || f in c.in1) && |s.current.files| == NUM_LEVELS
    ensures forall l, g :: Installed(s, c).current.Has(l, g) ==> g.number != f.number
  {
    CurrentValid(s);
    StateBounds(s);
    assert PendingOk(s, c) by { assert PartOk(s, PendingPart); }
    CurrentBelow(s);
    PendingInputs(c, s.current, s.ledger.history, s.ledger.pendingFrom, s.ledger.flushed);
    PendingNumbers(c, s.current, s.disk.manifest, s.disk.tables, s.nextFileNumber, s.nextFileNumber);
    PendingInstalls(c, s.disk.manifest, s.disk.tables, s.current, s.ledger.history, s.ledger.pendingFrom, s.ledger.flushed,
                    s.nextFileNumber);
    RewrittenAway(s.current, Installed(s, c).current, c.level, c.in0, c.in1, c.outputs, f);
  }

  /** So the clean-up that follows deletes every input that no reader holds. */
  lemma InputsAreDeleted(s: DbState, c: Pending, f: File)
    requires StateOk(s) && s.pending == Some(c) && (f in c.in0 || f in c.in1)
    requires |s.current.files| == NUM_LEVELS && s.ledger.flushed <= |s.ledger.history|
    requires forall v, l, g {:trigger v.Has(l, g)} :: v in s.pinned && v.Has(l, g) ==> g.number != f.number
    ensures f.number !in Cleaned(Installed(s, c).(ledger := Charge(s, c))).disk.tables
  {
    var t := Installed(s, c).(ledger := Charge(s, c));
    InputsAreGone(s, c, f);
    CleanedIs(t);
    forall v, l, g | v in Listed(t) && v.Has(l, g) ensures g.number != f.number {
      assert v in s.pinned || v == t.current;
    }
    assert !InUse(t, f.number);
  }

  // ---- Snapshots and readers ----

  lemma SnapshotKeeps(s: DbState)
    requires StateOk(s)
    ensures StateOk(s.(snapshots := s.snapshots + [s.lastSequence]))
  {
    var t := s.(snapshots := s.snapshots + [s.lastSequence]);
    forall part ensures PartOk(t, part) {
      assert PartOk(s, part) && PartOk(s, CounterPart) && PartOk(s, SnapshotPart);
    }
  }

  lemma ReleaseKeeps(s: DbState, i: nat)
    requires StateOk(s) && i < |s.snapshots|
    ensures StateOk(s.(snapshots := s.snapshots[..i] + s.snapshots[i + 1..]))
  {
    var t := s.(snapshots := s.snapshots[..i] + s.snapshots[i + 1..]);
    forall part ensures PartOk(t, part) {
      assert PartOk(s, part);
    }
  }

  lemma PinKeeps(s: DbState)
    requires StateOk(s)
    ensures StateOk(s.(pinned := s.pinned + [s.current]))
  {
    var t := s.(pinned := s.pinned + [s.current]);
    CurrentBelow(s);
    forall part ensures PartOk(t, part) {
      assert PartOk(s, part) && PartOk(s, VersionPart);
    }
  }

  lemma UnpinKeeps(s: DbState, i: nat)
    requires StateOk(s) && i < |s.pinned|
    ensures StateOk(s.(pinned := s.pinned[..i] + s.pinned[i + 1..]))
  {
    var t := s.(pinned := s.pinned[..i] + s.pinned[i + 1..]);
    forall part ensures PartOk(t, part) {
      assert PartOk(s, part);
    }
  }

  // ---- Reads ----

  /** Everything that is stored: both memtables and the current version. */
  ghost function Contents(s: DbState): set<Entry> {
    ToSet(s.mem) + (if s.imm.Some? then ToSet(s.imm.value) else {}) + s.current.Entries()
  }

  /** Memtable over immutable memtable over tables: each layer is newer than the next. */
  ghost predicate Layers(s: DbState) {
    && Sorted(s.mem) && (s.imm.Some? ==> Sorted(s.imm.value))
    && Distinct(ToSet(s.mem) + (BelowMem(s)))
    && Shadows(ToSet(s.mem), BelowMem(s))
    && (s.imm.Some? ==> Shadows(ToSet(s.imm.value), s.current.Entries()))
  }

  ghost function BelowMem(s: DbState): set<Entry> {
    (if s.imm.Some? then ToSet(s.imm.value) else {}) + s.current.Entries()
  }

  lemma LayersOk(s: DbState)
    requires StateOk(s)
    ensures Layers(s)
  {
    assert PartOk(s, VersionPart) && PartOk(s, MemoryPart);
    var led := s.ledger;
    var h, p, q := led.history, led.flushed, led.switched;
    HistorySplits(h, p, q, |h|);
    HistorySet(h, p, q);
    HistorySet(h, q, |h|);
    assert h[p..] == h[p..|h|];
    assert p == q ==> h[p..q] == [];
    HoldsFacts(s.current, h, p, led.floor, led.exposed);
    assert ToSet(s.mem) + BelowMem(s) == Writes(h[p..]) + s.current.Entries();
  }

  /** The first layer that has a visible entry has the newest one. */
  lemma LayeredRead(s: DbState, k: UserKey, snap: SequenceNumber)
    requires Layers(s)
    ensures var found := Seek(s.mem, k, snap);
      var found' := if found.None? && s.imm.Some? then Seek(s.imm.value, k, snap) else found;
      Newest(Contents(s), k, snap) == if found'.Some? then found' else Newest(s.current.Entries(), k, snap)
  {
    assert Contents(s) == ToSet(s.mem) + BelowMem(s);
    LayerFound(s.mem, BelowMem(s), k, snap);
    if s.imm.Some? {
      assert BelowMem(s) == ToSet(s.imm.value) + s.current.Entries();
      LayerFound(s.imm.value, s.current.Entries(), k, snap);
    } else {
      assert BelowMem(s) == s.current.Entries();
    }
  }

  lemma LayerFound(top: seq<Entry>, below: set<Entry>, k: UserKey, snap: SequenceNumber)
    requires Sorted(top) && Distinct(ToSet(top) + below) && Shadows(ToSet(top), below)
    ensures Newest(ToSet(top) + below, k, snap) ==
      if Seek(top, k, snap).Some? then Seek(top, k, snap) else Newest(below, k, snap)
  {
    SeekFindsNewest(top, k, snap);
    if Seek(top, k, snap).Some? {
      NewestIs(ToSet(top) + below, k, snap, Seek(top, k, snap).value);
    } else {
      OverlayBelow(ToSet(top), below, k, snap);
    }
  }

  /** For every key that no compaction has exposed, and at every sequence number that may still be asked for, the
      contents answer like a replay of the history up to that number. */
  lemma ReadsAreRight(s: DbState, k: UserKey, snap: SequenceNumber)
    requires StateOk(s) && k !in s.ledger.exposed && s.ledger.floor <= snap <= |s.ledger.history|
    ensures Read(Contents(s), k, snap) == ReplayHistory(s.ledger.history, k, snap)
    ensures Distinct(Contents(s))
  {
    assert PartOk(s, VersionPart) && PartOk(s, MemoryPart);
    var led := s.ledger;
    var h, p, q := led.history, led.flushed, led.switched;
    HistorySplits(h, p, q, |h|);
    assert h[p..] == h[p..|h|];
    assert p == q ==> h[p..q] == [];
    assert Contents(s) == s.current.Entries() + Writes(h[p..]);
    HoldsFacts(s.current, h, p, led.floor, led.exposed);
    assert Writes(h[p..]) + s.current.Entries() == Contents(s);
    ReplayHistoryIsRead(h, k, snap, snap);
  }
}
