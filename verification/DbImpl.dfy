/** The open database: writing, switching and flushing memtables, compacting while others write, reading,
    and reopening after a crash (db/db_impl.cc). */
module DbImpl {
  import opened DbFormat
  import opened Versions
  import opened Builder
  import opened Inputs
  import opened Picking
  import opened Compactions
  import opened Installs
  import opened WriteBatches
  import opened Logs
  import opened DbStates
  import opened Recovery
  import opened Exposures
  import opened Gaps
  import opened DbInvariants
  import opened DbSteps
  import opened DbReaders
  import opened Reopening
  import opened DbIter

  const L0_STOP_WRITES_TRIGGER := 12

  /** What the background thread has decided to compact: a level that is too large, a file that too many seeks
      have hit, or what a caller of CompactRange asks for. */
  datatype Choice = SizeCompaction(level: nat) | SeekCompaction(level: nat, file: File) | ManualCompaction(level: nat, range: Range)

  datatype Options = Options(expandedLimit: nat, fileSizeLimit: nat, maxOverlap: nat, cutting: Cutting)

  ghost predicate ChoiceOk(v: Version, choice: Choice) {
    && |v.files| == NUM_LEVELS && choice.level + 1 < NUM_LEVELS
    && (choice.SizeCompaction? ==> v.files[choice.level] != [])
    && (choice.SeekCompaction? ==> v.Has(choice.level, choice.file))
  }

  /** The first inputs of a compaction: of a level that is too large, the file after the compaction pointer; the file
      that too many seeks have hit; or what a caller of CompactRange asks for, up to the size limit below level 0. At
      level 0 everything that overlaps it comes along. */
  ghost predicate SeedFor(v: Version, pointers: seq<Option<InternalKey>>, choice: Choice, limit: nat, seed: seq<File>)
    requires ChoiceOk(v, choice) && |pointers| == NUM_LEVELS
  {
    var files := v.files[choice.level];
    match choice
    case SizeCompaction(level) =>
      exists f :: f in files && IsPick(files, None, pointers[level], f) && IsSeedOf(files, level == 0, f, seed)
    case SeekCompaction(level, file) => IsSeedOf(files, level == 0, file, seed)
    case ManualCompaction(level, range) =>
      if level == 0 then exists r :: LeastClosed(files, range, r) && seed == Overlapping(files, r)
      else IsCut(Overlapping(files, range), limit, seed)
  }

  /** The inputs of a compaction: the seed with its boundary files, widened where that is worthwhile, and what lies in
      their range in the next level. Those of an automatic one leave no gap. The key keeps all this out of sight where
      it is only passed on. */
  ghost predicate InputsFor(v: Version, pointers: seq<Option<InternalKey>>, choice: Choice, options: Options, in0: seq<File>, in1: seq<File>)
    requires ChoiceOk(v, choice) && |pointers| == NUM_LEVELS
  {
    forall key: nat {:trigger InputsAt(v, pointers, choice, options, in0, in1, key)} :: InputsAt(v, pointers, choice, options, in0, in1, key)
  }

  ghost predicate InputsAt(v: Version, pointers: seq<Option<InternalKey>>, choice: Choice, options: Options, in0: seq<File>, in1: seq<File>,
                           key: nat)
    requires ChoiceOk(v, choice) && |pointers| == NUM_LEVELS
  {
    && MeetsHull(v.files[choice.level + 1], in0, in1) && (!choice.ManualCompaction? ==> NoGap(in0 + in1))
    && exists seed :: GrowsFrom(v, pointers, choice, options, seed, in0)
  }

  ghost predicate GrowsFrom(v: Version, pointers: seq<Option<InternalKey>>, choice: Choice, options: Options, seed: seq<File>, in0: seq<File>)
    requires ChoiceOk(v, choice) && |pointers| == NUM_LEVELS
  {
    && seed != [] && SeedFor(v, pointers, choice, options.fileSizeLimit, seed)
    && Chosen(v.files[choice.level], v.files[choice.level + 1], choice.level == 0, seed, options.expandedLimit, in0)
  }

  /** One file, nothing to merge it with, and not too much data two levels further down. */
  ghost predicate IsTrivial(v: Version, level: nat, in0: seq<File>, in1: seq<File>, maxOverlap: nat) {
    |in0| == 1 && in1 == [] && FewGrandparents(v, level, in0 + in1, maxOverlap)
  }

  /** The compaction pointer of the level becomes the largest key of the inputs; the others stay. */
  ghost predicate PointerMoves(before: seq<Option<InternalKey>>, after: seq<Option<InternalKey>>, level: nat, in0: seq<File>)
    requires level < |before|
  {
    exists key :: IsLargest(in0, key) && after == before[level := Some(key)]
  }

  /** Everything about the choice of inputs; the key keeps it out of sight where it is only passed on. */
  ghost predicate Picked(v: Version, before: seq<Option<InternalKey>>, after: seq<Option<InternalKey>>, choice: Choice, options: Options,
                         in0: seq<File>, in1: seq<File>, move: bool)
    requires ChoiceOk(v, choice) && |before| == NUM_LEVELS
  {
    forall key: nat {:trigger PickedAt(v, before, after, choice, options, in0, in1, move, key)} ::
      PickedAt(v, before, after, choice, options, in0, in1, move, key)
  }

  ghost predicate PickedAt(v: Version, before: seq<Option<InternalKey>>, after: seq<Option<InternalKey>>, choice: Choice, options: Options,
                           in0: seq<File>, in1: seq<File>, move: bool, key: nat)
    requires ChoiceOk(v, choice) && |before| == NUM_LEVELS
  {
    && GoodInputs(v, choice.level, in0, in1) && InputsFor(v, before, choice, options, in0, in1)
    && PointerMoves(before, after, choice.level, in0)
    && (move <==> IsTrivial(v, choice.level, in0, in1, options.maxOverlap))
  }

  datatype Outcome = NothingToDo | FileMoved(file: File) | CompactionStarted

  lemma LevelRanges(v: Version, level: nat)
    requires v.Valid() && level + 1 < NUM_LEVELS
    ensures Ranges(v.files[level]) && Ranges(v.files[level + 1])
  {
    LevelFacts(v, level);
    LevelFacts(v, level + 1);
  }

  lemma InputsNoGap(v: Version, level: nat, seed: seq<File>, limit: nat, in0: seq<File>, in1: seq<File>)
    requires v.Valid() && level + 1 < NUM_LEVELS && Seed(v.files[level], level == 0, seed) && NoGap(seed)
    requires Chosen(v.files[level], v.files[level + 1], level == 0, seed, limit, in0) && TakesTouching(v.files[level + 1], in0, in1)
    ensures NoGap(in0 + in1)
  {
    LevelRanges(v, level);
    SeedInLevel(v.files[level], level == 0, seed);
    ChosenNoGap(v.files[level], v.files[level + 1], level == 0, seed, limit, in0, in1);
  }

  method SetupInputs(v: Version, level: nat, seed: seq<File>, limit: nat)
    returns (in0: seq<File>, in1: seq<File>, pointer: InternalKey)
    requires v.Valid() && level + 1 < NUM_LEVELS && Seed(v.files[level], level == 0, seed)
    ensures in0 != [] && GoodInputs(v, level, in0, in1) && (NoGap(seed) ==> NoGap(in0 + in1))
    ensures Chosen(v.files[level], v.files[level + 1], level == 0, seed, limit, in0) && MeetsHull(v.files[level + 1], in0, in1)
    ensures IsLargest(in0, pointer)
  {
    in0, in1, pointer := SetupOtherInputs(v, level, seed, limit);
    if NoGap(seed) {
      InputsNoGap(v, level, seed, limit, in0, in1);
    }
  }

  lemma InputsAreFor(v: Version, pointers: seq<Option<InternalKey>>, choice: Choice, options: Options, seed: seq<File>,
                     in0: seq<File>, in1: seq<File>)
    requires ChoiceOk(v, choice) && |pointers| == NUM_LEVELS && GrowsFrom(v, pointers, choice, options, seed, in0)
    requires MeetsHull(v.files[choice.level + 1], in0, in1) && (!choice.ManualCompaction? ==> NoGap(in0 + in1))
    ensures InputsFor(v, pointers, choice, options, in0, in1)
  {
  }

  lemma IsPicked(v: Version, pointers: seq<Option<InternalKey>>, choice: Choice, options: Options, in0: seq<File>, in1: seq<File>,
                 pointer: InternalKey, move: bool)
    requires ChoiceOk(v, choice) && |pointers| == NUM_LEVELS && InputsFor(v, pointers, choice, options, in0, in1)
    requires GoodInputs(v, choice.level, in0, in1) && IsLargest(in0, pointer)
    requires move <==> IsTrivial(v, choice.level, in0, in1, options.maxOverlap)
    ensures Picked(v, pointers, pointers[choice.level := Some(pointer)], choice, options, in0, in1, move)
  {
    assert PointerMoves(pointers, pointers[choice.level := Some(pointer)], choice.level, in0);
  }

  /** SetupOtherInputs and IsTrivialMove for a seed. */
  method PickFrom(v: Version, pointers: seq<Option<InternalKey>>, choice: Choice, seed: seq<File>, options: Options)
    returns (in0: seq<File>, in1: seq<File>, pointer: InternalKey, move: bool)
    requires v.Valid() && ChoiceOk(v, choice) && |pointers| == NUM_LEVELS && Seed(v.files[choice.level], choice.level == 0, seed)
    requires SeedFor(v, pointers, choice, options.fileSizeLimit, seed) && (!choice.ManualCompaction? ==> NoGap(seed))
    ensures in0 != [] && Picked(v, pointers, pointers[choice.level := Some(pointer)], choice, options, in0, in1, move)
  {
    in0, in1, pointer := SetupInputs(v, choice.level, seed, options.expandedLimit);
    InputsAreFor(v, pointers, choice, options, seed, in0, in1);
    move := IsTrivialMove(v, choice.level, in0, in1, options.maxOverlap);
    IsPicked(v, pointers, choice, options, in0, in1, pointer, move);
  }

  /** The outputs end where they are full or ShouldStopBefore says so. */
  ghost predicate OutputsCut(c: Pending, cutting: Cutting) {
    PiecesOf(c.outputs) == Outputs(c.base, c.level, MergeFiles(c.in0 + c.in1), c.snap, cutting) && AllSized(c.outputs, cutting)
  }

  /** A compaction of the current version, with its outputs computed at the oldest snapshot. */
  method RunCompaction(ghost s: DbState, v: Version, level: nat, in0: seq<File>, in1: seq<File>, smallestSnapshot: SequenceNumber,
                       cutting: Cutting, first: nat)
    returns (c: Pending)
    requires StateOk(s) && v == s.current && smallestSnapshot == SmallestSnapshot(s) && first == s.nextFileNumber
    requires GoodInputs(v, level, in0, in1)
    ensures IsCompaction(s, c) && c.level == level && c.in0 == in0 && c.in1 == in1 && OutputsCut(c, cutting)
  {
    StateBounds(s);
    SmallestIsOldest(s);
    CurrentValid(s);
    InputsAreMerged(v, level, in0, in1);
    var input := MergeFiles(in0 + in1);
    var outputs := DoCompactionWork(v, level, input, smallestSnapshot, cutting, first);
    c := Pending(v, level, in0, in1, smallestSnapshot, outputs, first + |outputs|);
  }

  /** A group is logged and inserted, after a switch of memtables if the old one was full. */
  ghost predicate WritesGroup(s: DbState, switching: bool, ops: seq<WriteOp>, t: DbState) {
    var ready := if switching then Switched(s) else s;
    && ready.logFileNumber in ready.disk.logs && ready.lastSequence + |ops| <= MAX_SEQUENCE_NUMBER
    && t == Written(ready, ops, t.mem)
  }

  /** An input of the compaction that is in no version that a reader holds. */
  ghost predicate InputUnheld(c: Pending, pinned: seq<Version>, f: File) {
    (f in c.in0 || f in c.in1) && forall v, l, g {:trigger v.Has(l, g)} :: v in pinned && v.Has(l, g) ==> g.number != f.number
  }

  /** The table goes to the level that PickLevelForMemTableOutput names for its user keys. */
  ghost predicate FlushLevelIs(v: Version, files: seq<File>, maxOverlap: nat, level: nat)
    requires |v.files| == NUM_LEVELS
  {
    if files == [] then level == 0
    else forall f :: f in files ==> IsFlushLevel(v, f.smallest.user, f.largest.user, maxOverlap, level)
  }

  lemma GrownOps(s: DbState, ops: seq<WriteOp>)
    ensures OpsIn(Grow(s, ops).history) == OpsIn(s.ledger.history) + Somes(ops)
  {
    OpsInJoin(s.ledger.history, OpHistory(ops, |s.ledger.history| + 1));
    OpsInHistory(ops, |s.ledger.history| + 1);
  }

  class DBImpl {
    var disk: Disk
    var mem: seq<Entry>
    var imm: Option<seq<Entry>>
    var current: Version
    var lastSequence: SequenceNumber
    var nextFileNumber: nat
    var logNumber: nat
    var logFileNumber: nat
    var snapshots: seq<SequenceNumber>
    /** Older versions that readers still hold. */
    var pinned: seq<Version>
    /** The compaction that the background thread is working on. */
    var pending: Option<Pending>
    /** Per level, the largest key of the last compaction. */
    var compactPointers: seq<Option<InternalKey>>
    ghost var ledger: Ledger

    ghost function State(): DbState
      reads this
    {
      DbState(disk, mem, imm, current, lastSequence, nextFileNumber, logNumber, logFileNumber, snapshots, pinned,
              pending, ledger)
    }

    ghost predicate Valid()
      reads this
    {
      StateOk(State()) && |compactPointers| == NUM_LEVELS
    }

    // ---- Writes ----

    /** The last branch of MakeRoomForWrite: a new log and memtable; the old memtable waits to be flushed. */
    method SwitchMemTable()
      requires Valid() && imm.None?
      modifies this
      ensures Valid() && State() == Switched(old(State()))
    {
      SwitchKeeps(State());
      disk := disk.(logs := disk.logs[nextFileNumber := []]);
      logFileNumber := nextFileNumber;
      nextFileNumber := nextFileNumber + 1;
      imm := Some(mem);
      mem := [];
      ledger := ledger.(switched := |ledger.history|);
    }

    /** One pass of MakeRoomForWrite: there is room, or a new memtable is started, or the writer has to wait for
        the background thread. */
    method MakeRoomForWrite(force: bool, memFull: bool) returns (ready: bool)
      requires Valid()
      modifies this
      ensures Valid() && |old(current).files| == NUM_LEVELS
      ensures !ready <==> (force || memFull) && (old(imm).Some? || |old(current).files[0]| >= L0_STOP_WRITES_TRIGGER)
      ensures State() == if ready && (force || memFull) then Switched(old(State())) else old(State())
    {
      StateBounds(State());
      LevelsOrdered(State());
      ready := true;
      if force || memFull {
        if imm.Some? || |current.files[0]| >= L0_STOP_WRITES_TRIGGER {
          ready := false;
        } else {
          SwitchMemTable();
        }
      }
    }

    /** Logging a batch, then applying it to the memtable. What a crash between the two leaves is the subject of
        CrashAfterAppend. */
    method WriteGroup(ops: seq<WriteOp>)
      requires Valid() && |ledger.history| + |ops| < MAX_SEQUENCE_NUMBER
      modifies this
      ensures Valid() && ledger == Grow(old(State()), ops)
      ensures OpsIn(ledger.history) == OpsIn(old(ledger).history) + Somes(ops)
      ensures old(logFileNumber) in old(disk).logs && old(lastSequence) + |ops| <= MAX_SEQUENCE_NUMBER
      ensures State() == Written(old(State()), ops, mem)
    {
      ghost var s := State();
      StateBounds(s);
      GrownOps(s, ops);
      var record := LogRecord(lastSequence + 1, ops);
      disk := disk.(logs := disk.logs[logFileNumber := disk.logs[logFileNumber] + [record]]);
      mem := InsertWritten(s, record, mem);
      WriteKeeps(s, ops, mem);
      lastSequence := lastSequence + |ops|;
      ledger := Grow(s, ops);
    }

    /** Write, called by the writer at the head of the queue: it commits the longest groupable prefix of the queue
        as one batch, or nothing when it has to wait. */
    method Write(writers: seq<Writer>, memFull: bool) returns (committed: nat, synced: bool)
      requires Valid() && writers != []
      requires |ledger.history| + |GroupOps(writers)| < MAX_SEQUENCE_NUMBER
      modifies this
      ensures Valid() && committed <= |writers| && |old(current).files| == NUM_LEVELS
      ensures committed == 0 <==>
        (writers[0].batch.None? || memFull) && (old(imm).Some? || |old(current).files[0]| >= L0_STOP_WRITES_TRIGGER)
      ensures committed == 0 ==> State() == old(State())
      ensures committed > 0 && writers[0].batch.None? ==> committed == 1 && State() == Switched(old(State()))
      ensures committed > 0 && writers[0].batch.Some? ==> WritesGroup(old(State()), memFull, GroupOps(writers[..committed]), State())
      ensures synced <==> committed > 0 && writers[0].batch.Some? && writers[0].sync
      ensures forall i :: 0 <= i < committed && writers[i].sync && writers[i].batch.Some? ==> synced
      ensures committed > 0 && writers[0].batch.Some? ==>
        Groupable(writers, committed) && (committed < |writers| ==> !Groupable(writers, committed + 1))
    {
      var force := writers[0].batch.None?;
      var ready := MakeRoomForWrite(force, memFull);
      if !ready {
        return 0, false;
      }
      if force {
        return 1, false;
      }
      var ops;
      ops, committed := BuildBatchGroup(writers);
      GroupPrefix(writers, committed);
      WriteGroup(ops);
      synced := writers[0].sync;
    }

    // ---- Background work ----

    /** LogAndApply: the edit goes through a builder onto the current version, and, stamped with the counters,
        into the manifest. */
    method LogAndApply(edit: VersionEdit, newLogNumber: nat)
      requires edit.InRange() && |current.files| == NUM_LEVELS && forall l :: 0 <= l < NUM_LEVELS ==> Ordered(current.files[l])
      modifies this`disk, this`current, this`logNumber
      ensures |old(current).files| == NUM_LEVELS && State() == Recorded(old(State()), edit, newLogNumber)
    {
      var stamped := edit.(logNumber := Some(newLogNumber), nextFileNumber := Some(nextFileNumber),
                           lastSequence := Some(lastSequence));
      var builder := new VersionBuilder(current);
      builder.Apply(stamped);
      var v := builder.SaveTo();
      StampedInstall(current, edit, stamped);
      disk := disk.(manifest := disk.manifest + [stamped]);
      current := v;
      logNumber := newLogNumber;
    }

    /** DeleteObsoleteFiles: a table stays exactly if a version that is current or held has it, or if it is an output of
        the running compaction; a log stays exactly from the recorded number on. */
    method DeleteObsoleteFiles()
      modifies this`disk
      ensures State() == Cleaned(old(State())) && disk.manifest == old(disk).manifest
      ensures forall n :: n in disk.tables <==> n in old(disk).tables && InUse(old(State()), n)
      ensures forall n :: n in disk.tables ==> disk.tables[n] == old(disk).tables[n]
      ensures forall n :: n in disk.logs <==> n in old(disk).logs && logNumber <= n
      ensures forall n :: n in disk.logs ==> disk.logs[n] == old(disk).logs[n]
      ensures old(Valid()) ==> Valid()
    {
      CleanedIs(State());
      if Valid() {
        CleanKeeps(State());
      }
      var versions := pinned + [current] + if pending.Some? then [pending.value.base] else [];
      var live := AllLive(versions) + if pending.Some? then Numbers(pending.value.outputs) else {};
      disk := disk.(logs := LogsFrom(disk.logs, logNumber), tables := TablesIn(disk.tables, live));
    }

    /** WriteLevel0Table for the immutable memtable: the table file is written, and a level for it is picked. */
    method WriteLevel0Table(sizes: Sizes, maxOverlap: nat) returns (files: seq<File>, level: nat)
      requires Valid() && imm.Some?
      modifies this`disk, this`nextFileNumber
      ensures Valid() && FlushReady(State(), level, files, old(nextFileNumber))
      ensures State() == WithTables(old(State()), files, old(nextFileNumber) + 1)
      ensures files == [] <==> imm.value == []
      ensures |current.files| == NUM_LEVELS && FlushLevelIs(current, files, maxOverlap, level)
    {
      ghost var s := State();
      CurrentValid(s);
      var number := nextFileNumber;
      assert PartOk(s, MemoryPart);
      var meta := BuildTable(number, imm.value, sizes);
      level := 0;
      if meta.Some? {
        files := [meta.value];
        level := PickLevelForMemTableOutput(current, meta.value.smallest.user, meta.value.largest.user, maxOverlap);
      } else {
        files := [];
      }
      ReadyToFlush(s, level, files);
      disk := disk.(tables := AddTables(disk.tables, files));
      nextFileNumber := nextFileNumber + 1;
    }

    /** LogAndApply of a flush; the immutable memtable is gone. */
    method InstallFlush(level: nat, files: seq<File>)
      requires Valid() && |current.files| == NUM_LEVELS && level < NUM_LEVELS && StateOk(Flushed(State(), level, files))
      modifies this`disk, this`current, this`logNumber, this`imm, this`ledger
      ensures Valid() && |old(current).files| == NUM_LEVELS && State() == Flushed(old(State()), level, files)
    {
      ghost var s := State();
      EditInRange(s, level, files);
      LogAndApply(FlushEdit(level, files), logFileNumber);
      imm := None;
      ledger := ledger.(flushed := ledger.switched);
    }

    /** CompactMemTable, also in the middle of a compaction. */
    method CompactMemTable(sizes: Sizes, maxOverlap: nat) returns (ghost level: nat, ghost files: seq<File>)
      requires Valid() && imm.Some?
      modifies this
      ensures Valid()
      ensures var written := WithTables(old(State()), files, old(nextFileNumber) + 1);
        && FlushReady(written, level, files, old(nextFileNumber)) && |written.current.files| == NUM_LEVELS
        && State() == Cleaned(Flushed(written, level, files)) && FlushLevelIs(old(current), files, maxOverlap, level)
      ensures current.Entries() == old(current).Entries() + ToSet(old(imm).value)
    {
      var tables, l := WriteLevel0Table(sizes, maxOverlap);
      level, files := l, tables;
      ghost var s := State();
      FlushedEntries(s, level, files, old(nextFileNumber));
      FlushKeeps(s, level, files, old(nextFileNumber));
      InstallFlush(l, tables);
      DeleteObsoleteFiles();
    }

    /** The first inputs of an automatic compaction: between their user keys there is no gap. */
    method PickGapless(level: nat, seekFile: Option<File>) returns (seed: seq<File>, ghost f: File)
      requires current.Valid() && level + 1 < NUM_LEVELS && current.files[level] != [] && |compactPointers| == NUM_LEVELS
      requires seekFile.Some? ==> current.Has(level, seekFile.value)
      ensures Seed(current.files[level], level == 0, seed) && NoGap(seed) && f in current.files[level]
      ensures IsPick(current.files[level], seekFile, compactPointers[level], f) && IsSeedOf(current.files[level], level == 0, f, seed)
    {
      seed := PickSeed(current, level, seekFile, compactPointers[level]);
      ghost var files := current.files[level];
      f :| f in files && IsPick(files, seekFile, compactPointers[level], f) && IsSeedOf(files, level == 0, f, seed);
      LevelFacts(current, level);
      SeedNoGap(files, level == 0, f, seed);
    }

    /** The first inputs of a compaction. */
    method ChooseSeed(choice: Choice, options: Options) returns (seed: seq<File>)
      requires Valid() && ChoiceOk(current, choice)
      ensures SeedFor(current, compactPointers, choice, options.fileSizeLimit, seed)
      ensures seed != [] ==> Seed(current.files[choice.level], choice.level == 0, seed)
      ensures current.Valid() && (!choice.ManualCompaction? ==> NoGap(seed))
      ensures seed == [] <==> choice.ManualCompaction? && Overlapping(current.files[choice.level], choice.range) == []
    {
      CurrentValid(State());
      ghost var f;
      match choice
      case SizeCompaction(level) => seed, f := PickGapless(level, None);
      case SeekCompaction(level, file) => seed, f := PickGapless(level, Some(file));
      case ManualCompaction(level, range) => seed := RangeSeed(current, level, range, options.fileSizeLimit);
    }

    /** PickCompaction or CompactRange, and whether the result is a trivial move. */
    method PickInputs(choice: Choice, options: Options) returns (in0: seq<File>, in1: seq<File>, move: bool)
      requires Valid() && ChoiceOk(current, choice)
      modifies this`compactPointers
      ensures Valid() && State() == old(State())
      ensures in0 == [] <==> choice.ManualCompaction? && Overlapping(current.files[choice.level], choice.range) == []
      ensures in0 == [] ==> compactPointers == old(compactPointers)
      ensures in0 != [] ==> Picked(current, old(compactPointers), compactPointers, choice, options, in0, in1, move)
    {
      var seed := ChooseSeed(choice, options);
      if seed == [] {
        return [], [], false;
      }
      in0, in1, move := ExpandSeed(choice, seed, options);
    }

    /** SetupOtherInputs on the seed, with the new compact pointer. */
    method ExpandSeed(choice: Choice, seed: seq<File>, options: Options) returns (in0: seq<File>, in1: seq<File>, move: bool)
      requires Valid() && current.Valid() && ChoiceOk(current, choice) && Seed(current.files[choice.level], choice.level == 0, seed)
      requires SeedFor(current, compactPointers, choice, options.fileSizeLimit, seed) && (!choice.ManualCompaction? ==> NoGap(seed))
      modifies this`compactPointers
      ensures Valid() && State() == old(State()) && in0 != []
      ensures Picked(current, old(compactPointers), compactPointers, choice, options, in0, in1, move)
    {
      var pointer;
      in0, in1, pointer, move := PickFrom(current, compactPointers, choice, seed, options);
      compactPointers := compactPointers[choice.level := Some(pointer)];
    }

    /** BackgroundCompaction when there is no memtable to flush: pick the inputs, then move a single file down or
        merge the inputs into new tables. */
    method BackgroundCompaction(choice: Choice, options: Options) returns (outcome: Outcome, ghost in0: seq<File>, ghost in1: seq<File>)
      requires Valid() && imm.None? && pending.None? && ChoiceOk(current, choice)
      modifies this
      ensures Valid() && |old(current).files| == NUM_LEVELS && |old(compactPointers)| == NUM_LEVELS
      ensures outcome.NothingToDo? <==> choice.ManualCompaction? && Overlapping(old(current).files[choice.level], choice.range) == []
      ensures outcome.NothingToDo? ==> State() == old(State()) && compactPointers == old(compactPointers)
      ensures !outcome.NothingToDo? ==> GoodInputs(old(current), choice.level, in0, in1)
      ensures !outcome.NothingToDo? ==> InputsFor(old(current), old(compactPointers), choice, options, in0, in1)
      ensures !outcome.NothingToDo? ==> PointerMoves(old(compactPointers), compactPointers, choice.level, in0)
      ensures !outcome.NothingToDo? ==>
        (outcome.FileMoved? <==> !choice.ManualCompaction? && IsTrivial(old(current), choice.level, in0, in1, options.maxOverlap))
      ensures outcome.FileMoved? ==> in0 == [outcome.file] && State() == Moved(old(State()), choice.level, outcome.file)
      ensures outcome.CompactionStarted? ==>
        && pending.Some? && pending.value.level == choice.level && pending.value.in0 == in0 && pending.value.in1 == in1
        && IsStart(old(State()), State(), pending.value) && OutputsCut(pending.value, options.cutting)
    {
      var files, next, move := PickInputs(choice, options);
      in0, in1 := files, next;
      if files == [] {
        outcome := NothingToDo;
      } else {
        assert PickedAt(current, old(compactPointers), compactPointers, choice, options, files, next, move, 0);
        outcome := UseInputs(choice, options, files, next, move);
      }
    }

    /** The second half: move, or merge. */
    method UseInputs(choice: Choice, options: Options, files: seq<File>, next: seq<File>, move: bool) returns (outcome: Outcome)
      requires Valid() && pending.None? && GoodInputs(current, choice.level, files, next)
      requires move ==> |files| == 1 && next == []
      modifies this`disk, this`current, this`logNumber, this`nextFileNumber, this`pending, this`ledger
      ensures Valid() && |old(current).files| == NUM_LEVELS && !outcome.NothingToDo?
      ensures outcome.FileMoved? <==> move && !choice.ManualCompaction?
      ensures outcome.FileMoved? ==> files == [outcome.file] && State() == Moved(old(State()), choice.level, outcome.file)
      ensures outcome.CompactionStarted? ==>
        && pending.Some? && pending.value.level == choice.level && pending.value.in0 == files && pending.value.in1 == next
        && IsStart(old(State()), State(), pending.value) && OutputsCut(pending.value, options.cutting)
    {
      LevelsOrdered(State());
      if move && !choice.ManualCompaction? {
        assert files == [files[0]];
        outcome := FileMoved(files[0]);
        MoveFile(choice.level, files[0]);
      } else {
        outcome := CompactionStarted;
        StartCompaction(choice.level, files, next, options.cutting);
      }
    }

    method MoveFile(level: nat, f: File)
      requires Valid() && pending.None? && GoodInputs(current, level, [f], [])
      modifies this`disk, this`current, this`logNumber
      ensures Valid() && |old(current).files| == NUM_LEVELS && State() == Moved(old(State()), level, f)
    {
      ghost var s := State();
      MoveKeeps(s, level, f);
      MoveInRange(s, level, [f], [], [f]);
      LogAndApply(CompactionEdit(level, [f], [], [f]), logNumber);
      assert State() == Moved(s, level, f);
    }

    /** DoCompactionWork up to the point where its outputs are complete; nothing is installed yet. */
    method StartCompaction(level: nat, in0: seq<File>, in1: seq<File>, cutting: Cutting)
      requires Valid() && pending.None? && GoodInputs(current, level, in0, in1)
      modifies this`disk, this`nextFileNumber, this`pending, this`ledger
      ensures Valid() && pending.Some? && pending.value.level == level && IsStart(old(State()), State(), pending.value)
      ensures pending.value.in0 == in0 && pending.value.in1 == in1 && OutputsCut(pending.value, cutting)
    {
      ghost var s := State();
      var smallestSnapshot := if snapshots == [] then lastSequence else snapshots[0];
      var c := RunCompaction(s, current, level, in0, in1, smallestSnapshot, cutting, nextFileNumber);
      RunKeeps(s, c);
      disk := disk.(tables := AddTables(disk.tables, c.outputs));
      nextFileNumber := c.next;
      pending := Some(c);
      ledger := ledger.(pendingFrom := ledger.flushed);
      assert State() == Started(WithTables(s, c.outputs, c.next), c);
    }

    /** InstallCompactionResults. */
    method InstallCompactionResults()
      requires Valid() && pending.Some?
      modifies this`disk, this`current, this`logNumber, this`pending, this`ledger
      ensures |old(current).files| == NUM_LEVELS && old(ledger).flushed <= |old(ledger).history|
      ensures State() == Installed(old(State()), old(pending).value).(ledger := Charge(old(State()), old(pending).value))
    {
      ghost var s := State();
      var c := pending.value;
      StateBounds(s);
      MergeLevel(s, c);
      MoveInRange(s, c.level, c.in0, c.in1, c.outputs);
      LogAndApply(CompactionEdit(c.level, c.in0, c.in1, c.outputs), logNumber);
      pending := None;
      ledger := Charge(s, c);
    }

    /** The end of DoCompactionWork and the cleaning up after it. The database stays in order if and only if the
        outputs fit between the files that are in the next level by now. Then the only reads that can have
        changed are those of the keys in ExposedBy, and there are none of those unless the edge of the inputs
        splits a user key. */
    method FinishCompaction()
      requires Valid() && pending.Some?
      modifies this`disk, this`current, this`logNumber, this`pending, this`ledger
      ensures var c := old(pending).value; Valid() <==> OutputsFit(old(current), c.level, c.in1, c.outputs)
      ensures |old(current).files| == NUM_LEVELS && old(ledger).flushed <= |old(ledger).history|
      ensures State() == Cleaned(Installed(old(State()), old(pending).value).(ledger := Charge(old(State()), old(pending).value)))
      ensures (forall k :: !Straddles(old(pending).value.base, old(pending).value.level, old(pending).value.in1, k))
        ==> ledger.exposed == old(ledger).exposed
      ensures forall f :: InputUnheld(old(pending).value, old(pinned), f) ==> f.number !in disk.tables
    {
      ghost var s := State();
      InstallIff(s, pending.value);
      forall f | InputUnheld(pending.value, pinned, f)
        ensures f.number !in Cleaned(Installed(s, pending.value).(ledger := Charge(s, pending.value))).disk.tables
      {
        InputsAreDeleted(s, pending.value, f);
      }
      if forall k :: !Straddles(pending.value.base, pending.value.level, pending.value.in1, k) {
        InstallExposesNothing(s, pending.value);
      }
      InstallCompactionResults();
      DeleteObsoleteFiles();
    }

    // ---- Snapshots ----

    method GetSnapshot() returns (snapshot: SequenceNumber)
      requires Valid()
      modifies this`snapshots
      ensures Valid() && snapshot == lastSequence && snapshots == old(snapshots) + [snapshot]
    {
      SnapshotKeeps(State());
      snapshots := snapshots + [lastSequence];
      snapshot := lastSequence;
    }

    method ReleaseSnapshot(i: nat)
      requires Valid() && i < |snapshots|
      modifies this`snapshots
      ensures Valid() && snapshots == old(snapshots)[..i] + old(snapshots)[i + 1..]
    {
      ReleaseKeeps(State(), i);
      snapshots := snapshots[..i] + snapshots[i + 1..];
    }

    /** A held snapshot, and the latest state, can always be read. */
    lemma SnapshotsReadable(s: SequenceNumber)
      requires Valid() && (s in snapshots || s == lastSequence)
      ensures ledger.floor <= s <= |ledger.history|
    {
      assert PartOk(State(), SnapshotPart) && PartOk(State(), CounterPart);
    }

    // ---- Reads ----

    /** Get at a sequence number: first the memtable, then the immutable memtable, then the tables. For a key that
        no compaction has exposed the answer is the lookup in the map that the operations up to that number make. */
    method Get(k: UserKey, snapshot: SequenceNumber) returns (value: Option<Bytes>)
      requires Valid()
      ensures value == Read(Contents(State()), k, snapshot)
      ensures k !in ledger.exposed && ledger.floor <= snapshot <= |ledger.history| ==>
        value == Lookup(MapOf(OpsIn(ledger.history)[..snapshot]), k)
    {
      ghost var s := State();
      if k !in ledger.exposed && ledger.floor <= snapshot <= |ledger.history| {
        ReadsAreRight(s, k, snapshot);
        ReplayIsLookup(ledger.history, k, snapshot);
      }
      LayersOk(s);
      LayeredRead(s, k, snapshot);
      var found := Seek(mem, k, snapshot);
      if found.None? && imm.Some? {
        found := Seek(imm.value, k, snapshot);
      }
      if found.None? {
        CurrentValid(s);
        found := Versions.Get(current, k, snapshot);
      }
      value := Answer(found);
    }

    /** NewIterator at a sequence number: a user iterator over the merge of everything that is stored; later writes
        change its view as DBIter.ViewChanges allows. The current version stays pinned until ReleaseIterator. */
    method NewIterator(snapshot: SequenceNumber) returns (iter: DBIter)
      requires Valid()
      modifies this`pinned
      ensures Valid() && pinned == old(pinned) + [current]
      ensures fresh(iter) && fresh(iter.iter) && iter.Settled() && !iter.valid && iter.sequence == snapshot
      ensures iter.iter.entries == MergedState(mem, imm, current)
      ensures Sorted(iter.iter.entries) && ToSet(iter.iter.entries) == Contents(State())
    {
      StateMerged(State());
      PinKeeps(State());
      var internal := new InternalIterator(MergedState(mem, imm, current));
      iter := new DBIter(internal, snapshot);
      pinned := pinned + [current];
    }

    method ReleaseIterator(i: nat)
      requires Valid() && i < |pinned|
      modifies this`pinned
      ensures Valid() && pinned == old(pinned)[..i] + old(pinned)[i + 1..]
    {
      UnpinKeeps(State(), i);
      pinned := pinned[..i] + pinned[i + 1..];
    }

    // ---- Opening ----

    /** The state as DB::Open leaves it. */
    constructor FromState(ghost s: DbState, disk: Disk, current: Version, lastSequence: SequenceNumber, newLogNumber: nat)
      requires s == DbState(disk, [], None, current, lastSequence, newLogNumber + 1, newLogNumber, newLogNumber, [], [], None, s.ledger)
      ensures State() == s && |compactPointers| == NUM_LEVELS
    {
      this.disk, this.mem, this.imm, this.current := disk, [], None, current;
      this.lastSequence, this.nextFileNumber := lastSequence, newLogNumber + 1;
      this.logNumber, this.logFileNumber := newLogNumber, newLogNumber;
      this.snapshots, this.pinned, this.pending := [], [], None;
      this.compactPointers := [None, None, None, None, None, None, None];
      this.ledger := s.ledger;
    }

    /** Recover: the manifest is replayed, then the logs into level-0 tables. */
    static method Recover(disk: Disk, sizes: Sizes, ghost v: Version, ghost led: Ledger) returns (r: Recovered, g: Progress)
      requires DiskOk(disk, v, led.history, led.flushed, led.floor, led.exposed)
      ensures Starts(r, disk, v) && Complete(g, RecoveryGoal(r, disk, led.history, led.flushed), r.lastSequence)
      ensures forall n :: n in disk.logs && r.logNumber <= n ==> n < g.nextFileNumber
    {
      ghost var h, p := led.history, led.flushed;
      RecoverableManifest(disk, v, h, p, led.floor, led.exposed);
      var recovered := RecoverVersion(disk.manifest);
      r := recovered.value;
      ghost var goal := RecoveryGoal(r, disk, h, p);
      ghost var hi: nat :| LogsCover(disk.logs, r.logNumber, hi, h, p, r.lastSequence);
      ProgressStarts(disk, v, h, p, led.floor, led.exposed, r);
      g := RecoverLogs(disk.logs, r.logNumber, Progress([], disk.tables, r.nextFileNumber, 0), sizes, goal, hi, r.lastSequence);
    }

    /** DB::Open on whatever a crash has left: what Recover finds goes into a new manifest, and a new log is started.
        All logged writes that are left are back, and nothing else. */
    static method Open(disk: Disk, sizes: Sizes, ghost v: Version, ghost led: Ledger)
      returns (db: DBImpl, ghost r: Recovered, ghost g: Progress)
      requires DiskOk(disk, v, led.history, led.flushed, led.floor, led.exposed)
      ensures fresh(db) && db.Valid() && Reopens(disk, v, led, r, g, db.State())
      ensures db.ledger.history == led.history && db.lastSequence == |led.history|
    {
      var start, progress := Recover(disk, sizes, v, led);
      OpenedOk(disk, v, led.history, led.flushed, led.floor, led.exposed, start, progress);
      r, g := start, progress;
      RecoverableManifest(disk, v, led.history, led.flushed, led.floor, led.exposed);
      db := Finish(disk, start, progress, Settled(led.history, led.floor, led.exposed));
    }

    /** The version with the recovered tables in level 0. */
    static method AddRecovered(v: Version, files: seq<File>) returns (w: Version)
      requires |v.files| == NUM_LEVELS && forall l :: 0 <= l < NUM_LEVELS ==> Ordered(v.files[l])
      ensures w == Install(v, FlushEdit(0, files))
    {
      var builder := new VersionBuilder(v);
      FilesAtLevel(0, files, 0);
      builder.Apply(FlushEdit(0, files));
      w := builder.SaveTo();
    }

    /** The last part of Open: the edit with the recovered tables goes into a new manifest. */
    static method Finish(disk: Disk, r: Recovered, g: Progress, ghost led: Ledger) returns (db: DBImpl)
      requires |r.version.files| == NUM_LEVELS && LastSequence(r, g) <= MAX_SEQUENCE_NUMBER
      requires StateOk(Opened(disk, r, g, LastSequence(r, g), led))
      requires forall l :: 0 <= l < NUM_LEVELS ==> Ordered(r.version.files[l])
      ensures fresh(db) && db.Valid() && db.State() == Cleaned(Opened(disk, r, g, LastSequence(r, g), led))
    {
      var lastSequence := r.lastSequence;
      if lastSequence < g.maxSequence {
        lastSequence := g.maxSequence;
      }
      var newLog := g.nextFileNumber;
      var current := AddRecovered(r.version, g.tables);
      var onDisk := Disk(disk.logs[newLog := []], NewManifest(r.version, g.tables, newLog, lastSequence), g.onDisk);
      ghost var s := Opened(disk, r, g, lastSequence, led);
      OpenedFields(disk, r, g, lastSequence, led, current);
      db := new DBImpl.FromState(s, onDisk, current, lastSequence, newLog);
      db.DeleteObsoleteFiles();
    }
  }

  lemma OpenedFields(disk: Disk, r: Recovered, g: Progress, lastSequence: SequenceNumber, led: Ledger, current: Version)
    requires |r.version.files| == NUM_LEVELS && current == Install(r.version, FlushEdit(0, g.tables))
    ensures var newLog := g.nextFileNumber;
      var onDisk := Disk(disk.logs[newLog := []], NewManifest(r.version, g.tables, newLog, lastSequence), g.onDisk);
      Opened(disk, r, g, lastSequence, led)
        == DbState(onDisk, [], None, current, lastSequence, newLog + 1, newLog, newLog, [], [], None, led)
  {
  }

  lemma {:induction false} GroupPrefix(writers: seq<Writer>, n: nat)
    requires n <= |writers|
    ensures |GroupOps(writers[..n])| <= |GroupOps(writers)|
    decreases |writers|
  {
    if n < |writers| {
      assert writers[..|writers| - 1][..n] == writers[..n];
      GroupPrefix(writers[..|writers| - 1], n);
    } else {
      assert writers[..n] == writers;
    }
  }
}
