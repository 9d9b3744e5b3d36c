/** The state that reopening produces, and why it is right (db/db_impl.cc: DB::Open, Recover). */
module Reopening {
  import opened DbFormat
  import opened Versions
  import opened Builder
  import opened Installs
  import opened Manifests
  import opened WriteBatches
  import opened Logs
  import opened DbStates
  import opened Recovery
  import opened DbInvariants
  import opened DbSteps

  /** What recovery starts from: the version of the manifest, its counters and the first number for new tables. */
  ghost predicate Starts(r: Recovered, disk: Disk, v: Version) {
    && MetaOf(disk.manifest).logNumber == Some(r.logNumber) && MetaOf(disk.manifest).lastSequence == Some(r.lastSequence)
    && MetaOf(disk.manifest).nextFileNumber.Some? && r.nextFileNumber == MetaOf(disk.manifest).nextFileNumber.value + 1
    && r.version == v
  }

  function RecoveryGoal(r: Recovered, disk: Disk, h: History, p: nat): Goal {
    Goal(h, p, r.nextFileNumber, disk.tables)
  }

  function LastSequence(r: Recovered, g: Progress): nat {
    if r.lastSequence < g.maxSequence then g.maxSequence else r.lastSequence
  }

  /** A new log, the tables of the old logs in level 0, and a new manifest that starts with a snapshot of the
      recovered version. */
  function Opened(disk: Disk, r: Recovered, g: Progress, lastSequence: SequenceNumber, led: Ledger): DbState
    requires |r.version.files| == NUM_LEVELS
  {
    var newLog := g.nextFileNumber;
    var edit := FlushEdit(0, g.tables);
    DbState(
      Disk(disk.logs[newLog := []], NewManifest(r.version, g.tables, newLog, lastSequence), g.onDisk),
      [], None, Install(r.version, edit), lastSequence, newLog + 1, newLog, newLog, [], [], None, led)
  }

  /** The ledger after reopening: every write of the history is in tables. */
  function Settled(h: History, floor: nat, exposed: set<UserKey>): Ledger {
    Ledger(h, |h|, |h|, floor, exposed, |h|)
  }

  lemma StartsBelow(disk: Disk, v: Version, h: History, p: nat, floor: nat, exposed: set<UserKey>, r: Recovered)
    requires DiskOk(disk, v, h, p, floor, exposed) && Starts(r, disk, v)
    ensures NumbersBelow(v, r.nextFileNumber) && r.logNumber < r.nextFileNumber
    ensures p <= r.lastSequence <= |h|
  {
    TracksUpTo(disk.manifest, v, MetaOf(disk.manifest).nextFileNumber.value, r.nextFileNumber);
  }

  lemma ProgressStarts(disk: Disk, v: Version, h: History, p: nat, floor: nat, exposed: set<UserKey>, r: Recovered)
    requires DiskOk(disk, v, h, p, floor, exposed)
    ensures ProgressOk(Progress([], disk.tables, r.nextFileNumber, 0), RecoveryGoal(r, disk, h, p), p, p)
  {
    TablesHoldNothing(h, p);
  }

  /** A recoverable manifest is complete. */
  lemma RecoverableManifest(disk: Disk, v: Version, h: History, p: nat, floor: nat, exposed: set<UserKey>)
    requires DiskOk(disk, v, h, p, floor, exposed)
    ensures forall i :: 0 <= i < |disk.manifest| ==> disk.manifest[i].InRange()
    ensures MetaOk(MetaOf(disk.manifest), p, |h|) && Replay(disk.manifest) == v
    ensures |v.files| == NUM_LEVELS && forall l :: 0 <= l < NUM_LEVELS ==> Ordered(v.files[l])
    ensures exists hi :: LogsCover(disk.logs, MetaOf(disk.manifest).logNumber.value, hi, h, p, MetaOf(disk.manifest).lastSequence.value)
  {
    forall l | 0 <= l < NUM_LEVELS ensures Ordered(v.files[l]) {
      assert v.LevelOk(l);
    }
  }

  /** The replayed writes go on top of the recovered version. */
  lemma ReplayedHolds(v: Version, h: History, p: nat, floor: nat, exposed: set<UserKey>, g: Progress, goal: Goal,
                      last: nat)
    requires Holds(v, h, p, floor, exposed) && NumbersBelow(v, goal.first) && goal.history == h && goal.flushed == p
    requires Complete(g, goal, last)
    ensures var w := Install(v, FlushEdit(0, g.tables));
      Holds(w, h, |h|, floor, exposed) && Adds(v, w, 0, g.tables)
  {
    FlushFits(v, h, p, |h|, floor, exposed, 0, g.tables);
    FlushInstalls(v, 0, g.tables, goal.first);
    FlushHolds(v, Install(v, FlushEdit(0, g.tables)), h, p, |h|, floor, exposed, 0, g.tables, goal.first);
  }

  lemma ReplayedTables(v: Version, w: Version, g: Progress, goal: Goal, n: nat)
    requires Adds(v, w, 0, g.tables) && FilesOk(g, goal) && NumbersBelow(v, goal.first) && TablesPresent(goal.before, v)
    requires g.nextFileNumber <= n
    ensures TablesPresent(g.onDisk, w) && NumbersBelow(w, n)
  {
    forall l, f | w.Has(l, f) ensures TableFor(g.onDisk, f) && f.number < n {
      if v.Has(l, f) {
        assert TableFor(goal.before, f);
      }
    }
  }

  function NewManifest(v: Version, files: seq<File>, newLog: nat, lastSequence: SequenceNumber): seq<VersionEdit> {
    [SnapshotEdit(v), Stamped(FlushEdit(0, files), newLog, newLog + 1, lastSequence)]
  }

  lemma NewManifestMeta(v: Version, files: seq<File>, newLog: nat, lastSequence: SequenceNumber)
    ensures MetaOf(NewManifest(v, files, newLog, lastSequence)) == Meta(Some(newLog), Some(newLog + 1), Some(lastSequence))
  {
    var edit := Stamped(FlushEdit(0, files), newLog, newLog + 1, lastSequence);
    assert NewManifest(v, files, newLog, lastSequence) == [SnapshotEdit(v)] + [edit];
    ReplaySnoc([SnapshotEdit(v)], edit);
  }

  /** The new manifest describes the new version. */
  lemma NewManifestTracks(v: Version, w: Version, files: seq<File>, first: nat, newLog: nat, lastSequence: SequenceNumber)
    requires v.Shape() && w.Shape() && NumbersBelow(v, first) && NumbersFrom(files, first) && first <= newLog
    requires w == Install(v, FlushEdit(0, files)) && Adds(v, w, 0, files)
    requires NumbersBelow(w, newLog + 1)
    ensures Tracks(NewManifest(v, files, newLog, lastSequence), w, newLog + 1)
  {
    var edit := Stamped(FlushEdit(0, files), newLog, newLog + 1, lastSequence);
    assert NewManifest(v, files, newLog, lastSequence) == [SnapshotEdit(v)] + [edit];
    SnapshotTracks(v, first);
    StampedInstall(v, FlushEdit(0, files), edit);
    FlushEditExtends([SnapshotEdit(v)], v, w, edit, 0, files, first);
    TracksStep([SnapshotEdit(v)], v, edit, w, first, newLog + 1);
  }

  lemma NewLogOk(logs: map<nat, seq<LogRecord>>, newLog: nat, h: History)
    requires forall n :: n in logs ==> n < newLog
    ensures LogFilesOk(logs[newLog := []], newLog, newLog, h, |h|, |h|)
  {
  }

  lemma OpenedVersion(disk: Disk, v: Version, h: History, p: nat, floor: nat, exposed: set<UserKey>, r: Recovered, g: Progress)
    requires DiskOk(disk, v, h, p, floor, exposed) && Starts(r, disk, v)
    requires Complete(g, RecoveryGoal(r, disk, h, p), r.lastSequence) && |h| <= MAX_SEQUENCE_NUMBER
    ensures VersionOk(NewManifest(v, g.tables, g.nextFileNumber, |h|), g.onDisk, Install(v, FlushEdit(0, g.tables)), h, |h|,
                      floor, exposed)
  {
    var goal := RecoveryGoal(r, disk, h, p);
    StartsBelow(disk, v, h, p, floor, exposed, r);
    ReplayedHolds(v, h, p, floor, exposed, g, goal, r.lastSequence);
    OpenedManifest(v, Install(v, FlushEdit(0, g.tables)), goal, g);
  }

  lemma OpenedManifest(v: Version, w: Version, goal: Goal, g: Progress)
    requires |v.files| == NUM_LEVELS && w == Install(v, FlushEdit(0, g.tables)) && Adds(v, w, 0, g.tables) && v.Shape() && w.Shape()
    requires NumbersBelow(v, goal.first) && TablesPresent(goal.before, v) && FilesOk(g, goal)
    requires |goal.history| <= MAX_SEQUENCE_NUMBER
    ensures var n := |goal.history|; ManifestOk(NewManifest(v, g.tables, g.nextFileNumber, n), g.onDisk, w, n, n)
  {
    var newLog := g.nextFileNumber;
    ReplayedTables(v, w, g, goal, newLog + 1);
    NewFilesNumbered(g, goal);
    NewManifestOk(v, w, g.tables, g.onDisk, goal.first, newLog, |goal.history|);
  }

  lemma NewManifestOk(v: Version, w: Version, files: seq<File>, tables: map<nat, seq<Entry>>, first: nat, newLog: nat,
                      n: SequenceNumber)
    requires v.Shape() && w.Shape() && NumbersBelow(v, first) && NumbersFrom(files, first) && first <= newLog
    requires w == Install(v, FlushEdit(0, files)) && Adds(v, w, 0, files)
    requires NumbersBelow(w, newLog + 1) && TablesPresent(tables, w)
    ensures ManifestOk(NewManifest(v, files, newLog, n), tables, w, n, n)
  {
    NewManifestMeta(v, files, newLog, n);
    NewManifestTracks(v, w, files, first, newLog, n);
  }

  lemma NewFilesNumbered(g: Progress, goal: Goal)
    requires FilesOk(g, goal)
    ensures NumbersFrom(g.tables, goal.first) && goal.first <= g.nextFileNumber
  {
  }

  /** Reopening a recoverable disk yields an open database with exactly the history of that disk. */
  lemma OpenedOk(disk: Disk, v: Version, h: History, p: nat, floor: nat, exposed: set<UserKey>, r: Recovered, g: Progress)
    requires DiskOk(disk, v, h, p, floor, exposed) && Starts(r, disk, v)
    requires Complete(g, RecoveryGoal(r, disk, h, p), r.lastSequence)
    requires forall n :: n in disk.logs && r.logNumber <= n ==> n < g.nextFileNumber
    ensures LastSequence(r, g) == |h| && |v.files| == NUM_LEVELS && |h| <= MAX_SEQUENCE_NUMBER
    ensures StateOk(Opened(disk, r, g, |h|, Settled(h, floor, exposed)))
  {
    var led := Settled(h, floor, exposed);
    var t := Opened(disk, r, g, |h|, led);
    StartsBelow(disk, v, h, p, floor, exposed, r);
    OpenedVersion(disk, v, h, p, floor, exposed, r, g);
    forall part ensures PartOk(t, part) {
      if !part.VersionPart? {
        OpenedRest(disk, r, g, led, part);
      }
    }
  }

  lemma OpenedRest(disk: Disk, r: Recovered, g: Progress, led: Ledger, part: Part)
    requires |r.version.files| == NUM_LEVELS && led == Settled(led.history, led.floor, led.exposed) && !part.VersionPart?
    requires led.floor <= |led.history| <= MAX_SEQUENCE_NUMBER && forall n :: n in disk.logs ==> n < g.nextFileNumber
    ensures PartOk(Opened(disk, r, g, |led.history|, led), part)
  {
    var h := led.history;
    match part
    case MemoryPart => assert h[|h|..|h|] == [];
    case LogPart => NewLogOk(disk.logs, g.nextFileNumber, h);
    case CounterPart => NewManifestMeta(r.version, g.tables, g.nextFileNumber, |h|);
    case SnapshotPart =>
    case PinnedPart =>
    case PendingPart =>
  }

  /** A crash while reopening, before the new manifest is in place, is harmless: table files and an empty log may
      have been added, but the same history is recovered the next time. */
  lemma CrashWhileOpening(disk: Disk, v: Version, h: History, p: nat, floor: nat, exposed: set<UserKey>, r: Recovered,
                          g: Progress, saved: nat, at: nat, newLog: Option<nat>)
    requires DiskOk(disk, v, h, p, floor, exposed) && Starts(r, disk, v)
    requires ProgressOk(g, RecoveryGoal(r, disk, h, p), saved, at)
    requires newLog.Some? ==> forall n :: n in disk.logs ==> n < newLog.value
    ensures DiskOk(Disk(if newLog.Some? then disk.logs[newLog.value := []] else disk.logs, disk.manifest, g.onDisk),
                   v, h, p, floor, exposed)
  {
    var goal := RecoveryGoal(r, disk, h, p);
    var logs := if newLog.Some? then disk.logs[newLog.value := []] else disk.logs;
    StartsBelow(disk, v, h, p, floor, exposed, r);
    forall l, f | v.Has(l, f) ensures TableFor(g.onDisk, f) {
      assert TableFor(goal.before, f);
    }
    var hi: nat :| LogsCover(disk.logs, r.logNumber, hi, h, p, r.lastSequence);
    if newLog.Some? {
      EmptyLogAdded(disk.logs, r.logNumber, hi, h, p, r.lastSequence, newLog.value);
      hi := newLog.value + 1;
    }
    assert LogsCover(logs, r.logNumber, hi, h, p, r.lastSequence);
  }

  lemma EmptyLogAdded(logs: map<nat, seq<LogRecord>>, lo: nat, hi: nat, h: History, p: nat, last: nat, n: nat)
    requires LogsCover(logs, lo, hi, h, p, last) && forall m :: m in logs ==> m < n
    ensures LogsCover(logs[n := []], lo, n + 1, h, p, last)
  {
    if n < lo {
      if lo < hi {
        LogsMissing(logs, lo, lo, hi, h, p);
      }
    } else {
      if hi <= lo {
        LogsMissing(logs, lo, lo, n, h, p);
      } else if hi <= n {
        LogsMissing(logs, lo, hi, n, h, p);
      } else {
        LogsMissing(logs, lo, n, hi, h, p);
      }
      LogsSame(logs, logs[n := []], lo, n, h, h, p);
    }
  }

  /** A reopening that succeeds: the logs are replayed from the recovered version on, and obsolete files are deleted. */
  ghost predicate Reopens(disk: Disk, v: Version, led: Ledger, r: Recovered, g: Progress, t: DbState) {
    var h := led.history;
    && Starts(r, disk, v) && |v.files| == NUM_LEVELS && |h| <= MAX_SEQUENCE_NUMBER
    && Complete(g, RecoveryGoal(r, disk, h, led.flushed), r.lastSequence)
    && (forall n :: n in disk.logs && r.logNumber <= n ==> n < g.nextFileNumber)
    && t == Cleaned(Opened(disk, r, g, |h|, Settled(h, led.floor, led.exposed)))
  }
}
