/** The invariant that ties the fields of an open database to the history of all writes, part by part, and what
    each kind of step does to it (db/db_impl.h, db/db_impl.cc, db/version_set.h). */
module DbInvariants {
  import opened DbFormat
  import opened Versions
  import opened Builder
  import opened Inputs
  import opened Compactions
  import opened Installs
  import opened Manifests
  import opened WriteBatches
  import opened Logs
  import opened DbStates
  import opened Exposures

  /** A compaction between the choice of its inputs and the installation of its outputs, which are numbered
      below `next`. */
  datatype Pending = Pending(base: Version, level: nat, in0: seq<File>, in1: seq<File>, snap: SequenceNumber,
                             outputs: seq<File>, next: nat)

  /** The current version is right for the history h, of which the first p writes are in tables. Reads from
      `floor` on are as in the history, except for the keys that compactions have exposed. */
  ghost predicate VersionOk(manifest: seq<VersionEdit>, tables: map<nat, seq<Entry>>, current: Version, h: History,
                            p: nat, floor: nat, exposed: set<UserKey>) {
    Holds(current, h, p, floor, exposed) && ManifestOk(manifest, tables, current, p, |h|)
  }

  /** The immutable memtable holds the writes after the p-th up to the q-th, the current one all later ones. */
  ghost predicate MemoryOk(mem: seq<Entry>, imm: Option<seq<Entry>>, h: History, p: nat, q: nat) {
    MemHolds(mem, h, q, |h|) && MaybeMemHolds(imm, h, p, q)
  }

  /** The current log holds the writes of the current memtable, the older ones those of the immutable memtable. */
  ghost predicate LogFilesOk(logs: map<nat, seq<LogRecord>>, logNumber: nat, logFileNumber: nat, h: History, p: nat, q: nat) {
    && logNumber <= logFileNumber && LogsBelow(logs, logFileNumber + 1) && logFileNumber in logs
    && LogsHold(logs, logNumber, logFileNumber, h, p)
    && LogsEnd(logs, logNumber, logFileNumber, p) == q
    && RecordsHold(logs[logFileNumber], |logs[logFileNumber]|, h, q)
    && RecordsEnd(logs[logFileNumber], |logs[logFileNumber]|, q) == |h|
  }

  ghost predicate CountersOk(meta: Meta, logNumber: nat, logFileNumber: nat, next: nat) {
    && meta.logNumber == Some(logNumber) && logFileNumber < next
    && meta.nextFileNumber.Some? && meta.nextFileNumber.value <= next
  }

  ghost predicate SnapshotsOk(snapshots: seq<SequenceNumber>, floor: nat, n: nat) {
    && floor <= n && (forall i :: 0 <= i < |snapshots| ==> floor <= snapshots[i] <= n)
    && forall i, j :: 0 <= i < j < |snapshots| ==> snapshots[i] <= snapshots[j]
  }

  /** Every version that a reader still uses finds its tables. */
  ghost predicate PinnedOk(tables: map<nat, seq<Entry>>, pinned: seq<Version>, next: nat) {
    forall v :: v in pinned ==> TablesPresent(tables, v) && NumbersBelow(v, next)
  }

  // ---- Writes ----

  lemma NewestOverlay(top: set<Entry>, a: set<Entry>, b: set<Entry>, k: UserKey, s: SequenceNumber)
    requires Distinct(top + a) && Distinct(top + b) && Shadows(top, a) && Shadows(top, b)
    requires Read(a, k, s) == Read(b, k, s)
    ensures Read(top + a, k, s) == Read(top + b, k, s)
  {
    NewestExists(top, k, s);
    if Newest(top, k, s).Some? {
      OverlayTop(top, a, k, s);
      OverlayTop(top, b, k, s);
    } else {
      OverlayBelow(top, a, k, s);
      OverlayBelow(top, b, k, s);
    }
  }

  lemma OverlayTop(top: set<Entry>, a: set<Entry>, k: UserKey, s: SequenceNumber)
    requires Distinct(top + a) && Shadows(top, a) && Newest(top, k, s).Some?
    ensures Newest(top + a, k, s) == Newest(top, k, s)
  {
    NewestExists(top, k, s);
    NewestIs(top + a, k, s, Newest(top, k, s).value);
  }

  lemma OverlayBelow(top: set<Entry>, a: set<Entry>, k: UserKey, s: SequenceNumber)
    requires Distinct(top + a) && NoneVisible(top, k, s)
    ensures Newest(top + a, k, s) == Newest(a, k, s)
  {
    NewestExists(a, k, s);
    if Newest(a, k, s).Some? {
      NewestIs(top + a, k, s, Newest(a, k, s).value);
    } else {
      NewestIsNone(top + a, k, s);
    }
  }

  lemma HistoryGrows(h: History, ops: seq<WriteOp>)
    requires IsHistory(h) && |h| + |ops| < MAX_SEQUENCE_NUMBER
    ensures IsHistory(h + OpHistory(ops, |h| + 1))
    ensures NextBatch(LogRecord(|h| + 1, ops), h + OpHistory(ops, |h| + 1), |h|)
  {
    var es := OpHistory(ops, |h| + 1);
    var g := h + es;
    forall i | 0 <= i < |ops| ensures g[|h| + i] == Some(OpEntry(ops[i], |h| + 1 + i)) {
      assert g[|h| + i] == es[i];
    }
    forall i | 0 <= i < |g| && g[i].Some? ensures g[i].value.key.seqNo == i + 1 {
      if i >= |h| {
        assert g[|h| + (i - |h|)] == Some(OpEntry(ops[i - |h|], i + 1));
      }
    }
  }

  /** New writes at the end of the history leave everything that is in tables right. */
  lemma HoldsGrows(v: Version, h: History, g: History, p: nat, floor: nat, exposed: set<UserKey>)
    requires Holds(v, h, p, floor, exposed) && IsHistory(g) && h <= g
    ensures Holds(v, g, p, floor, exposed)
  {
    var n := |h|;
    assert g[..n] == h && g[..p] == h[..p];
    assert g[0..n] == h && g[p..n] == h[p..] && g[p..] == g[p..|g|] && g[0..|g|] == g;
    HistorySplits(g, 0, n, |g|);
    HistorySplits(g, p, n, |g|);
    var top, low := Writes(g[n..|g|]), v.Entries() + Writes(h[p..]);
    HoldsFacts(v, h, p, floor, exposed);
    HistorySet(g, n, |g|);
    HistorySet(g, 0, n);
    assert low <= Writes(h);
    assert top + low <= Writes(g) && Distinct(top + low) && Distinct(top + Writes(h));
    assert Shadows(top, Writes(h)) && Shadows(top, low);
    assert v.Entries() + Writes(g[p..]) == top + low;
    assert Writes(g) == top + Writes(h);
    forall k, s: SequenceNumber | k !in exposed && floor <= s
      ensures Read(v.Entries() + Writes(g[p..]), k, s) == Read(Writes(g), k, s)
    {
      assert Read(low, k, s) == Read(Writes(h), k, s);
      NewestOverlay(top, low, Writes(h), k, s);
    }
  }

  /** AddRecord: the current log now also holds the new batch. */
  lemma AppendHolds(logs: map<nat, seq<LogRecord>>, logNumber: nat, logFileNumber: nat, h: History, p: nat, q: nat,
                    ops: seq<WriteOp>)
    requires LogFilesOk(logs, logNumber, logFileNumber, h, p, q) && IsHistory(h)
    requires |h| + |ops| < MAX_SEQUENCE_NUMBER
    ensures LogFilesOk(logs[logFileNumber := logs[logFileNumber] + [LogRecord(|h| + 1, ops)]], logNumber, logFileNumber,
                       h + OpHistory(ops, |h| + 1), p, q)
  {
    var g := h + OpHistory(ops, |h| + 1);
    var records := logs[logFileNumber];
    var more := records + [LogRecord(|h| + 1, ops)];
    HistoryGrows(h, ops);
    RecordsSame(records, more, |records|, h, g, q);
    LogsSame(logs, logs[logFileNumber := more], logNumber, logFileNumber, h, g, p);
  }

  lemma LogFilesCover(logs: map<nat, seq<LogRecord>>, logNumber: nat, logFileNumber: nat, h: History, p: nat, q: nat,
                      last: nat)
    requires LogFilesOk(logs, logNumber, logFileNumber, h, p, q)
    ensures LogsCover(logs, logNumber, logFileNumber + 1, h, p, last)
  {
  }

  /** The disk of an open database can be reopened at any moment, without losing a logged write. */
  lemma CrashIsSafe(disk: Disk, current: Version, h: History, p: nat, q: nat, floor: nat, exposed: set<UserKey>,
                    logNumber: nat, logFileNumber: nat)
    requires VersionOk(disk.manifest, disk.tables, current, h, p, floor, exposed)
    requires LogFilesOk(disk.logs, logNumber, logFileNumber, h, p, q)
    requires MetaOf(disk.manifest).logNumber == Some(logNumber)
    ensures DiskOk(disk, current, h, p, floor, exposed)
  {
    LogFilesCover(disk.logs, logNumber, logFileNumber, h, p, q, MetaOf(disk.manifest).lastSequence.value);
  }

  // ---- New log files, and old ones that go ----

  lemma SwitchHolds(logs: map<nat, seq<LogRecord>>, logNumber: nat, logFileNumber: nat, h: History, p: nat, newNumber: nat)
    requires LogFilesOk(logs, logNumber, logFileNumber, h, p, p) && logFileNumber < newNumber
    ensures LogFilesOk(logs[newNumber := []], logNumber, newNumber, h, p, |h|)
  {
    LogFilesCover(logs, logNumber, logFileNumber, h, p, p, |h|);
    LogsMissing(logs, logNumber, logFileNumber + 1, newNumber, h, p);
    LogsSame(logs, logs[newNumber := []], logNumber, newNumber, h, h, p);
  }

  /** After a flush the logs before the current one are no longer needed. */
  lemma FlushedLogs(logs: map<nat, seq<LogRecord>>, logNumber: nat, logFileNumber: nat, h: History, p: nat, q: nat)
    requires LogFilesOk(logs, logNumber, logFileNumber, h, p, q)
    ensures LogFilesOk(logs, logFileNumber, logFileNumber, h, q, q)
  {
  }

  function LogsFrom(logs: map<nat, seq<LogRecord>>, from: nat): map<nat, seq<LogRecord>> {
    map n | n in logs && from <= n :: logs[n]
  }

  lemma DroppedLogs(logs: map<nat, seq<LogRecord>>, logNumber: nat, logFileNumber: nat, h: History, p: nat, q: nat)
    requires LogFilesOk(logs, logNumber, logFileNumber, h, p, q)
    ensures LogFilesOk(LogsFrom(logs, logNumber), logNumber, logFileNumber, h, p, q)
  {
    LogsSame(logs, LogsFrom(logs, logNumber), logNumber, logFileNumber, h, h, p);
  }

  // ---- Table files ----

  function LiveFiles(v: Version): set<nat> {
    set l, f | 0 <= l < |v.files| && f in v.files[l] :: f.number
  }

  /** AddLiveFiles over a list of versions. */
  function AllLive(versions: seq<Version>): set<nat> {
    if versions == [] then {} else AllLive(versions[..|versions| - 1]) + LiveFiles(versions[|versions| - 1])
  }

  lemma {:induction false} LiveInAll(versions: seq<Version>, v: Version)
    requires v in versions
    ensures LiveFiles(v) <= AllLive(versions)
    decreases |versions|
  {
    var n := |versions| - 1;
    assert versions == versions[..n] + [versions[n]];
    if v != versions[n] {
      LiveInAll(versions[..n], v);
    }
  }

  lemma {:induction false} InSome(versions: seq<Version>, n: nat) returns (v: Version)
    requires n in AllLive(versions)
    ensures v in versions && n in LiveFiles(v)
    decreases |versions|
  {
    var init, last := versions[..|versions| - 1], versions[|versions| - 1];
    if n in LiveFiles(last) {
      v := last;
    } else {
      v := InSome(init, n);
    }
  }

  function TablesIn(tables: map<nat, seq<Entry>>, live: set<nat>): map<nat, seq<Entry>> {
    map n | n in tables && n in live :: tables[n]
  }

  lemma KeepsTables(tables: map<nat, seq<Entry>>, live: set<nat>, v: Version)
    requires TablesPresent(tables, v) && LiveFiles(v) <= live
    ensures TablesPresent(TablesIn(tables, live), v)
  {
    forall l, f | v.Has(l, f) ensures TableFor(TablesIn(tables, live), f) {
      assert f.number in LiveFiles(v);
    }
  }

  // ---- A running compaction ----

  /** The current version is the one the compaction started from, with newer tables added. */
  ghost predicate Grown(base: Version, current: Version, extra: set<Entry>) {
    && |base.files| == |current.files|
    && (forall l, f {:trigger base.Has(l, f)} :: base.Has(l, f) ==> current.Has(l, f))
    && (forall l, f, e {:trigger current.Has(l, f), e in f.entries} ::
          current.Has(l, f) && e in f.entries ==> base.Has(l, f) || e in extra)
    && current.Entries() == base.Entries() + extra
  }

  ghost predicate OutputsOk(outputs: seq<File>, manifest: seq<VersionEdit>, tables: map<nat, seq<Entry>>, next: nat) {
    && AllValid(outputs) && Disjoint(outputs) && OneFilePerNumber(outputs)
    && forall o :: o in outputs ==> o.number < next && UnseenAnywhere(manifest, o) && TableFor(tables, o)
  }

  predicate IsMergeOf(es: seq<Entry>, in0: seq<File>, in1: seq<File>) {
    es == MergeFiles(in0 + in1)
  }

  /** What DoCompactionWork computed. */
  ghost predicate MergeDone(c: Pending) {
    && c.base.Valid() && GoodInputs(c.base, c.level, c.in0, c.in1)
    && forall es {:trigger IsMergeOf(es, c.in0, c.in1)} :: IsMergeOf(es, c.in0, c.in1) ==>
         Flat(c.outputs) == Kept(c.base, c.level, es, c.snap, |es|)
  }

  lemma MergeResult(c: Pending)
    requires MergeDone(c)
    ensures var es := MergeFiles(c.in0 + c.in1); Flat(c.outputs) == Kept(c.base, c.level, es, c.snap, |es|)
  {
    assert IsMergeOf(MergeFiles(c.in0 + c.in1), c.in0, c.in1);
  }

  /** The same compaction for the snapshot `cap`, when all that it merges is at or below that. */
  function Capped(c: Pending, cap: nat): Pending {
    if cap < c.snap then c.(snap := cap) else c
  }

  lemma CappedMerge(c: Pending, h: History, a: nat)
    requires MergeDone(c) && IsHistory(h) && a <= |h| && c.base.Entries() <= Writes(h[..a])
    ensures MergeDone(Capped(c, a))
  {
    if a < c.snap {
      var es := MergeFiles(c.in0 + c.in1);
      MergeResult(c);
      InputsAreMerged(c.base, c.level, c.in0, c.in1);
      HistorySet(h, 0, a);
      assert h[..a] == h[0..a];
      forall e | e in es ensures e.key.seqNo <= a {
        FromInputsIsEntry(c.base, c.level, c.in0, c.in1, e);
      }
      KeptCapped(c.base, c.level, es, c.snap, a, |es|);
    }
  }

  /** When the compaction started, the first a writes were in tables; now the first b are. */
  ghost predicate SinceStart(base: Version, current: Version, h: History, a: nat, b: nat) {
    && a <= b <= |h|
    && base.Entries() <= Writes(h[..a])
    && Grown(base, current, Writes(h[a..b]))
  }

  ghost predicate SnapshotOk(snap: SequenceNumber, snapshots: seq<SequenceNumber>, floor: nat) {
    floor <= snap && forall i :: 0 <= i < |snapshots| ==> snap <= snapshots[i]
  }

  lemma EarlierWrite(h: History, a: nat, b: nat, x: Entry, y: Entry)
    requires IsHistory(h) && a <= b <= |h| && x in Writes(h[a..b]) && y in Writes(h[..a])
    ensures x.key.seqNo > y.key.seqNo
  {
    HistorySet(h, a, b);
    HistorySet(h, 0, a);
    assert h[..a] == h[0..a];
  }

  /** The inputs of the running compaction still are good inputs for a merge of the current version. */
  lemma PendingInputs(c: Pending, current: Version, h: History, a: nat, b: nat)
    requires MergeDone(c) && SinceStart(c.base, current, h, a, b) && IsHistory(h) && |current.files| == NUM_LEVELS
    ensures MergeInputs(current, c.level, c.in0, c.in1)
  {
    forall f | f in c.in0 ensures f in current.files[c.level] { assert c.base.Has(c.level, f); }
    forall f | f in c.in1 ensures f in current.files[c.level + 1] { assert c.base.Has(c.level + 1, f); }
    forall f, g | f in c.in0 && g in current.files[c.level] && g !in c.in0 ensures FileShadows(g, f) {
      assert c.base.Has(c.level, f) && current.Has(c.level, g);
      if g !in c.base.files[c.level] {
        forall x, y | x in g.entries && y in f.entries ensures x.key.seqNo > y.key.seqNo {
          assert x in Writes(h[a..b]) && y in c.base.Entries() && y in Writes(h[..a]);
          EarlierWrite(h, a, b, x, y);
        }
      }
    }
  }

  /** What is not merged is untouched or newer. */
  lemma PendingRest(c: Pending, current: Version, h: History, a: nat, b: nat)
    requires MergeDone(c) && SinceStart(c.base, current, h, a, b) && IsHistory(h)
    ensures RestOf(c.base, c.in0, c.in1, Writes(h[b..]) + Outside(current, c.in0, c.in1))
  {
    var rest := Writes(h[b..]) + Outside(current, c.in0, c.in1);
    HistorySplits(h, a, b, |h|);
    assert h[b..] == h[b..|h|];
    forall r, x | r in rest && x in c.base.Entries() && r.key.user == x.key.user
      ensures r in Outside(c.base, c.in0, c.in1) || r.key.seqNo > x.key.seqNo
    {
      assert x in Writes(h[..a]);
      if r in Writes(h[a..|h|]) {
        EarlierWrite(h, a, |h|, r, x);
      } else {
        assert r in current.Entries() && r in c.base.Entries();
      }
    }
  }

  lemma FilesSeen(manifest: seq<VersionEdit>, v: Version, n: nat, l: nat, f: File)
    requires Tracks(manifest, v, n) && v.Has(l, f) && l < NUM_LEVELS
    ensures f in AddedSoFar(manifest, l)
  {
    SaveLevelMembers([], ReplayState(manifest)[l]);
    assert v.files[l] == SaveLevel(EmptyVersion().files[l], ReplayState(manifest)[l]);
  }

  /** The outputs have numbers of their own. */
  lemma PendingNumbers(c: Pending, current: Version, manifest: seq<VersionEdit>, tables: map<nat, seq<Entry>>, n: nat, next: nat)
    requires Tracks(manifest, current, n) && OutputsOk(c.outputs, manifest, tables, next)
    ensures OutputNumbers(current, c.level, c.in0, c.outputs)
    ensures forall o, l, g {:trigger SameNumber(o, g), current.Has(l, g)} :: o in c.outputs && current.Has(l, g) ==> !SameNumber(o, g)
  {
    forall o, l, g | o in c.outputs && current.Has(l, g) ensures !SameNumber(o, g) {
      FilesSeen(manifest, current, n, l, g);
      assert UnseenAnywhere(manifest, o);
      assert Unseen(AddedSoFar(manifest, l), o);
      assert SameNumber(g, o) <==> SameNumber(o, g);
    }
  }

  /** No file of the rewritten version has the number of an input. */
  lemma RewrittenAway(v: Version, w: Version, level: nat, in0: seq<File>, in1: seq<File>, outputs: seq<File>, f: File)
    requires v.UniqueNumbers() && MergeInputs(v, level, in0, in1) && Rewrites(v, w, level, in0, in1, outputs)
    requires forall o, l, g {:trigger SameNumber(o, g), v.Has(l, g)} :: o in outputs && v.Has(l, g) ==> !SameNumber(o, g)
    requires f in in0 || f in in1
    ensures forall l, g :: w.Has(l, g) ==> g.number != f.number
  {
    var at := if f in in0 then level else level + 1;
    assert v.Has(at, f);
    forall l, g | w.Has(l, g) ensures g.number != f.number {
      if IsOutput(level, outputs, l, g) {
        assert !SameNumber(g, f);
      } else {
        assert Remains(v, level, in0, in1, l, g) && v.Has(l, g);
        assert SameNumber(g, f) ==> l == at && g == f;
      }
    }
  }

  // ---- One flush, one move, one compaction ----

  /** New tables that were written but are not yet in any version. */
  ghost predicate NewTables(files: seq<File>, tables: map<nat, seq<Entry>>, first: nat, next: nat) {
    && NumbersFrom(files, first) && first <= next
    && forall f :: f in files ==> f.number < next && TableFor(tables, f)
  }

  lemma VersionBelow(manifest: seq<VersionEdit>, tables: map<nat, seq<Entry>>, v: Version, p: nat, n: nat, next: nat)
    requires ManifestOk(manifest, tables, v, p, n) && MetaOf(manifest).nextFileNumber.value <= next
    ensures NumbersBelow(v, next) && Tracks(manifest, v, next)
  {
    TracksUpTo(manifest, v, MetaOf(manifest).nextFileNumber.value, next);
  }

  /** CompactMemTable: the flush is recorded together with the number of the current log. */
  lemma FlushStep(manifest: seq<VersionEdit>, tables: map<nat, seq<Entry>>, v: Version, h: History, p: nat, q: nat,
                  floor: nat, exposed: set<UserKey>, level: nat, files: seq<File>, logFileNumber: nat, first: nat, next: nat)
    requires VersionOk(manifest, tables, v, h, p, floor, exposed) && MetaOf(manifest).nextFileNumber.value <= first
    requires TablesHold(files, h, p, q) && NewTables(files, tables, first, next) && logFileNumber < next
    requires FlushPlace(v, level, files)
    ensures var edit := FlushEdit(level, files);
      var stamped := Stamped(edit, logFileNumber, next, |h|);
      && Adds(v, Install(v, edit), level, files)
      && Install(v, edit).Entries() == v.Entries() + EntriesOf(files)
      && VersionOk(manifest + [stamped], tables, Install(v, edit), h, q, floor, exposed)
      && MetaOf(manifest + [stamped]) == Meta(Some(logFileNumber), Some(next), Some(|h|))
  {
    var edit := FlushEdit(level, files);
    var w := Install(v, edit);
    VersionBelow(manifest, tables, v, p, |h|, first);
    FlushInstalls(v, level, files, first);
    FlushHolds(v, w, h, p, q, floor, exposed, level, files, first);
    FlushEditExtends(manifest, v, w, edit, level, files, first);
    ManifestStep(manifest, tables, v, w, edit, p, q, |h|, logFileNumber, next, |h|);
  }

  /** The flush of a memtable leaves the outputs of a running compaction in order. */
  lemma OutputsAfterFlush(outputs: seq<File>, manifest: seq<VersionEdit>, tables: map<nat, seq<Entry>>, v: Version, w: Version,
                          level: nat, files: seq<File>, edit: VersionEdit, first: nat, next: nat)
    requires Tracks(manifest, v, first) && NewTables(files, tables, first, next)
    requires level < NUM_LEVELS && Adds(v, w, level, files)
    requires edit.newFiles == AtLevel(level, files) && edit.deletedFiles == {}
    requires OutputsOk(outputs, manifest, tables, first)
    ensures OutputsOk(outputs, manifest + [edit], tables, next)
  {
    FlushEditExtends(manifest, v, w, edit, level, files, first);
    assert NumbersBelow(w, next);
    forall o | o in outputs ensures UnseenAnywhere(manifest + [edit], o) {
      forall l | 0 <= l < NUM_LEVELS ensures Unseen(edit.AddedAt(l), o) {
      }
      StaysUnseen(manifest, v, edit, w, first, next, o);
    }
  }

  lemma GrownByFlush(base: Version, v: Version, w: Version, h: History, a: nat, p: nat, q: nat, level: nat, files: seq<File>)
    requires SinceStart(base, v, h, a, p) && TablesHold(files, h, p, q)
    requires Adds(v, w, level, files) && w.Entries() == v.Entries() + EntriesOf(files) && |v.files| == NUM_LEVELS
    ensures SinceStart(base, w, h, a, q)
  {
    HistorySplits(h, a, p, q);
    forall l, f, e | w.Has(l, f) && e in f.entries && !base.Has(l, f) ensures e in Writes(h[a..q]) {
      if !v.Has(l, f) {
        assert e in EntriesOf(files);
      }
    }
  }

  /** A trivial move. */
  lemma MoveStep(manifest: seq<VersionEdit>, tables: map<nat, seq<Entry>>, v: Version, h: History, p: nat,
                 floor: nat, exposed: set<UserKey>, level: nat, f: File, logNumber: nat, next: nat)
    requires VersionOk(manifest, tables, v, h, p, floor, exposed) && MetaOf(manifest).nextFileNumber.value <= next
    requires logNumber < next && GoodInputs(v, level, [f], [])
    ensures var edit := CompactionEdit(level, [f], [], [f]);
      var stamped := Stamped(edit, logNumber, next, |h|);
      && VersionOk(manifest + [stamped], tables, Install(v, edit), h, p, floor, exposed)
      && MetaOf(manifest + [stamped]) == Meta(Some(logNumber), Some(next), Some(|h|))
  {
    var edit := CompactionEdit(level, [f], [], [f]);
    var w := Install(v, edit);
    VersionBelow(manifest, tables, v, p, |h|, next);
    MoveRewrites(v, level, f);
    MoveHolds(v, w, h, p, floor, exposed, level, f);
    MovedFile(v, level, f);
    MoveEdit(manifest, v, w, next, level, f);
    MoveTables(tables, v, w, next, level, f);
    ManifestStep(manifest, tables, v, w, edit, p, p, |h|, logNumber, next, |h|);
  }

  lemma MoveRewrites(v: Version, level: nat, f: File)
    requires v.Valid() && GoodInputs(v, level, [f], [])
    ensures Rewrites(v, Install(v, CompactionEdit(level, [f], [], [f])), level, [f], [], [f])
  {
    assert f in [f] && v.Has(level, f);
    InstallRewrites(v, level, [f], [], [f]);
  }

  lemma MoveEdit(manifest: seq<VersionEdit>, v: Version, w: Version, next: nat, level: nat, f: File)
    requires Tracks(manifest, v, next) && v.Has(level, f) && Rewrites(v, w, level, [f], [], [f]) && level + 1 < NUM_LEVELS
    ensures var edit := CompactionEdit(level, [f], [], [f]); EditExtends(manifest, edit) && Lands(w, edit) && OnlyAdds(v, w, edit)
  {
    DescendingUnseen(manifest, v, next, level, f);
    RewriteEditExtends(manifest, v, w, level, [f], [], [f]);
  }

  lemma MovedFile(v: Version, level: nat, f: File)
    requires GoodInputs(v, level, [f], [])
    ensures v.Has(level, f) && level + 1 < NUM_LEVELS
  {
    assert f in [f];
  }

  lemma MoveTables(tables: map<nat, seq<Entry>>, v: Version, w: Version, next: nat, level: nat, f: File)
    requires TablesPresent(tables, v) && NumbersBelow(v, next) && v.Has(level, f) && Rewrites(v, w, level, [f], [], [f])
    ensures TablesPresent(tables, w) && NumbersBelow(w, next)
  {
    RewriteFiles(v, w, level, [f], [], [f]);
  }

  lemma RewriteFiles(v: Version, w: Version, level: nat, in0: seq<File>, in1: seq<File>, outputs: seq<File>)
    requires Rewrites(v, w, level, in0, in1, outputs)
    ensures forall l, f :: w.Has(l, f) ==> v.Has(l, f) || f in outputs
  {
  }

  /** The keys whose reads the installation of the compaction changes, when the first p writes are in tables. */
  ghost function ExposedBy(c: Pending, current: Version, h: History, p: nat): set<UserKey>
    requires p <= |h|
  {
    NewlyExposed(c.base, c.level, MergeFiles(c.in0 + c.in1), c.snap, Writes(h[p..]) + Outside(current, c.in0, c.in1))
  }

  /** Installing the outputs gives a valid version if and only if they fit into the next level as it is now. */
  lemma PendingInstalls(c: Pending, manifest: seq<VersionEdit>, tables: map<nat, seq<Entry>>, v: Version, h: History,
                        a: nat, p: nat, next: nat)
    requires v.Valid() && Tracks(manifest, v, next) && IsHistory(h)
    requires MergeDone(c) && OutputsOk(c.outputs, manifest, tables, next) && SinceStart(c.base, v, h, a, p)
    ensures var w := Install(v, CompactionEdit(c.level, c.in0, c.in1, c.outputs));
      && MergeInputs(v, c.level, c.in0, c.in1) && Rewrites(v, w, c.level, c.in0, c.in1, c.outputs)
      && (w.Valid() <==> OutputsFit(v, c.level, c.in1, c.outputs))
  {
    var edit := CompactionEdit(c.level, c.in0, c.in1, c.outputs);
    var w := Install(v, edit);
    PendingInputs(c, v, h, a, p);
    PendingNumbers(c, v, manifest, tables, next, next);
    InstallRewrites(v, c.level, c.in0, c.in1, c.outputs);
    MergeResult(c);
    CompactionEntries(c.base, v, w, c.level, c.in0, c.in1, c.snap, c.outputs);
    RewriteKeepsInvariant(v, w, c.level, c.in0, c.in1, c.outputs);
  }

  lemma OutputsExtend(c: Pending, manifest: seq<VersionEdit>, tables: map<nat, seq<Entry>>, v: Version, w: Version, next: nat)
    requires OutputsOk(c.outputs, manifest, tables, next) && Rewrites(v, w, c.level, c.in0, c.in1, c.outputs)
    requires c.level + 1 < NUM_LEVELS && NumbersBelow(v, next) && TablesPresent(tables, v)
    ensures var edit := CompactionEdit(c.level, c.in0, c.in1, c.outputs);
      EditExtends(manifest, edit) && Lands(w, edit) && OnlyAdds(v, w, edit)
    ensures NumbersBelow(w, next) && TablesPresent(tables, w)
  {
    forall o | o in c.outputs ensures UnseenFrom(manifest, c.level + 1, o) {
      assert UnseenAnywhere(manifest, o);
    }
    RewriteEditExtends(manifest, v, w, c.level, c.in0, c.in1, c.outputs);
    RewriteFiles(v, w, c.level, c.in0, c.in1, c.outputs);
  }

  /** InstallCompactionResults where the outputs fit: all reads stay right but those of the exposed keys. */
  lemma CompactionStep(c: Pending, manifest: seq<VersionEdit>, tables: map<nat, seq<Entry>>, v: Version, h: History,
                       a: nat, p: nat, floor: nat, exposed: set<UserKey>, logNumber: nat, next: nat)
    requires VersionOk(manifest, tables, v, h, p, floor, exposed) && MetaOf(manifest).nextFileNumber.value <= next
    requires logNumber < next && floor <= c.snap <= p
    requires MergeDone(c) && OutputsOk(c.outputs, manifest, tables, next) && SinceStart(c.base, v, h, a, p)
    requires OutputsFit(v, c.level, c.in1, c.outputs)
    ensures var edit := CompactionEdit(c.level, c.in0, c.in1, c.outputs);
      var stamped := Stamped(edit, logNumber, next, |h|);
      && VersionOk(manifest + [stamped], tables, Install(v, edit), h, p, c.snap, exposed + ExposedBy(c, v, h, p))
      && MetaOf(manifest + [stamped]) == Meta(Some(logNumber), Some(next), Some(|h|))
  {
    var edit := CompactionEdit(c.level, c.in0, c.in1, c.outputs);
    var w := Install(v, edit);
    VersionBelow(manifest, tables, v, p, |h|, next);
    PendingInstalls(c, manifest, tables, v, h, a, p, next);
    MergeResult(c);
    CompactionHolds(c.base, v, w, h, p, floor, exposed, c.level, c.in0, c.in1, c.snap, c.outputs);
    OutputsExtend(c, manifest, tables, v, w, next);
    ManifestStep(manifest, tables, v, w, edit, p, p, |h|, logNumber, next, |h|);
  }

  /** The same for the compaction as if it had been computed at what had been flushed when it started. */
  lemma CappedStep(c: Pending, manifest: seq<VersionEdit>, tables: map<nat, seq<Entry>>, v: Version, h: History,
                   a: nat, p: nat, floor: nat, exposed: set<UserKey>, logNumber: nat, next: nat)
    requires VersionOk(manifest, tables, v, h, p, floor, exposed) && MetaOf(manifest).nextFileNumber.value <= next
    requires logNumber < next && floor <= c.snap && floor <= a
    requires MergeDone(c) && OutputsOk(c.outputs, manifest, tables, next) && SinceStart(c.base, v, h, a, p)
    requires OutputsFit(v, c.level, c.in1, c.outputs)
    ensures var d, edit := Capped(c, a), CompactionEdit(c.level, c.in0, c.in1, c.outputs);
      var stamped := Stamped(edit, logNumber, next, |h|);
      && VersionOk(manifest + [stamped], tables, Install(v, edit), h, p, d.snap, exposed + ExposedBy(d, v, h, p))
      && MetaOf(manifest + [stamped]) == Meta(Some(logNumber), Some(next), Some(|h|))
  {
    CappedMerge(c, h, a);
    CompactionStep(Capped(c, a), manifest, tables, v, h, a, p, floor, exposed, logNumber, next);
  }

  /** Where no user key is split at the edge of the compaction's inputs in the next level, no read changes. */
  lemma NoSplitNoExposure(c: Pending, v: Version, h: History, a: nat, p: nat, floor: nat, exposed: set<UserKey>)
    requires Holds(v, h, p, floor, exposed) && MergeDone(c) && SinceStart(c.base, v, h, a, p)
    requires forall k :: !Straddles(c.base, c.level, c.in1, k)
    ensures ExposedBy(c, v, h, p) == {}
  {
    var es := MergeFiles(c.in0 + c.in1);
    var rest := Writes(h[p..]) + Outside(v, c.in0, c.in1);
    HoldsFacts(v, h, p, floor, exposed);
    PendingInputs(c, v, h, a, p);
    PendingRest(c, v, h, a, p);
    InputsAreMerged(v, c.level, c.in0, c.in1);
    forall e | e in es ensures e in v.Entries() && e !in rest { FromInputsIsEntry(v, c.level, c.in0, c.in1, e); }
    forall k | Exposes(c.base, c.level, es, c.snap, rest, k) ensures Straddles(c.base, c.level, c.in1, k) {
      ExposureStraddles(c.base, c.level, c.in0, c.in1, c.snap, rest, k);
    }
  }
}
