/** What the database keeps on disk, and how that relates to the history of all writes. The lemmas say what
    one flush, one compaction and one record of the manifest preserve
    (db/db_impl.cc; db/version_set.cc: LogAndApply). */
module DbStates {
  import opened DbFormat
  import opened Versions
  import opened Builder
  import opened Inputs
  import opened Compactions
  import opened Installs
  import opened Manifests
  import opened WriteBatches
  import opened Logs

  /** What survives a crash: the log files, the current manifest and the table files. */
  datatype Disk = Disk(logs: map<nat, seq<LogRecord>>, manifest: seq<VersionEdit>, tables: map<nat, seq<Entry>>)

  // ---- Histories ----

  ghost predicate ReadsAgree(contents: set<Entry>, h: History, floor: nat, exposed: set<UserKey>) {
    forall k, s: SequenceNumber {:trigger Read(contents, k, s)} ::
      k !in exposed && floor <= s ==> Read(contents, k, s) == Read(Writes(h), k, s)
  }

  lemma HistorySet(h: History, a: nat, b: nat)
    requires IsHistory(h) && a <= b <= |h|
    ensures forall e :: e in Writes(h[a..b]) <==> e in Writes(h) && a < e.key.seqNo <= b
    ensures Distinct(Writes(h))
  {
    HistoryDistinct(h);
    forall e ensures e in Writes(h[a..b]) <==> e in Writes(h) && a < e.key.seqNo <= b {
      WritesMember(h[a..b], e);
      if e in Writes(h) && a < e.key.seqNo <= b {
        assert h[a..b][e.key.seqNo - 1 - a] == Some(e);
      }
      if Some(e) in h[a..b] {
        var i :| 0 <= i < b - a && h[a..b][i] == Some(e);
        assert h[a + i] == Some(e);
      }
    }
  }

  lemma HistorySplits(h: History, a: nat, b: nat, c: nat)
    requires a <= b <= c <= |h|
    ensures h[a..c] == h[a..b] + h[b..c]
    ensures Writes(h[a..c]) == Writes(h[a..b]) + Writes(h[b..c])
  {
    assert h[a..c] == h[a..b] + h[b..c];
    WritesJoin(h[a..b], h[b..c]);
  }

  /** The memtable holds exactly the writes after the a-th up to the b-th. */
  ghost predicate MemHolds(mem: seq<Entry>, h: History, a: nat, b: nat) {
    a <= b <= |h| && Sorted(mem) && ToSet(mem) == Writes(h[a..b])
  }

  /** The same where a missing memtable stands for no writes. */
  ghost predicate MaybeMemHolds(mem: Option<seq<Entry>>, h: History, a: nat, b: nat) {
    if mem.Some? then MemHolds(mem.value, h, a, b) else a == b <= |h|
  }

  /** The version holds only writes up to p, and with the later writes on top it answers every read at or above
      `floor`, which is at most p, like the history, except for exposed keys. */
  ghost predicate Holds(v: Version, h: History, p: nat, floor: nat, exposed: set<UserKey>) {
    && IsHistory(h) && p <= |h| && v.Valid()
    && v.Entries() <= Writes(h[..p])
    && floor <= p
    && ReadsAgree(v.Entries() + Writes(h[p..]), h, floor, exposed)
  }

  lemma HoldsFacts(v: Version, h: History, p: nat, floor: nat, exposed: set<UserKey>)
    requires Holds(v, h, p, floor, exposed)
    ensures Shadows(Writes(h[p..]), v.Entries())
    ensures Distinct(Writes(h[p..]) + v.Entries())
    ensures v.Entries() + Writes(h[p..]) <= Writes(h)
    ensures Writes(h[p..]) !! v.Entries()
  {
    HistorySet(h, 0, p);
    HistorySet(h, p, |h|);
    assert h[..p] == h[0..p] && h[p..] == h[p..|h|];
    forall y | y in v.Entries() ensures y.key.seqNo <= p && y in Writes(h) { assert y in Writes(h[..p]); }
    forall x, y | x in Writes(h[p..]) + v.Entries() && y in Writes(h[p..]) + v.Entries() && SameWrite(x, y) ensures x == y {
      assert x in Writes(h) && y in Writes(h);
    }
  }

  // ---- What makes a disk recoverable ----

  ghost predicate TableFor(tables: map<nat, seq<Entry>>, f: File) {
    f.number in tables && tables[f.number] == f.entries
  }

  ghost predicate TablesPresent(tables: map<nat, seq<Entry>>, v: Version) {
    forall l, f {:trigger v.Has(l, f)} :: v.Has(l, f) ==> TableFor(tables, f)
  }

  /** The counters of the manifest are present and consistent. */
  ghost predicate MetaOk(meta: Meta, p: nat, n: nat) {
    && meta.logNumber.Some? && meta.nextFileNumber.Some? && meta.lastSequence.Some?
    && meta.logNumber.value < meta.nextFileNumber.value
    && p <= meta.lastSequence.value <= n
  }

  /** The manifest describes v, whose tables are there and hold the first p of n writes. */
  ghost predicate ManifestOk(manifest: seq<VersionEdit>, tables: map<nat, seq<Entry>>, v: Version, p: nat, n: nat) {
    && MetaOk(MetaOf(manifest), p, n)
    && Tracks(manifest, v, MetaOf(manifest).nextFileNumber.value)
    && TablesPresent(tables, v)
  }

  /** Opening the disk yields the history h: its manifest describes v, which holds the first p writes, and its
      logs hold all others that are left. */
  ghost predicate DiskOk(disk: Disk, v: Version, h: History, p: nat, floor: nat, exposed: set<UserKey>) {
    && Holds(v, h, p, floor, exposed)
    && ManifestOk(disk.manifest, disk.tables, v, p, |h|)
    && exists hi :: LogsCover(disk.logs, MetaOf(disk.manifest).logNumber.value, hi, h, p, MetaOf(disk.manifest).lastSequence.value)
  }

  const NewDbEdit := VersionEdit(Some(0), Some(2), Some(0), {}, [])

  /** DBImpl::NewDB: a database directory that was just created. */
  lemma NewDbOk()
    ensures DiskOk(Disk(map[], [NewDbEdit], map[]), EmptyVersion(), [], 0, 0, {})
  {
    var v := EmptyVersion();
    EmptyVersionValid();
    assert Read(v.Entries() + Writes([]), 0.0, 0) == Read(Writes([]), 0.0, 0);
    assert v.Entries() + Writes([]) == Writes([]);
    assert [NewDbEdit] == [] + [NewDbEdit];
    ReplaySnoc([], NewDbEdit);
    forall l | 0 <= l < NUM_LEVELS
      ensures AddedSoFar([NewDbEdit], l) == [] && Replay([NewDbEdit]).files[l] == []
    {
      assert ReplayState([])[l] == NoChanges;
    }
    assert Replay([NewDbEdit]).files == v.files;
    assert LogsCover(map[], 0, 0, [], 0, 0);
  }

  // ---- Edits as LogAndApply stamps them ----

  function Stamped(edit: VersionEdit, logNumber: nat, nextFileNumber: nat, lastSequence: SequenceNumber): VersionEdit {
    edit.(logNumber := Some(logNumber), nextFileNumber := Some(nextFileNumber), lastSequence := Some(lastSequence))
  }

  lemma StampedInstall(v: Version, edit: VersionEdit, stamped: VersionEdit)
    requires |v.files| == NUM_LEVELS
    requires stamped.deletedFiles == edit.deletedFiles && stamped.newFiles == edit.newFiles
    ensures Install(v, stamped) == Install(v, edit)
  {
    forall l: nat | l < NUM_LEVELS ensures Install(v, stamped).files[l] == Install(v, edit).files[l] {
      assert stamped.AddedAt(l) == edit.AddedAt(l) && stamped.DeletedAt(l) == edit.DeletedAt(l);
    }
    assert Install(v, stamped).files == Install(v, edit).files;
  }

  lemma TracksUpTo(manifest: seq<VersionEdit>, v: Version, n: nat, n': nat)
    requires Tracks(manifest, v, n) && n <= n'
    ensures Tracks(manifest, v, n')
  {
    forall l | 0 <= l < NUM_LEVELS ensures LevelTracks(AddedSoFar(manifest, l), n') {
      assert LevelTracks(AddedSoFar(manifest, l), n);
    }
  }

  /** LogAndApply: one more record in the manifest, stamped with the current counters. */
  lemma ManifestStep(manifest: seq<VersionEdit>, tables: map<nat, seq<Entry>>, v: Version, w: Version, edit: VersionEdit,
                     p: nat, p': nat, n: nat, logNumber: nat, next: nat, lastSequence: SequenceNumber)
    requires ManifestOk(manifest, tables, v, p, n) && EditExtends(manifest, edit)
    requires w == Install(v, edit) && w.Shape() && Lands(w, edit) && OnlyAdds(v, w, edit)
    requires NumbersBelow(w, next) && TablesPresent(tables, w) && p' <= n == lastSequence
    requires logNumber < next && MetaOf(manifest).nextFileNumber.value <= next
    ensures var stamped := Stamped(edit, logNumber, next, lastSequence);
      && ManifestOk(manifest + [stamped], tables, w, p', n)
      && MetaOf(manifest + [stamped]) == Meta(Some(logNumber), Some(next), Some(lastSequence))
  {
    var stamped := Stamped(edit, logNumber, next, lastSequence);
    StampedInstall(v, edit, stamped);
    forall l: nat ensures stamped.AddedAt(l) == edit.AddedAt(l) {
    }
    assert EditExtends(manifest, stamped);
    ReplaySnoc(manifest, stamped);
    TracksStep(manifest, v, stamped, w, MetaOf(manifest).nextFileNumber.value, next);
  }

  // ---- Flushes ----

  /** The tables hold exactly the writes after the p-th up to the q-th. */
  ghost predicate TablesHold(tables: seq<File>, h: History, p: nat, q: nat) {
    p <= q <= |h| && AllValid(tables) && NewerByNumber(tables) && EntriesOf(tables) == Writes(h[p..q])
  }

  lemma FlushFits(v: Version, h: History, p: nat, q: nat, floor: nat, exposed: set<UserKey>, level: nat, tables: seq<File>)
    requires Holds(v, h, p, floor, exposed) && TablesHold(tables, h, p, q)
    requires level < NUM_LEVELS
    requires level > 0 ==> |tables| <= 1 && forall f, l :: f in tables && 0 <= l <= level && l < |v.files| ==>
      NoOverlap(v.files[l], f.smallest.user, f.largest.user)
    ensures FlushPlace(v, level, tables)
  {
    HoldsFacts(v, h, p, floor, exposed);
    HistorySplits(h, p, q, |h|);
    assert h[p..] == h[p..|h|];
    assert EntriesOf(tables) <= Writes(h[p..]);
  }

  /** A flush moves writes from the memtable to tables, and changes no read. */
  lemma FlushHolds(v: Version, w: Version, h: History, p: nat, q: nat, floor: nat, exposed: set<UserKey>,
                   level: nat, tables: seq<File>, n: nat)
    requires Holds(v, h, p, floor, exposed) && TablesHold(tables, h, p, q) && FlushPlace(v, level, tables)
    requires Adds(v, w, level, tables) && NumbersBelow(v, n) && NumbersFrom(tables, n)
    ensures Holds(w, h, q, floor, exposed)
    ensures w.Entries() == v.Entries() + Writes(h[p..q])
  {
    FlushKeepsInvariant(v, w, level, tables, n);
    MoreInTables(v.Entries(), w.Entries(), h, p, q, floor, exposed);
  }

  /** The same writes, more of them in tables. */
  lemma MoreInTables(before: set<Entry>, after: set<Entry>, h: History, p: nat, q: nat, floor: nat, exposed: set<UserKey>)
    requires p <= q <= |h| && after == before + Writes(h[p..q]) && before <= Writes(h[..p])
    requires ReadsAgree(before + Writes(h[p..]), h, floor, exposed)
    ensures after <= Writes(h[..q]) && ReadsAgree(after + Writes(h[q..]), h, floor, exposed)
  {
    HistorySplits(h, 0, p, q);
    HistorySplits(h, p, q, |h|);
    assert h[..q] == h[0..q] && h[..p] == h[0..p] && h[p..] == h[p..|h|] && h[q..] == h[q..|h|];
    assert after + Writes(h[q..]) == before + Writes(h[p..]);
  }

  lemma FlushEditExtends(manifest: seq<VersionEdit>, v: Version, w: Version, edit: VersionEdit, level: nat,
                         tables: seq<File>, n: nat)
    requires edit.newFiles == AtLevel(level, tables) && edit.deletedFiles == {}
    requires Tracks(manifest, v, n) && NumbersFrom(tables, n) && level < NUM_LEVELS && Adds(v, w, level, tables)
    ensures EditExtends(manifest, edit) && Lands(w, edit) && OnlyAdds(v, w, edit)
    ensures forall l: nat :: edit.AddedAt(l) == if l == level then tables else []
  {
    FilesAtLevel(level, tables, level);
    forall l: nat ensures edit.AddedAt(l) == if l == level then tables else [] {
      FilesAtLevel(level, tables, l);
    }
    forall f | f in tables ensures UnseenFrom(manifest, level, f) {
      NewNumberUnseen(manifest, v, n, f);
      assert UnseenAnywhere(manifest, f);
    }
  }

  // ---- Compactions and moves ----

  /** Keys of the merged entries that the drop rules expose. */
  ghost function NewlyExposed(base: Version, level: nat, es: seq<Entry>, snap: SequenceNumber, rest: set<Entry>): set<UserKey> {
    set d | d in es && Exposes(base, level, es, snap, rest, d.key.user) :: d.key.user
  }

  lemma ExposedIsListed(base: Version, level: nat, es: seq<Entry>, snap: SequenceNumber, rest: set<Entry>, k: UserKey)
    requires Exposes(base, level, es, snap, rest, k)
    ensures k in NewlyExposed(base, level, es, snap, rest)
  {
    var d :| d in es && d.key.vtype.Deletion? && IsNewest(ToSet(es) + rest, k, snap, d);
  }

  /** A completed compaction changes reads at or above its snapshot only for the keys it exposes. */
  lemma CompactionHolds(base: Version, v: Version, w: Version, h: History, p: nat, floor: nat, exposed: set<UserKey>,
                        level: nat, in0: seq<File>, in1: seq<File>, snap: SequenceNumber, outputs: seq<File>)
    requires Holds(v, h, p, floor, exposed) && floor <= snap <= p
    requires MergeInputs(v, level, in0, in1) && Rewrites(v, w, level, in0, in1, outputs) && w.Valid()
    requires var es := MergeFiles(in0 + in1); Flat(outputs) == Kept(base, level, es, snap, |es|)
    ensures var rest := Writes(h[p..]) + Outside(v, in0, in1);
      Holds(w, h, p, snap, exposed + NewlyExposed(base, level, MergeFiles(in0 + in1), snap, rest))
    ensures w.Entries() <= v.Entries()
  {
    HoldsFacts(v, h, p, floor, exposed);
    var es, mem := MergeFiles(in0 + in1), Writes(h[p..]);
    var rest := mem + Outside(v, in0, in1);
    var more := exposed + NewlyExposed(base, level, es, snap, rest);
    CompactionEntries(base, v, w, level, in0, in1, snap, outputs);
    RewriteEntries(v, w, level, in0, in1, outputs);
    forall k, s: SequenceNumber | k !in more && snap <= s
      ensures Read(w.Entries() + mem, k, s) == Read(Writes(h), k, s)
    {
      CompactionReadsIff(base, v, w, mem, level, in0, in1, snap, outputs, k);
      if Exposes(base, level, es, snap, rest, k) {
        ExposedIsListed(base, level, es, snap, rest, k);
      }
      assert mem + v.Entries() == v.Entries() + mem && mem + w.Entries() == w.Entries() + mem;
      assert Read(v.Entries() + mem, k, s) == Read(Writes(h), k, s);
    }
  }

  /** Moving a file down a level changes nothing for readers. */
  lemma MoveHolds(v: Version, w: Version, h: History, p: nat, floor: nat, exposed: set<UserKey>, level: nat, f: File)
    requires Holds(v, h, p, floor, exposed)
    requires GoodInputs(v, level, [f], []) && Rewrites(v, w, level, [f], [], [f])
    ensures Holds(w, h, p, floor, exposed) && w.Entries() == v.Entries()
  {
    LevelFacts(v, level);
    assert f in [f] && v.Has(level, f);
    forall o, l, g | o in [f] && v.Has(l, g) && SameNumber(o, g) ensures l == level && g in [f] {
    }
    forall e | e in f.entries ensures FromInputs([f], [], e) {
    }
    GoodOutputsFit(v, level, [f], [], [f]);
    RewriteKeepsInvariant(v, w, level, [f], [], [f]);
    RewriteEntries(v, w, level, [f], [], [f]);
    forall x | x in v.Entries() ensures x in w.Entries() {
      var l, g := Locate(v, x);
      if l == level && g == f {
        assert IsOutput(level, [f], level + 1, f) && w.Has(level + 1, f);
      } else {
        assert Remains(v, level, [f], [], l, g) && w.Has(l, g);
      }
    }
    assert w.Entries() == v.Entries();
  }

  lemma RewriteEditExtends(manifest: seq<VersionEdit>, v: Version, w: Version, level: nat, in0: seq<File>, in1: seq<File>,
                           outputs: seq<File>)
    requires Rewrites(v, w, level, in0, in1, outputs) && OneFilePerNumber(outputs) && level + 1 < NUM_LEVELS
    requires AllUnseenFrom(manifest, level + 1, outputs)
    ensures EditExtends(manifest, CompactionEdit(level, in0, in1, outputs))
    ensures Lands(w, CompactionEdit(level, in0, in1, outputs)) && OnlyAdds(v, w, CompactionEdit(level, in0, in1, outputs))
  {
    var edit := CompactionEdit(level, in0, in1, outputs);
    FilesAtLevel(level + 1, outputs, level);
    forall l: nat ensures edit.AddedAt(l) == if l == level + 1 then outputs else [] {
      FilesAtLevel(level + 1, outputs, l);
    }
    forall l, f | w.Has(l, f) ensures v.Has(l, f) || f in edit.AddedAt(l) {
      assert IsOutput(level, outputs, l, f) || Remains(v, level, in0, in1, l, f);
    }
    forall l, f | 0 <= l < NUM_LEVELS && f in edit.AddedAt(l) ensures w.Has(l, f) {
      assert IsOutput(level, outputs, l, f);
    }
  }
}
