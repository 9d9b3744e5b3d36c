/** The manifest: what appending an installed edit, or starting over with a snapshot record, preserves
    (db/version_set.cc: LogAndApply, WriteSnapshot, Recover). */
module Manifests {
  import opened DbFormat
  import opened Versions
  import opened Builder
  import opened Installs

  datatype Meta = Meta(logNumber: Option<nat>, nextFileNumber: Option<nat>, lastSequence: Option<SequenceNumber>)

  function Latest<T>(before: Option<T>, after: Option<T>): Option<T> {
    if after.Some? then after else before
  }

  /** The counters a recovery reads from a manifest: the last value of each. */
  function MetaOf(edits: seq<VersionEdit>): Meta {
    if edits == [] then Meta(None, None, None)
    else
      var before, e := MetaOf(edits[..|edits| - 1]), edits[|edits| - 1];
      Meta(Latest(before.logNumber, e.logNumber), Latest(before.nextFileNumber, e.nextFileNumber),
           Latest(before.lastSequence, e.lastSequence))
  }

  /** The files that the edits of the manifest ever added to the level. */
  function AddedSoFar(manifest: seq<VersionEdit>, level: nat): seq<File>
    requires level < NUM_LEVELS
  {
    ReplayState(manifest)[level].added
  }

  ghost predicate LevelTracks(added: seq<File>, n: nat) {
    OneFilePerNumber(added) && forall f :: f in added ==> f.number < n
  }

  /** No file of that number was ever added to the level. */
  ghost predicate Unseen(added: seq<File>, f: File) {
    forall g :: g in added ==> !SameNumber(g, f)
  }

  /** Replaying the manifest gives v, its edits name only numbers below n, and no file was ever added to a
      deeper level than where it is now. */
  ghost predicate Tracks(manifest: seq<VersionEdit>, v: Version, n: nat) {
    && Replay(manifest) == v && NumbersBelow(v, n)
    && (forall i :: 0 <= i < |manifest| ==> manifest[i].InRange())
    && LevelsTrack(manifest, n) && NeverDeeper(manifest, v)
  }

  ghost predicate LevelsTrack(manifest: seq<VersionEdit>, n: nat) {
    forall l {:trigger AddedSoFar(manifest, l)} :: 0 <= l < NUM_LEVELS ==> LevelTracks(AddedSoFar(manifest, l), n)
  }

  /** No file of the version was ever added to a deeper level. */
  ghost predicate NeverDeeper(manifest: seq<VersionEdit>, v: Version) {
    forall l, m, f {:trigger Unseen(AddedSoFar(manifest, m), f), v.Has(l, f)} ::
      v.Has(l, f) && l < m < NUM_LEVELS ==> Unseen(AddedSoFar(manifest, m), f)
  }

  /** No edit of the manifest ever added a file of that number. */
  ghost predicate UnseenAnywhere(manifest: seq<VersionEdit>, f: File) {
    UnseenFrom(manifest, 0, f)
  }

  /** No edit of the manifest added a file of that number to the level or a deeper one. */
  ghost predicate UnseenFrom(manifest: seq<VersionEdit>, level: nat, f: File) {
    forall m {:trigger Unseen(AddedSoFar(manifest, m), f)} :: level <= m < NUM_LEVELS ==> Unseen(AddedSoFar(manifest, m), f)
  }

  /** Every file that the edit adds is new to the level it is added to, and to all deeper ones. */
  ghost predicate EditExtends(manifest: seq<VersionEdit>, edit: VersionEdit) {
    && edit.InRange()
    && forall l {:trigger edit.AddedAt(l)} :: 0 <= l < NUM_LEVELS ==>
         OneFilePerNumber(edit.AddedAt(l)) && AllUnseenFrom(manifest, l, edit.AddedAt(l))
  }

  ghost predicate AllUnseenFrom(manifest: seq<VersionEdit>, level: nat, files: seq<File>) {
    forall f :: f in files ==> UnseenFrom(manifest, level, f)
  }

  /** A new table has a number that no edit has named yet. */
  lemma NewNumberUnseen(manifest: seq<VersionEdit>, v: Version, n: nat, f: File)
    requires Tracks(manifest, v, n) && n <= f.number
    ensures UnseenAnywhere(manifest, f)
  {
    forall m | 0 <= m < NUM_LEVELS ensures Unseen(AddedSoFar(manifest, m), f) {
      assert LevelTracks(AddedSoFar(manifest, m), n);
    }
  }

  /** A file can move down: the deeper levels have never seen it. */
  lemma DescendingUnseen(manifest: seq<VersionEdit>, v: Version, n: nat, l: nat, f: File)
    requires Tracks(manifest, v, n) && v.Has(l, f)
    ensures UnseenFrom(manifest, l + 1, f)
  {
  }

  /** An edit that adds only unseen files is fresh for the recovery builder. */
  lemma ExtensionIsFresh(manifest: seq<VersionEdit>, v: Version, edit: VersionEdit, n: nat, l: nat)
    requires Tracks(manifest, v, n) && EditExtends(manifest, edit) && l < NUM_LEVELS
    ensures FreshLevel(ReplayState(manifest)[l], edit.AddedAt(l))
  {
    var seen, added := AddedSoFar(manifest, l), edit.AddedAt(l);
    assert LevelTracks(seen, n) && AllUnseenFrom(manifest, l, added);
    forall f, g | f in seen && g in added ensures f.number != g.number {
      assert Unseen(AddedSoFar(manifest, l), g);
      assert !SameNumber(f, g);
    }
    forall f, g | f in seen + added && g in seen + added && SameNumber(f, g) ensures f == g {
      assert !(f in seen && g in added) && !(g in seen && f in added) by {
        assert SameNumber(g, f);
      }
    }
  }

  lemma ReplaySnoc(manifest: seq<VersionEdit>, edit: VersionEdit)
    ensures ReplayState(manifest + [edit]) == ApplyEdit(ReplayState(manifest), edit)
    ensures MetaOf(manifest + [edit]) == Meta(Latest(MetaOf(manifest).logNumber, edit.logNumber),
      Latest(MetaOf(manifest).nextFileNumber, edit.nextFileNumber), Latest(MetaOf(manifest).lastSequence, edit.lastSequence))
  {
    var more := manifest + [edit];
    assert more[..|more| - 1] == manifest;
  }

  /** After an installed edit, every added file is where the edit put it. */
  ghost predicate Lands(w: Version, edit: VersionEdit) {
    forall l, f {:trigger w.Has(l, f)} :: 0 <= l < NUM_LEVELS && f in edit.AddedAt(l) ==> w.Has(l, f)
  }

  ghost predicate OnlyAdds(v: Version, w: Version, edit: VersionEdit) {
    forall l, f {:trigger w.Has(l, f)} :: w.Has(l, f) ==> v.Has(l, f) || f in edit.AddedAt(l)
  }

  /** Appending an edit adds its files, level by level, to what the builder has seen. */
  lemma AddedGrows(manifest: seq<VersionEdit>, v: Version, edit: VersionEdit, w: Version, n: nat, n': nat, l: nat)
    requires Tracks(manifest, v, n) && EditExtends(manifest, edit) && Lands(w, edit)
    requires n <= n' && NumbersBelow(w, n') && l < NUM_LEVELS
    ensures LevelTracks(AddedSoFar(manifest + [edit], l), n')
    ensures forall f :: f in AddedSoFar(manifest + [edit], l) <==> f in AddedSoFar(manifest, l) || f in edit.AddedAt(l)
  {
    ReplaySnoc(manifest, edit);
    assert LevelTracks(AddedSoFar(manifest, l), n);
    ExtensionIsFresh(manifest, v, edit, n, l);
    AddedStep(ReplayState(manifest)[l], edit, l, n, n', w);
  }

  lemma ReplayExtension(manifest: seq<VersionEdit>, v: Version, edit: VersionEdit, n: nat)
    requires Tracks(manifest, v, n) && EditExtends(manifest, edit)
    ensures Replay(manifest + [edit]) == Install(v, edit)
  {
    forall l | 0 <= l < NUM_LEVELS ensures FreshLevel(ReplayState(manifest)[l], edit.AddedAt(l)) {
      ExtensionIsFresh(manifest, v, edit, n, l);
    }
    ReplayStep(manifest, edit);
  }

  lemma NeverDeeperStep(manifest: seq<VersionEdit>, v: Version, edit: VersionEdit, w: Version, n: nat, n': nat)
    requires Tracks(manifest, v, n) && EditExtends(manifest, edit)
    requires w.UniqueNumbers() && Lands(w, edit) && OnlyAdds(v, w, edit)
    requires n <= n' && NumbersBelow(w, n')
    ensures NeverDeeper(manifest + [edit], w)
  {
    forall l, m, f | w.Has(l, f) && l < m < NUM_LEVELS ensures Unseen(AddedSoFar(manifest + [edit], m), f) {
      DeeperStayUnseen(manifest, v, edit, w, n, n', l, m, f);
    }
  }

  lemma LevelsTrackStep(manifest: seq<VersionEdit>, v: Version, edit: VersionEdit, w: Version, n: nat, n': nat)
    requires Tracks(manifest, v, n) && EditExtends(manifest, edit) && Lands(w, edit)
    requires n <= n' && NumbersBelow(w, n')
    ensures LevelsTrack(manifest + [edit], n')
  {
    forall l: nat | l < NUM_LEVELS ensures LevelTracks(AddedSoFar(manifest + [edit], l), n') {
      AddedGrows(manifest, v, edit, w, n, n', l);
    }
  }

  /** LogAndApply: appending an installed edit to the manifest keeps the manifest in step with the version. */
  lemma TracksStep(manifest: seq<VersionEdit>, v: Version, edit: VersionEdit, w: Version, n: nat, n': nat)
    requires Tracks(manifest, v, n) && EditExtends(manifest, edit)
    requires w == Install(v, edit) && w.Shape() && Lands(w, edit) && OnlyAdds(v, w, edit)
    requires n <= n' && NumbersBelow(w, n')
    ensures Tracks(manifest + [edit], w, n')
  {
    ReplayExtension(manifest, v, edit, n);
    LevelsTrackStep(manifest, v, edit, w, n, n');
    NeverDeeperStep(manifest, v, edit, w, n, n');
  }

  lemma DeeperStayUnseen(manifest: seq<VersionEdit>, v: Version, edit: VersionEdit, w: Version, n: nat, n': nat,
                         l: nat, m: nat, f: File)
    requires Tracks(manifest, v, n) && EditExtends(manifest, edit) && l < m < NUM_LEVELS
    requires w.UniqueNumbers() && Lands(w, edit) && OnlyAdds(v, w, edit) && w.Has(l, f)
    requires n <= n' && NumbersBelow(w, n')
    ensures Unseen(AddedSoFar(manifest + [edit], m), f)
  {
    StaysAbove(manifest, v, edit, w, n, l, m, f);
    AddedGrows(manifest, v, edit, w, n, n', m);
  }

  /** A number that the edit does not use stays unseen. */
  lemma StaysUnseen(manifest: seq<VersionEdit>, v: Version, edit: VersionEdit, w: Version, n: nat, n': nat, f: File)
    requires Tracks(manifest, v, n) && EditExtends(manifest, edit) && Lands(w, edit)
    requires n <= n' && NumbersBelow(w, n') && UnseenAnywhere(manifest, f)
    requires forall l {:trigger edit.AddedAt(l)} :: 0 <= l < NUM_LEVELS ==> Unseen(edit.AddedAt(l), f)
    ensures UnseenAnywhere(manifest + [edit], f)
  {
    forall m | 0 <= m < NUM_LEVELS ensures Unseen(AddedSoFar(manifest + [edit], m), f) {
      AddedGrows(manifest, v, edit, w, n, n', m);
      assert Unseen(AddedSoFar(manifest, m), f) && Unseen(edit.AddedAt(m), f);
    }
  }

  lemma AddedStep(state: LevelState, edit: VersionEdit, l: nat, n: nat, n': nat, w: Version)
    requires l < NUM_LEVELS && n <= n' && LevelTracks(state.added, n) && FreshLevel(state, edit.AddedAt(l))
    requires NumbersBelow(w, n') && forall f :: f in edit.AddedAt(l) ==> w.Has(l, f)
    ensures var added := ApplyLevel(state, edit.DeletedAt(l), edit.AddedAt(l)).added;
      LevelTracks(added, n') && forall f :: f in added <==> f in state.added || f in edit.AddedAt(l)
  {
    InsertAllMembers(state.added, edit.AddedAt(l));
    var added := ApplyLevel(state, edit.DeletedAt(l), edit.AddedAt(l)).added;
    forall f, g | f in added && g in added && SameNumber(f, g) ensures f == g {
      assert f in state.added + edit.AddedAt(l) && g in state.added + edit.AddedAt(l);
    }
  }

  lemma StaysAbove(manifest: seq<VersionEdit>, v: Version, edit: VersionEdit, w: Version, n: nat, l: nat, m: nat, f: File)
    requires Tracks(manifest, v, n) && EditExtends(manifest, edit) && l < m < NUM_LEVELS
    requires w.UniqueNumbers() && Lands(w, edit) && OnlyAdds(v, w, edit) && w.Has(l, f)
    ensures Unseen(AddedSoFar(manifest, m), f) && Unseen(edit.AddedAt(m), f)
  {
    forall g | g in edit.AddedAt(m) ensures !SameNumber(g, f) {
      assert w.Has(m, g);
    }
    if v.Has(l, f) {
      DescendingUnseen(manifest, v, n, l, f);
      assert UnseenFrom(manifest, l + 1, f);
    } else {
      assert AllUnseenFrom(manifest, l, edit.AddedAt(l));
      assert UnseenFrom(manifest, l, f);
    }
  }

  // ---- The snapshot record that starts a new manifest ----

  function SnapshotFiles(v: Version, levels: nat): seq<(nat, File)>
    requires levels <= |v.files|
  {
    if levels == 0 then [] else SnapshotFiles(v, levels - 1) + AtLevel(levels - 1, v.files[levels - 1])
  }

  /** VersionSet::WriteSnapshot. */
  function SnapshotEdit(v: Version): VersionEdit
  {
    NO_EDIT.(newFiles := SnapshotFiles(v, |v.files|))
  }

  lemma {:induction false} FilesAtConcat(a: seq<(nat, File)>, b: seq<(nat, File)>, l: nat)
    ensures FilesAt(a + b, l) == FilesAt(a, l) + FilesAt(b, l)
    decreases |b|
  {
    if b == [] {
      assert a + b == a;
    } else {
      var n := |b| - 1;
      assert (a + b)[..|a + b| - 1] == a + b[..n];
      FilesAtConcat(a, b[..n], l);
    }
  }

  lemma {:induction false} SnapshotInRange(v: Version, levels: nat)
    requires levels <= |v.files|
    ensures forall i :: 0 <= i < |SnapshotFiles(v, levels)| ==> SnapshotFiles(v, levels)[i].0 < levels
  {
    if levels > 0 {
      SnapshotInRange(v, levels - 1);
      FilesAtLevel(levels - 1, v.files[levels - 1], 0);
    }
  }

  lemma {:induction false} SnapshotFilesAt(v: Version, levels: nat, l: nat)
    requires levels <= |v.files|
    ensures FilesAt(SnapshotFiles(v, levels), l) == if l < levels then v.files[l] else []
  {
    if levels > 0 {
      SnapshotFilesAt(v, levels - 1, l);
      FilesAtLevel(levels - 1, v.files[levels - 1], l);
      FilesAtConcat(SnapshotFiles(v, levels - 1), AtLevel(levels - 1, v.files[levels - 1]), l);
    }
  }

  /** What replaying the snapshot record gives on one level. */
  lemma SnapshotLevelIs(v: Version, l: nat)
    requires v.Shape() && l < NUM_LEVELS
    ensures var manifest := [SnapshotEdit(v)];
      && Replay(manifest).files[l] == v.files[l] && (forall f :: f in AddedSoFar(manifest, l) <==> v.Has(l, f))
      && OneFilePerNumber(AddedSoFar(manifest, l))
  {
    var edit := SnapshotEdit(v);
    assert [edit] == [] + [edit];
    ReplaySnoc([], edit);
    SnapshotFilesAt(v, |v.files|, l);
    assert v.LevelOk(l);
    forall f, g | f in v.files[l] && g in v.files[l] && SameNumber(f, g) ensures f == g {
      assert v.Has(l, f) && v.Has(l, g);
    }
    SnapshotLevel(v.files[l]);
    assert ReplayState([])[l] == NoChanges;
    assert edit.AddedAt(l) == v.files[l] && edit.DeletedAt(l) == {};
  }

  lemma SnapshotUnseen(v: Version, l: nat, m: nat, f: File)
    requires v.Shape() && v.Has(l, f) && l < m < NUM_LEVELS
    ensures Unseen(AddedSoFar([SnapshotEdit(v)], m), f)
  {
    SnapshotLevelIs(v, m);
    forall g | g in AddedSoFar([SnapshotEdit(v)], m) ensures !SameNumber(g, f) {
      assert v.Has(m, g);
    }
  }

  /** A manifest that consists of the snapshot record of v replays to v. */
  lemma SnapshotTracks(v: Version, n: nat)
    requires v.Shape() && NumbersBelow(v, n)
    ensures Tracks([SnapshotEdit(v)], v, n)
  {
    var manifest := [SnapshotEdit(v)];
    forall l: nat | l < NUM_LEVELS
      ensures Replay(manifest).files[l] == v.files[l]
      ensures LevelTracks(AddedSoFar(manifest, l), n)
    {
      SnapshotLevelIs(v, l);
    }
    assert Replay(manifest).files == v.files;
    SnapshotInRange(v, |v.files|);
    forall l, m, f | v.Has(l, f) && l < m < NUM_LEVELS ensures Unseen(AddedSoFar(manifest, m), f) {
      SnapshotUnseen(v, l, m, f);
    }
  }

  lemma SnapshotLevel(files: seq<File>)
    requires Ordered(files) && OneFilePerNumber(files)
    ensures var state := ApplyLevel(NoChanges, {}, files);
      SaveLevel([], state) == files && forall f :: f in state.added <==> f in files
  {
    var state := ApplyLevel(NoChanges, {}, files);
    assert [] + files == files;
    InsertAllMembers([], files);
    InsertAllOrdered([], files);
    SaveLevelMembers([], state);
    SaveLevelOrdered([], state);
    OrderedUnique(SaveLevel([], state), files);
  }
}
