/** Version edits, the builder that applies them, and manifest replay
    (db/version_edit.h, db/version_set.cc: VersionSet::Builder, LogAndApply, Recover). */
module Builder {
  import opened DbFormat
  import opened Versions

  datatype VersionEdit = VersionEdit(
    logNumber: Option<nat>,
    nextFileNumber: Option<nat>,
    lastSequence: Option<SequenceNumber>,
    deletedFiles: set<(nat, nat)>,
    newFiles: seq<(nat, File)>) {

    predicate InRange() {
      && (forall d :: d in deletedFiles ==> d.0 < NUM_LEVELS)
      && (forall i :: 0 <= i < |newFiles| ==> newFiles[i].0 < NUM_LEVELS)
    }

    function DeletedAt(level: nat): set<nat> {
      set d | d in deletedFiles && d.0 == level :: d.1
    }

    function AddedAt(level: nat): seq<File> {
      FilesAt(newFiles, level)
    }
  }

  function FilesAt(newFiles: seq<(nat, File)>, level: nat): seq<File> {
    if newFiles == [] then []
    else
      var last := newFiles[|newFiles| - 1];
      FilesAt(newFiles[..|newFiles| - 1], level) + if last.0 == level then [last.1] else []
  }

  function Numbers(files: seq<File>): set<nat> {
    set f | f in files :: f.number
  }

  // ---- One level of the builder ----

  /** LevelState: the numbers to drop and the std::set of files to add, ordered by BySmallestKey. */
  datatype LevelState = LevelState(deleted: set<nat>, added: seq<File>)

  const NoChanges := LevelState({}, [])

  /** std::set::insert: a file equivalent to one already present is ignored. */
  function InsertFile(files: seq<File>, f: File): seq<File> {
    if files == [] || BySmallest(f, files[0]) then [f] + files
    else if BySmallest(files[0], f) then [files[0]] + InsertFile(files[1..], f)
    else files
  }

  function InsertAll(files: seq<File>, more: seq<File>): seq<File> {
    if more == [] then files else InsertFile(InsertAll(files, more[..|more| - 1]), more[|more| - 1])
  }

  /** Builder::Apply on one level: first the deletions, then the additions, which also undo deletions. */
  function ApplyLevel(state: LevelState, deleted: set<nat>, added: seq<File>): LevelState {
    LevelState(state.deleted + deleted - Numbers(added), InsertAll(state.added, added))
  }

  function MaybeAdd(f: File, deleted: set<nat>): seq<File> {
    if f.number in deleted then [] else [f]
  }

  /** Builder::SaveTo on one level: the merge of base and added files without the deleted ones. */
  function SaveLevel(base: seq<File>, state: LevelState): seq<File>
    decreases |base| + |state.added|
  {
    if base != [] && (state.added == [] || !BySmallest(state.added[0], base[0])) then
      MaybeAdd(base[0], state.deleted) + SaveLevel(base[1..], state)
    else if state.added != [] then
      MaybeAdd(state.added[0], state.deleted) + SaveLevel(base, LevelState(state.deleted, state.added[1..]))
    else []
  }

  /** What is left to merge from base position b and added position a. */
  function SaveRest(base: seq<File>, b: nat, state: LevelState, a: nat): seq<File>
    requires b <= |base| && a <= |state.added|
  {
    SaveLevel(base[b..], LevelState(state.deleted, state.added[a..]))
  }

  lemma TakeBase(saved: seq<File>, base: seq<File>, b: nat, state: LevelState, a: nat)
    requires b < |base| && a <= |state.added|
    requires a == |state.added| || !BySmallest(state.added[a], base[b])
    ensures saved + MaybeAdd(base[b], state.deleted) + SaveRest(base, b + 1, state, a) == saved + SaveRest(base, b, state, a)
  {
    assert base[b..][0] == base[b] && base[b..][1..] == base[b + 1..];
  }

  lemma TakeAdded(saved: seq<File>, base: seq<File>, b: nat, state: LevelState, a: nat)
    requires b <= |base| && a < |state.added|
    requires b == |base| || BySmallest(state.added[a], base[b])
    ensures saved + MaybeAdd(state.added[a], state.deleted) + SaveRest(base, b, state, a + 1)
         == saved + SaveRest(base, b, state, a)
  {
    var rest := state.added[a..];
    assert rest[0] == state.added[a] && rest[1..] == state.added[a + 1..];
    assert b < |base| ==> base[b..][0] == base[b];
  }

  // ---- The builder ----

  class VersionBuilder {
    const base: Version
    var levels: seq<LevelState>

    ghost predicate Valid()
      reads this
    {
      |base.files| == NUM_LEVELS && |levels| == NUM_LEVELS && forall l :: 0 <= l < NUM_LEVELS ==> Ordered(levels[l].added)
    }

    constructor (v: Version)
      requires |v.files| == NUM_LEVELS
      ensures Valid() && base == v && levels == StartState()
    {
      base := v;
      levels := StartState();
    }

    method DeleteFiles(edit: VersionEdit)
      requires Valid() && edit.InRange()
      modifies this
      ensures |levels| == NUM_LEVELS
      ensures forall l {:trigger levels[l]} :: 0 <= l < NUM_LEVELS ==>
        levels[l] == LevelState(old(levels)[l].deleted + edit.DeletedAt(l), old(levels)[l].added)
    {
      var todo := edit.deletedFiles;
      while todo != {}
        invariant todo <= edit.deletedFiles
        invariant |levels| == NUM_LEVELS
        invariant forall l {:trigger levels[l]} :: 0 <= l < NUM_LEVELS ==> levels[l].added == old(levels)[l].added
        invariant forall l {:trigger levels[l]} :: 0 <= l < NUM_LEVELS ==>
          levels[l].deleted == old(levels)[l].deleted + (set d | d in edit.deletedFiles - todo && d.0 == l :: d.1)
        decreases todo
      {
        var d :| d in todo;
        ghost var before := edit.deletedFiles - todo;
        todo := todo - {d};
        assert edit.deletedFiles - todo == before + {d};
        levels := levels[d.0 := levels[d.0].(deleted := levels[d.0].deleted + {d.1})];
      }
      assert edit.deletedFiles - {} == edit.deletedFiles;
    }

    method AddFiles(edit: VersionEdit)
      requires |levels| == NUM_LEVELS && edit.InRange()
      modifies this
      ensures |levels| == NUM_LEVELS
      ensures forall l {:trigger levels[l]} :: 0 <= l < NUM_LEVELS ==>
        levels[l] == ApplyLevel(old(levels)[l], {}, edit.AddedAt(l))
    {
      for i := 0 to |edit.newFiles|
        invariant |levels| == NUM_LEVELS
        invariant forall l {:trigger levels[l]} :: 0 <= l < NUM_LEVELS ==>
          levels[l] == ApplyLevel(old(levels)[l], {}, FilesAt(edit.newFiles[..i], l))
      {
        var level, f := edit.newFiles[i].0, edit.newFiles[i].1;
        assert edit.newFiles[..i + 1][..i] == edit.newFiles[..i];
        AddOne(old(levels)[level], FilesAt(edit.newFiles[..i], level), f);
        levels := levels[level := LevelState(levels[level].deleted - {f.number}, InsertFile(levels[level].added, f))];
        forall l: nat
          ensures FilesAt(edit.newFiles[..i + 1], l)
               == if l == level then FilesAt(edit.newFiles[..i], l) + [f] else FilesAt(edit.newFiles[..i], l)
        {
        }
      }
      assert edit.newFiles[..|edit.newFiles|] == edit.newFiles;
    }

    /** Builder::Apply: all deletions of the edit, then all its additions. */
    method Apply(edit: VersionEdit)
      requires Valid() && edit.InRange()
      modifies this
      ensures Valid() && levels == ApplyEdit(old(levels), edit)
    {
      ghost var start := levels;
      DeleteFiles(edit);
      AddFiles(edit);
      forall l: nat | l < NUM_LEVELS
        ensures levels[l] == ApplyLevel(start[l], edit.DeletedAt(l), edit.AddedAt(l)) && Ordered(levels[l].added)
      {
        InsertAllOrdered(start[l].added, edit.AddedAt(l));
      }
    }

    /** std::upper_bound over the remaining base files. */
    method UpperBound(files: seq<File>, from: nat, f: File) returns (i: nat)
      requires Ordered(files) && from <= |files|
      ensures from <= i <= |files|
      ensures forall j :: from <= j < i ==> !BySmallest(f, files[j])
      ensures i < |files| ==> BySmallest(f, files[i])
    {
      i := from;
      var right := |files|;
      while i < right
        invariant from <= i <= right <= |files|
        invariant forall j :: from <= j < i ==> !BySmallest(f, files[j])
        invariant right < |files| ==> BySmallest(f, files[right])
      {
        var mid := (i + right) / 2;
        if BySmallest(f, files[mid]) {
          right := mid;
        } else {
          forall j | from <= j < mid ensures !BySmallest(f, files[j]) {
            assert BySmallest(files[j], files[mid]);
          }
          i := mid + 1;
        }
      }
    }

    /** The part of SaveTo that builds one level. */
    method SaveOne(files: seq<File>, state: LevelState) returns (saved: seq<File>)
      requires Ordered(files)
      ensures saved == SaveLevel(files, state)
    {
      saved := [];
      var b := 0;
      for a := 0 to |state.added|
        invariant b <= |files|
        invariant saved + SaveRest(files, b, state, a) == SaveLevel(files, state)
      {
        var f := state.added[a];
        var bpos := UpperBound(files, b, f);
        while b < bpos
          invariant b <= bpos <= |files|
          invariant saved + SaveRest(files, b, state, a) == SaveLevel(files, state)
        {
          TakeBase(saved, files, b, state, a);
          saved := saved + MaybeAdd(files[b], state.deleted);
          b := b + 1;
        }
        TakeAdded(saved, files, b, state, a);
        saved := saved + MaybeAdd(f, state.deleted);
      }
      while b < |files|
        invariant b <= |files|
        invariant saved + SaveRest(files, b, state, |state.added|) == SaveLevel(files, state)
      {
        TakeBase(saved, files, b, state, |state.added|);
        saved := saved + MaybeAdd(files[b], state.deleted);
        b := b + 1;
      }
    }

    method SaveTo() returns (v: Version)
      requires Valid() && forall l :: 0 <= l < NUM_LEVELS ==> Ordered(base.files[l])
      ensures v == Save(base, levels)
    {
      var files: seq<seq<File>> := [];
      for level := 0 to NUM_LEVELS
        invariant |files| == level
        invariant forall l :: 0 <= l < level ==> files[l] == SaveLevel(base.files[l], levels[l])
      {
        var saved := SaveOne(base.files[level], levels[level]);
        files := files + [saved];
      }
      v := Version(files);
    }
  }

  function StartState(): seq<LevelState> {
    seq(NUM_LEVELS, _ => NoChanges)
  }

  function ApplyFrom(levels: seq<LevelState>, edit: VersionEdit, n: nat): (r: seq<LevelState>)
    requires n <= |levels|
    ensures |r| == n && forall l: nat :: l < n ==> r[l] == ApplyLevel(levels[l], edit.DeletedAt(l), edit.AddedAt(l))
  {
    if n == 0 then []
    else ApplyFrom(levels, edit, n - 1) + [ApplyLevel(levels[n - 1], edit.DeletedAt(n - 1), edit.AddedAt(n - 1))]
  }

  function SaveFrom(files: seq<seq<File>>, levels: seq<LevelState>, n: nat): (r: seq<seq<File>>)
    requires n <= |files| && n <= |levels|
    ensures |r| == n && forall l: nat :: l < n ==> r[l] == SaveLevel(files[l], levels[l])
  {
    if n == 0 then [] else SaveFrom(files, levels, n - 1) + [SaveLevel(files[n - 1], levels[n - 1])]
  }

  function ApplyEdit(levels: seq<LevelState>, edit: VersionEdit): seq<LevelState>
    requires |levels| == NUM_LEVELS
  {
    ApplyFrom(levels, edit, |levels|)
  }

  function Save(base: Version, levels: seq<LevelState>): (v: Version)
    requires |base.files| == NUM_LEVELS && |levels| == NUM_LEVELS
    ensures |v.files| == NUM_LEVELS
  {
    Version(SaveFrom(base.files, levels, |levels|))
  }

  /** LogAndApply: one edit on top of the current version. */
  function Install(v: Version, edit: VersionEdit): (w: Version)
    requires |v.files| == NUM_LEVELS
    ensures |w.files| == NUM_LEVELS
  {
    Save(v, ApplyEdit(StartState(), edit))
  }

  /** VersionSet::Recover: all edits of a manifest through one builder. */
  function ReplayState(edits: seq<VersionEdit>): (levels: seq<LevelState>)
    ensures |levels| == NUM_LEVELS
  {
    if edits == [] then StartState() else ApplyEdit(ReplayState(edits[..|edits| - 1]), edits[|edits| - 1])
  }

  function Replay(edits: seq<VersionEdit>): Version {
    Save(EmptyVersion(), ReplayState(edits))
  }

  // ---- Membership and order ----

  lemma {:induction false} InsertFileMembers(files: seq<File>, f: File)
    requires forall g :: g in files && SameNumber(f, g) ==> f == g
    ensures forall g :: g in InsertFile(files, f) <==> g in files || g == f
  {
    if files == [] || BySmallest(f, files[0]) {
    } else if BySmallest(files[0], f) {
      assert files == [files[0]] + files[1..];
      InsertFileMembers(files[1..], f);
    } else {
      assert files[0] in files && SameNumber(f, files[0]);
    }
  }

  lemma BySmallestTransitive(f: File, g: File, h: File)
    requires BySmallest(f, g) && BySmallest(g, h)
    ensures BySmallest(f, h)
  {
  }

  lemma {:induction false} InsertFileOrdered(files: seq<File>, f: File)
    requires Ordered(files)
    ensures Ordered(InsertFile(files, f))
    ensures InsertFile(files, f) != [] && (InsertFile(files, f)[0] == f || (files != [] && InsertFile(files, f)[0] == files[0]))
  {
    if files == [] {
    } else if BySmallest(f, files[0]) {
      forall j | 0 <= j < |files| ensures BySmallest(f, files[j]) {
        if j > 0 { assert BySmallest(files[0], files[j]); BySmallestTransitive(f, files[0], files[j]); }
      }
      OrderedCons(f, files);
    } else if BySmallest(files[0], f) {
      var rest := files[1..];
      forall i, j | 0 <= i < j < |rest| ensures BySmallest(rest[i], rest[j]) {
        assert BySmallest(files[i + 1], files[j + 1]);
      }
      InsertFileOrdered(rest, f);
      var tail := InsertFile(rest, f);
      assert rest != [] ==> BySmallest(files[0], files[1]);
      forall j | 0 <= j < |tail| ensures BySmallest(files[0], tail[j]) {
        if j > 0 { assert BySmallest(tail[0], tail[j]); BySmallestTransitive(files[0], tail[0], tail[j]); }
      }
      OrderedCons(files[0], tail);
    }
  }

  lemma OrderedCons(f: File, files: seq<File>)
    requires Ordered(files) && forall j :: 0 <= j < |files| ==> BySmallest(f, files[j])
    ensures Ordered([f] + files)
  {
    var all := [f] + files;
    forall i, j | 0 <= i < j < |all| ensures BySmallest(all[i], all[j]) {
      assert all[j] == files[j - 1];
      if i > 0 { assert BySmallest(files[i - 1], files[j - 1]); }
    }
  }

  lemma {:induction false} InsertAllOrdered(files: seq<File>, more: seq<File>)
    requires Ordered(files)
    ensures Ordered(InsertAll(files, more))
    decreases |more|
  {
    if more != [] {
      InsertAllOrdered(files, more[..|more| - 1]);
      InsertFileOrdered(InsertAll(files, more[..|more| - 1]), more[|more| - 1]);
    }
  }

  lemma AddOne(state: LevelState, added: seq<File>, f: File)
    ensures ApplyLevel(state, {}, added + [f])
         == LevelState(ApplyLevel(state, {}, added).deleted - {f.number}, InsertFile(ApplyLevel(state, {}, added).added, f))
  {
    var more := added + [f];
    assert more[..|more| - 1] == added;
    assert Numbers(more) == Numbers(added) + {f.number};
  }

  /** Files with the same number are the same file. */
  ghost predicate OneFilePerNumber(files: seq<File>) {
    forall f, g {:trigger SameNumber(f, g)} :: f in files && g in files && SameNumber(f, g) ==> f == g
  }

  lemma {:induction false} InsertAllMembers(files: seq<File>, more: seq<File>)
    requires OneFilePerNumber(files + more)
    ensures forall g :: g in InsertAll(files, more) <==> g in files || g in more
    decreases |more|
  {
    if more != [] {
      var init, last := more[..|more| - 1], more[|more| - 1];
      assert more == init + [last];
      forall f | f in files + init ensures f in files + more {
      }
      InsertAllMembers(files, init);
      forall g | g in InsertAll(files, init) && SameNumber(last, g) ensures last == g {
        assert g in files + more && last in files + more;
      }
      InsertFileMembers(InsertAll(files, init), last);
    }
  }

  lemma {:induction false} SaveLevelMembers(base: seq<File>, state: LevelState)
    ensures forall f :: f in SaveLevel(base, state) <==> (f in base || f in state.added) && f.number !in state.deleted
    decreases |base| + |state.added|
  {
    if base != [] && (state.added == [] || !BySmallest(state.added[0], base[0])) {
      assert base == [base[0]] + base[1..];
      SaveLevelMembers(base[1..], state);
    } else if state.added != [] {
      assert state.added == [state.added[0]] + state.added[1..];
      SaveLevelMembers(base, LevelState(state.deleted, state.added[1..]));
    }
  }

  ghost predicate Separate(base: seq<File>, added: seq<File>) {
    forall f, g :: f in base && g in added ==> f.number != g.number
  }

  lemma OrderedTail(files: seq<File>)
    requires Ordered(files) && files != []
    ensures Ordered(files[1..])
    ensures forall f :: f in files[1..] ==> BySmallest(files[0], f)
  {
    var rest := files[1..];
    forall i, j | 0 <= i < j < |rest| ensures BySmallest(rest[i], rest[j]) {
      assert BySmallest(files[i + 1], files[j + 1]);
    }
    forall f | f in rest ensures BySmallest(files[0], f) {
      var j :| 0 <= j < |rest| && rest[j] == f;
      assert BySmallest(files[0], files[j + 1]);
    }
  }

  lemma MaybeAddOrdered(f: File, deleted: set<nat>, rest: seq<File>)
    requires Ordered(rest) && forall g :: g in rest ==> BySmallest(f, g)
    ensures Ordered(MaybeAdd(f, deleted) + rest)
  {
    if f.number in deleted {
      assert MaybeAdd(f, deleted) + rest == rest;
    } else {
      OrderedCons(f, rest);
    }
  }

  lemma {:induction false} SaveLevelOrdered(base: seq<File>, state: LevelState)
    requires Ordered(base) && Ordered(state.added) && Separate(base, state.added)
    ensures Ordered(SaveLevel(base, state))
    decreases |base| + |state.added|
  {
    if base != [] && (state.added == [] || !BySmallest(state.added[0], base[0])) {
      OrderedTail(base);
      SaveLevelOrdered(base[1..], state);
      SaveLevelMembers(base[1..], state);
      if state.added != [] {
        OrderedTail(state.added);
        assert base[0] in base && state.added[0] in state.added;
        assert BySmallest(base[0], state.added[0]);
      }
      forall g | g in SaveLevel(base[1..], state) ensures BySmallest(base[0], g) {
        if g in state.added {
          HeadFirst(base[0], state.added, g);
        }
      }
      MaybeAddOrdered(base[0], state.deleted, SaveLevel(base[1..], state));
    } else if state.added != [] {
      var rest := LevelState(state.deleted, state.added[1..]);
      OrderedTail(state.added);
      SaveLevelOrdered(base, rest);
      SaveLevelMembers(base, rest);
      forall g | g in SaveLevel(base, rest) ensures BySmallest(state.added[0], g) {
        if g in base {
          HeadFirst(state.added[0], base, g);
        }
      }
      MaybeAddOrdered(state.added[0], state.deleted, SaveLevel(base, rest));
    }
  }

  lemma HeadFirst(f: File, files: seq<File>, g: File)
    requires Ordered(files) && files != [] && BySmallest(f, files[0]) && g in files
    ensures BySmallest(f, g)
  {
    var j :| 0 <= j < |files| && files[j] == g;
    if j > 0 {
      assert BySmallest(files[0], files[j]);
      BySmallestTransitive(f, files[0], g);
    }
  }

  /** An ordered file list is determined by its members. */
  lemma {:induction false} OrderedUnique(a: seq<File>, b: seq<File>)
    requires Ordered(a) && Ordered(b) && forall f :: f in a <==> f in b
    ensures a == b
    decreases |a|
  {
    assert b == [] || b[0] in b;
    if a != [] {
      assert a[0] in a && a[0] in b;
      assert b != [] && b[0] in b && b[0] in a;
      OrderedTail(a);
      OrderedTail(b);
      assert a == [a[0]] + a[1..] && b == [b[0]] + b[1..];
      assert a[0] == b[0];
      assert !BySmallest(a[0], a[0]);
      forall f ensures f in a[1..] <==> f in b[1..] {
        assert f in a <==> f == a[0] || f in a[1..];
        assert f in b <==> f == a[0] || f in b[1..];
      }
      OrderedUnique(a[1..], b[1..]);
    }
  }

  // ---- Manifest replay ----

  /** The new files of the edit have numbers that their level has never seen before. */
  ghost predicate FreshLevel(state: LevelState, added: seq<File>) {
    OneFilePerNumber(state.added + added) && Separate(state.added, added)
  }

  ghost predicate Fresh(levels: seq<LevelState>, edit: VersionEdit)
    requires |levels| == NUM_LEVELS
  {
    forall l {:trigger edit.AddedAt(l)} :: 0 <= l < NUM_LEVELS ==> FreshLevel(levels[l], edit.AddedAt(l))
  }

  /** Every edit of the manifest was fresh when it was written. */
  ghost predicate FreshChain(edits: seq<VersionEdit>) {
    edits == [] ||
    (FreshChain(edits[..|edits| - 1]) && Fresh(ReplayState(edits[..|edits| - 1]), edits[|edits| - 1]))
  }

  lemma ReplayLevelStep(state: LevelState, deleted: set<nat>, added: seq<File>)
    requires Ordered(state.added) && FreshLevel(state, added)
    ensures SaveLevel([], ApplyLevel(state, deleted, added))
         == SaveLevel(SaveLevel([], state), ApplyLevel(NoChanges, deleted, added))
    ensures Ordered(ApplyLevel(state, deleted, added).added)
  {
    var all := ApplyLevel(state, deleted, added);
    var one := ApplyLevel(NoChanges, deleted, added);
    var base := SaveLevel([], state);
    InsertAllOrdered(state.added, added);
    InsertAllOrdered([], added);
    InsertAllMembers(state.added, added);
    assert [] + added == added;
    assert OneFilePerNumber(added) by {
      forall f | f in added ensures f in state.added + added { }
    }
    InsertAllMembers([], added);
    SaveLevelMembers([], all);
    SaveLevelMembers([], state);
    SaveLevelMembers(base, one);
    SaveLevelOrdered([], all);
    SaveLevelOrdered([], state);
    SaveLevelOrdered(base, one);
    OrderedUnique(SaveLevel([], all), SaveLevel(base, one));
  }

  lemma {:induction false} ReplayOrdered(edits: seq<VersionEdit>, l: nat)
    requires l < NUM_LEVELS
    ensures Ordered(ReplayState(edits)[l].added)
    decreases |edits|
  {
    if edits != [] {
      ReplayOrdered(edits[..|edits| - 1], l);
      InsertAllOrdered(ReplayState(edits[..|edits| - 1])[l].added, edits[|edits| - 1].AddedAt(l));
    }
  }

  /** Feeding one more edit to the recovery builder is the same as installing it on the recovered version. */
  lemma ReplayStep(edits: seq<VersionEdit>, edit: VersionEdit)
    requires Fresh(ReplayState(edits), edit)
    ensures Replay(edits + [edit]) == Install(Replay(edits), edit)
  {
    var more := edits + [edit];
    assert more[..|more| - 1] == edits;
    forall l | 0 <= l < NUM_LEVELS
      ensures Replay(more).files[l] == Install(Replay(edits), edit).files[l]
    {
      ReplayOrdered(edits, l);
      ReplayLevelStep(ReplayState(edits)[l], edit.DeletedAt(l), edit.AddedAt(l));
    }
    assert Replay(more).files == Install(Replay(edits), edit).files;
  }

  function InstallAll(edits: seq<VersionEdit>): (v: Version)
    ensures |v.files| == NUM_LEVELS
  {
    if edits == [] then EmptyVersion() else Install(InstallAll(edits[..|edits| - 1]), edits[|edits| - 1])
  }

  lemma ReplayNothing()
    ensures Replay([]) == EmptyVersion()
  {
    var v := Replay([]);
    forall l | 0 <= l < NUM_LEVELS ensures v.files[l] == EmptyVersion().files[l] {
      assert ReplayState([])[l] == NoChanges;
    }
    assert v.files == EmptyVersion().files;
  }

  /** Replaying a manifest through one builder gives the version that installing its edits one by one gave. */
  lemma {:induction false} ReplayIsInstallAll(edits: seq<VersionEdit>)
    requires FreshChain(edits)
    ensures Replay(edits) == InstallAll(edits)
    decreases |edits|
  {
    if edits == [] {
      ReplayNothing();
    } else {
      var init, last := edits[..|edits| - 1], edits[|edits| - 1];
      ReplayIsInstallAll(init);
      ReplayStep(init, last);
      InitAndLast(edits);
    }
  }

  lemma InitAndLast<T>(s: seq<T>)
    requires s != []
    ensures s[..|s| - 1] + [s[|s| - 1]] == s
  {
  }
}
