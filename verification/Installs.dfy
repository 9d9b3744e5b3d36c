/** Installing flushes, moves and compactions: the version invariant is kept, and so is every read that
    the compaction theorem does not exclude (db/db_impl.cc, db/version_set.cc). */
module Installs {
  import opened DbFormat
  import opened Versions
  import opened Builder
  import opened Inputs
  import opened Compactions

  // ---- Edits and their effect on membership ----

  function AtLevel(level: nat, files: seq<File>): seq<(nat, File)> {
    if files == [] then [] else AtLevel(level, files[..|files| - 1]) + [(level, files[|files| - 1])]
  }

  lemma FilesAtSnoc(newFiles: seq<(nat, File)>, x: (nat, File), l: nat)
    ensures FilesAt(newFiles + [x], l) == FilesAt(newFiles, l) + if x.0 == l then [x.1] else []
  {
    assert (newFiles + [x])[..|newFiles|] == newFiles;
  }

  lemma {:induction false} FilesAtLevel(level: nat, files: seq<File>, l: nat)
    ensures FilesAt(AtLevel(level, files), l) == if l == level then files else []
    ensures forall i :: 0 <= i < |AtLevel(level, files)| ==> AtLevel(level, files)[i].0 == level
    decreases |files|
  {
    if files != [] {
      var n := |files| - 1;
      FilesAtLevel(level, files[..n], l);
      FilesAtSnoc(AtLevel(level, files[..n]), (level, files[n]), l);
      TakeOneMore(files, n);
    }
  }

  function NumbersAt(level: nat, files: seq<File>): set<(nat, nat)> {
    set f | f in files :: (level, f.number)
  }

  const NO_EDIT := VersionEdit(None, None, None, {}, [])

  /** AddInputDeletions, then AddFile for every output at level + 1. */
  function CompactionEdit(level: nat, in0: seq<File>, in1: seq<File>, outputs: seq<File>): VersionEdit {
    NO_EDIT.(deletedFiles := NumbersAt(level, in0) + NumbersAt(level + 1, in1), newFiles := AtLevel(level + 1, outputs))
  }

  /** The edit of a flush: new tables at one level. */
  function FlushEdit(level: nat, tables: seq<File>): VersionEdit {
    NO_EDIT.(newFiles := AtLevel(level, tables))
  }

  lemma InstallLevel(v: Version, edit: VersionEdit, l: nat)
    requires v.Shape() && l < NUM_LEVELS
    requires OneFilePerNumber(edit.AddedAt(l)) && Separate(v.files[l], edit.AddedAt(l))
    ensures Ordered(Install(v, edit).files[l])
    ensures forall f :: f in Install(v, edit).files[l] <==>
      f in edit.AddedAt(l) || (f in v.files[l] && f.number !in edit.DeletedAt(l))
  {
    assert v.LevelOk(l);
    var added, deleted := edit.AddedAt(l), edit.DeletedAt(l);
    var state := ApplyLevel(NoChanges, deleted, added);
    assert [] + added == added;
    InsertAllOrdered([], added);
    InsertAllMembers([], added);
    SaveLevelMembers(v.files[l], state);
    SaveLevelOrdered(v.files[l], state);
    assert Install(v, edit).files[l] == SaveLevel(v.files[l], state);
    forall f | f in added ensures f.number in Numbers(added) {
    }
    forall f | f in v.files[l] ensures f.number !in Numbers(added) {
    }
  }

  /** w is v without the inputs and with the outputs. */
  ghost predicate Rewrites(v: Version, w: Version, level: nat, in0: seq<File>, in1: seq<File>, outputs: seq<File>) {
    && |w.files| == NUM_LEVELS && (forall l :: 0 <= l < NUM_LEVELS ==> Ordered(w.files[l]))
    && forall l, f {:trigger w.Has(l, f)} :: w.Has(l, f) <==> IsOutput(level, outputs, l, f) || Remains(v, level, in0, in1, l, f)
  }

  ghost predicate IsOutput(level: nat, outputs: seq<File>, l: int, f: File) {
    l == level + 1 && f in outputs
  }

  ghost predicate Remains(v: Version, level: nat, in0: seq<File>, in1: seq<File>, l: int, f: File) {
    v.Has(l, f) && !(l == level && f in in0) && !(l == level + 1 && f in in1)
  }

  /** Output numbers: pairwise different, and used in v by nothing but files that move away from `level`. */
  ghost predicate OutputNumbers(v: Version, level: nat, in0: seq<File>, outputs: seq<File>) {
    && OneFilePerNumber(outputs)
    && forall o, l, g {:trigger SameNumber(o, g), v.Has(l, g)} ::
         o in outputs && v.Has(l, g) && SameNumber(o, g) ==> l == level && g in in0
  }

  /** Removing the inputs and adding the outputs gives the rewritten version. */
  lemma InstallRewrites(v: Version, level: nat, in0: seq<File>, in1: seq<File>, outputs: seq<File>)
    requires v.Shape() && level + 1 < NUM_LEVELS && OutputNumbers(v, level, in0, outputs)
    requires forall f :: f in in0 ==> v.Has(level, f)
    requires forall f :: f in in1 ==> v.Has(level + 1, f)
    ensures Rewrites(v, Install(v, CompactionEdit(level, in0, in1, outputs)), level, in0, in1, outputs)
  {
    var w := Install(v, CompactionEdit(level, in0, in1, outputs));
    forall l: nat | l < NUM_LEVELS
      ensures Ordered(w.files[l])
      ensures forall f :: f in w.files[l] <==> IsOutput(level, outputs, l, f) || Remains(v, level, in0, in1, l, f)
    {
      RewrittenLevel(v, level, in0, in1, outputs, l);
    }
    forall l, f ensures w.Has(l, f) <==> IsOutput(level, outputs, l, f) || Remains(v, level, in0, in1, l, f) {
    }
  }

  lemma RewrittenLevel(v: Version, level: nat, in0: seq<File>, in1: seq<File>, outputs: seq<File>, l: nat)
    requires v.Shape() && level + 1 < NUM_LEVELS && OutputNumbers(v, level, in0, outputs) && l < NUM_LEVELS
    requires forall f :: f in in0 ==> v.Has(level, f)
    requires forall f :: f in in1 ==> v.Has(level + 1, f)
    ensures var files := Install(v, CompactionEdit(level, in0, in1, outputs)).files[l];
      Ordered(files) && forall f :: f in files <==> IsOutput(level, outputs, l, f) || Remains(v, level, in0, in1, l, f)
  {
    var edit := CompactionEdit(level, in0, in1, outputs);
    FilesAtLevel(level + 1, outputs, l);
    DeletedNumbers(level, in0, in1, outputs, l);
    SeparateOutputs(v, level, in0, outputs, l);
    InstallLevel(v, edit, l);
    forall f | v.Has(l, f)
      ensures f.number in edit.DeletedAt(l) <==> (l == level && f in in0) || (l == level + 1 && f in in1)
    {
      if l == level {
        NumberMeansFile(v, l, f, in0);
      } else if l == level + 1 {
        NumberMeansFile(v, l, f, in1);
      }
    }
  }

  lemma DeletedNumbers(level: nat, in0: seq<File>, in1: seq<File>, outputs: seq<File>, l: nat)
    ensures CompactionEdit(level, in0, in1, outputs).DeletedAt(l)
         == if l == level then Numbers(in0) else if l == level + 1 then Numbers(in1) else {}
  {
    var deleted := CompactionEdit(level, in0, in1, outputs).deletedFiles;
    forall n ensures n in Numbers(in0) ==> (level, n) in deleted {
    }
    forall n ensures n in Numbers(in1) ==> (level + 1, n) in deleted {
    }
  }

  lemma SeparateOutputs(v: Version, level: nat, in0: seq<File>, outputs: seq<File>, l: nat)
    requires |v.files| == NUM_LEVELS && l < NUM_LEVELS && OutputNumbers(v, level, in0, outputs)
    ensures Separate(v.files[l], if l == level + 1 then outputs else [])
  {
    if l == level + 1 {
      forall f, o | f in v.files[l] && o in outputs ensures f.number != o.number {
        assert v.Has(l, f) && (SameNumber(o, f) ==> l == level);
      }
    }
  }

  lemma NumberMeansFile(v: Version, l: nat, f: File, files: seq<File>)
    requires v.Shape() && v.Has(l, f) && forall g :: g in files ==> v.Has(l, g)
    ensures f.number in Numbers(files) <==> f in files
  {
    if f.number in Numbers(files) {
      var g :| g in files && g.number == f.number;
      assert v.Has(l, g) && SameNumber(f, g);
    }
  }

  // ---- The invariant after a rewrite ----

  /** Two files of a level do not touch. */
  predicate Apart(f: File, g: File) {
    Less(f.largest, g.smallest) || Less(g.largest, f.smallest)
  }

  lemma DisjointFromApart(files: seq<File>)
    requires Ordered(files) && Ranges(files)
    requires forall f, g {:trigger Apart(f, g)} :: f in files && g in files && f != g ==> Apart(f, g)
    ensures Disjoint(files)
  {
    forall i, j | 0 <= i < j < |files| ensures Less(files[i].largest, files[j].smallest) {
      assert BySmallest(files[i], files[j]);
      assert files[i] in files && files[j] in files;
      assert files[i] != files[j] && Apart(files[i], files[j]);
    }
  }

  lemma DisjointMeansApart(files: seq<File>, f: File, g: File)
    requires Disjoint(files) && f in files && g in files && f != g
    ensures Apart(f, g)
  {
    var i :| 0 <= i < |files| && files[i] == f;
    var j :| 0 <= j < |files| && files[j] == g;
    if i < j {
      assert Less(files[i].largest, files[j].smallest);
    } else {
      assert Less(files[j].largest, files[i].smallest);
    }
  }

  /** The entry comes from one of the inputs. */
  ghost predicate FromInputs(in0: seq<File>, in1: seq<File>, e: Entry) {
    (exists f :: f in in0 && e in f.entries) || (exists f :: f in in1 && e in f.entries)
  }

  ghost predicate OutputsFromInputs(in0: seq<File>, in1: seq<File>, outputs: seq<File>) {
    forall o, e :: o in outputs && e in o.entries ==> FromInputs(in0, in1, e)
  }

  lemma InputsAfter(next: seq<File>, in0: seq<File>, in1: seq<File>, g: File, e: Entry)
    requires AllValid(in0) && AllValid(in1) && Disjoint(next) && g in next && g !in in1 && AtMost(g.smallest, g.largest)
    requires forall f :: f in in1 ==> f in next && TouchesHull(in0, f)
    requires forall f :: f in in0 ==> g.largest.user < f.smallest.user
    requires FromInputs(in0, in1, e)
    ensures Less(g.largest, e.key)
  {
    if f :| f in in0 && e in f.entries {
      AfterFile(f, g, e);
    } else {
      var f :| f in in1 && e in f.entries;
      NextAfter(next, in0, f, g);
      AfterFile(f, g, e);
    }
  }

  lemma NextAfter(next: seq<File>, in0: seq<File>, f: File, g: File)
    requires Disjoint(next) && f in next && g in next && f != g && AtMost(g.smallest, g.largest) && TouchesHull(in0, f)
    requires forall h :: h in in0 ==> g.largest.user < h.smallest.user
    ensures Less(g.largest, f.smallest)
  {
    DisjointMeansApart(next, f, g);
    var h :| h in in0 && h.smallest.user <= f.largest.user;
  }

  lemma AfterFile(f: File, g: File, e: Entry)
    requires f.Valid() && e in f.entries && Less(g.largest, f.smallest)
    ensures Less(g.largest, e.key)
  {
  }

  lemma InputsBefore(next: seq<File>, in0: seq<File>, in1: seq<File>, g: File, e: Entry)
    requires AllValid(in0) && AllValid(in1) && Disjoint(next) && g in next && g !in in1 && AtMost(g.smallest, g.largest)
    requires forall f :: f in in1 ==> f in next && TouchesHull(in0, f)
    requires forall f :: f in in0 ==> f.largest.user < g.smallest.user
    requires FromInputs(in0, in1, e)
    ensures Less(e.key, g.smallest)
  {
    if f :| f in in0 && e in f.entries {
      BeforeFile(f, g, e);
    } else {
      var f :| f in in1 && e in f.entries;
      NextBefore(next, in0, f, g);
      BeforeFile(f, g, e);
    }
  }

  lemma NextBefore(next: seq<File>, in0: seq<File>, f: File, g: File)
    requires Disjoint(next) && f in next && g in next && f != g && AtMost(g.smallest, g.largest) && TouchesHull(in0, f)
    requires forall h :: h in in0 ==> h.largest.user < g.smallest.user
    ensures Less(f.largest, g.smallest)
  {
    DisjointMeansApart(next, f, g);
    var h :| h in in0 && f.smallest.user <= h.largest.user;
  }

  lemma BeforeFile(f: File, g: File, e: Entry)
    requires f.Valid() && e in f.entries && Less(f.largest, g.smallest)
    ensures Less(e.key, g.smallest)
  {
  }

  /** A file of level + 1 that is not an input lies wholly before or wholly after everything that is merged. */
  lemma RemainingIsOutside(v: Version, level: nat, in0: seq<File>, in1: seq<File>, g: File)
    requires v.Shape() && GoodInputs(v, level, in0, in1) && v.Has(level + 1, g) && g !in in1
    ensures (forall e :: FromInputs(in0, in1, e) ==> Less(g.largest, e.key))
         || (forall e :: FromInputs(in0, in1, e) ==> Less(e.key, g.smallest))
  {
    assert v.LevelOk(level) && v.LevelOk(level + 1);
    var next := v.files[level + 1];
    if forall f :: f in in0 ==> g.largest.user < f.smallest.user {
      forall e | FromInputs(in0, in1, e) ensures Less(g.largest, e.key) {
        InputsAfter(next, in0, in1, g, e);
      }
    } else {
      forall e | FromInputs(in0, in1, e) ensures Less(e.key, g.smallest) {
        InputsBefore(next, in0, in1, g, e);
      }
    }
  }

  lemma OutputApartFromRemaining(v: Version, level: nat, in0: seq<File>, in1: seq<File>, outputs: seq<File>, o: File, g: File)
    requires v.Shape() && GoodInputs(v, level, in0, in1) && v.Has(level + 1, g) && g !in in1
    requires o in outputs && o.Valid() && OutputsFromInputs(in0, in1, outputs)
    ensures Apart(o, g)
  {
    RemainingIsOutside(v, level, in0, in1, g);
    var first, last := o.entries[0], o.entries[|o.entries| - 1];
    assert first in o.entries && last in o.entries;
    assert FromInputs(in0, in1, first) && FromInputs(in0, in1, last);
  }

  /** No output touches a file that stays in its level. */
  ghost predicate OutputsFit(v: Version, level: nat, in1: seq<File>, outputs: seq<File>) {
    forall o, g {:trigger Apart(o, g)} :: o in outputs && v.Has(level + 1, g) && g !in in1 ==> Apart(o, g)
  }

  lemma GoodOutputsFit(v: Version, level: nat, in0: seq<File>, in1: seq<File>, outputs: seq<File>)
    requires v.Shape() && GoodInputs(v, level, in0, in1)
    requires AllValid(outputs) && OutputsFromInputs(in0, in1, outputs)
    ensures OutputsFit(v, level, in1, outputs)
  {
    forall o, g | o in outputs && v.Has(level + 1, g) && g !in in1 ensures Apart(o, g) {
      OutputApartFromRemaining(v, level, in0, in1, outputs, o, g);
    }
  }

  lemma ApartCommutes(f: File, g: File)
    requires Apart(f, g)
    ensures Apart(g, f)
  {
  }

  lemma RewriteShape(v: Version, w: Version, level: nat, in0: seq<File>, in1: seq<File>, outputs: seq<File>)
    requires v.Shape() && MergeInputs(v, level, in0, in1) && Rewrites(v, w, level, in0, in1, outputs)
    requires AllValid(outputs) && Disjoint(outputs) && OutputsFit(v, level, in1, outputs)
    requires OutputNumbers(v, level, in0, outputs)
    ensures w.Shape()
  {
    forall l | 0 <= l < NUM_LEVELS ensures w.LevelOk(l) {
      assert v.LevelOk(l);
      forall f | f in w.files[l] ensures f.Valid() { assert w.Has(l, f); }
      ValidRanges(w.files[l]);
      if l > 0 {
        forall f, g | f in w.files[l] && g in w.files[l] && f != g ensures Apart(f, g) {
          assert w.Has(l, f) && w.Has(l, g);
          if IsOutput(level, outputs, l, f) && IsOutput(level, outputs, l, g) {
            DisjointMeansApart(outputs, f, g);
          } else if IsOutput(level, outputs, l, f) {
            assert Remains(v, level, in0, in1, l, g);
          } else if IsOutput(level, outputs, l, g) {
            assert Remains(v, level, in0, in1, l, f);
            ApartCommutes(g, f);
          } else {
            DisjointMeansApart(v.files[l], f, g);
          }
        }
        DisjointFromApart(w.files[l]);
      }
    }
    forall l, m, f, g | w.Has(l, f) && w.Has(m, g) && SameNumber(f, g) ensures l == m && f == g {
      assert SameNumber(g, f);
    }
  }

  lemma RewriteRecency(v: Version, w: Version, level: nat, in0: seq<File>, in1: seq<File>, outputs: seq<File>)
    requires v.Valid() && MergeInputs(v, level, in0, in1) && Rewrites(v, w, level, in0, in1, outputs)
    requires OutputsFromInputs(in0, in1, outputs)
    ensures w.Recency()
  {
    forall f, g | f in w.files[0] && g in w.files[0] && f.number > g.number ensures FileShadows(f, g) {
      assert w.Has(0, f) && w.Has(0, g);
    }
    forall l, m, f, g | w.Has(l, f) && w.Has(m, g) && l < m ensures FileShadows(f, g) {
      if IsOutput(level, outputs, l, f) {
        ShadowsDeeper(v, level, in0, in1, outputs, f, m, g);
      } else if IsOutput(level, outputs, m, g) {
        ShadowedByShallower(v, level, in0, in1, outputs, l, f, g);
      }
    }
  }

  lemma ShadowsDeeper(v: Version, level: nat, in0: seq<File>, in1: seq<File>, outputs: seq<File>, o: File, m: int, g: File)
    requires v.Recency() && MergeInputs(v, level, in0, in1) && OutputsFromInputs(in0, in1, outputs)
    requires o in outputs && v.Has(m, g) && m > level + 1
    ensures FileShadows(o, g)
  {
    forall x, y | x in o.entries && y in g.entries && x.key.user == y.key.user ensures x.key.seqNo > y.key.seqNo {
      assert FromInputs(in0, in1, x);
      if f :| f in in0 && x in f.entries {
        assert v.Has(level, f) && FileShadows(f, g);
      } else {
        var f :| f in in1 && x in f.entries;
        assert v.Has(level + 1, f) && FileShadows(f, g);
      }
    }
  }

  lemma ShadowedByShallower(v: Version, level: nat, in0: seq<File>, in1: seq<File>, outputs: seq<File>, l: int, f: File, o: File)
    requires v.Recency() && MergeInputs(v, level, in0, in1) && OutputsFromInputs(in0, in1, outputs)
    requires o in outputs && v.Has(l, f) && l <= level && !(l == level && f in in0)
    ensures FileShadows(f, o)
  {
    forall x, y | x in f.entries && y in o.entries && x.key.user == y.key.user ensures x.key.seqNo > y.key.seqNo {
      assert FromInputs(in0, in1, y);
      if g :| g in in0 && y in g.entries {
        assert v.Has(level, g) && FileShadows(f, g);
      } else {
        var g :| g in in1 && y in g.entries;
        assert v.Has(level + 1, g) && FileShadows(f, g);
      }
    }
  }

  lemma RewriteEntries(v: Version, w: Version, level: nat, in0: seq<File>, in1: seq<File>, outputs: seq<File>)
    requires MergeInputs(v, level, in0, in1) && Rewrites(v, w, level, in0, in1, outputs)
    requires OutputsFromInputs(in0, in1, outputs)
    ensures w.Entries() <= v.Entries()
  {
    forall x | x in w.Entries() ensures x in v.Entries() {
      var l, f := Locate(w, x);
      if IsOutput(level, outputs, l, f) {
        assert FromInputs(in0, in1, x);
        if g :| g in in0 && x in g.entries {
          assert v.Has(level, g);
        } else {
          var g :| g in in1 && x in g.entries;
          assert v.Has(level + 1, g);
        }
      }
    }
  }

  /** A completed compaction or move keeps the version invariant if and only if its outputs fit between the files
      that are in the next level when it is installed. */
  lemma RewriteKeepsInvariant(v: Version, w: Version, level: nat, in0: seq<File>, in1: seq<File>, outputs: seq<File>)
    requires v.Valid() && MergeInputs(v, level, in0, in1) && Rewrites(v, w, level, in0, in1, outputs)
    requires AllValid(outputs) && Disjoint(outputs) && OutputsFromInputs(in0, in1, outputs)
    requires OutputNumbers(v, level, in0, outputs)
    ensures w.Valid() <==> OutputsFit(v, level, in1, outputs)
  {
    if OutputsFit(v, level, in1, outputs) {
      RewriteShape(v, w, level, in0, in1, outputs);
      RewriteRecency(v, w, level, in0, in1, outputs);
      RewriteEntries(v, w, level, in0, in1, outputs);
      forall x, y | x in w.Entries() && y in w.Entries() && SameWrite(x, y) ensures x == y {
      }
    }
    if w.Valid() {
      LevelFacts(w, level + 1);
      forall o, g | o in outputs && v.Has(level + 1, g) && g !in in1 ensures Apart(o, g) {
        assert w.Has(level + 1, o) && w.Has(level + 1, g);
        assert SameNumber(o, g) ==> g in in0;
        OutputIsNotRemaining(v, level, outputs, in0, o, g);
        DisjointMeansApart(w.files[level + 1], o, g);
      }
    }
  }

  lemma OutputIsNotRemaining(v: Version, level: nat, outputs: seq<File>, in0: seq<File>, o: File, g: File)
    requires OutputNumbers(v, level, in0, outputs) && o in outputs && v.Has(level + 1, g)
    ensures o != g
  {
    assert SameNumber(o, g) ==> level + 1 == level;
  }

  // ---- Flushes ----

  ghost predicate Adds(v: Version, w: Version, level: nat, tables: seq<File>) {
    && |w.files| == NUM_LEVELS && (forall l :: 0 <= l < NUM_LEVELS ==> Ordered(w.files[l]))
    && forall l, f {:trigger w.Has(l, f)} :: w.Has(l, f) <==> (l == level && f in tables) || v.Has(l, f)
  }

  /** All file numbers of the version are below n. */
  ghost predicate NumbersBelow(v: Version, n: nat) {
    forall l, f :: v.Has(l, f) ==> f.number < n
  }

  ghost predicate NumbersFrom(files: seq<File>, n: nat) {
    OneFilePerNumber(files) && forall f :: f in files ==> n <= f.number
  }

  lemma FlushInstalls(v: Version, level: nat, tables: seq<File>, n: nat)
    requires v.Shape() && level < NUM_LEVELS && NumbersBelow(v, n) && NumbersFrom(tables, n)
    ensures Adds(v, Install(v, FlushEdit(level, tables)), level, tables)
  {
    var edit := FlushEdit(level, tables);
    var w := Install(v, edit);
    forall l: nat | l < NUM_LEVELS
      ensures Ordered(w.files[l])
      ensures forall f :: w.Has(l, f) <==> (l == level && f in tables) || v.Has(l, f)
    {
      FilesAtLevel(level, tables, l);
      assert Separate(v.files[l], edit.AddedAt(l)) by {
        forall f, g | f in v.files[l] && g in edit.AddedAt(l) ensures f.number != g.number { assert v.Has(l, f); }
      }
      assert edit.DeletedAt(l) == {};
      InstallLevel(v, edit, l);
    }
  }

  /** What a flush may put where: newer data than the whole version, and below level 0 only where nothing overlaps. */
  ghost predicate FlushPlace(v: Version, level: nat, tables: seq<File>) {
    && level < NUM_LEVELS
    && Shadows(EntriesOf(tables), v.Entries()) && NewerByNumber(tables) && Distinct(EntriesOf(tables))
    && (level > 0 ==> |tables| <= 1 && forall f, l :: f in tables && 0 <= l <= level && l < |v.files| ==>
          NoOverlap(v.files[l], f.smallest.user, f.largest.user))
  }

  lemma NoOverlapShadows(files: seq<File>, g: File, f: File)
    requires g in files && g.Valid() && f.Valid() && NoOverlap(files, f.smallest.user, f.largest.user)
    ensures FileShadows(g, f) && Apart(g, f)
  {
    assert !Overlaps(g, Some(f.smallest.user), Some(f.largest.user));
    forall x, y | x in g.entries && y in f.entries ensures x.key.user != y.key.user {
      assert AtMost(g.smallest, x.key) && AtMost(x.key, g.largest);
      assert AtMost(f.smallest, y.key) && AtMost(y.key, f.largest);
    }
  }

  lemma FlushShape(v: Version, w: Version, level: nat, tables: seq<File>, n: nat)
    requires v.Shape() && Adds(v, w, level, tables) && AllValid(tables) && FlushPlace(v, level, tables)
    requires NumbersBelow(v, n) && NumbersFrom(tables, n)
    ensures w.Shape()
  {
    forall l: nat | l < NUM_LEVELS ensures w.LevelOk(l) {
      FlushedLevel(v, w, level, tables, l);
    }
    forall l, m, f, g | w.Has(l, f) && w.Has(m, g) && SameNumber(f, g) ensures l == m && f == g {
      assert v.Has(l, f) ==> f.number < n;
      assert v.Has(m, g) ==> g.number < n;
    }
  }

  lemma FlushedLevel(v: Version, w: Version, level: nat, tables: seq<File>, l: nat)
    requires v.Shape() && Adds(v, w, level, tables) && AllValid(tables) && FlushPlace(v, level, tables) && l < NUM_LEVELS
    ensures w.LevelOk(l)
  {
    assert v.LevelOk(l);
    forall f | f in w.files[l] ensures f.Valid() { assert w.Has(l, f); }
    ValidRanges(w.files[l]);
    if l > 0 {
      forall f, g | f in w.files[l] && g in w.files[l] && f != g ensures Apart(f, g) {
        assert w.Has(l, f) && w.Has(l, g);
        if v.Has(l, f) && v.Has(l, g) {
          DisjointMeansApart(v.files[l], f, g);
        } else if v.Has(l, f) {
          NoOverlapShadows(v.files[l], f, g);
        } else if v.Has(l, g) {
          NoOverlapShadows(v.files[l], g, f);
        }
      }
      DisjointFromApart(w.files[l]);
    }
  }

  lemma FlushRecency(v: Version, w: Version, level: nat, tables: seq<File>, n: nat)
    requires v.Valid() && Adds(v, w, level, tables) && AllValid(tables) && FlushPlace(v, level, tables)
    requires NumbersBelow(v, n) && NumbersFrom(tables, n)
    ensures w.Recency()
  {
    forall f, g | f in w.files[0] && g in w.files[0] && f.number > g.number ensures FileShadows(f, g) {
      assert w.Has(0, f) && w.Has(0, g);
      if v.Has(0, g) && !v.Has(0, f) {
        NewTableShadows(v, tables, f, 0, g);
      }
    }
    forall l, m, f, g | w.Has(l, f) && w.Has(m, g) && l < m ensures FileShadows(f, g) {
      if v.Has(m, g) && !v.Has(l, f) {
        NewTableShadows(v, tables, f, m, g);
      } else if !v.Has(m, g) {
        assert v.LevelOk(l);
        NoOverlapShadows(v.files[l], f, g);
      }
    }
  }

  lemma NewTableShadows(v: Version, tables: seq<File>, f: File, m: int, g: File)
    requires Shadows(EntriesOf(tables), v.Entries()) && f in tables && v.Has(m, g)
    ensures FileShadows(f, g)
  {
    forall x, y | x in f.entries && y in g.entries && x.key.user == y.key.user ensures x.key.seqNo > y.key.seqNo {
      assert x in EntriesOf(tables) && y in v.Entries();
    }
  }

  /** A memtable flush, placed as PickLevelForMemTableOutput says, keeps the version invariant. */
  lemma FlushKeepsInvariant(v: Version, w: Version, level: nat, tables: seq<File>, n: nat)
    requires v.Valid() && Adds(v, w, level, tables) && AllValid(tables) && FlushPlace(v, level, tables)
    requires NumbersBelow(v, n) && NumbersFrom(tables, n)
    ensures w.Valid() && w.Entries() == v.Entries() + EntriesOf(tables)
  {
    FlushShape(v, w, level, tables, n);
    FlushRecency(v, w, level, tables, n);
    forall x ensures x in w.Entries() <==> x in v.Entries() || x in EntriesOf(tables) {
      if x in w.Entries() {
        var l, f := Locate(w, x);
      }
      if x in v.Entries() {
        var l, f := Locate(v, x);
        assert w.Has(l, f);
      }
      if x in EntriesOf(tables) {
        var f :| f in tables && x in f.entries;
        assert w.Has(level, f);
      }
    }
    assert Shadows(EntriesOf(tables), v.Entries());
    forall x, y | x in w.Entries() && y in w.Entries() && SameWrite(x, y) ensures x == y {
    }
  }

  // ---- Compactions: what readers see ----

  /** The entries of the version that a compaction does not touch. */
  ghost function Outside(v: Version, in0: seq<File>, in1: seq<File>): set<Entry> {
    set e | e in v.Entries() && !FromInputs(in0, in1, e)
  }

  lemma ApartShareNothing(f: File, g: File, e: Entry)
    requires f.Valid() && g.Valid() && Apart(f, g) && e in f.entries
    ensures e !in g.entries
  {
    assert AtMost(f.smallest, e.key) && AtMost(e.key, f.largest);
  }

  lemma FilesShareNothing(v: Version, l: int, m: int, f: File, g: File, e: Entry)
    requires v.Shape() && v.Recency() && v.Has(l, f) && v.Has(m, g) && e in f.entries
    requires l != m || f != g
    ensures e !in g.entries
  {
    if l < m {
      assert FileShadows(f, g);
    } else if m < l {
      assert FileShadows(g, f);
    } else {
      assert v.LevelOk(l);
      assert !SameNumber(f, g);
      if l == 0 {
        assert f.number > g.number ==> FileShadows(f, g);
        assert f.number < g.number ==> FileShadows(g, f);
      } else {
        DisjointMeansApart(v.files[l], f, g);
        ApartShareNothing(f, g, e);
      }
    }
  }

  /** The level of the i-th input file. */
  function InputLevel(level: nat, in0: seq<File>, i: nat): nat {
    if i < |in0| then level else level + 1
  }

  lemma InputsAreDistinct(v: Version, level: nat, in0: seq<File>, in1: seq<File>, i: nat, j: nat)
    requires v.Valid() && MergeInputs(v, level, in0, in1) && i < j < |in0 + in1|
    ensures ToSet((in0 + in1)[i].entries) !! ToSet((in0 + in1)[j].entries)
  {
    var files := in0 + in1;
    var l, m := InputLevel(level, in0, i), InputLevel(level, in0, j);
    assert files[i] in if i < |in0| then in0 else in1;
    assert files[j] in if j < |in0| then in0 else in1;
    assert i < j < |in0| ==> BySmallest(in0[i], in0[j]);
    assert |in0| <= i ==> BySmallest(in1[i - |in0|], in1[j - |in0|]);
    forall e | e in ToSet(files[i].entries) ensures e !in ToSet(files[j].entries) {
      FilesShareNothing(v, l, m, files[i], files[j], e);
    }
  }

  lemma FromInputsIsEntry(v: Version, level: nat, in0: seq<File>, in1: seq<File>, e: Entry)
    requires MergeInputs(v, level, in0, in1) && FromInputs(in0, in1, e)
    ensures e in v.Entries() && e in EntriesOf(in0 + in1)
  {
    if f :| f in in0 && e in f.entries {
      assert v.Has(level, f) && f in in0 + in1;
    } else {
      var f :| f in in1 && e in f.entries;
      assert v.Has(level + 1, f) && f in in0 + in1;
    }
  }

  /** The merged input of a compaction is sorted and holds exactly the entries of its files. */
  lemma InputsAreMerged(v: Version, level: nat, in0: seq<File>, in1: seq<File>)
    requires v.Valid() && MergeInputs(v, level, in0, in1)
    ensures var es := MergeFiles(in0 + in1);
      Sorted(es) && forall e :: e in es <==> FromInputs(in0, in1, e)
  {
    var files := in0 + in1;
    assert v.LevelOk(level) && v.LevelOk(level + 1);
    forall i, j | 0 <= i < j < |files| ensures ToSet(files[i].entries) !! ToSet(files[j].entries) {
      InputsAreDistinct(v, level, in0, in1, i, j);
    }
    forall f | f in files ensures f.Valid() {
    }
    forall e ensures e in EntriesOf(files) <==> FromInputs(in0, in1, e) {
      if FromInputs(in0, in1, e) { FromInputsIsEntry(v, level, in0, in1, e); }
    }
    forall x, y | x in EntriesOf(files) && y in EntriesOf(files) && SameWrite(x, y) ensures x == y {
      FromInputsIsEntry(v, level, in0, in1, x);
      FromInputsIsEntry(v, level, in0, in1, y);
    }
    MergeFilesSorted(files);
    forall e ensures e in MergeFiles(files) <==> FromInputs(in0, in1, e) {
      assert e in MergeFiles(files) <==> e in ToSet(MergeFiles(files));
    }
  }

  lemma {:induction false} FlatMembers(files: seq<File>)
    ensures forall e :: e in Flat(files) <==> exists f :: f in files && e in f.entries
    decreases |files|
  {
    if files != [] {
      var n := |files| - 1;
      FlatMembers(files[..n]);
      assert files == files[..n] + [files[n]];
      forall e ensures e in Flat(files) <==> exists f :: f in files && e in f.entries {
        if e in files[n].entries { assert files[n] in files; }
        if f :| f in files[..n] && e in f.entries { assert f in files; }
      }
    }
  }

  /** What the loop of DoCompactionWork leaves behind, seen from the versions before and after the installation.
      The loop ran on the version `base`, which tells where the bottom level of a key is. */
  lemma CompactionEntries(base: Version, v: Version, w: Version, level: nat, in0: seq<File>, in1: seq<File>,
                          snap: SequenceNumber, outputs: seq<File>)
    requires v.Valid() && MergeInputs(v, level, in0, in1) && Rewrites(v, w, level, in0, in1, outputs)
    requires var es := MergeFiles(in0 + in1); Flat(outputs) == Kept(base, level, es, snap, |es|)
    ensures var es := MergeFiles(in0 + in1);
      && OutputsFromInputs(in0, in1, outputs)
      && v.Entries() == ToSet(es) + Outside(v, in0, in1)
      && w.Entries() == ToSet(Kept(base, level, es, snap, |es|)) + Outside(v, in0, in1)
  {
    var es := MergeFiles(in0 + in1);
    var kept := Kept(base, level, es, snap, |es|);
    InputsAreMerged(v, level, in0, in1);
    KeptMembers(base, level, es, snap, |es|);
    FlatMembers(outputs);
    forall o, e | o in outputs && e in o.entries ensures FromInputs(in0, in1, e) {
      assert e in Flat(outputs);
    }
    forall e ensures e in v.Entries() <==> e in ToSet(es) + Outside(v, in0, in1) {
      if FromInputs(in0, in1, e) { FromInputsIsEntry(v, level, in0, in1, e); }
    }
    forall e ensures e in w.Entries() <==> e in ToSet(kept) + Outside(v, in0, in1) {
      if e in w.Entries() {
        var l, f := Locate(w, e);
        if IsOutput(level, outputs, l, f) {
          assert e in Flat(outputs);
        } else {
          RemainingIsNotInput(v, level, in0, in1, l, f, e);
        }
      }
      if e in kept {
        var o :| o in outputs && e in o.entries;
        assert w.Has(level + 1, o);
      }
      if e in Outside(v, in0, in1) {
        var l, f := Locate(v, e);
        assert w.Has(l, f);
      }
    }
  }

  lemma RemainingIsNotInput(v: Version, level: nat, in0: seq<File>, in1: seq<File>, l: int, f: File, e: Entry)
    requires v.Valid() && MergeInputs(v, level, in0, in1) && Remains(v, level, in0, in1, l, f) && e in f.entries
    ensures e in Outside(v, in0, in1)
  {
    forall g | g in in0 ensures e !in g.entries {
      FilesShareNothing(v, l, level, f, g, e);
    }
    forall g | g in in1 ensures e !in g.entries {
      FilesShareNothing(v, l, level + 1, f, g, e);
    }
    assert e in v.Entries();
  }

  /** The compaction theorem for a database: with memtable contents `mem` on top, a reader at or above the oldest
      snapshot sees the same value of k before and after the installation if and only if k is not exposed. */
  lemma CompactionReadsIff(base: Version, v: Version, w: Version, mem: set<Entry>, level: nat, in0: seq<File>,
                           in1: seq<File>, snap: SequenceNumber, outputs: seq<File>, k: UserKey)
    requires v.Valid() && MergeInputs(v, level, in0, in1) && Rewrites(v, w, level, in0, in1, outputs)
    requires Shadows(mem, v.Entries()) && Distinct(mem + v.Entries())
    requires var es := MergeFiles(in0 + in1); Flat(outputs) == Kept(base, level, es, snap, |es|)
    ensures SameReads(mem + v.Entries(), mem + w.Entries(), k, snap)
       <==> !Exposes(base, level, MergeFiles(in0 + in1), snap, mem + Outside(v, in0, in1), k)
  {
    var es := MergeFiles(in0 + in1);
    var rest := mem + Outside(v, in0, in1);
    InputsAreMerged(v, level, in0, in1);
    CompactionEntries(base, v, w, level, in0, in1, snap, outputs);
    var kept := ToSet(Kept(base, level, es, snap, |es|));
    assert mem + v.Entries() == ToSet(es) + rest;
    assert mem + w.Entries() == kept + rest;
    CompactionInvisibleIff(base, level, es, snap, rest, k);
  }
}
