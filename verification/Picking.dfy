/** Which files a compaction starts from (db/version_set.cc: PickCompaction, CompactRange, IsTrivialMove;
    db/db_impl.cc: CompactRange). */
module Picking {
  import opened DbFormat
  import opened Versions
  import opened Inputs

  /** The first file after the compaction pointer of the level, or the first file of all. */
  ghost predicate IsNextFile(files: seq<File>, pointer: Option<InternalKey>, f: File) {
    || (exists i {:trigger files[i]} :: 0 <= i < |files| && files[i] == f && AfterPointer(f, pointer)
          && forall j :: 0 <= j < i ==> !AfterPointer(files[j], pointer))
    || (files != [] && f == files[0] && forall j :: 0 <= j < |files| ==> !AfterPointer(files[j], pointer))
  }

  predicate AfterPointer(f: File, pointer: Option<InternalKey>) {
    pointer.None? || Less(pointer.value, f.largest)
  }

  method NextFile(files: seq<File>, pointer: Option<InternalKey>) returns (f: File)
    requires files != []
    ensures f in files && IsNextFile(files, pointer, f)
  {
    for i := 0 to |files|
      invariant forall j :: 0 <= j < i ==> !AfterPointer(files[j], pointer)
    {
      if AfterPointer(files[i], pointer) {
        return files[i];
      }
    }
    return files[0];
  }

  /** Below level 0 the files take turns: after a compaction up to the end of one file the next one is chosen, and the
      first one after the last. */
  lemma TakesTurns(files: seq<File>, i: nat, f: File)
    requires Ranges(files) && Disjoint(files) && i < |files|
    ensures IsNextFile(files, Some(files[i].largest), f) <==> f == files[if i + 1 < |files| then i + 1 else 0]
  {
    forall j: nat | j < |files| ensures AfterPointer(files[j], Some(files[i].largest)) <==> i < j {
      TurnsRise(files, i, j);
      TurnsRise(files, j, i);
    }
    if i + 1 < |files| {
      assert files[i + 1] == files[i + 1] && forall j :: 0 <= j < i + 1 ==> !AfterPointer(files[j], Some(files[i].largest));
    }
  }

  lemma TurnsRise(files: seq<File>, i: nat, j: nat)
    requires Ranges(files) && Disjoint(files) && i < |files| && j < |files|
    ensures i < j ==> Less(files[i].largest, files[j].largest)
  {
    if i < j {
      assert Less(files[i].largest, files[j].smallest) && files[j] in files;
    }
  }

  lemma SingleIsSeed(files: seq<File>, f: File)
    requires f in files
    ensures Seed(files, false, [f])
  {
    var i :| 0 <= i < |files| && files[i] == f;
    assert IsSlice(files, [f], i, i + 1);
  }

  /** The file alone, or at level 0 all files that overlap it, directly or through others. */
  ghost predicate IsSeedOf(files: seq<File>, isLevel0: bool, f: File, seed: seq<File>) {
    && f in seed
    && if isLevel0 then exists r :: LeastClosed(files, UserRange(f.smallest, f.largest), r) && seed == Overlapping(files, r)
       else seed == [f]
  }

  ghost predicate IsPick(files: seq<File>, seekFile: Option<File>, pointer: Option<InternalKey>, f: File) {
    if seekFile.Some? then f == seekFile.value else IsNextFile(files, pointer, f)
  }

  lemma RangeOfOne(f: File, lo: InternalKey, hi: InternalKey)
    requires IsRange([f], lo, hi)
    ensures lo == f.smallest && hi == f.largest
  {
  }

  /** PickCompaction once the level is known: the file that too many seeks went to, or else the next file in turn;
      at level 0 also everything that overlaps it, directly or through other files. */
  method PickSeed(v: Version, level: nat, seekFile: Option<File>, pointer: Option<InternalKey>) returns (seed: seq<File>)
    requires v.Valid() && level + 1 < NUM_LEVELS && v.files[level] != []
    requires seekFile.Some? ==> v.Has(level, seekFile.value)
    ensures Seed(v.files[level], level == 0, seed)
    ensures exists f ::
      f in v.files[level] && IsPick(v.files[level], seekFile, pointer, f) && IsSeedOf(v.files[level], level == 0, f, seed)
  {
    var files := v.files[level];
    LevelFacts(v, level);
    var f: File;
    if seekFile.Some? {
      f := seekFile.value;
    } else {
      f := NextFile(files, pointer);
    }
    seed := [f];
    if level == 0 {
      var smallest, largest := GetRange(seed);
      ghost var range;
      seed, range := GetOverlappingInputs(true, files, UserRange(smallest, largest));
      OverlappingMembers(files, range);
      RangeOfOne(f, smallest, largest);
      assert f in [f] && Touches(f, range);
    } else {
      SingleIsSeed(files, f);
    }
    assert f in v.files[level] && IsPick(files, seekFile, pointer, f) && IsSeedOf(files, level == 0, f, seed);
  }

  /** The first files that reach the size limit together, or all of them. */
  ghost predicate IsCut(files: seq<File>, limit: nat, cut: seq<File>) {
    && cut <= files && (cut != files ==> limit <= TotalFileSize(cut))
    && forall n :: 0 < n < |cut| ==> TotalFileSize(cut[..n]) < limit
  }

  /** The loop of CompactRange that avoids compacting too much in one shot. */
  method CutAt(files: seq<File>, limit: nat) returns (cut: seq<File>)
    ensures IsCut(files, limit, cut) && (cut == [] <==> files == [])
  {
    var total := 0;
    for i := 0 to |files|
      invariant total == TotalFileSize(files[..i])
      invariant forall n :: 0 < n <= i ==> TotalFileSize(files[..n]) < limit
    {
      total := total + files[i].size;
      TotalSnoc(files[..i], files[i]);
      assert files[..i + 1] == files[..i] + [files[i]];
      if total >= limit {
        cut := files[..i + 1];
        assert forall n :: 0 < n < |cut| ==> cut[..n] == files[..n];
        return;
      }
    }
    cut := files;
  }

  /** The part of CompactRange that chooses files: all that overlap the range, but below level 0 no more than the
      first ones that reach the size limit. */
  method RangeSeed(v: Version, level: nat, range: Range, limit: nat) returns (seed: seq<File>)
    requires v.Valid() && level + 1 < NUM_LEVELS
    ensures seed == [] <==> Overlapping(v.files[level], range) == []
    ensures seed != [] ==> Seed(v.files[level], level == 0, seed)
    ensures level == 0 ==> exists r :: LeastClosed(v.files[0], range, r) && seed == Overlapping(v.files[0], r)
    ensures level > 0 ==> IsCut(Overlapping(v.files[level], range), limit, seed)
  {
    var files := v.files[level];
    LevelFacts(v, level);
    ghost var r;
    seed, r := GetOverlappingInputs(level == 0, files, range);
    if level == 0 {
      if seed == [] {
        OverlappingGrows(files, range, r);
      } else {
        UntouchedStays(files, range, r);
      }
    } else {
      seed := CutAt(seed, limit);
      if seed != [] {
        PrefixIsSeed(files, range, seed);
      }
    }
  }

  /** DBImpl::CompactRange compacts the levels with smaller numbers than this one, the deepest that overlaps the range, but at
      least level 1. */
  ghost predicate IsMaxLevel(v: Version, range: Range, max: nat)
    requires |v.files| == NUM_LEVELS
  {
    && 1 <= max < NUM_LEVELS && (max > 1 ==> Overlapping(v.files[max], range) != [])
    && forall l :: max < l < NUM_LEVELS ==> Overlapping(v.files[l], range) == []
  }

  lemma TouchedIsOverlapping(files: seq<File>, range: Range)
    ensures Overlapping(files, range) != [] <==> exists f :: f in files && Touches(f, range)
  {
    OverlappingMembers(files, range);
    if Overlapping(files, range) != [] {
      assert Overlapping(files, range)[0] in Overlapping(files, range);
    }
  }

  method MaxLevelWithFiles(v: Version, range: Range) returns (max: nat)
    requires v.Valid()
    ensures IsMaxLevel(v, range, max)
  {
    max := 1;
    for level := 1 to NUM_LEVELS
      invariant 1 <= max < NUM_LEVELS && max <= level && (max > 1 ==> Overlapping(v.files[max], range) != [])
      invariant forall l :: max < l < level ==> Overlapping(v.files[l], range) == []
    {
      LevelFacts(v, level);
      var overlap := SomeFileOverlapsRange(true, v.files[level], range.begin, range.end);
      TouchedIsOverlapping(v.files[level], range);
      if overlap {
        max := level;
      }
    }
  }

  /** If the request touches no file, neither does the least closed range around it. */
  lemma UntouchedStays(files: seq<File>, request: Range, r: Range)
    requires LeastClosed(files, request, r)
    ensures Overlapping(files, request) == [] ==> Overlapping(files, r) == []
  {
    if Overlapping(files, request) == [] {
      OverlappingMembers(files, request);
      forall f | f in files ensures !Touches(f, request) {
        assert f !in Overlapping(files, request);
      }
      OverlappingGrows(files, r, request);
    }
  }

  lemma {:induction false} TotalSnoc(files: seq<File>, f: File)
    ensures TotalFileSize(files + [f]) == TotalFileSize(files) + f.size
    decreases |files|
  {
    if files != [] {
      assert (files + [f])[1..] == files[1..] + [f];
      TotalSnoc(files[1..], f);
    }
  }

  lemma PrefixIsSeed(files: seq<File>, range: Range, seed: seq<File>)
    requires Ranges(files) && Disjoint(files) && seed != [] && seed <= Overlapping(files, range)
    ensures Seed(files, false, seed)
  {
    var a, b := OverlappingIsSlice(files, range, |files|);
    assert files[..|files|] == files;
    assert seed == files[a..b][..|seed|] == files[a..a + |seed|];
    assert IsSlice(files, seed, a, a + |seed|);
  }

  /** The files two levels down that overlap the inputs are not too large together. */
  ghost predicate FewGrandparents(v: Version, level: nat, inputs: seq<File>, maxOverlap: nat) {
    level + 2 < |v.files| ==>
      exists hull :: IsHull(inputs, hull) && TotalFileSize(Overlapping(v.files[level + 2], hull)) <= maxOverlap
  }

  /** IsTrivialMove: one file, nothing to merge it with, and not too much data two levels further down. */
  method IsTrivialMove(v: Version, level: nat, in0: seq<File>, in1: seq<File>, maxOverlap: nat) returns (r: bool)
    requires v.Valid() && GoodInputs(v, level, in0, in1)
    ensures r <==> |in0| == 1 && in1 == [] && FewGrandparents(v, level, in0 + in1, maxOverlap)
  {
    var grandparents: seq<File> := [];
    if level + 2 < NUM_LEVELS {
      var lo, hi := GetRange2(in0, in1);
      HullIs(in0 + in1, lo, hi);
      forall hull | IsHull(in0 + in1, hull) ensures hull == UserRange(lo, hi) {
        SameHull(in0 + in1, hull, UserRange(lo, hi));
      }
      ghost var range;
      grandparents, range := GetOverlappingInputs(false, v.files[level + 2], UserRange(lo, hi));
    }
    r := |in0| == 1 && |in1| == 0 && TotalFileSize(grandparents) <= maxOverlap;
  }
}
