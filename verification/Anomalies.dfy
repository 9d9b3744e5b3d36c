/** Two properties that the code does not have, each with a concrete database that shows it. Exactly when they
    hold is the subject of CompactionReadsIff and RewriteKeepsInvariant (module Installs). */
module Anomalies {
  import opened DbFormat
  import opened Versions
  import opened Builder
  import opened Inputs
  import opened Compactions
  import opened Installs
  import opened Exposures
  import opened Picking

  function Put(user: UserKey, s: SequenceNumber, value: Bytes): Entry {
    Entry(InternalKey(user, s, Value), value)
  }

  function Remove(user: UserKey, s: SequenceNumber): Entry {
    Entry(InternalKey(user, s, Deletion), [])
  }

  function Table1(number: nat, e: Entry): File {
    File(number, 1, e.key, e.key, [e])
  }

  function Table2(number: nat, d: Entry, e: Entry): File {
    File(number, 1, d.key, e.key, [d, e])
  }

  lemma Table1Valid(number: nat, e: Entry)
    ensures Table1(number, e).Valid()
  {
  }

  lemma Table2Valid(number: nat, d: Entry, e: Entry)
    requires Less(d.key, e.key)
    ensures Table2(number, d, e).Valid()
  {
  }

  /** A version with files in levels 1 and 2 only. */
  function TwoLevels(one: seq<File>, two: seq<File>): Version {
    Version([[], one, two, [], [], [], []])
  }

  lemma TwoLevelsShape(one: seq<File>, two: seq<File>)
    requires AllValid(one) && AllValid(two) && Ordered(one) && Ordered(two) && Disjoint(one) && Disjoint(two)
    requires OneFilePerNumber(one + two) && forall f, g :: f in one && g in two ==> f.number != g.number
    ensures TwoLevels(one, two).Shape()
  {
    var v := TwoLevels(one, two);
    ValidRanges(one);
    ValidRanges(two);
    forall l | 0 <= l < NUM_LEVELS ensures v.LevelOk(l) {
      assert l == 1 || l == 2 || v.files[l] == [];
    }
    forall l, m, f, g | v.Has(l, f) && v.Has(m, g) && SameNumber(f, g) ensures l == m && f == g {
      assert f in one + two && g in one + two;
    }
  }

  lemma OneInOrder(f: File)
    requires f.Valid()
    ensures AllValid([f]) && Ordered([f]) && Disjoint([f])
  {
  }

  lemma TwoInOrder(f: File, g: File)
    requires f.Valid() && g.Valid() && Less(f.largest, g.smallest) && BySmallest(f, g)
    ensures AllValid([f, g]) && Ordered([f, g]) && Disjoint([f, g])
  {
  }

  lemma TwoLevelsEntries(one: seq<File>, two: seq<File>)
    ensures TwoLevels(one, two).Entries() == EntriesOf(one) + EntriesOf(two)
  {
    var v := TwoLevels(one, two);
    forall e ensures e in v.Entries() <==> e in EntriesOf(one) + EntriesOf(two) {
      if e in v.Entries() {
        var l, f := Locate(v, e);
        assert l == 1 || l == 2;
      }
      if e in EntriesOf(one) {
        var f :| f in one && e in f.entries;
        assert v.Has(1, f);
      }
      if e in EntriesOf(two) {
        var f :| f in two && e in f.entries;
        assert v.Has(2, f);
      }
    }
  }

  lemma OneFile(f: File)
    ensures EntriesOf([f]) == ToSet(f.entries)
  {
    assert f in [f];
  }

  lemma TwoFiles(f: File, g: File)
    ensures EntriesOf([f, g]) == ToSet(f.entries) + ToSet(g.entries)
  {
    assert f in [f, g] && g in [f, g];
  }

  // ---- A deleted value comes back ----

  const PUT_A := Put(1.0, 9, [1])
  const PUT_B := Put(1.0, 4, [2])
  const DELETE_B := Remove(2.0, 8)
  const PUT_C := Put(2.0, 3, [7])

  /** Level 2 holds a deletion of key 2.0 at the end of one file and the deleted value at the start of the next. */
  function SplitVersion(): Version {
    TwoLevels([Table1(5, PUT_A)], [Table2(3, PUT_B, DELETE_B), Table1(4, PUT_C)])
  }

  lemma SplitVersionEntries()
    ensures SplitVersion().Entries() == {PUT_A, PUT_B, DELETE_B, PUT_C}
  {
    var a, b, c := Table1(5, PUT_A), Table2(3, PUT_B, DELETE_B), Table1(4, PUT_C);
    TwoLevelsEntries([a], [b, c]);
    OneFile(a);
    TwoFiles(b, c);
  }

  lemma SplitVersionShape()
    ensures SplitVersion().Shape()
  {
    Table1Valid(5, PUT_A);
    Table2Valid(3, PUT_B, DELETE_B);
    Table1Valid(4, PUT_C);
    OneInOrder(Table1(5, PUT_A));
    TwoInOrder(Table2(3, PUT_B, DELETE_B), Table1(4, PUT_C));
    TwoLevelsShape([Table1(5, PUT_A)], [Table2(3, PUT_B, DELETE_B), Table1(4, PUT_C)]);
  }

  lemma SplitVersionRecency()
    ensures SplitVersion().Recency()
  {
    TwoLevelsRecency([Table1(5, PUT_A)], [Table2(3, PUT_B, DELETE_B), Table1(4, PUT_C)]);
  }

  lemma SplitVersionValid()
    ensures SplitVersion().Valid()
  {
    SplitVersionShape();
    SplitVersionRecency();
    SplitVersionEntries();
  }

  /** Level 1 over level 2. */
  lemma TwoLevelsRecency(one: seq<File>, two: seq<File>)
    requires forall f, g :: f in one && g in two ==> FileShadows(f, g)
    ensures TwoLevels(one, two).Recency()
  {
    var v := TwoLevels(one, two);
    forall l, m, f, g | v.Has(l, f) && v.Has(m, g) && l < m ensures FileShadows(f, g) {
      assert l == 1 && m == 2;
    }
  }

  /** The inputs that SetupOtherInputs picks when the only file of level 1 is compacted. */
  lemma SplitInputs()
    ensures GoodInputs(SplitVersion(), 1, [Table1(5, PUT_A)], [Table2(3, PUT_B, DELETE_B)])
    ensures Straddles(SplitVersion(), 1, [Table2(3, PUT_B, DELETE_B)], 2.0)
  {
    var a, b, c := Table1(5, PUT_A), Table2(3, PUT_B, DELETE_B), Table1(4, PUT_C);
    var v := SplitVersion();
    forall g ensures g in [b] <==> g in v.files[2] && TouchesHull([a], g) {
      assert a in [a];
    }
    assert v.Has(2, c) && Splits(b, c, 2.0);
  }

  lemma SplitExposes()
    ensures var v, in0, in1 := SplitVersion(), [Table1(5, PUT_A)], [Table2(3, PUT_B, DELETE_B)];
      var es := MergeFiles(in0 + in1);
      && Sorted(es) && (forall e :: e in es ==> e in {PUT_A, PUT_B, DELETE_B})
      && Exposes(v, 1, es, 9, {PUT_C}, 2.0)
  {
    var v, in0, in1 := SplitVersion(), [Table1(5, PUT_A)], [Table2(3, PUT_B, DELETE_B)];
    var es := MergeFiles(in0 + in1);
    SplitVersionValid();
    SplitInputs();
    InputsAreMerged(v, 1, in0, in1);
    assert FromInputs(in0, in1, DELETE_B) by { assert in1[0] in in1; }
    SplitMerged(in0, in1, es);
    SplitNewest(ToSet(es) + {PUT_C});
    assert IsNewest({PUT_C}, 2.0, 9, PUT_C);
    SplitBase();
  }

  lemma SplitMerged(in0: seq<File>, in1: seq<File>, es: seq<Entry>)
    requires in0 == [Table1(5, PUT_A)] && in1 == [Table2(3, PUT_B, DELETE_B)]
    requires forall e :: e in es <==> FromInputs(in0, in1, e)
    ensures forall e :: e in es ==> e in {PUT_A, PUT_B, DELETE_B}
  {
  }

  lemma SplitNewest(all: set<Entry>)
    requires DELETE_B in all && forall e :: e in all ==> e in {PUT_A, PUT_B, DELETE_B, PUT_C}
    ensures IsNewest(all, 2.0, 9, DELETE_B)
  {
  }

  lemma SplitBase()
    ensures IsBaseLevel(SplitVersion(), 1, 2.0)
  {
  }

  lemma SplitReadBefore()
    ensures Read(SplitVersion().Entries(), 2.0, 9) == None
  {
    SplitVersionEntries();
    var all := SplitVersion().Entries();
    assert IsNewest(all, 2.0, 9, DELETE_B);
    NewestIs(all, 2.0, 9, DELETE_B);
  }

  lemma SplitReadAfter()
    ensures var es := MergeFiles([Table1(5, PUT_A)] + [Table2(3, PUT_B, DELETE_B)]);
      Read(ToSet(Kept(SplitVersion(), 1, es, 9, |es|)) + {PUT_C}, 2.0, 9) == Some([7])
  {
    var v, es := SplitVersion(), MergeFiles([Table1(5, PUT_A)] + [Table2(3, PUT_B, DELETE_B)]);
    SplitExposes();
    ExposedReadChanges(v, 1, es, 9, {PUT_C}, 2.0);
    OnlyLeft(v, 1, es, {PUT_C});
  }

  /** Before that compaction key 2.0 is deleted; after it, every reader sees the old value again. */
  lemma DeletedValueReturns()
    ensures var v := SplitVersion();
      var in0, in1 := [Table1(5, PUT_A)], [Table2(3, PUT_B, DELETE_B)];
      var es := MergeFiles(in0 + in1);
      && v.Valid() && GoodInputs(v, 1, in0, in1)
      && Read(v.Entries(), 2.0, 9) == None
      && Read(ToSet(Kept(v, 1, es, 9, |es|)) + Outside(v, in0, in1), 2.0, 9) == Some([7])
  {
    SplitVersionValid();
    SplitInputs();
    SplitOutside();
    SplitReadBefore();
    SplitReadAfter();
  }

  lemma SplitOutside()
    ensures Outside(SplitVersion(), [Table1(5, PUT_A)], [Table2(3, PUT_B, DELETE_B)]) == {PUT_C}
  {
    var a, b := Table1(5, PUT_A), Table2(3, PUT_B, DELETE_B);
    SplitVersionEntries();
    assert a in [a] && b in [b];
    assert FromInputs([a], [b], PUT_A) && FromInputs([a], [b], PUT_B) && FromInputs([a], [b], DELETE_B);
    assert !FromInputs([a], [b], PUT_C);
  }

  /** What is found afterwards is the only entry of the key that is left. */
  lemma OnlyLeft(v: Version, level: nat, es: seq<Entry>, rest: set<Entry>)
    requires rest == {PUT_C} && (forall e :: e in es ==> e in {PUT_A, PUT_B, DELETE_B})
    requires Read(ToSet(Kept(v, level, es, 9, |es|)) + rest, 2.0, 9).Some?
    ensures Read(ToSet(Kept(v, level, es, 9, |es|)) + rest, 2.0, 9) == Some([7])
  {
    var after := ToSet(Kept(v, level, es, 9, |es|)) + rest;
    KeptMembers(v, level, es, 9, |es|);
    NewestExists(after, 2.0, 9);
    var n := Newest(after, 2.0, 9).value;
    if n in Kept(v, level, es, 9, |es|) {
      var i :| 0 <= i < |es| && es[i] == n;
      assert es[i] in es;
    }
    assert n in {PUT_A, PUT_B, DELETE_B, PUT_C};
  }

  // ---- A flush in the middle of a compaction ----

  const PUT_LOW := Put(1.0, 1, [1])
  const PUT_HIGH := Put(3.0, 2, [3])
  const PUT_FAR := Put(9.0, 3, [9])
  const PUT_MID := Put(2.0, 5, [2])

  const LOW := Table1(1, PUT_LOW)
  const HIGH := Table1(2, PUT_HIGH)
  const FAR := Table1(3, PUT_FAR)
  const MID := Table1(6, PUT_MID)
  const OUTPUT := Table2(5, PUT_LOW, PUT_HIGH)

  /** Two tables in level 1, and one in level 2 that overlaps neither. */
  function BeforeFlush(): Version {
    TwoLevels([LOW, HIGH], [FAR])
  }

  function AfterFlush(): Version {
    TwoLevels([LOW, HIGH], [MID, FAR])
  }

  function AfterInstall(): Version {
    TwoLevels([], [OUTPUT, MID, FAR])
  }

  /** The whole key space. */
  const EVERYTHING := Range(None, None)

  lemma TablesValid()
    ensures LOW.Valid() && HIGH.Valid() && FAR.Valid() && MID.Valid() && OUTPUT.Valid()
  {
    Table1Valid(1, PUT_LOW);
    Table1Valid(2, PUT_HIGH);
    Table1Valid(3, PUT_FAR);
    Table1Valid(6, PUT_MID);
    Table2Valid(5, PUT_LOW, PUT_HIGH);
  }

  /** CompactRange over everything compacts levels 0 and 1 of this version: level 2 is the deepest with files. */
  lemma GapMaxLevel(max: nat)
    requires IsMaxLevel(BeforeFlush(), EVERYTHING, max)
    ensures max == 2
  {
    GapOverlaps(2);
    GapOverlaps(max);
  }

  lemma GapOverlaps(l: nat)
    requires l < NUM_LEVELS
    ensures l == 2 ==> Overlapping(BeforeFlush().files[l], EVERYTHING) != []
    ensures l > 2 ==> Overlapping(BeforeFlush().files[l], EVERYTHING) == []
  {
    if l == 2 {
      assert BeforeFlush().files[l] == [FAR] && [FAR][..0] == [];
    } else if l > 2 {
      assert BeforeFlush().files[l] == [];
    }
  }

  /** The level that PickLevelForMemTableOutput returns for the table: level 2, for every size limit. */
  lemma GapLevel(maxOverlap: nat)
    ensures var v := BeforeFlush();
      && NoOverlap(v.files[0], 2.0, 2.0)
      && CanDescend(v, 2.0, 2.0, maxOverlap, 0) && CanDescend(v, 2.0, 2.0, maxOverlap, 1)
      && MAX_MEM_COMPACT_LEVEL == 2
  {
    assert Overlapping([FAR], Range(Some(2.0), Some(2.0))) == [] by { assert [FAR][..0] == []; }
  }

  /** What CompactRange over everything may take from a level, for a size limit that one file of size 1 does not reach. */
  ghost predicate ManualInputs(files: seq<File>, next: seq<File>, seed: seq<File>, in0: seq<File>) {
    exists limit: nat, expandedLimit: nat {:trigger ManualInputsFor(files, next, limit, expandedLimit, seed, in0)} ::
      ManualInputsFor(files, next, limit, expandedLimit, seed, in0)
  }

  ghost predicate ManualInputsFor(files: seq<File>, next: seq<File>, limit: nat, expandedLimit: nat, seed: seq<File>, in0: seq<File>) {
    limit >= 2 && IsCut(Overlapping(files, EVERYTHING), limit, seed) && Chosen(files, next, false, seed, expandedLimit, in0)
  }

  /** The inputs that CompactRange over everything picks at level 1, when the two files reach the size limit together:
      both of them, and nothing from level 2. */
  lemma GapSeed(seed: seq<File>, in0: seq<File>)
    requires ManualInputs([LOW, HIGH], [FAR], seed, in0)
    ensures in0 == seed == [LOW, HIGH]
  {
    var files := [LOW, HIGH];
    var limit: nat, expandedLimit: nat :| ManualInputsFor(files, [FAR], limit, expandedLimit, seed, in0);
    GapOverlapping();
    GapCut(limit, seed);
    var closed, hull :| Closure(files, seed, closed) && IsHull(closed, hull)
      && Widened(files, [FAR], false, closed, Overlapping([FAR], hull), expandedLimit, in0);
    GapClosure(closed);
    FarIsOutside(hull);
  }

  lemma FarIsOutside(hull: Range)
    requires IsHull([LOW, HIGH], hull)
    ensures Overlapping([FAR], hull) == []
  {
    assert HIGH in [LOW, HIGH];
    HullIs([LOW, HIGH], LOW.smallest, HIGH.largest);
    SameHull([LOW, HIGH], hull, UserRange(LOW.smallest, HIGH.largest));
    assert [FAR][..0] == [];
  }

  lemma GapOverlapping()
    ensures Overlapping([LOW, HIGH], EVERYTHING) == [LOW, HIGH]
  {
    assert [LOW, HIGH][..1] == [LOW] && [LOW][..0] == [];
    assert Overlapping([LOW], EVERYTHING) == [LOW];
  }

  lemma GapCut(limit: nat, seed: seq<File>)
    requires limit >= 2 && IsCut([LOW, HIGH], limit, seed)
    ensures seed == [LOW, HIGH]
  {
    assert TotalFileSize([LOW]) == 1 && TotalFileSize([]) == 0;
    assert |seed| == 0 ==> seed == [];
    assert |seed| == 1 ==> seed == [LOW];
  }

  /** Neither file continues a user key of the other. */
  lemma GapClosure(closed: seq<File>)
    requires Closure([LOW, HIGH], [LOW, HIGH], closed)
    ensures closed == [LOW, HIGH]
  {
    var files := [LOW, HIGH];
    var start, added :| IsLargest(files, start) && closed == files + added
      && BoundaryChain(files, start, added) && NoBoundary(files, ChainKey(start, added, |added|));
    assert LOW in files && HIGH in files;
    assert start == PUT_HIGH.key;
    assert forall f :: f in files ==> !IsBoundary(f, start);
    assert |added| > 0 ==> FirstBoundary(files, ChainKey(start, added, 0), added[0]);
  }

  /** The merge of the two files keeps both entries: its one output is the file above. */
  lemma GapOutput()
    ensures var es := MergeFiles([LOW, HIGH] + []);
      es == [PUT_LOW, PUT_HIGH] && Kept(BeforeFlush(), 1, es, 3, |es|) == OUTPUT.entries
  {
    var base, es := BeforeFlush(), MergeFiles([LOW, HIGH] + []);
    assert [LOW, HIGH] + [] == [LOW, HIGH] && [LOW, HIGH][1..] == [HIGH] && [HIGH][1..] == [];
    assert MergeFiles([HIGH]) == [PUT_HIGH];
    assert [PUT_LOW][1..] == [];
    assert es == [PUT_LOW, PUT_HIGH];
    assert Kept(base, 1, es, 3, 0) == [] && Kept(base, 1, es, 3, 1) == [PUT_LOW];
  }

  /** CompactRange over everything reaches level 1 and picks both its files. While they are being merged, a memtable
      with a key between them is flushed: nothing in levels 0 to 2 overlaps it, so PickLevelForMemTableOutput sends its
      table to level 2, whatever the size limits. Then the output of the compaction, one file that spans the table, is
      put next to it. */
  lemma FlushIntoGap()
    ensures var base, current, after := BeforeFlush(), AfterFlush(), AfterInstall();
      && base.Valid() && GoodInputs(base, 1, [LOW, HIGH], [])
      && FlushPlace(base, 2, [MID]) && Adds(base, current, 2, [MID]) && current.Valid()
      && Rewrites(current, after, 1, [LOW, HIGH], [], [OUTPUT])
      && !OutputsFit(current, 1, [], [OUTPUT]) && !after.Valid()
    ensures forall max: nat :: IsMaxLevel(BeforeFlush(), EVERYTHING, max) ==> 1 < max
    ensures forall seed, in0 {:trigger ManualInputs([LOW, HIGH], [FAR], seed, in0)} ::
      ManualInputs([LOW, HIGH], [FAR], seed, in0) ==> in0 == [LOW, HIGH]
    ensures var es := MergeFiles([LOW, HIGH] + []); Kept(BeforeFlush(), 1, es, 3, |es|) == OUTPUT.entries
    ensures NoOverlap(BeforeFlush().files[0], 2.0, 2.0) && forall limit: nat ::
      CanDescend(BeforeFlush(), 2.0, 2.0, limit, 0) && CanDescend(BeforeFlush(), 2.0, 2.0, limit, 1) && MAX_MEM_COMPACT_LEVEL == 2
  {
    forall max: nat | IsMaxLevel(BeforeFlush(), EVERYTHING, max) ensures 1 < max {
      GapMaxLevel(max);
    }
    forall limit: nat
      ensures CanDescend(BeforeFlush(), 2.0, 2.0, limit, 0) && CanDescend(BeforeFlush(), 2.0, 2.0, limit, 1)
    {
      GapLevel(limit);
    }
    forall seed, in0 | ManualInputs([LOW, HIGH], [FAR], seed, in0) ensures in0 == [LOW, HIGH] {
      GapSeed(seed, in0);
    }
    GapOutput();
    GapAfter();
  }

  lemma GapAfter()
    ensures var base, current, after := BeforeFlush(), AfterFlush(), AfterInstall();
      && base.Valid() && GoodInputs(base, 1, [LOW, HIGH], [])
      && FlushPlace(base, 2, [MID]) && Adds(base, current, 2, [MID]) && current.Valid()
      && Rewrites(current, after, 1, [LOW, HIGH], [], [OUTPUT])
      && !OutputsFit(current, 1, [], [OUTPUT]) && !after.Valid()
  {
    GapBase();
    GapInputs();
    GapPlace();
    GapAdds();
    GapFlush();
    GapRewrites();
    assert OUTPUT in [OUTPUT] && AfterFlush().Has(2, MID) && !Apart(OUTPUT, MID);
    OverlapBreaks(AfterInstall(), 2);
  }

  lemma GapRewrites()
    ensures Rewrites(AfterFlush(), AfterInstall(), 1, [LOW, HIGH], [], [OUTPUT])
  {
    var current, after := AfterFlush(), AfterInstall();
    forall l, f ensures after.Has(l, f) <==> IsOutput(1, [OUTPUT], l, f) || Remains(current, 1, [LOW, HIGH], [], l, f) {
      assert after.Has(l, f) ==> l == 2;
    }
    forall l | 0 <= l < NUM_LEVELS ensures Ordered(after.files[l]) {
      assert l == 2 || after.files[l] == [];
    }
  }

  lemma OverlapBreaks(v: Version, level: nat)
    requires 0 < level < |v.files| == NUM_LEVELS && |v.files[level]| >= 2
    requires !Less(v.files[level][0].largest, v.files[level][1].smallest)
    ensures !v.Valid()
  {
    assert v.Valid() ==> v.LevelOk(level);
  }

  lemma GapBaseEntries()
    ensures BeforeFlush().Entries() == {PUT_LOW, PUT_HIGH, PUT_FAR}
  {
    TwoLevelsEntries([LOW, HIGH], [FAR]);
    TwoFiles(LOW, HIGH);
    OneFile(FAR);
  }

  lemma GapInputs()
    ensures GoodInputs(BeforeFlush(), 1, [LOW, HIGH], [])
  {
    assert HIGH in [LOW, HIGH] && LOW in [LOW, HIGH];
  }

  lemma GapShape()
    ensures BeforeFlush().Shape()
  {
    TablesValid();
    TwoInOrder(LOW, HIGH);
    OneInOrder(FAR);
    TwoLevelsShape([LOW, HIGH], [FAR]);
  }

  lemma GapRecency()
    ensures BeforeFlush().Recency()
  {
    TwoLevelsRecency([LOW, HIGH], [FAR]);
  }

  lemma GapDistinct()
    ensures Distinct(BeforeFlush().Entries())
  {
    GapBaseEntries();
  }

  lemma GapBase()
    ensures BeforeFlush().Valid()
  {
    GapShape();
    GapRecency();
    GapDistinct();
  }

  lemma GapPlace()
    ensures FlushPlace(BeforeFlush(), 2, [MID])
  {
    var base := BeforeFlush();
    GapBaseEntries();
    OneFile(MID);
    forall f, l | f in [MID] && 0 <= l <= 2 ensures NoOverlap(base.files[l], f.smallest.user, f.largest.user) {
      assert l == 1 || l == 2 || base.files[l] == [];
    }
  }

  lemma GapAdds()
    ensures Adds(BeforeFlush(), AfterFlush(), 2, [MID])
  {
    var base, current := BeforeFlush(), AfterFlush();
    forall l, f ensures current.Has(l, f) <==> (l == 2 && f in [MID]) || base.Has(l, f) {
      assert l == 1 || l == 2 || !current.Has(l, f);
    }
    forall l | 0 <= l < NUM_LEVELS ensures Ordered(current.files[l]) {
      assert l == 1 || l == 2 || current.files[l] == [];
    }
  }

  lemma GapFlush()
    ensures AfterFlush().Valid()
  {
    GapBase();
    GapPlace();
    GapAdds();
    MidIsNew(MID);
    FlushKeepsInvariant(BeforeFlush(), AfterFlush(), 2, [MID], 6);
  }

  lemma MidIsNew(f: File)
    requires f == MID
    ensures AllValid([f]) && NumbersFrom([f], 6) && NumbersBelow(BeforeFlush(), 6)
  {
    TablesValid();
  }

  /** The reader's loss: the write is stored, but the binary search of level 2 stops at the output, which does not
      have the key, although the table behind it does; no deeper level has it either. */
  lemma CommittedWriteIsHidden()
    ensures var after := AfterInstall();
      && Read(after.Entries(), 2.0, 5) == Some([2])
      && after.files[0] == [] && SearchLevels(after, 1, 2.0, 5) == None
  {
    HiddenIsStored();
    HiddenIsNotFound();
  }

  lemma HiddenIsStored()
    ensures Read(AfterInstall().Entries(), 2.0, 5) == Some([2])
  {
    HiddenEntries();
    var all := {PUT_LOW, PUT_HIGH, PUT_MID, PUT_FAR};
    assert IsNewest(all, 2.0, 5, PUT_MID);
    NewestIs(all, 2.0, 5, PUT_MID);
  }

  lemma HiddenEntries()
    ensures AfterInstall().Entries() == {PUT_LOW, PUT_HIGH, PUT_MID, PUT_FAR}
  {
    TwoLevelsEntries([], [OUTPUT, MID, FAR]);
    TwoFiles(OUTPUT, MID);
    OneFile(FAR);
    assert [OUTPUT, MID, FAR] == [OUTPUT, MID] + [FAR];
    assert EntriesOf([OUTPUT, MID, FAR]) == EntriesOf([OUTPUT, MID]) + EntriesOf([FAR]);
    assert EntriesOf([]) == {};
  }

  lemma HiddenIsNotFound()
    ensures SearchLevels(AfterInstall(), 1, 2.0, 5) == None
  {
    var after, files := AfterInstall(), [OUTPUT, MID, FAR];
    SeekMisses([PUT_LOW, PUT_HIGH], 2.0, 5);
    assert BinarySearch(files, SeekKey(2.0, 5), 0, 0) == 0;
    assert BinarySearch(files, SeekKey(2.0, 5), 0, 1) == 0;
    assert BinarySearch(files, SeekKey(2.0, 5), 0, 3) == 0;
    assert FileToRead(files, 2.0, 5) == [OUTPUT];
    DeepIsEmpty(after, 2.0, 5);
    assert SearchLevels(after, 2, 2.0, 5) == SearchLevels(after, 3, 2.0, 5);
    assert SearchLevels(after, 1, 2.0, 5) == SearchLevels(after, 2, 2.0, 5);
  }

  lemma DeepIsEmpty(v: Version, k: UserKey, s: SequenceNumber)
    requires |v.files| == 7 && forall l :: 3 <= l < 7 ==> v.files[l] == []
    ensures SearchLevels(v, 3, k, s) == None
  {
    assert SearchLevels(v, 6, k, s) == SearchLevels(v, 7, k, s) == None;
    assert SearchLevels(v, 5, k, s) == SearchLevels(v, 6, k, s);
    assert SearchLevels(v, 4, k, s) == SearchLevels(v, 5, k, s);
  }

  lemma SeekMisses(es: seq<Entry>, k: UserKey, s: SequenceNumber)
    requires forall i :: 0 <= i < |es| ==> es[i].key.user != k
    ensures Seek(es, k, s) == None
  {
  }
}
