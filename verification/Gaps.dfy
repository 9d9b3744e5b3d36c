/** Inputs of compactions without gaps between their user keys: what automatic compactions choose never has one, and a
    table that a flush puts beside such inputs is never in their way
    (db/version_set.cc: PickCompaction, SetupOtherInputs; db/db_impl.cc: DoCompactionWork). */
module Gaps {
  import opened DbFormat
  import opened Versions
  import opened Inputs
  import opened Picking

  /** One of the files has the user key in its range. */
  ghost predicate Covered(files: seq<File>, u: UserKey) {
    exists f :: f in files && f.smallest.user <= u <= f.largest.user
  }

  /** The user key lies between the beginning of f and the end of g. */
  predicate Between(f: File, u: UserKey, g: File) {
    f.smallest.user <= u <= g.largest.user
  }

  ghost predicate NoGap(files: seq<File>) {
    forall f, g, u {:trigger Between(f, u, g)} :: f in files && g in files && Between(f, u, g) ==> Covered(files, u)
  }

  /** A user key in the range of the file is covered. */
  ghost predicate Meets(files: seq<File>, x: File) {
    exists u :: x.smallest.user <= u <= x.largest.user && Covered(files, u)
  }

  ghost predicate SameFiles(a: seq<File>, b: seq<File>) {
    forall f :: f in a <==> f in b
  }

  lemma SameFilesNoGap(a: seq<File>, b: seq<File>)
    requires NoGap(a) && SameFiles(a, b)
    ensures NoGap(b)
  {
    forall f, g, u | f in b && g in b && Between(f, u, g) ensures Covered(b, u) {
      assert Covered(a, u);
    }
  }

  lemma OneFileNoGap(f: File)
    ensures NoGap([f])
  {
    forall a, b, u | a in [f] && b in [f] && Between(a, u, b) ensures Covered([f], u) {
      assert f in [f];
    }
  }

  lemma CoveredByMore(a: seq<File>, b: seq<File>, u: UserKey)
    requires Covered(a, u) || Covered(b, u)
    ensures Covered(a + b, u)
  {
    if Covered(a, u) {
      var f :| f in a && f.smallest.user <= u <= f.largest.user;
      assert f in a + b;
    } else {
      var f :| f in b && f.smallest.user <= u <= f.largest.user;
      assert f in a + b;
    }
  }

  lemma MeetsItself(files: seq<File>, x: File)
    requires Ranges(files) && x in files
    ensures Meets(files, x)
  {
    assert x.smallest.user <= x.smallest.user <= x.largest.user;
    assert Covered(files, x.smallest.user);
  }

  /** Files that meet a gapless list leave no gap when they are added. */
  lemma Attach(files: seq<File>, more: seq<File>)
    requires NoGap(files) && Ranges(files) && forall x :: x in more ==> Meets(files, x)
    ensures NoGap(files + more)
  {
    var all := files + more;
    forall f, g, u | f in all && g in all && Between(f, u, g) ensures Covered(all, u) {
      if f in files {
        MeetsItself(files, f);
      }
      if g in files {
        MeetsItself(files, g);
      }
      BetweenTwo(files, all, f, g, u);
    }
  }

  lemma BetweenTwo(files: seq<File>, all: seq<File>, f: File, g: File, u: UserKey)
    requires NoGap(files) && (forall x :: x in files ==> x in all) && f in all && g in all
    requires Meets(files, f) && Meets(files, g) && Between(f, u, g)
    ensures Covered(all, u)
  {
    if !(f.smallest.user <= u <= f.largest.user) && !(g.smallest.user <= u <= g.largest.user) {
      var a :| f.smallest.user <= a <= f.largest.user && Covered(files, a);
      var b :| g.smallest.user <= b <= g.largest.user && Covered(files, b);
      var x :| x in files && x.smallest.user <= a <= x.largest.user;
      var y :| y in files && y.smallest.user <= b <= y.largest.user;
      assert Between(x, u, y);
      var z :| z in files && z.smallest.user <= u <= z.largest.user;
    }
  }

  /** What touches the hull of a gapless list meets one of its files. */
  lemma HullMeets(files: seq<File>, x: File)
    requires NoGap(files) && Ranges(files) && TouchesHull(files, x) && AtMost(x.smallest, x.largest)
    ensures Meets(files, x)
  {
    var f :| f in files && f.smallest.user <= x.largest.user;
    var g :| g in files && x.smallest.user <= g.largest.user;
    if f.smallest.user <= x.smallest.user {
      assert Between(f, x.smallest.user, g);
    } else {
      assert Covered(files, f.smallest.user);
    }
  }

  lemma TouchesOwnHull(files: seq<File>, r: Range, x: File)
    requires IsHull(files, r) && Touches(x, r)
    ensures TouchesHull(files, x)
  {
  }

  /** Files of a level that touch the hull of a gapless list leave no gap when they are added. */
  lemma AttachTouching(files: seq<File>, level: seq<File>, r: Range)
    requires NoGap(files) && Ranges(files) && Ranges(level) && IsHull(files, r)
    ensures NoGap(files + Overlapping(level, r))
  {
    OverlappingMembers(level, r);
    forall x | x in Overlapping(level, r) ensures Meets(files, x) {
      TouchesOwnHull(files, r, x);
      HullMeets(files, x);
    }
    Attach(files, Overlapping(level, r));
  }

  // ---- Level 0: the least closed range ----

  /** The least closed range around the hull of a gapless list brings no gap: cutting it off at a gap would give a
      smaller closed range. */
  lemma LeastClosedNoGap(files: seq<File>, level: seq<File>, hull: Range, r: Range)
    requires NoGap(files) && Ranges(files) && Ranges(level) && IsHull(files, hull) && LeastClosed(level, hull, r)
    ensures NoGap(files + Overlapping(level, r))
  {
    var all := files + Overlapping(level, r);
    OverlappingMembers(level, r);
    forall f, g, u | f in all && g in all && Between(f, u, g) ensures Covered(all, u) {
      if !Covered(all, u) {
        if hull.end.value < u {
          NoGapAfter(files, level, hull, r, g, u);
        } else if u < hull.begin.value {
          NoGapBefore(files, level, hull, r, f, u);
        } else {
          HullCovers(files, hull, u);
          CoveredByMore(files, Overlapping(level, r), u);
        }
      }
    }
  }

  lemma HullCovers(files: seq<File>, hull: Range, u: UserKey)
    requires NoGap(files) && IsHull(files, hull) && hull.begin.value <= u <= hull.end.value
    ensures Covered(files, u)
  {
    var lo, hi :| IsRange(files, lo, hi) && hull == UserRange(lo, hi);
    var f :| f in files && f.smallest == lo;
    var g :| g in files && g.largest == hi;
    assert Between(f, u, g);
  }

  lemma InHull(files: seq<File>, hull: Range, f: File)
    requires IsHull(files, hull) && f in files
    ensures hull.begin.Some? && hull.end.Some? && hull.begin.value <= f.smallest.user && f.largest.user <= hull.end.value
  {
    var lo, hi :| IsRange(files, lo, hi) && hull == UserRange(lo, hi);
    assert AtMost(lo, f.smallest) && AtMost(f.largest, hi);
  }

  /** Cutting a closed range off at an uncovered user key leaves it closed. */
  lemma CutIsClosed(level: seq<File>, r: Range, all: seq<File>, u: UserKey)
    requires ClosedUnder(level, r) && !Covered(all, u) && forall x :: x in level && Touches(x, r) ==> x in all
    ensures (r.end.Some? ==> u <= r.end.value) ==> ClosedUnder(level, r.(end := Some(u)))
    ensures (r.begin.Some? ==> r.begin.value <= u) ==> ClosedUnder(level, r.(begin := Some(u)))
  {
    forall x | x in level && Touches(x, r) ensures !(x.smallest.user <= u <= x.largest.user) {
    }
  }

  lemma NoGapAfter(files: seq<File>, level: seq<File>, hull: Range, r: Range, g: File, u: UserKey)
    requires Ranges(files) && Ranges(level) && IsHull(files, hull) && LeastClosed(level, hull, r)
    requires hull.end.Some? && hull.end.value < u && g in files + Overlapping(level, r) && u <= g.largest.user
    ensures Covered(files + Overlapping(level, r), u)
  {
    var all := files + Overlapping(level, r);
    OverlappingMembers(level, r);
    if g in files {
      InHull(files, hull, g);
    }
    if !Covered(all, u) {
      CutIsClosed(level, r, all, u);
    }
    assert g.smallest.user <= u ==> Covered(all, u);
  }

  lemma NoGapBefore(files: seq<File>, level: seq<File>, hull: Range, r: Range, f: File, u: UserKey)
    requires Ranges(files) && Ranges(level) && IsHull(files, hull) && LeastClosed(level, hull, r)
    requires hull.begin.Some? && u < hull.begin.value && f in files + Overlapping(level, r) && f.smallest.user <= u
    ensures Covered(files + Overlapping(level, r), u)
  {
    var all := files + Overlapping(level, r);
    OverlappingMembers(level, r);
    if f in files {
      InHull(files, hull, f);
    }
    if !Covered(all, u) {
      CutIsClosed(level, r, all, u);
    }
    assert u <= f.largest.user ==> Covered(all, u);
  }

  // ---- What automatic compactions choose ----

  /** The first files of an automatic compaction. */
  lemma SeedNoGap(files: seq<File>, isLevel0: bool, f: File, seed: seq<File>)
    requires Ranges(files) && f in files && IsSeedOf(files, isLevel0, f, seed)
    ensures NoGap(seed)
  {
    OneFileNoGap(f);
    if isLevel0 {
      var r :| LeastClosed(files, UserRange(f.smallest, f.largest), r) && seed == Overlapping(files, r);
      assert f in [f] && IsRange([f], f.smallest, f.largest);
      HullIs([f], f.smallest, f.largest);
      LeastClosedNoGap([f], files, UserRange(f.smallest, f.largest), r);
      SameFilesNoGap([f] + seed, seed);
    }
  }

  /** Boundary files continue the user key of a file before them. */
  lemma {:induction false} ChainNoGap(files: seq<File>, base: seq<File>, start: InternalKey, added: seq<File>, n: nat)
    requires Ranges(files) && Ranges(base) && NoGap(base) && BoundaryChain(files, start, added) && n <= |added|
    requires exists f :: f in base && f.largest == start
    ensures NoGap(base + added[..n]) && Ranges(base + added[..n])
    ensures exists f :: f in base + added[..n] && f.largest == ChainKey(start, added, n)
  {
    if n == 0 {
      assert base + added[..0] == base;
    } else {
      ChainNoGap(files, base, start, added, n - 1);
      var before, g := base + added[..n - 1], added[n - 1];
      assert FirstBoundary(files, ChainKey(start, added, n - 1), g);
      var f :| f in before && f.largest == ChainKey(start, added, n - 1);
      assert Covered(before, g.smallest.user);
      Attach(before, [g]);
      assert base + added[..n] == before + [g];
      assert g in before + [g];
    }
  }

  /** Closing the files of a level under boundary files leaves no gap, with or without other files beside them. */
  lemma ClosureNoGap(files: seq<File>, seed: seq<File>, closed: seq<File>, beside: seq<File>)
    requires Ranges(files) && Ranges(beside + seed) && NoGap(beside + seed) && Closure(files, seed, closed)
    ensures NoGap(beside + closed) && Ranges(beside + closed) && forall f :: f in seed ==> f in closed
  {
    var start, added :| IsLargest(seed, start) && closed == seed + added && BoundaryChain(files, start, added)
      && NoBoundary(files, ChainKey(start, added, |added|));
    var f :| f in seed && f.largest == start;
    assert f in beside + seed;
    ChainNoGap(files, beside + seed, start, added, |added|);
    assert added[..|added|] == added && beside + seed + added == beside + closed;
  }

  /** So do the files that the inputs could grow to. */
  lemma ExpansionNoGap(files: seq<File>, isLevel0: bool, in0: seq<File>, in1: seq<File>, e: seq<File>)
    requires Ranges(files) && Ranges(in0 + in1) && NoGap(in0 + in1) && IsExpansion(files, isLevel0, in0, in1, e)
    requires forall f :: f in in0 ==> f in files
    ensures NoGap(in1 + e) && Ranges(in1 + e) && forall f :: f in in0 ==> f in e
  {
    var r :| IsExpansionRange(files, isLevel0, in0, in1, r) && Closure(files, Overlapping(files, r), e);
    var hull :| IsHull(in0 + in1, hull) && Requested(files, isLevel0, hull, r);
    var o := Overlapping(files, r);
    if isLevel0 {
      LeastClosedNoGap(in0 + in1, files, hull, r);
    } else {
      AttachTouching(in0 + in1, files, r);
    }
    OverlappingMembers(files, r);
    forall f | f in in0 ensures f in o {
      assert f in in0 + in1;
      InHull(in0 + in1, hull, f);
    }
    assert SameFiles(in0 + in1 + o, in1 + o);
    SameFilesNoGap(in0 + in1 + o, in1 + o);
    ClosureNoGap(files, o, e, in1);
  }

  /** The closed seed, with the files of the next level that touch it. */
  lemma ClosedNoGap(files: seq<File>, next: seq<File>, seed: seq<File>, closed: seq<File>, hull: Range)
    requires Ranges(files) && Ranges(next) && NoGap(seed) && (forall f :: f in seed ==> f in files)
    requires Closure(files, seed, closed) && IsHull(closed, hull)
    ensures NoGap(closed + Overlapping(next, hull)) && Ranges(closed + Overlapping(next, hull))
    ensures forall f :: f in closed ==> f in files
  {
    assert [] + seed == seed && [] + closed == closed;
    ClosureNoGap(files, seed, closed, []);
    ClosureInLevel(files, seed, closed);
    AttachTouching(closed, next, hull);
    OverlappingMembers(next, hull);
  }

  /** The second inputs are what touches the first ones. */
  ghost predicate TakesTouching(next: seq<File>, in0: seq<File>, in1: seq<File>) {
    forall g :: g in in1 <==> g in next && TouchesHull(in0, g)
  }

  lemma SameTouching(next: seq<File>, in0: seq<File>, met: seq<File>, in1: seq<File>)
    requires TakesTouching(next, in0, met) && TakesTouching(next, in0, in1) && NoGap(in0 + met)
    ensures NoGap(in0 + in1)
  {
    assert SameFiles(in0 + met, in0 + in1);
    SameFilesNoGap(in0 + met, in0 + in1);
  }

  /** All inputs together of a compaction that starts from a gapless seed. */
  lemma ChosenNoGap(files: seq<File>, next: seq<File>, isLevel0: bool, seed: seq<File>, limit: nat, in0: seq<File>, in1: seq<File>)
    requires Ranges(files) && Ranges(next) && NoGap(seed) && (forall f :: f in seed ==> f in files)
    requires Chosen(files, next, isLevel0, seed, limit, in0) && TakesTouching(next, in0, in1)
    ensures NoGap(in0 + in1)
  {
    var closed, hull :| Closure(files, seed, closed) && IsHull(closed, hull)
      && Widened(files, next, isLevel0, closed, Overlapping(next, hull), limit, in0);
    ClosedNoGap(files, next, seed, closed, hull);
    HullTouches(next, closed, Overlapping(next, hull));
    if in0 == closed {
      SameTouching(next, closed, Overlapping(next, hull), in1);
    } else {
      WidenedNoGap(files, next, isLevel0, closed, Overlapping(next, hull), limit, in0, in1);
    }
  }

  lemma WidenedNoGap(files: seq<File>, next: seq<File>, isLevel0: bool, closed: seq<File>, met: seq<File>, limit: nat,
                     in0: seq<File>, in1: seq<File>)
    requires Ranges(files) && Ranges(next) && Ranges(closed + met) && NoGap(closed + met) && forall f :: f in closed ==> f in files
    requires Widened(files, next, isLevel0, closed, met, limit, in0) && in0 != closed
    requires TakesTouching(next, closed, met) && TakesTouching(next, in0, in1)
    ensures NoGap(in0 + in1)
  {
    ExpansionNoGap(files, isLevel0, closed, met, in0);
    GrownNoGap(next, closed, met, in0, in1);
  }

  lemma ClosureInLevel(files: seq<File>, seed: seq<File>, closed: seq<File>)
    requires Closure(files, seed, closed) && forall f :: f in seed ==> f in files
    ensures forall f :: f in closed ==> f in files
  {
    var start, added :| IsLargest(seed, start) && closed == seed + added && BoundaryChain(files, start, added)
      && NoBoundary(files, ChainKey(start, added, |added|));
    forall i | 0 <= i < |added| ensures added[i] in files {
      assert FirstBoundary(files, ChainKey(start, added, i), added[i]);
    }
  }

  lemma GrownNoGap(next: seq<File>, closed: seq<File>, met: seq<File>, in0: seq<File>, in1: seq<File>)
    requires Ranges(next) && Ranges(met + in0) && NoGap(met + in0) && forall f :: f in closed ==> f in in0
    requires TakesTouching(next, closed, met) && TakesTouching(next, in0, in1)
    ensures NoGap(in0 + in1)
  {
    forall g | g in in1 ensures Meets(met + in0, g) {
      MoreTouches(in0, met + in0, g);
      HullMeets(met + in0, g);
    }
    Attach(met + in0, in1);
    forall g | g in met ensures g in in1 {
      MoreTouches(closed, in0, g);
    }
    assert SameFiles(met + in0 + in1, in0 + in1);
    SameFilesNoGap(met + in0 + in1, in0 + in1);
  }

  lemma MoreTouches(a: seq<File>, b: seq<File>, g: File)
    requires TouchesHull(a, g) && forall f :: f in a ==> f in b
    ensures TouchesHull(b, g)
  {
  }

  // ---- Tables beside the inputs ----

  /** The table lies wholly before or wholly after the user keys of the files. */
  ghost predicate Beside(files: seq<File>, g: File) {
    || (forall f :: f in files ==> g.largest.user < f.smallest.user)
    || (forall f :: f in files ==> f.largest.user < g.smallest.user)
  }

  /** Where there is no gap, a table that overlaps none of the files lies beside all of them. */
  lemma ClearIsBeside(files: seq<File>, g: File)
    requires NoGap(files) && Ranges(files) && AtMost(g.smallest, g.largest)
    requires forall f :: f in files ==> g.largest.user < f.smallest.user || f.largest.user < g.smallest.user
    ensures Beside(files, g)
  {
    forall a, b | a in files && b in files && a.largest.user < g.smallest.user ensures b.largest.user < g.smallest.user {
      assert Between(a, g.smallest.user, b) ==> Covered(files, g.smallest.user);
    }
  }
}
