/** Choosing files: overlap closure, boundary files, the inputs of a compaction and the level of a flush
    (db/version_set.cc). */
module Inputs {
  import opened DbFormat
  import opened Versions

  /** MaxMemCompactLevel of config. */
  const MAX_MEM_COMPACT_LEVEL := 2

  // ---- GetOverlappingInputs ----

  datatype Range = Range(begin: Option<UserKey>, end: Option<UserKey>)

  predicate Touches(f: File, r: Range) {
    Overlaps(f, r.begin, r.end)
  }

  predicate Inside(f: File, r: Range) {
    (r.begin.Some? ==> r.begin.value <= f.smallest.user) && (r.end.Some? ==> f.largest.user <= r.end.value)
  }

  function Overlapping(files: seq<File>, r: Range): seq<File> {
    if files == [] then []
    else
      var last := files[|files| - 1];
      Overlapping(files[..|files| - 1], r) + if Touches(last, r) then [last] else []
  }

  lemma {:induction false} OverlappingMembers(files: seq<File>, r: Range)
    ensures forall f :: f in Overlapping(files, r) <==> f in files && Touches(f, r)
    decreases |files|
  {
    if files != [] {
      var n := |files| - 1;
      assert files == files[..n] + [files[n]];
      OverlappingMembers(files[..n], r);
    }
  }

  ghost predicate Wider(q: Range, r: Range) {
    && (q.begin.Some? ==> r.begin.Some? && q.begin.value <= r.begin.value)
    && (q.end.Some? ==> r.end.Some? && r.end.value <= q.end.value)
  }

  ghost predicate ClosedUnder(files: seq<File>, r: Range) {
    forall f :: f in files && Touches(f, r) ==> Inside(f, r)
  }

  /** The smallest range around `request` that no file straddles. */
  ghost predicate LeastClosed(files: seq<File>, request: Range, r: Range) {
    && ClosedUnder(files, r) && Wider(r, request)
    && forall q :: ClosedUnder(files, q) && Wider(q, request) ==> Wider(q, r)
  }

  /** The range whose files are taken: at level 0 the least closed one around the request. */
  ghost predicate Requested(files: seq<File>, isLevel0: bool, request: Range, r: Range) {
    if isLevel0 then LeastClosed(files, request, r) else r == request
  }

  /** Files that start before, respectively end after, the range: each restart of the scan shrinks one of the two. */
  ghost function StartsBefore(files: seq<File>, r: Range): set<nat> {
    set j: nat | j < |files| && r.begin.Some? && files[j].smallest.user < r.begin.value
  }

  ghost function EndsAfter(files: seq<File>, r: Range): set<nat> {
    set j: nat | j < |files| && r.end.Some? && r.end.value < files[j].largest.user
  }

  /** Version::GetOverlappingInputs on one level; level 0 restarts the scan whenever a file widens the range. */
  method GetOverlappingInputs(isLevel0: bool, files: seq<File>, request: Range)
    returns (inputs: seq<File>, ghost range: Range)
    ensures inputs == Overlapping(files, range) && Requested(files, isLevel0, request, range)
    ensures !isLevel0 ==> inputs == Overlapping(files, request)
    ensures isLevel0 ==> exists r :: LeastClosed(files, request, r) && inputs == Overlapping(files, r)
  {
    inputs := [];
    var r := request;
    var i := 0;
    while i < |files|
      invariant 0 <= i <= |files|
      invariant inputs == Overlapping(files[..i], r)
      invariant !isLevel0 ==> r == request
      invariant Wider(r, request)
      invariant isLevel0 ==> forall f :: f in inputs ==> Inside(f, r)
      invariant isLevel0 ==> forall q :: ClosedUnder(files, q) && Wider(q, request) ==> Wider(q, r)
      decreases StartsBefore(files, r), EndsAfter(files, r), |files| - i
    {
      var f := files[i];
      assert f in files;
      ghost var before := StartsBefore(files, r);
      ghost var after := EndsAfter(files, r);
      i := i + 1;
      assert files[..i][..i - 1] == files[..i - 1];
      if Touches(f, r) {
        inputs := inputs + [f];
        if isLevel0 {
          if r.begin.Some? && f.smallest.user < r.begin.value {
            assert i - 1 in before;
            forall q | ClosedUnder(files, q) && Wider(q, request) ensures Wider(q, r.(begin := Some(f.smallest.user))) {
              assert Touches(f, q) && Inside(f, q);
            }
            r := r.(begin := Some(f.smallest.user));
            inputs := [];
            i := 0;
            assert StartsBefore(files, r) < before;
          } else if r.end.Some? && f.largest.user > r.end.value {
            assert i - 1 in after;
            forall q | ClosedUnder(files, q) && Wider(q, request) ensures Wider(q, r.(end := Some(f.largest.user))) {
              assert Touches(f, q) && Inside(f, q);
            }
            r := r.(end := Some(f.largest.user));
            inputs := [];
            i := 0;
            assert StartsBefore(files, r) == before && EndsAfter(files, r) < after;
          }
        }
      }
    }
    assert files[..i] == files;
    range := r;
    OverlappingMembers(files, r);
  }

  /** In a sorted level the overlapping files are consecutive: of the first n files, exactly those from a to b. */
  lemma {:induction false} OverlappingIsSlice(files: seq<File>, r: Range, n: nat) returns (a: nat, b: nat)
    requires Ranges(files) && Disjoint(files) && n <= |files|
    ensures a <= b <= n && Overlapping(files[..n], r) == files[a..b]
    ensures TouchedFrom(files, r, n, a, b)
  {
    if n == 0 {
      a, b := 0, 0;
    } else {
      a, b := OverlappingIsSlice(files, r, n - 1);
      OneMoreOverlaps(files, r, n);
      if Touches(files[n - 1], r) {
        if a < b < n - 1 {
          BetweenOverlaps(files, r, b - 1, b, n - 1);
        }
        SliceGrows(files, r, n, a, b);
        a, b := if a == b then n - 1 else a, n;
      }
    }
  }

  ghost predicate TouchedFrom(files: seq<File>, r: Range, n: nat, a: nat, b: nat)
    requires n <= |files|
  {
    forall j {:trigger files[j]} :: 0 <= j < n ==> (Touches(files[j], r) <==> a <= j < b)
  }

  lemma SliceGrows(files: seq<File>, r: Range, n: nat, a: nat, b: nat)
    requires 0 < n <= |files| && a <= b < n && (a < b ==> b == n - 1)
    requires Overlapping(files[..n - 1], r) == files[a..b] && TouchedFrom(files, r, n - 1, a, b) && Touches(files[n - 1], r)
    ensures var first := if a == b then n - 1 else a;
      Overlapping(files[..n], r) == files[first..n] && TouchedFrom(files, r, n, first, n)
  {
    OneMoreOverlaps(files, r, n);
    SnocSlice(files, a, b, n);
    TouchedGrows(files, r, n, a, b);
  }

  lemma TouchedGrows(files: seq<File>, r: Range, n: nat, a: nat, b: nat)
    requires 0 < n <= |files| && a <= b < n && (a < b ==> b == n - 1)
    requires TouchedFrom(files, r, n - 1, a, b) && Touches(files[n - 1], r)
    ensures TouchedFrom(files, r, n, if a == b then n - 1 else a, n)
  {
  }

  lemma SnocSlice<T>(s: seq<T>, a: nat, b: nat, n: nat)
    requires a <= b < n <= |s| && (a < b ==> b == n - 1)
    ensures s[a..b] + [s[n - 1]] == s[if a == b then n - 1 else a..n]
  {
  }

  lemma OneMoreOverlaps(files: seq<File>, r: Range, n: nat)
    requires 0 < n <= |files|
    ensures Overlapping(files[..n], r)
         == if Touches(files[n - 1], r) then Overlapping(files[..n - 1], r) + [files[n - 1]] else Overlapping(files[..n - 1], r)
  {
    assert files[..n][..n - 1] == files[..n - 1];
  }

  lemma BetweenOverlaps(files: seq<File>, r: Range, i: nat, j: nat, n: nat)
    requires Ranges(files) && Disjoint(files) && i < j < n < |files|
    requires Touches(files[i], r) && Touches(files[n], r)
    ensures Touches(files[j], r)
  {
    assert files[i] in files && files[j] in files && files[n] in files;
    assert Less(files[i].largest, files[j].smallest) && Less(files[j].largest, files[n].smallest);
  }

  // ---- Ranges of file lists ----

  ghost predicate IsRange(files: seq<File>, lo: InternalKey, hi: InternalKey) {
    && (exists f :: f in files && f.smallest == lo)
    && (exists f :: f in files && f.largest == hi)
    && forall f :: f in files ==> AtMost(lo, f.smallest) && AtMost(f.largest, hi)
  }

  function UserRange(lo: InternalKey, hi: InternalKey): Range {
    Range(Some(lo.user), Some(hi.user))
  }

  /** VersionSet::GetRange. */
  method GetRange(inputs: seq<File>) returns (smallest: InternalKey, largest: InternalKey)
    requires inputs != []
    ensures IsRange(inputs, smallest, largest)
  {
    smallest, largest := inputs[0].smallest, inputs[0].largest;
    for i := 1 to |inputs|
      invariant exists f :: f in inputs && f.smallest == smallest
      invariant exists f :: f in inputs && f.largest == largest
      invariant forall j :: 0 <= j < i ==> AtMost(smallest, inputs[j].smallest) && AtMost(inputs[j].largest, largest)
    {
      var f := inputs[i];
      if Less(f.smallest, smallest) {
        smallest := f.smallest;
      }
      if Less(largest, f.largest) {
        largest := f.largest;
      }
    }
  }

  /** VersionSet::GetRange2. */
  method GetRange2(inputs1: seq<File>, inputs2: seq<File>) returns (smallest: InternalKey, largest: InternalKey)
    requires inputs1 != []
    ensures IsRange(inputs1 + inputs2, smallest, largest)
  {
    smallest, largest := GetRange(inputs1 + inputs2);
  }

  // ---- Boundary files ----

  /** A file of the level that continues the user key on which `key` ends. */
  predicate IsBoundary(f: File, key: InternalKey) {
    Less(key, f.smallest) && f.smallest.user == key.user
  }

  ghost predicate NoBoundary(levelFiles: seq<File>, key: InternalKey) {
    forall f :: f in levelFiles ==> !IsBoundary(f, key)
  }

  ghost predicate FirstBoundary(levelFiles: seq<File>, key: InternalKey, f: File) {
    f in levelFiles && IsBoundary(f, key) && forall g :: g in levelFiles && IsBoundary(g, key) ==> AtMost(f.smallest, g.smallest)
  }

  ghost predicate IsLargest(files: seq<File>, key: InternalKey) {
    (exists f :: f in files && f.largest == key) && (forall f :: f in files ==> AtMost(f.largest, key))
  }

  method FindLargestKey(files: seq<File>) returns (largest: Option<InternalKey>)
    ensures largest.None? <==> files == []
    ensures largest.Some? ==> IsLargest(files, largest.value)
  {
    if files == [] {
      return None;
    }
    var key := files[0].largest;
    for i := 1 to |files|
      invariant exists f :: f in files && f.largest == key
      invariant forall j :: 0 <= j < i ==> AtMost(files[j].largest, key)
    {
      if Less(key, files[i].largest) {
        key := files[i].largest;
      }
    }
    return Some(key);
  }

  method FindSmallestBoundaryFile(levelFiles: seq<File>, key: InternalKey) returns (found: Option<File>)
    ensures found.None? ==> NoBoundary(levelFiles, key)
    ensures found.Some? ==> FirstBoundary(levelFiles, key, found.value)
  {
    found := None;
    for i := 0 to |levelFiles|
      invariant found.None? ==> forall j :: 0 <= j < i ==> !IsBoundary(levelFiles[j], key)
      invariant found.Some? ==> found.value in levelFiles && IsBoundary(found.value, key)
      invariant found.Some? ==> forall j :: 0 <= j < i && IsBoundary(levelFiles[j], key) ==>
        AtMost(found.value.smallest, levelFiles[j].smallest)
    {
      var f := levelFiles[i];
      if IsBoundary(f, key) && (found.None? || Less(f.smallest, found.value.smallest)) {
        found := Some(f);
      }
    }
  }

  /** The key that the i-th added file continues. */
  function ChainKey(start: InternalKey, added: seq<File>, i: nat): InternalKey
    requires i <= |added|
  {
    if i == 0 then start else added[i - 1].largest
  }

  ghost predicate BoundaryChain(levelFiles: seq<File>, start: InternalKey, added: seq<File>) {
    forall i {:trigger ChainKey(start, added, i)} ::
      0 <= i < |added| ==> FirstBoundary(levelFiles, ChainKey(start, added, i), added[i])
  }

  ghost function StartingAfter(levelFiles: seq<File>, key: InternalKey): set<File> {
    set f | f in levelFiles && Less(key, f.smallest)
  }

  /** The largest chosen key strictly rises along the chain, so nothing is added twice. */
  lemma {:induction false} ChainRises(levelFiles: seq<File>, start: InternalKey, added: seq<File>, i: nat, j: nat)
    requires Ranges(levelFiles) && BoundaryChain(levelFiles, start, added) && i < j <= |added|
    ensures Less(ChainKey(start, added, i), added[j - 1].smallest)
    ensures Less(ChainKey(start, added, i), ChainKey(start, added, j))
    decreases j
  {
    assert FirstBoundary(levelFiles, ChainKey(start, added, j - 1), added[j - 1]);
    if i < j - 1 {
      ChainRises(levelFiles, start, added, i, j - 1);
    }
  }

  /** AddBoundaryInputs: the files already chosen, followed by the chain of boundary files. */
  method AddBoundaryInputs(levelFiles: seq<File>, compactionFiles: seq<File>) returns (result: seq<File>, ghost start: InternalKey)
    requires Ranges(levelFiles)
    ensures compactionFiles == [] ==> result == []
    ensures compactionFiles != [] ==>
      && IsLargest(compactionFiles, start)
      && |compactionFiles| <= |result| && result[..|compactionFiles|] == compactionFiles
      && var added := result[|compactionFiles|..];
         BoundaryChain(levelFiles, start, added) && NoBoundary(levelFiles, ChainKey(start, added, |added|))
  {
    var largest := FindLargestKey(compactionFiles);
    start := InternalKey(0.0, 0, Deletion);
    if largest.None? {
      return [], start;
    }
    var key := largest.value;
    start := key;
    var added := [];
    var continueSearching := true;
    while continueSearching
      invariant BoundaryChain(levelFiles, start, added)
      invariant key == ChainKey(start, added, |added|)
      invariant !continueSearching ==> NoBoundary(levelFiles, key)
      decreases continueSearching, StartingAfter(levelFiles, key)
    {
      var boundary := FindSmallestBoundaryFile(levelFiles, key);
      if boundary.Some? {
        var f := boundary.value;
        ghost var wasAfter := StartingAfter(levelFiles, key);
        assert f in wasAfter;
        ChainAppend(levelFiles, start, added, f);
        added := added + [f];
        key := f.largest;
        assert f !in StartingAfter(levelFiles, key);
        assert StartingAfter(levelFiles, key) < wasAfter;
      } else {
        continueSearching := false;
      }
    }
    result := compactionFiles + added;
    assert result[|compactionFiles|..] == added;
  }

  lemma ChainAppend(levelFiles: seq<File>, start: InternalKey, added: seq<File>, f: File)
    requires BoundaryChain(levelFiles, start, added) && FirstBoundary(levelFiles, ChainKey(start, added, |added|), f)
    ensures BoundaryChain(levelFiles, start, added + [f])
    ensures ChainKey(start, added + [f], |added| + 1) == f.largest
  {
    forall i | 0 <= i <= |added| ensures ChainKey(start, added + [f], i) == ChainKey(start, added, i) {
    }
  }

  /** In a sorted level the chain takes the files that directly follow the chosen ones. */
  lemma {:induction false} ChainIsSlice(files: seq<File>, b: nat, added: seq<File>, n: nat)
    requires Ranges(files) && Disjoint(files) && 0 < b <= |files| && n <= |added|
    requires BoundaryChain(files, files[b - 1].largest, added)
    ensures b + n <= |files| && forall i :: 0 <= i < n ==> added[i] == files[b + i]
  {
    if n > 0 {
      ChainIsSlice(files, b, added, n - 1);
      var c := b + n - 1;
      assert files[c - 1].largest == ChainKey(files[b - 1].largest, added, n - 1);
      var j :| 0 <= j < |files| && files[j] == added[n - 1];
      if j != c {
        OtherIsNotFirstBoundary(files, c, j);
      }
    }
  }

  /** No file but the next one can be the first boundary file of files[c - 1]. */
  lemma OtherIsNotFirstBoundary(files: seq<File>, c: nat, j: nat)
    requires Ranges(files) && Disjoint(files) && 0 < c <= |files| && j < |files| && j != c
    ensures !FirstBoundary(files, files[c - 1].largest, files[j])
  {
    assert files[j] in files;
    if j < c {
      LargestAscends(files, j, c - 1);
    } else {
      assert Less(files[c - 1].largest, files[c].smallest);
      assert Less(files[c].largest, files[j].smallest);
      assert files[c] in files && Less(files[c].smallest, files[j].smallest);
      assert IsBoundary(files[j], files[c - 1].largest) ==> IsBoundary(files[c], files[c - 1].largest);
    }
  }

  // ---- The inputs of a compaction ----

  /** The user-key hull of the chosen files and the range of g have a key in common. */
  ghost predicate TouchesHull(chosen: seq<File>, g: File) {
    && (exists f :: f in chosen && f.smallest.user <= g.largest.user)
    && (exists f :: f in chosen && g.smallest.user <= f.largest.user)
  }

  /** What stays behind in the level is newer than what is taken, key by key. */
  ghost predicate LeavesNewer(files: seq<File>, chosen: seq<File>) {
    forall f, g {:trigger FileShadows(g, f)} :: f in chosen && g in files && g !in chosen ==> FileShadows(g, f)
  }

  /** What the merge of a compaction relies on. */
  ghost predicate MergeInputs(v: Version, level: nat, in0: seq<File>, in1: seq<File>) {
    && |v.files| == NUM_LEVELS && level + 1 < NUM_LEVELS
    && in0 != [] && Ordered(in0) && Ordered(in1)
    && (forall f :: f in in0 ==> f in v.files[level])
    && LeavesNewer(v.files[level], in0)
    && (forall g :: g in in1 ==> g in v.files[level + 1])
  }

  /** The inputs as they are chosen: from the next level, all files in the hull of the first ones. */
  ghost predicate GoodInputs(v: Version, level: nat, in0: seq<File>, in1: seq<File>) {
    && MergeInputs(v, level, in0, in1)
    && (forall g :: g in in1 <==> g in v.files[level + 1] && TouchesHull(in0, g))
  }

  ghost predicate IsSlice(files: seq<File>, part: seq<File>, a: int, b: int) {
    0 <= a < b <= |files| && part == files[a..b]
  }

  /** The first choice of files, before boundary files are added: a run of consecutive files, or at level 0
      all files that touch some closed range. */
  ghost predicate Seed(files: seq<File>, isLevel0: bool, chosen: seq<File>) {
    && chosen != []
    && (isLevel0 ==> exists r :: ClosedUnder(files, r) && chosen == Overlapping(files, r))
    && (!isLevel0 ==> exists a, b :: IsSlice(files, chosen, a, b))
  }

  /** A seed whose last user key no further file of the level continues. */
  ghost predicate ClosedSeed(files: seq<File>, isLevel0: bool, chosen: seq<File>) {
    && Seed(files, isLevel0, chosen)
    && exists key :: IsLargest(chosen, key) && NoBoundary(files, key)
  }

  /** Closing a seed under boundary files leaves only newer data behind in the level. */
  lemma ClosedSeedLeavesNewer(files: seq<File>, isLevel0: bool, chosen: seq<File>)
    requires AllValid(files) && (!isLevel0 ==> Disjoint(files)) && Distinct(EntriesOf(files))
    requires ClosedSeed(files, isLevel0, chosen)
    ensures LeavesNewer(files, chosen)
  {
    if isLevel0 {
      var r :| ClosedUnder(files, r) && chosen == Overlapping(files, r);
      OverlappingMembers(files, r);
      forall f, g | f in chosen && g in files && g !in chosen
        ensures FileShadows(g, f)
      {
        DisjointUsers(f, g, r);
      }
    } else {
      ClosedRunLeavesNewer(files, chosen);
    }
  }

  lemma ClosedRunLeavesNewer(files: seq<File>, chosen: seq<File>)
    requires AllValid(files) && Disjoint(files) && Distinct(EntriesOf(files))
    requires ClosedSeed(files, false, chosen)
    ensures LeavesNewer(files, chosen)
  {
    ValidRanges(files);
    var a, b :| IsSlice(files, chosen, a, b);
    forall f, g | f in chosen && g in files && g !in chosen
      ensures FileShadows(g, f)
    {
      RunLeavesNewer(files, chosen, a, b, f, g);
    }
  }

  lemma RunLeavesNewer(files: seq<File>, chosen: seq<File>, a: int, b: int, f: File, g: File)
    requires AllValid(files) && Disjoint(files) && Distinct(EntriesOf(files))
    requires ClosedSeed(files, false, chosen) && IsSlice(files, chosen, a, b) && f in chosen && g in files && g !in chosen
    ensures FileShadows(g, f)
  {
    var i := IndexInside(files, chosen, a, b, f);
    var j := IndexOutside(files, chosen, a, b, g);
    if j < a {
      EarlierShadows(files, j, i);
    } else {
      LaterSharesNoUser(files, chosen, a, b, i, j);
    }
  }

  lemma EarlierShadows(files: seq<File>, j: nat, i: nat)
    requires AllValid(files) && Disjoint(files) && Distinct(EntriesOf(files)) && j < i < |files|
    ensures FileShadows(files[j], files[i])
  {
    assert files[j] in files && files[i] in files;
    assert Less(files[j].largest, files[i].smallest);
    EarlierIsNewer(files[j], files[i], EntriesOf(files));
  }

  lemma IndexInside(files: seq<File>, chosen: seq<File>, a: int, b: int, f: File) returns (i: nat)
    requires IsSlice(files, chosen, a, b) && f in chosen
    ensures a <= i < b && files[i] == f
  {
    var k :| 0 <= k < |chosen| && chosen[k] == f;
    i := a + k;
  }

  lemma IndexOutside(files: seq<File>, chosen: seq<File>, a: int, b: int, g: File) returns (j: nat)
    requires IsSlice(files, chosen, a, b) && g in files && g !in chosen
    ensures j < |files| && files[j] == g && (j < a || b <= j)
  {
    j :| 0 <= j < |files| && files[j] == g;
    assert forall i :: a <= i < b ==> files[i] == chosen[i - a];
  }

  lemma DisjointUsers(f: File, g: File, r: Range)
    requires f.Valid() && g.Valid() && Inside(f, r) && !Touches(g, r)
    ensures FileShadows(g, f)
  {
    forall x, y | x in g.entries && y in f.entries ensures x.key.user != y.key.user {
      assert AtMost(f.smallest, y.key) && AtMost(y.key, f.largest);
      assert AtMost(g.smallest, x.key) && AtMost(x.key, g.largest);
    }
  }

  /** Of two files in ascending order the first one is the newer, where they share a user key. */
  lemma EarlierIsNewer(g: File, f: File, all: set<Entry>)
    requires g.Valid() && f.Valid() && Less(g.largest, f.smallest) && Distinct(all)
    requires (forall e :: e in g.entries ==> e in all) && (forall e :: e in f.entries ==> e in all)
    ensures FileShadows(g, f)
  {
    forall x, y | x in g.entries && y in f.entries && x.key.user == y.key.user
      ensures x.key.seqNo > y.key.seqNo
    {
      assert x in all && y in all && (SameWrite(x, y) ==> x == y);
      assert AtMost(x.key, g.largest) && AtMost(f.smallest, y.key);
    }
  }

  /** A file after the chosen run shares no user key with it: the run ends where its last user key ends. */
  lemma LaterSharesNoUser(files: seq<File>, chosen: seq<File>, a: int, b: int, i: nat, j: nat)
    requires AllValid(files) && Ranges(files) && Disjoint(files)
    requires IsSlice(files, chosen, a, b) && a <= i < b <= j < |files|
    requires ClosedSeed(files, false, chosen)
    ensures FileShadows(files[j], files[i])
  {
    RunEndsItsUser(files, chosen, a, b);
    LaterApart(files, b, i, j);
  }

  lemma LaterApart(files: seq<File>, b: nat, i: nat, j: nat)
    requires AllValid(files) && Ranges(files) && Disjoint(files) && i < b <= j < |files|
    requires files[b - 1].largest.user < files[b].smallest.user
    ensures FileShadows(files[j], files[i])
  {
    UsersAscend(files, i, b - 1);
    StartsAscend(files, b, j);
    assert files[j] in files && files[i] in files;
    UsersApart(files[i], files[j]);
  }

  lemma UsersApart(f: File, g: File)
    requires f.Valid() && g.Valid() && f.largest.user < g.smallest.user
    ensures FileShadows(g, f)
  {
    forall x, y | x in g.entries && y in f.entries ensures x.key.user != y.key.user {
      assert AtMost(g.smallest, x.key) && AtMost(y.key, f.largest);
    }
  }

  lemma RunEndsItsUser(files: seq<File>, chosen: seq<File>, a: int, b: int)
    requires Ranges(files) && Disjoint(files) && IsSlice(files, chosen, a, b) && b < |files|
    requires ClosedSeed(files, false, chosen)
    ensures files[b - 1].largest.user < files[b].smallest.user
  {
    var last :| IsLargest(chosen, last) && NoBoundary(files, last);
    LargestOfRun(files, chosen, a, b, last);
    NextIsNoBoundary(files, b, last);
  }

  lemma NextIsNoBoundary(files: seq<File>, b: nat, last: InternalKey)
    requires Disjoint(files) && 0 < b < |files| && last == files[b - 1].largest && NoBoundary(files, last)
    ensures files[b - 1].largest.user < files[b].smallest.user
  {
    assert Less(files[b - 1].largest, files[b].smallest);
    assert files[b] in files;
    assert !IsBoundary(files[b], last);
  }

  lemma LargestOfRun(files: seq<File>, run: seq<File>, a: int, b: int, key: InternalKey)
    requires Ranges(files) && Disjoint(files) && IsSlice(files, run, a, b) && IsLargest(run, key)
    ensures key == files[b - 1].largest
  {
    var f :| f in run && f.largest == key;
    var t :| 0 <= t < |run| && run[t] == f;
    LargestAscends(files, a + t, b - 1);
    assert files[b - 1] == run[b - 1 - a];
    SameKey(key, files[b - 1].largest);
  }

  lemma UsersAscend(files: seq<File>, i: nat, j: nat)
    requires Ranges(files) && Disjoint(files) && i <= j < |files|
    ensures files[i].largest.user <= files[j].largest.user
  {
    LargestAscends(files, i, j);
  }

  lemma StartsAscend(files: seq<File>, i: nat, j: nat)
    requires Ranges(files) && Disjoint(files) && i <= j < |files|
    ensures files[i].smallest.user <= files[j].smallest.user
  {
    assert files[i] in files;
    assert i < j ==> Less(files[i].largest, files[j].smallest);
  }

  /** The seed with the chain of its boundary files. */
  ghost predicate Closure(files: seq<File>, seed: seq<File>, closed: seq<File>) {
    exists start, added {:trigger ChainKey(start, added, |added|), seed + added} ::
      && IsLargest(seed, start) && closed == seed + added
      && BoundaryChain(files, start, added) && NoBoundary(files, ChainKey(start, added, |added|))
  }

  lemma ClosureIs(files: seq<File>, seed: seq<File>, start: InternalKey, added: seq<File>)
    requires IsLargest(seed, start) && BoundaryChain(files, start, added) && NoBoundary(files, ChainKey(start, added, |added|))
    ensures Closure(files, seed, seed + added)
  {
  }

  /** Running AddBoundaryInputs on a seed gives a closed seed that contains it. */
  method CloseSeed(files: seq<File>, isLevel0: bool, seed: seq<File>) returns (closed: seq<File>)
    requires Ranges(files) && (!isLevel0 ==> Disjoint(files))
    requires Seed(files, isLevel0, seed)
    ensures ClosedSeed(files, isLevel0, closed) && Closure(files, seed, closed)
    ensures forall f :: f in seed ==> f in closed
  {
    ghost var start;
    closed, start := AddBoundaryInputs(files, seed);
    ghost var added := closed[|seed|..];
    assert closed == seed + added;
    ClosureIs(files, seed, start, added);
    if isLevel0 {
      ClosedRangeHasNoBoundary(files, seed, start);
      assert added != [] ==> FirstBoundary(files, ChainKey(start, added, 0), added[0]);
      assert closed == seed;
    } else {
      RunPlusChainIsRun(files, seed, start, added);
    }
    LargestOfChain(files, seed, start, added);
  }

  lemma ClosedRangeHasNoBoundary(files: seq<File>, seed: seq<File>, start: InternalKey)
    requires Ranges(files) && Seed(files, true, seed)
    requires IsLargest(seed, start)
    ensures NoBoundary(files, start)
  {
    var r :| ClosedUnder(files, r) && seed == Overlapping(files, r);
    OverlappingMembers(files, r);
    var g :| g in seed && g.largest == start;
  }

  lemma RunPlusChainIsRun(files: seq<File>, seed: seq<File>, start: InternalKey, added: seq<File>)
    requires Ranges(files) && Disjoint(files) && Seed(files, false, seed) && BoundaryChain(files, start, added)
    requires IsLargest(seed, start)
    ensures Seed(files, false, seed + added)
  {
    var a, b :| IsSlice(files, seed, a, b);
    LargestOfRun(files, seed, a, b, start);
    ChainIsSlice(files, b, added, |added|);
    SliceAppend(files, a, b, added);
    assert IsSlice(files, seed + added, a, b + |added|);
  }

  lemma SliceAppend<T>(s: seq<T>, a: nat, b: nat, more: seq<T>)
    requires a <= b && b + |more| <= |s| && forall i :: 0 <= i < |more| ==> more[i] == s[b + i]
    ensures s[a..b] + more == s[a..b + |more|]
  {
  }

  lemma LargestOfChain(files: seq<File>, seed: seq<File>, start: InternalKey, added: seq<File>)
    requires Ranges(files) && BoundaryChain(files, start, added) && IsLargest(seed, start)
    ensures IsLargest(seed + added, ChainKey(start, added, |added|))
  {
    var n := |added|;
    if n > 0 {
      assert added[n - 1] in seed + added;
      ChainRises(files, start, added, 0, n);
      forall t | 0 <= t < n ensures AtMost(added[t].largest, added[n - 1].largest) {
        if t + 1 < n { ChainRises(files, start, added, t + 1, n); }
      }
    } else {
      assert seed + added == seed;
    }
  }

  lemma SameKey(a: InternalKey, b: InternalKey)
    requires AtMost(a, b) && AtMost(b, a)
    ensures a == b
  {
  }

  lemma {:induction false} OverlappingGrows(files: seq<File>, r: Range, q: Range)
    requires Wider(q, r)
    ensures |Overlapping(files, r)| <= |Overlapping(files, q)|
    ensures |Overlapping(files, r)| == |Overlapping(files, q)| ==> Overlapping(files, r) == Overlapping(files, q)
    decreases |files|
  {
    if files != [] {
      OverlappingGrows(files[..|files| - 1], r, q);
    }
  }

  function TotalFileSize(files: seq<File>): nat {
    if files == [] then 0 else files[0].size + TotalFileSize(files[1..])
  }

  /** The user-key range of both inputs, closed under overlap at level 0. */
  ghost predicate IsExpansionRange(files: seq<File>, isLevel0: bool, in0: seq<File>, in1: seq<File>, r: Range) {
    exists hull :: IsHull(in0 + in1, hull) && Requested(files, isLevel0, hull, r)
  }

  /** What the level's inputs could grow to. */
  ghost predicate IsExpansion(files: seq<File>, isLevel0: bool, in0: seq<File>, in1: seq<File>, e: seq<File>) {
    exists r :: IsExpansionRange(files, isLevel0, in0, in1, r) && Closure(files, Overlapping(files, r), e)
  }

  /** More files of the level, not too many bytes, and no more files of the next level. */
  ghost predicate Worthwhile(next: seq<File>, in0: seq<File>, in1: seq<File>, e: seq<File>, limit: nat) {
    && |e| > |in0| && TotalFileSize(in1) + TotalFileSize(e) < limit
    && exists h :: IsHull(e, h) && |Overlapping(next, h)| == |in1|
  }

  /** The inputs of the level after the attempt to widen them. */
  ghost predicate Widened(files: seq<File>, next: seq<File>, isLevel0: bool, in0: seq<File>, in1: seq<File>, limit: nat,
                        out0: seq<File>) {
    || (in1 == [] && out0 == in0)
    || (in1 != [] && out0 == in0 && exists r :: IsExpansionRange(files, isLevel0, in0, in1, r) && Overlapping(files, r) == [])
    || (in1 != [] && exists e ::
          IsExpansion(files, isLevel0, in0, in1, e) && out0 == if Worthwhile(next, in0, in1, e, limit) then e else in0)
  }

  lemma SameHull(files: seq<File>, a: Range, b: Range)
    requires IsHull(files, a) && IsHull(files, b)
    ensures a == b
  {
    var lo, hi :| IsRange(files, lo, hi) && a == UserRange(lo, hi);
    var lo', hi' :| IsRange(files, lo', hi') && b == UserRange(lo', hi');
    SameKey(lo, lo');
    SameKey(hi, hi');
  }

  lemma WorthwhileIff(next: seq<File>, in0: seq<File>, in1: seq<File>, e: seq<File>, limit: nat, hull: Range)
    requires IsHull(e, hull)
    ensures Worthwhile(next, in0, in1, e, limit) <==>
      |e| > |in0| && TotalFileSize(in1) + TotalFileSize(e) < limit && |Overlapping(next, hull)| == |in1|
  {
    forall h | IsHull(e, h) ensures h == hull {
      SameHull(e, h, hull);
    }
  }

  lemma HullIs(files: seq<File>, lo: InternalKey, hi: InternalKey)
    requires IsRange(files, lo, hi)
    ensures IsHull(files, UserRange(lo, hi))
  {
  }

  /** The part of SetupOtherInputs that tries to widen the level's inputs: it never changes what is
      picked up from the next level. */
  method GrowInputs(files: seq<File>, next: seq<File>, isLevel0: bool, in0: seq<File>, in1: seq<File>,
                    ghost hull: Range, limit: nat)
    returns (out0: seq<File>, out1: seq<File>)
    requires Ranges(files) && Ranges(next) && (!isLevel0 ==> Disjoint(files))
    requires ClosedSeed(files, isLevel0, in0)
    requires IsHull(in0, hull) && in1 == Overlapping(next, hull)
    ensures ClosedSeed(files, isLevel0, out0)
    ensures out1 == in1
    ensures forall f :: f in in0 ==> f in out0
    ensures exists h :: IsHull(out0, h) && out1 == Overlapping(next, h)
    ensures Widened(files, next, isLevel0, in0, in1, limit, out0)
  {
    out0, out1 := in0, in1;
    if in1 == [] {
      return;
    }
    var allStart, allLimit := GetRange2(in0, in1);
    ghost var range;
    var expanded0: seq<File>;
    expanded0, range := GetOverlappingInputs(isLevel0, files, UserRange(allStart, allLimit));
    HullIs(in0 + in1, allStart, allLimit);
    assert IsExpansionRange(files, isLevel0, in0, in1, range);
    if expanded0 == [] {
      return;
    }
    ghost var seed := expanded0;
    OverlapIsSeed(files, isLevel0, range);
    expanded0 := CloseSeed(files, isLevel0, expanded0);
    assert IsExpansion(files, isLevel0, in0, in1, expanded0);
    SeedTouches(files, isLevel0, in0, in1, allStart, allLimit, range);
    assert forall f :: f in in0 ==> f in seed;
    SeedInLevel(files, isLevel0, expanded0);
    out0, out1 := TakeExpansion(next, in0, in1, expanded0, hull, limit);
  }

  /** Growing from in0 to e, if that is worthwhile, picks up nothing more from the next level. */
  method TakeExpansion(next: seq<File>, in0: seq<File>, in1: seq<File>, e: seq<File>, ghost hull: Range, limit: nat)
    returns (out0: seq<File>, out1: seq<File>)
    requires Ranges(next) && e != [] && (forall f :: f in in0 ==> f in e) && Ranges(e)
    requires IsHull(in0, hull) && in1 == Overlapping(next, hull)
    ensures out0 == (if Worthwhile(next, in0, in1, e, limit) then e else in0) && out1 == in1
    ensures exists h :: IsHull(out0, h) && out1 == Overlapping(next, h)
  {
    out0, out1 := in0, in1;
    var newStart, newLimit := GetRange(e);
    HullIs(e, newStart, newLimit);
    WorthwhileIff(next, in0, in1, e, limit, UserRange(newStart, newLimit));
    if |e| > |in0| && TotalFileSize(in1) + TotalFileSize(e) < limit {
      var expanded1: seq<File>;
      ghost var r1;
      expanded1, r1 := GetOverlappingInputs(false, next, UserRange(newStart, newLimit));
      if |expanded1| == |in1| {
        HullWidens(in0, e, hull, newStart, newLimit);
        OverlappingGrows(next, hull, UserRange(newStart, newLimit));
        out0, out1 := e, expanded1;
      }
    }
  }

  ghost predicate IsHull(files: seq<File>, r: Range) {
    exists lo, hi :: IsRange(files, lo, hi) && r == UserRange(lo, hi)
  }

  lemma OverlapIsSeed(files: seq<File>, isLevel0: bool, r: Range)
    requires Ranges(files) && Overlapping(files, r) != []
    requires if isLevel0 then ClosedUnder(files, r) else Disjoint(files)
    ensures Seed(files, isLevel0, Overlapping(files, r))
  {
    if !isLevel0 {
      var a, b := OverlappingIsSlice(files, r, |files|);
      assert files[..|files|] == files;
      assert IsSlice(files, Overlapping(files, r), a, b);
    }
  }

  lemma SeedInLevel(files: seq<File>, isLevel0: bool, seed: seq<File>)
    requires Seed(files, isLevel0, seed)
    ensures forall f :: f in seed ==> f in files
  {
    if isLevel0 {
      var r :| ClosedUnder(files, r) && seed == Overlapping(files, r);
      OverlappingMembers(files, r);
    } else {
      var a, b :| IsSlice(files, seed, a, b);
    }
  }

  lemma SeedTouches(files: seq<File>, isLevel0: bool, in0: seq<File>, in1: seq<File>,
                    lo: InternalKey, hi: InternalKey, range: Range)
    requires Ranges(files) && Seed(files, isLevel0, in0) && IsRange(in0 + in1, lo, hi) && Wider(range, UserRange(lo, hi))
    ensures forall f :: f in in0 ==> f in Overlapping(files, range)
  {
    SeedInLevel(files, isLevel0, in0);
    OverlappingMembers(files, range);
    forall f | f in in0 ensures Touches(f, range) {
      assert f in in0 + in1;
      assert AtMost(lo, f.smallest) && AtMost(f.largest, hi) && AtMost(f.smallest, f.largest);
    }
  }

  lemma HullWidens(in0: seq<File>, more: seq<File>, hull: Range, lo: InternalKey, hi: InternalKey)
    requires IsHull(in0, hull) && IsRange(more, lo, hi) && forall f :: f in in0 ==> f in more
    ensures Wider(UserRange(lo, hi), hull)
  {
  }

  /** The seed with its boundary files, widened where that is worthwhile. */
  ghost predicate Chosen(files: seq<File>, next: seq<File>, isLevel0: bool, seed: seq<File>, limit: nat, in0: seq<File>) {
    exists closed, hull ::
      && Closure(files, seed, closed) && IsHull(closed, hull)
      && Widened(files, next, isLevel0, closed, Overlapping(next, hull), limit, in0)
  }

  /** The second inputs are the files of the next level in the user-key range of the first ones. */
  ghost predicate MeetsHull(next: seq<File>, in0: seq<File>, in1: seq<File>) {
    exists hull :: IsHull(in0, hull) && in1 == Overlapping(next, hull)
  }

  /** VersionSet::SetupOtherInputs on the two levels; `limit` is ExpandedCompactionByteSizeLimit. The last
      result is the new compact_pointer_ of the level. */
  method SetupLevels(files: seq<File>, next: seq<File>, isLevel0: bool, seed: seq<File>, limit: nat)
    returns (in0: seq<File>, in1: seq<File>, compactPointer: InternalKey)
    requires Ranges(files) && Ranges(next) && Ordered(files) && Ordered(next)
    requires (!isLevel0 ==> Disjoint(files)) && Seed(files, isLevel0, seed)
    ensures ClosedSeed(files, isLevel0, in0)
    ensures forall f :: f in seed ==> f in in0
    ensures Ordered(in0) && Ordered(in1)
    ensures forall g :: g in in1 <==> g in next && TouchesHull(in0, g)
    ensures IsLargest(in0, compactPointer)
    ensures Chosen(files, next, isLevel0, seed, limit, in0) && MeetsHull(next, in0, in1)
  {
    in0 := CloseSeed(files, isLevel0, seed);
    var smallest, largest := GetRange(in0);
    ghost var hull;
    in1, hull := GetOverlappingInputs(false, next, UserRange(smallest, largest));
    assert IsHull(in0, hull);
    ghost var closed, met := in0, in1;
    in0, in1 := GrowInputs(files, next, isLevel0, in0, in1, hull, limit);
    assert Closure(files, seed, closed) && Widened(files, next, isLevel0, closed, met, limit, in0);
    HullTouches(next, in0, in1);
    SeedOrdered(files, isLevel0, in0);
    ghost var h :| IsHull(in0, h) && in1 == Overlapping(next, h);
    OverlappingOrdered(next, h);
    smallest, compactPointer := GetRange(in0);
  }

  method SetupOtherInputs(v: Version, level: nat, seed: seq<File>, limit: nat)
    returns (in0: seq<File>, in1: seq<File>, compactPointer: InternalKey)
    requires v.Valid() && level + 1 < NUM_LEVELS
    requires Seed(v.files[level], level == 0, seed)
    ensures GoodInputs(v, level, in0, in1)
    ensures forall f :: f in seed ==> f in in0
    ensures IsLargest(in0, compactPointer)
    ensures Chosen(v.files[level], v.files[level + 1], level == 0, seed, limit, in0)
    ensures MeetsHull(v.files[level + 1], in0, in1)
  {
    LevelFacts(v, level);
    LevelFacts(v, level + 1);
    in0, in1, compactPointer := SetupLevels(v.files[level], v.files[level + 1], level == 0, seed, limit);
    ClosedSeedLeavesNewer(v.files[level], level == 0, in0);
    SeedInLevel(v.files[level], level == 0, in0);
  }

  lemma {:induction false} OverlappingOrdered(files: seq<File>, r: Range)
    requires Ordered(files)
    ensures Ordered(Overlapping(files, r))
    decreases |files|
  {
    if files != [] {
      var n := |files| - 1;
      var init, chosen := files[..n], Overlapping(files[..n], r);
      forall i, j | 0 <= i < j < n ensures BySmallest(init[i], init[j]) {
        assert BySmallest(files[i], files[j]);
      }
      OverlappingOrdered(init, r);
      OverlappingMembers(init, r);
      var all := Overlapping(files, r);
      forall i, j | 0 <= i < j < |all| ensures BySmallest(all[i], all[j]) {
        if j < |chosen| {
          assert BySmallest(chosen[i], chosen[j]);
        } else {
          assert chosen[i] in chosen;
          var t :| 0 <= t < n && init[t] == chosen[i];
          assert BySmallest(files[t], files[n]);
        }
      }
    }
  }

  lemma SeedOrdered(files: seq<File>, isLevel0: bool, seed: seq<File>)
    requires Ordered(files) && Seed(files, isLevel0, seed)
    ensures Ordered(seed)
  {
    if isLevel0 {
      var r :| ClosedUnder(files, r) && seed == Overlapping(files, r);
      OverlappingOrdered(files, r);
    } else {
      var a, b :| IsSlice(files, seed, a, b);
      forall i, j | 0 <= i < j < |seed| ensures BySmallest(seed[i], seed[j]) {
        assert BySmallest(files[a + i], files[a + j]);
      }
    }
  }

  lemma HullTouches(next: seq<File>, in0: seq<File>, in1: seq<File>)
    requires exists h :: IsHull(in0, h) && in1 == Overlapping(next, h)
    ensures forall g :: g in in1 <==> g in next && TouchesHull(in0, g)
  {
    var h :| IsHull(in0, h) && in1 == Overlapping(next, h);
    OverlappingMembers(next, h);
    var lo, hi :| IsRange(in0, lo, hi) && h == UserRange(lo, hi);
    forall g ensures Touches(g, h) <==> TouchesHull(in0, g) {
    }
  }

  // ---- Where a memtable flush goes ----

  ghost predicate NoOverlap(files: seq<File>, small: UserKey, large: UserKey) {
    forall f :: f in files ==> !Overlaps(f, Some(small), Some(large))
  }

  /** The table can go one level further down: nothing overlaps it there, and not too much data one level deeper. */
  ghost predicate CanDescend(v: Version, small: UserKey, large: UserKey, maxOverlap: nat, level: nat)
    requires level + 2 < |v.files|
  {
    && NoOverlap(v.files[level + 1], small, large)
    && TotalFileSize(Overlapping(v.files[level + 2], Range(Some(small), Some(large)))) <= maxOverlap
  }

  /** The first level, up to level 2, from which the table cannot go on down. */
  ghost predicate IsFlushLevel(v: Version, small: UserKey, large: UserKey, maxOverlap: nat, level: nat)
    requires |v.files| == NUM_LEVELS
  {
    && level <= MAX_MEM_COMPACT_LEVEL
    && if NoOverlap(v.files[0], small, large) then
         && (forall l :: 0 <= l < level ==> CanDescend(v, small, large, maxOverlap, l))
         && (level < MAX_MEM_COMPACT_LEVEL ==> !CanDescend(v, small, large, maxOverlap, level))
       else level == 0
  }

  /** Version::PickLevelForMemTableOutput; `maxOverlap` is MaxGrandParentOverlapBytes. */
  method PickLevelForMemTableOutput(v: Version, small: UserKey, large: UserKey, maxOverlap: nat) returns (level: nat)
    requires v.Valid()
    ensures IsFlushLevel(v, small, large, maxOverlap, level)
    ensures level > 0 ==> forall l :: 0 <= l <= level ==> NoOverlap(v.files[l], small, large)
  {
    level := 0;
    LevelFacts(v, 0);
    var overlap := SomeFileOverlapsRange(false, v.files[0], Some(small), Some(large));
    if !overlap {
      while level < MAX_MEM_COMPACT_LEVEL
        invariant level <= MAX_MEM_COMPACT_LEVEL
        invariant forall l :: 0 <= l <= level ==> NoOverlap(v.files[l], small, large)
        invariant forall l :: 0 <= l < level ==> CanDescend(v, small, large, maxOverlap, l)
      {
        LevelFacts(v, level + 1);
        overlap := SomeFileOverlapsRange(true, v.files[level + 1], Some(small), Some(large));
        if overlap {
          break;
        }
        if level + 2 < NUM_LEVELS {
          ghost var r;
          var overlaps: seq<File>;
          overlaps, r := GetOverlappingInputs(false, v.files[level + 2], Range(Some(small), Some(large)));
          if TotalFileSize(overlaps) > maxOverlap {
            break;
          }
        }
        level := level + 1;
      }
    }
  }
}
