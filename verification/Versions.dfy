/** Table files, versions, the invariant that makes level-by-level reads right, and the read path
    (db/version_set.cc: FindFile, SomeFileOverlapsRange, Version::Get). */
module Versions {
  import opened DbFormat

  const NUM_LEVELS := 7

  /** FileMetaData together with the contents of the table it describes. */
  datatype File = File(number: nat, size: nat, smallest: InternalKey, largest: InternalKey, entries: seq<Entry>) {

    ghost predicate Valid() {
      && |entries| > 0
      && Sorted(entries)
      && smallest == entries[0].key
      && largest == entries[|entries| - 1].key
      && forall e :: e in entries ==> AtMost(smallest, e.key) && AtMost(e.key, largest)
    }
  }

  ghost predicate AllValid(files: seq<File>) {
    forall f :: f in files ==> f.Valid()
  }

  /** All that the searches over a file list need to know about the files. */
  ghost predicate Ranges(files: seq<File>) {
    forall f :: f in files ==> AtMost(f.smallest, f.largest)
  }

  lemma ValidRanges(files: seq<File>)
    requires AllValid(files)
    ensures Ranges(files)
  {
    forall f | f in files ensures AtMost(f.smallest, f.largest) {
      assert f.Valid() && f.entries[0] in f.entries;
    }
  }

  ghost function EntriesOf(files: seq<File>): set<Entry> {
    set f, e | f in files && e in f.entries :: e
  }

  /** Files in ascending order with disjoint ranges of internal keys. */
  ghost predicate Disjoint(files: seq<File>) {
    forall i, j {:trigger Less(files[i].largest, files[j].smallest)} ::
      0 <= i < j < |files| ==> Less(files[i].largest, files[j].smallest)
  }

  /** Every entry of `upper` is newer than every entry of `lower` with the same user key. */
  ghost predicate Shadows(upper: set<Entry>, lower: set<Entry>) {
    forall x, y :: x in upper && y in lower && x.key.user == y.key.user ==> x.key.seqNo > y.key.seqNo
  }

  ghost predicate FileShadows(f: File, g: File) {
    forall x, y :: x in f.entries && y in g.entries && x.key.user == y.key.user ==> x.key.seqNo > y.key.seqNo
  }

  /** Level 0 may overlap, but a higher file number means newer data. */
  ghost predicate NewerByNumber(files: seq<File>) {
    forall f, g {:trigger FileShadows(f, g)} :: f in files && g in files && f.number > g.number ==> FileShadows(f, g)
  }

  /** BySmallestKey: the order of std::set<FileMetaData*> and of every file vector. */
  predicate BySmallest(f: File, g: File) {
    Less(f.smallest, g.smallest) || (f.smallest == g.smallest && f.number < g.number)
  }

  ghost predicate Ordered(files: seq<File>) {
    forall i, j {:trigger BySmallest(files[i], files[j])} ::
      0 <= i < j < |files| ==> BySmallest(files[i], files[j])
  }

  predicate SameNumber(f: File, g: File) {
    f.number == g.number
  }

  datatype Version = Version(files: seq<seq<File>>) {

    ghost predicate Has(level: int, f: File) {
      0 <= level < |files| && f in files[level]
    }

    ghost predicate LevelOk(level: int)
      requires 0 <= level < |files|
    {
      && AllValid(files[level]) && Ranges(files[level]) && Ordered(files[level])
      && (level > 0 ==> Disjoint(files[level]))
    }

    ghost predicate Shape() {
      && |files| == NUM_LEVELS
      && (forall l {:trigger LevelOk(l)} :: 0 <= l < NUM_LEVELS ==> LevelOk(l))
      && UniqueNumbers()
    }

    /** A file number is used by at most one file of at most one level. */
    ghost predicate UniqueNumbers() {
      forall l, m, f, g {:trigger SameNumber(f, g), Has(l, f), Has(m, g)} ::
        Has(l, f) && Has(m, g) && SameNumber(f, g) ==> l == m && f == g
    }

    ghost predicate Recency() {
      && (|files| > 0 ==> NewerByNumber(files[0]))
      && forall l, m, f, g {:trigger FileShadows(f, g), Has(l, f), Has(m, g)} ::
           Has(l, f) && Has(m, g) && l < m ==> FileShadows(f, g)
    }

    /** The version invariant. */
    ghost predicate Valid() {
      Shape() && Recency() && Distinct(Entries())
    }

    ghost function Entries(): set<Entry> {
      set l, f, e | 0 <= l < |files| && f in files[l] && e in f.entries :: e
    }
  }

  /** Where an entry of a version lives. */
  lemma Locate(v: Version, x: Entry) returns (l: nat, f: File)
    requires x in v.Entries()
    ensures v.Has(l, f) && x in f.entries
  {
    l, f :| 0 <= l < |v.files| && f in v.files[l] && x in f.entries;
  }

  /** The parts of the version invariant that speak of a single level. */
  lemma LevelFacts(v: Version, level: nat)
    requires v.Valid() && level < NUM_LEVELS
    ensures AllValid(v.files[level]) && Ranges(v.files[level]) && Ordered(v.files[level])
    ensures level > 0 ==> Disjoint(v.files[level])
    ensures Distinct(EntriesOf(v.files[level]))
  {
    assert v.LevelOk(level);
    assert EntriesOf(v.files[level]) <= v.Entries();
  }

  function EmptyVersion(): (v: Version)
    ensures |v.files| == NUM_LEVELS && forall l :: 0 <= l < NUM_LEVELS ==> v.files[l] == []
  {
    Version([[], [], [], [], [], [], []])
  }

  lemma EmptyVersionValid()
    ensures EmptyVersion().Valid()
    ensures EmptyVersion().Entries() == {}
  {
    var v := EmptyVersion();
    forall l | 0 <= l < NUM_LEVELS ensures v.LevelOk(l) {
      assert v.files[l] == [];
    }
    forall l, f ensures !v.Has(l, f) {
    }
    assert v.Entries() == {};
  }

  // ---- Binary search over a disjoint level ----

  /** Where the binary search of FindFile ends, also in a level that is not in order. */
  function BinarySearch(files: seq<File>, key: InternalKey, left: nat, right: nat): (index: nat)
    requires left <= right <= |files|
    ensures index <= |files|
    decreases right - left
  {
    if left == right then right
    else
      var mid := (left + right) / 2;
      if Less(files[mid].largest, key) then BinarySearch(files, key, mid + 1, right) else BinarySearch(files, key, left, mid)
  }

  /** FindFile: the first file whose largest key is at or after `key`. */
  method FindFile(files: seq<File>, key: InternalKey) returns (right: nat)
    requires Ranges(files) && Disjoint(files)
    ensures right == BinarySearch(files, key, 0, |files|) <= |files|
    ensures forall j :: 0 <= j < right ==> Less(files[j].largest, key)
    ensures forall j :: right <= j < |files| ==> AtMost(key, files[j].largest)
  {
    var left := 0;
    right := |files|;
    while left < right
      invariant 0 <= left <= right <= |files|
      invariant BinarySearch(files, key, left, right) == BinarySearch(files, key, 0, |files|)
      invariant forall j :: 0 <= j < left ==> Less(files[j].largest, key)
      invariant forall j :: right <= j < |files| ==> AtMost(key, files[j].largest)
    {
      var mid := (left + right) / 2;
      var f := files[mid];
      if Less(f.largest, key) {
        forall j | 0 <= j <= mid ensures Less(files[j].largest, key) { LargestAscends(files, j, mid); }
        left := mid + 1;
      } else {
        forall j | mid <= j < |files| ensures AtMost(key, files[j].largest) { LargestAscends(files, mid, j); }
        right := mid;
      }
    }
  }

  lemma LargestAscends(files: seq<File>, i: nat, j: nat)
    requires Ranges(files) && Disjoint(files) && i <= j < |files|
    ensures i == j || Less(files[i].largest, files[j].largest)
  {
    assert files[j] in files;
    assert i < j ==> Less(files[i].largest, files[j].smallest);
  }

  /** Does the user-key range of the file touch [begin, end]? None means unbounded. */
  predicate Overlaps(f: File, begin: Option<UserKey>, end: Option<UserKey>) {
    !(begin.Some? && begin.value > f.largest.user) && !(end.Some? && end.value < f.smallest.user)
  }

  /** SomeFileOverlapsRange, with the linear scan for level 0 and the binary search elsewhere. */
  method SomeFileOverlapsRange(disjointSortedFiles: bool, files: seq<File>,
                               smallest: Option<UserKey>, largest: Option<UserKey>)
    returns (r: bool)
    requires Ranges(files) && (disjointSortedFiles ==> Disjoint(files))
    ensures r <==> exists f :: f in files && Overlaps(f, smallest, largest)
  {
    if !disjointSortedFiles {
      for i := 0 to |files|
        invariant forall j :: 0 <= j < i ==> !Overlaps(files[j], smallest, largest)
      {
        var f := files[i];
        if Overlaps(f, smallest, largest) {
          return true;
        }
      }
      return false;
    }
    var index := 0;
    if smallest.Some? {
      index := FindFile(files, SeekKey(smallest.value, MAX_SEQUENCE_NUMBER));
    }
    if index >= |files| {
      return false;
    }
    forall j | index < j < |files|
      ensures files[index].smallest.user <= files[j].smallest.user
    {
      assert files[index] in files && Less(files[index].largest, files[j].smallest);
    }
    r := !(largest.Some? && largest.value < files[index].smallest.user);
    if r {
      assert Overlaps(files[index], smallest, largest);
    }
  }

  // ---- Version::Get ----

  /** No entry of `f` answers a read of k at s. */
  ghost predicate Misses(f: File, k: UserKey, s: SequenceNumber) {
    forall e :: e in f.entries ==> !Visible(e, k, s)
  }

  /** `e` is the newest visible entry of the single file `f`. */
  ghost predicate Hits(f: File, k: UserKey, s: SequenceNumber, e: Entry) {
    IsNewest(ToSet(f.entries), k, s, e)
  }

  lemma SeekInFile(f: File, k: UserKey, s: SequenceNumber)
    requires f.Valid()
    ensures Seek(f.entries, k, s).Some? ==> Hits(f, k, s, Seek(f.entries, k, s).value)
    ensures Seek(f.entries, k, s).None? ==> Misses(f, k, s)
  {
    SeekFindsNewest(f.entries, k, s);
    if Seek(f.entries, k, s).None? {
      forall e | e in f.entries ensures !Visible(e, k, s) { assert e in ToSet(f.entries); }
    }
  }

  method InsertByNumber(files: seq<File>, f: File) returns (r: seq<File>)
    requires forall i, j :: 0 <= i < j < |files| ==> files[i].number >= files[j].number
    ensures forall i, j :: 0 <= i < j < |r| ==> r[i].number >= r[j].number
    ensures multiset(r) == multiset(files) + multiset{f}
  {
    var i := 0;
    while i < |files| && files[i].number > f.number
      invariant i <= |files|
      invariant forall j :: 0 <= j < i ==> files[j].number > f.number
    {
      i := i + 1;
    }
    r := files[..i] + [f] + files[i..];
    assert files == files[..i] + files[i..];
  }

  /** std::sort(tmp, NewestFirst). */
  method SortNewestFirst(files: seq<File>) returns (r: seq<File>)
    ensures forall i, j :: 0 <= i < j < |r| ==> r[i].number >= r[j].number
    ensures multiset(r) == multiset(files)
  {
    r := [];
    for i := 0 to |files|
      invariant forall i, j :: 0 <= i < j < |r| ==> r[i].number >= r[j].number
      invariant multiset(r) == multiset(files[..i])
    {
      r := InsertByNumber(r, files[i]);
      assert files[..i + 1] == files[..i] + [files[i]];
    }
    assert files[..|files|] == files;
  }

  /** The level-0 part of Version::Get: the files whose range contains k, newest first. */
  method Level0Candidates(files: seq<File>, k: UserKey) returns (tmp: seq<File>)
    ensures forall f :: f in tmp <==> f in files && f.smallest.user <= k <= f.largest.user
    ensures forall i, j :: 0 <= i < j < |tmp| ==> tmp[i].number >= tmp[j].number
  {
    var found: seq<File> := [];
    for i := 0 to |files|
      invariant forall f :: f in found <==> f in files[..i] && f.smallest.user <= k <= f.largest.user
    {
      var f := files[i];
      if k >= f.smallest.user && k <= f.largest.user {
        found := found + [f];
      }
      assert files[..i + 1] == files[..i] + [f];
    }
    assert files[..|files|] == files;
    tmp := SortNewestFirst(found);
    forall f ensures f in tmp <==> f in found {
      assert f in tmp <==> f in multiset(tmp);
      assert f in found <==> f in multiset(found);
    }
  }

  /** `files` is a right list of files to read at this level, in reading order: whatever it leaves out
      either cannot answer, or sorts after the single file picked by the binary search. */
  ghost predicate SearchList(v: Version, level: nat, files: seq<File>, k: UserKey, s: SequenceNumber) {
    && (forall f :: f in files ==> v.Has(level, f))
    && (forall f :: v.Has(level, f) && f !in files ==> Misses(f, k, s) || Passed(level, files, f, k, s))
    && (level > 0 ==> |files| <= 1)
    && (level == 0 ==> forall i, j :: 0 <= i < j < |files| ==> files[i].number >= files[j].number)
  }

  ghost predicate Passed(level: nat, files: seq<File>, f: File, k: UserKey, s: SequenceNumber) {
    level > 0 && |files| == 1 && AtMost(SeekKey(k, s), files[0].largest) && Less(files[0].largest, f.smallest)
  }

  /** The one file of a level below level 0 that is read, if its range starts before the key. */
  function FileToRead(files: seq<File>, k: UserKey, s: SequenceNumber): seq<File> {
    var index := BinarySearch(files, SeekKey(k, s), 0, |files|);
    if index >= |files| || k < files[index].smallest.user then [] else [files[index]]
  }

  /** What Version::Get finds from a level on, also in a version that is not in order. */
  function SearchLevels(v: Version, level: nat, k: UserKey, s: SequenceNumber): Option<Entry>
    requires 0 < level
    decreases |v.files| - level
  {
    if level >= |v.files| then None
    else
      var files := FileToRead(v.files[level], k, s);
      if files != [] && Seek(files[0].entries, k, s).Some? then Seek(files[0].entries, k, s)
      else SearchLevels(v, level + 1, k, s)
  }

  method FilesToSearch(v: Version, level: nat, k: UserKey, s: SequenceNumber) returns (files: seq<File>)
    requires v.Shape() && level < NUM_LEVELS
    ensures SearchList(v, level, files, k, s)
    ensures level > 0 ==> files == FileToRead(v.files[level], k, s)
  {
    if level == 0 {
      files := Level0Candidates(v.files[0], k);
    } else {
      var all := v.files[level];
      assert v.LevelOk(level);
      var index := FindFile(all, SeekKey(k, s));
      if index >= |all| || k < all[index].smallest.user {
        files := [];
      } else {
        files := [all[index]];
      }
      forall f | f in all && f !in files
        ensures Misses(f, k, s) || Passed(level, files, f, k, s)
      {
        var j :| 0 <= j < |all| && all[j] == f;
        if j < index {
          assert f.Valid();
        } else if files == [] {
          assert index < j ==> Less(all[index].largest, f.smallest);
          assert all[index] in all && f.Valid();
        } else {
          assert j > index && Less(all[index].largest, f.smallest);
        }
      }
    }
  }

  /** Once the one file that FindFile picks has been read without a hit, no later file can hit either. */
  lemma LaterFilesMiss(f: File, g: File, k: UserKey, s: SequenceNumber)
    requires f.Valid() && g.Valid()
    requires AtMost(SeekKey(k, s), f.largest) && Less(f.largest, g.smallest)
    ensures Misses(f, k, s) ==> Misses(g, k, s)
    ensures Misses(g, k, s) || exists e :: e in f.entries && Visible(e, k, s)
    ensures forall e, x :: e in g.entries && Visible(e, k, s) && Hits(f, k, s, x) ==> e.key.seqNo <= x.key.seqNo
  {
    var last := f.entries[|f.entries| - 1];
    assert last in f.entries;
    forall e | e in g.entries && Visible(e, k, s)
      ensures Visible(last, k, s) && e.key.seqNo <= last.key.seqNo
    {
      assert AtMost(g.smallest, e.key);
    }
    forall x | Hits(f, k, s, x) && Visible(last, k, s)
      ensures last.key.seqNo <= x.key.seqNo
    {
      assert last in ToSet(f.entries);
    }
  }

  /** The files that have been searched in vain before file i of the list for `level`. */
  ghost predicate SearchedBefore(v: Version, level: int, k: UserKey, s: SequenceNumber) {
    forall l, f :: 0 <= l < level && v.Has(l, f) ==> Misses(f, k, s)
  }

  /** Within the level of the hit, nothing visible is newer than the hit. */
  lemma FirstHitInLevel(v: Version, level: nat, files: seq<File>, i: nat, k: UserKey, s: SequenceNumber, e: Entry,
                        g: File, x: Entry)
    requires v.Shape() && v.Recency() && level < NUM_LEVELS && i < |files|
    requires SearchList(v, level, files, k, s)
    requires forall j :: 0 <= j < i ==> Misses(files[j], k, s)
    requires Hits(files[i], k, s, e)
    requires v.Has(level, g) && x in g.entries && Visible(x, k, s)
    ensures x.key.seqNo <= e.key.seqNo
  {
    var f := files[i];
    assert f in files && v.LevelOk(level);
    if g == f {
      assert x in ToSet(f.entries);
    } else if g in files {
      var j :| 0 <= j < |files| && files[j] == g;
      assert j > i && level == 0 && !SameNumber(f, g);
      assert FileShadows(f, g);
    } else {
      assert Passed(level, files, g, k, s);
      LaterFilesMiss(f, g, k, s);
    }
  }

  /** "Entries never hop across levels": the first hit is the newest visible entry of the whole version. */
  lemma FirstHitIsNewest(v: Version, level: nat, files: seq<File>, i: nat, k: UserKey, s: SequenceNumber, e: Entry)
    requires v.Shape() && v.Recency() && level < NUM_LEVELS && i < |files|
    requires SearchedBefore(v, level, k, s)
    requires SearchList(v, level, files, k, s)
    requires forall j :: 0 <= j < i ==> Misses(files[j], k, s)
    requires Hits(files[i], k, s, e)
    ensures IsNewest(v.Entries(), k, s, e)
  {
    var f := files[i];
    assert f in files && v.Has(level, f);
    forall x | x in v.Entries() && Visible(x, k, s)
      ensures x.key.seqNo <= e.key.seqNo
    {
      var l, g := Locate(v, x);
      if l > level {
        assert FileShadows(f, g);
      } else if l == level {
        FirstHitInLevel(v, level, files, i, k, s, e, g, x);
      }
    }
  }

  lemma NothingFound(v: Version, k: UserKey, s: SequenceNumber)
    requires v.Shape() && SearchedBefore(v, NUM_LEVELS, k, s)
    ensures NoneVisible(v.Entries(), k, s)
  {
    forall x | x in v.Entries()
      ensures !Visible(x, k, s)
    {
      var l, g := Locate(v, x);
    }
  }

  /** Read the files of one level in turn, up to the first that has the user key. */
  method SearchFiles(files: seq<File>, k: UserKey, s: SequenceNumber) returns (saved: Option<Entry>, ghost i: nat)
    requires AllValid(files)
    ensures saved.None? ==> forall f :: f in files ==> Misses(f, k, s)
    ensures saved.Some? ==> i < |files| && Hits(files[i], k, s, saved.value) && forall j :: 0 <= j < i ==> Misses(files[j], k, s)
  {
    i := 0;
    for n := 0 to |files|
      invariant forall j :: 0 <= j < n ==> Misses(files[j], k, s)
    {
      var f := files[n];
      assert f in files;
      SeekInFile(f, k, s);
      saved := Seek(f.entries, k, s);
      if saved.Some? {
        i := n;
        return;
      }
    }
    saved := None;
  }

  lemma LevelSearched(v: Version, level: nat, files: seq<File>, k: UserKey, s: SequenceNumber)
    requires v.Shape() && level < NUM_LEVELS && SearchList(v, level, files, k, s) && SearchedBefore(v, level, k, s)
    requires forall f :: f in files ==> Misses(f, k, s)
    ensures SearchedBefore(v, level + 1, k, s)
  {
    assert v.LevelOk(level);
    forall f | v.Has(level, f) ensures Misses(f, k, s) {
      if f !in files && Passed(level, files, f, k, s) {
        assert files[0] in files;
        LaterFilesMiss(files[0], f, k, s);
      }
    }
  }

  /** Version::Get: level by level, stopping at the first file that has the user key.
      Status NotFound is None. */
  method Get(v: Version, k: UserKey, s: SequenceNumber) returns (found: Option<Entry>)
    requires v.Valid()
    ensures found == Newest(v.Entries(), k, s)
  {
    for level := 0 to NUM_LEVELS
      invariant SearchedBefore(v, level, k, s)
    {
      var files := FilesToSearch(v, level, k, s);
      assert v.LevelOk(level);
      ghost var i;
      found, i := SearchFiles(files, k, s);
      if found.Some? {
        FirstHitIsNewest(v, level, files, i, k, s, found.value);
        NewestIs(v.Entries(), k, s, found.value);
        return;
      }
      LevelSearched(v, level, files, k, s);
    }
    NothingFound(v, k, s);
    NewestIsNone(v.Entries(), k, s);
    return None;
  }
}
