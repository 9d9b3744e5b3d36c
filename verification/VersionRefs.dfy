/** Reference counts of versions and table files, and the list of live versions (db/version_set.cc: Version::Ref,
    Version::Unref, ~Version, Builder, AppendVersion, AddLiveFiles). Objects are named by identifiers. */
module VersionRefs {
  import opened DbFormat

  /** A builder holds its base version and the files that edits have added. */
  datatype FileBuilder = FileBuilder(base: nat, added: seq<nat>)

  /** The version objects that exist, with the file objects that each refers to, and their counts; the file objects
      that exist, with their numbers and counts; the linked list behind dummy_versions_, oldest first; the current
      version; iterators, reads, flushes and compactions, each with the version that it has referenced; builders. */
  datatype Refs = Refs(files: map<nat, seq<nat>>, versionRefs: map<nat, nat>, numbers: map<nat, nat>, fileRefs: map<nat, nat>,
                       list: seq<nat>, current: Option<nat>, readers: map<nat, nat>, builders: map<nat, FileBuilder>)

  ghost predicate NoTwice(ids: seq<nat>) {
    forall i, j :: 0 <= i < j < |ids| ==> ids[i] != ids[j]
  }

  // ---- What the counts should be ----

  ghost function ReadersOf(readers: map<nat, nat>, v: nat): set<nat> {
    set r | r in readers && readers[r] == v
  }

  ghost function BuildersOn(builders: map<nat, FileBuilder>, v: nat): set<nat> {
    set b | b in builders && builders[b].base == v
  }

  /** How many hold the version: the version set itself if it is current, readers and builders. */
  ghost function Holders(s: Refs, v: nat): nat {
    (if s.current == Some(v) then 1 else 0) + |ReadersOf(s.readers, v)| + |BuildersOn(s.builders, v)|
  }

  ghost function VersionsWith(files: map<nat, seq<nat>>, f: nat): set<nat> {
    set v | v in files && f in files[v]
  }

  ghost function BuildersWith(builders: map<nat, FileBuilder>, f: nat): set<nat> {
    set b | b in builders && f in builders[b].added
  }

  /** How many hold the file: versions, in the list or not yet, and builders. */
  ghost function FileHolders(s: Refs, f: nat): nat {
    |VersionsWith(s.files, f)| + |BuildersWith(s.builders, f)|
  }

  /** All references lead to objects that exist. */
  ghost predicate Known(s: Refs) {
    && s.files.Keys == s.versionRefs.Keys && s.numbers.Keys == s.fileRefs.Keys
    && (forall v :: v in s.files ==> NoTwice(s.files[v]))
    && (forall v, f :: v in s.files && f in s.files[v] ==> f in s.numbers)
    && (forall b :: b in s.builders ==> s.builders[b].base in s.files && NoTwice(s.builders[b].added))
    && (forall b, f :: b in s.builders && f in s.builders[b].added ==> f in s.numbers)
    && (forall r :: r in s.readers ==> s.readers[r] in s.files)
    && (s.current.Some? ==> s.current.value in s.files)
  }

  ghost predicate VersionCounted(s: Refs, v: nat, leaving: Option<nat>)
    requires v in s.versionRefs
  {
    s.versionRefs[v] == Holders(s, v) + if leaving == Some(v) then 1 else 0
  }

  ghost predicate FileCounted(s: Refs, f: nat)
    requires f in s.fileRefs
  {
    s.fileRefs[f] == FileHolders(s, f) && s.fileRefs[f] > 0
  }

  datatype Part = Existing | VersionCounts | FileCounts | Listing

  ghost predicate PartAt(s: Refs, leaving: Option<nat>, part: Part, key: nat) {
    match part
    case Existing => Known(s)
    case VersionCounts => forall v :: v in s.versionRefs ==> VersionCounted(s, v, leaving)
    case FileCounts => forall f :: f in s.fileRefs ==> FileCounted(s, f)
    case Listing => NoTwice(s.list) && forall v :: v in s.list <==> v in s.versionRefs && s.versionRefs[v] > 0
  }

  /** The key keeps the part out of sight of proofs that only pass it on. */
  ghost predicate PartOk(s: Refs, leaving: Option<nat>, part: Part) {
    forall key {:trigger PartAt(s, leaving, part, key)} :: PartAt(s, leaving, part, key)
  }

  /** Every count is the number of holders; `leaving` has lost a holder, but the count still includes it. The list
      holds the versions whose count is not zero. */
  ghost predicate Counted(s: Refs, leaving: Option<nat>) {
    && PartOk(s, leaving, Existing) && PartOk(s, leaving, VersionCounts)
    && PartOk(s, leaving, FileCounts) && PartOk(s, leaving, Listing)
  }

  // ---- Files ----

  /** The last reference deletes the object. */
  function WithoutFileRef(s: Refs, f: nat): Refs
    requires f in s.fileRefs && s.fileRefs[f] > 0
  {
    if s.fileRefs[f] > 1 then s.(fileRefs := s.fileRefs[f := s.fileRefs[f] - 1])
    else s.(fileRefs := s.fileRefs - {f}, numbers := s.numbers - {f})
  }

  /** One turn of the loop of ~Version. */
  function FileDropped(s: Refs, v: nat): Refs
    requires v in s.files && s.files[v] != [] && s.files[v][0] in s.fileRefs && s.fileRefs[s.files[v][0]] > 0
  {
    WithoutFileRef(s, s.files[v][0]).(files := s.files[v := s.files[v][1..]])
  }

  lemma HeadAndTail(ids: seq<nat>)
    requires ids != [] && NoTwice(ids)
    ensures NoTwice(ids[1..]) && ids[0] !in ids[1..] && forall g :: g in ids <==> g == ids[0] || g in ids[1..]
  {
    assert ids == [ids[0]] + ids[1..];
  }

  lemma FirstIsCounted(s: Refs, v: nat, leaving: Option<nat>)
    requires PartOk(s, leaving, Existing) && PartOk(s, leaving, FileCounts) && v in s.files && s.files[v] != []
    ensures s.files[v][0] in s.fileRefs && s.fileRefs[s.files[v][0]] > 0
  {
    assert PartAt(s, leaving, Existing, 0) && PartAt(s, leaving, FileCounts, 0);
    assert s.files[v][0] in s.files[v];
    assert FileCounted(s, s.files[v][0]);
  }

  lemma DropKeeps(s: Refs, v: nat, leaving: Option<nat>)
    requires Counted(s, leaving) && v in s.files && s.files[v] != []
    ensures s.files[v][0] in s.fileRefs && s.fileRefs[s.files[v][0]] > 0
    ensures Counted(FileDropped(s, v), leaving)
  {
    FirstIsCounted(s, v, leaving);
    DropExisting(s, v, leaving);
    SameVersionCounts(s, FileDropped(s, v), leaving);
    DropFileCounts(s, v, leaving);
    SameListing(s, FileDropped(s, v), leaving);
  }

  lemma SameVersionCounts(s: Refs, t: Refs, leaving: Option<nat>)
    requires PartOk(s, leaving, VersionCounts) && t.versionRefs == s.versionRefs && t.current == s.current && t.readers == s.readers
    requires forall w :: BuildersOn(t.builders, w) == BuildersOn(s.builders, w)
    ensures PartOk(t, leaving, VersionCounts)
  {
    assert PartAt(s, leaving, VersionCounts, 0);
    forall w | w in t.versionRefs ensures VersionCounted(t, w, leaving) {
      assert VersionCounted(s, w, leaving);
    }
  }

  lemma SameListing(s: Refs, t: Refs, leaving: Option<nat>)
    requires PartOk(s, leaving, Listing) && t.versionRefs == s.versionRefs && t.list == s.list
    ensures PartOk(t, leaving, Listing)
  {
    assert PartAt(s, leaving, Listing, 0);
  }

  /** The holders of all files but f are the same. */
  ghost predicate OnlyFile(s: Refs, t: Refs, f: nat) {
    forall g {:trigger FileHolders(t, g)} :: g != f ==> FileHolders(t, g) == FileHolders(s, g)
  }

  lemma DropHolders(s: Refs, v: nat)
    requires v in s.files && s.files[v] != [] && NoTwice(s.files[v])
    ensures var f, t := s.files[v][0], s.(files := s.files[v := s.files[v][1..]]);
      FileHolders(t, f) == FileHolders(s, f) - 1 && OnlyFile(s, t, f)
  {
    var f, t := s.files[v][0], s.(files := s.files[v := s.files[v][1..]]);
    HeadAndTail(s.files[v]);
    assert v in VersionsWith(s.files, f);
    assert VersionsWith(t.files, f) == VersionsWith(s.files, f) - {v};
    forall g | g != f ensures FileHolders(t, g) == FileHolders(s, g) {
      assert VersionsWith(t.files, g) == VersionsWith(s.files, g);
    }
  }

  lemma DropFileCounts(s: Refs, v: nat, leaving: Option<nat>)
    requires PartOk(s, leaving, Existing) && PartOk(s, leaving, FileCounts) && v in s.files && s.files[v] != []
    requires s.files[v][0] in s.fileRefs && s.fileRefs[s.files[v][0]] > 0
    ensures PartOk(FileDropped(s, v), leaving, FileCounts)
  {
    assert PartAt(s, leaving, Existing, 0) && PartAt(s, leaving, FileCounts, 0);
    var f, t := s.files[v][0], FileDropped(s, v);
    DropHolders(s, v);
    assert FileCounted(s, f);
    forall g | g in t.fileRefs ensures FileCounted(t, g) {
      assert FileCounted(s, g);
      assert FileHolders(t, g) == FileHolders(s.(files := t.files), g);
    }
  }

  /** An object without holders is in no version and in no builder. */
  lemma NoHolders(s: Refs, f: nat)
    requires FileHolders(s, f) == 0
    ensures Unheld(s, f)
  {
    forall v | v in s.files ensures f !in s.files[v] {
      assert v !in VersionsWith(s.files, f);
    }
    forall b | b in s.builders ensures f !in s.builders[b].added {
      assert b !in BuildersWith(s.builders, f);
    }
  }

  lemma DropExisting(s: Refs, v: nat, leaving: Option<nat>)
    requires PartOk(s, leaving, Existing) && PartOk(s, leaving, FileCounts) && v in s.files && s.files[v] != []
    requires s.files[v][0] in s.fileRefs && s.fileRefs[s.files[v][0]] > 0
    ensures PartOk(FileDropped(s, v), leaving, Existing)
  {
    var f, t := s.files[v][0], s.(files := s.files[v := s.files[v][1..]]);
    ShorterKnown(s, v, leaving);
    LastHolderGone(s, v, leaving);
    FileUnrefKnown(t, f, leaving);
    assert FileDropped(s, v) == WithoutFileRef(t, f);
  }

  lemma ShorterKnown(s: Refs, v: nat, leaving: Option<nat>)
    requires PartOk(s, leaving, Existing) && v in s.files && s.files[v] != []
    ensures PartOk(s.(files := s.files[v := s.files[v][1..]]), leaving, Existing)
    ensures NoTwice(s.files[v])
  {
    assert PartAt(s, leaving, Existing, 0);
    HeadAndTail(s.files[v]);
  }

  ghost predicate Unheld(s: Refs, f: nat) {
    (forall v :: v in s.files ==> f !in s.files[v]) && (forall b :: b in s.builders ==> f !in s.builders[b].added)
  }

  lemma LastHolderGone(s: Refs, v: nat, leaving: Option<nat>)
    requires PartOk(s, leaving, FileCounts) && v in s.files && s.files[v] != [] && NoTwice(s.files[v])
    requires s.files[v][0] in s.fileRefs
    ensures s.fileRefs[s.files[v][0]] == 1 ==> Unheld(s.(files := s.files[v := s.files[v][1..]]), s.files[v][0])
  {
    assert PartAt(s, leaving, FileCounts, 0);
    assert FileCounted(s, s.files[v][0]);
    DropHolders(s, v);
    if s.fileRefs[s.files[v][0]] == 1 {
      NoHolders(s.(files := s.files[v := s.files[v][1..]]), s.files[v][0]);
    }
  }

  /** Dropping a reference to a file object leaves all other references leading to objects that exist, unless the
      object goes while it is still held. */
  lemma FileUnrefKnown(s: Refs, f: nat, leaving: Option<nat>)
    requires PartOk(s, leaving, Existing) && f in s.fileRefs && s.fileRefs[f] > 0 && (s.fileRefs[f] == 1 ==> Unheld(s, f))
    ensures PartOk(WithoutFileRef(s, f), leaving, Existing)
  {
    assert PartAt(s, leaving, Existing, 0);
  }

  /** One turn of the loop of ~Builder. */
  function AddedDropped(s: Refs, b: nat): Refs
    requires b in s.builders && s.builders[b].added != []
    requires s.builders[b].added[0] in s.fileRefs && s.fileRefs[s.builders[b].added[0]] > 0
  {
    WithoutFileRef(s, s.builders[b].added[0]).(builders := WithoutFirst(s.builders, b))
  }

  function WithoutFirst(builders: map<nat, FileBuilder>, b: nat): map<nat, FileBuilder>
    requires b in builders && builders[b].added != []
  {
    builders[b := builders[b].(added := builders[b].added[1..])]
  }

  lemma FirstAddedIsCounted(s: Refs, b: nat)
    requires PartOk(s, None, Existing) && PartOk(s, None, FileCounts) && b in s.builders && s.builders[b].added != []
    ensures s.builders[b].added[0] in s.fileRefs && s.fileRefs[s.builders[b].added[0]] > 0
  {
    assert PartAt(s, None, Existing, 0) && PartAt(s, None, FileCounts, 0);
    assert s.builders[b].added[0] in s.builders[b].added;
    assert FileCounted(s, s.builders[b].added[0]);
  }

  lemma AddedDropKeeps(s: Refs, b: nat)
    requires Counted(s, None) && b in s.builders && s.builders[b].added != []
    ensures s.builders[b].added[0] in s.fileRefs && s.fileRefs[s.builders[b].added[0]] > 0
    ensures Counted(AddedDropped(s, b), None)
  {
    FirstAddedIsCounted(s, b);
    AddedDropExisting(s, b);
    forall w ensures BuildersOn(WithoutFirst(s.builders, b), w) == BuildersOn(s.builders, w) {
    }
    SameVersionCounts(s, AddedDropped(s, b), None);
    AddedDropFileCounts(s, b);
    SameListing(s, AddedDropped(s, b), None);
  }

  lemma AddedDropHolders(s: Refs, b: nat)
    requires b in s.builders && s.builders[b].added != [] && NoTwice(s.builders[b].added)
    ensures var f, t := s.builders[b].added[0], s.(builders := WithoutFirst(s.builders, b));
      FileHolders(t, f) == FileHolders(s, f) - 1 && OnlyFile(s, t, f)
  {
    var f, t := s.builders[b].added[0], s.(builders := WithoutFirst(s.builders, b));
    HeadAndTail(s.builders[b].added);
    assert b in BuildersWith(s.builders, f);
    assert BuildersWith(t.builders, f) == BuildersWith(s.builders, f) - {b};
    forall g | g != f ensures FileHolders(t, g) == FileHolders(s, g) {
      assert BuildersWith(t.builders, g) == BuildersWith(s.builders, g);
    }
  }

  lemma AddedDropFileCounts(s: Refs, b: nat)
    requires PartOk(s, None, Existing) && PartOk(s, None, FileCounts) && b in s.builders && s.builders[b].added != []
    requires s.builders[b].added[0] in s.fileRefs && s.fileRefs[s.builders[b].added[0]] > 0
    ensures PartOk(AddedDropped(s, b), None, FileCounts)
  {
    assert PartAt(s, None, Existing, 0) && PartAt(s, None, FileCounts, 0);
    var f, t := s.builders[b].added[0], AddedDropped(s, b);
    AddedDropHolders(s, b);
    assert FileCounted(s, f);
    forall g | g in t.fileRefs ensures FileCounted(t, g) {
      assert FileCounted(s, g);
      assert FileHolders(t, g) == FileHolders(s.(builders := t.builders), g);
    }
  }

  lemma AddedDropExisting(s: Refs, b: nat)
    requires PartOk(s, None, Existing) && PartOk(s, None, FileCounts) && b in s.builders && s.builders[b].added != []
    requires s.builders[b].added[0] in s.fileRefs && s.fileRefs[s.builders[b].added[0]] > 0
    ensures PartOk(AddedDropped(s, b), None, Existing)
  {
    var f, t := s.builders[b].added[0], s.(builders := WithoutFirst(s.builders, b));
    FewerAddedKnown(s, b);
    LastAddedGone(s, b);
    FileUnrefKnown(t, f, None);
    assert AddedDropped(s, b) == WithoutFileRef(t, f);
  }

  lemma FewerAddedKnown(s: Refs, b: nat)
    requires PartOk(s, None, Existing) && b in s.builders && s.builders[b].added != []
    ensures PartOk(s.(builders := WithoutFirst(s.builders, b)), None, Existing)
    ensures NoTwice(s.builders[b].added)
  {
    assert PartAt(s, None, Existing, 0);
    HeadAndTail(s.builders[b].added);
  }

  lemma LastAddedGone(s: Refs, b: nat)
    requires PartOk(s, None, FileCounts) && b in s.builders && s.builders[b].added != [] && NoTwice(s.builders[b].added)
    requires s.builders[b].added[0] in s.fileRefs
    ensures s.fileRefs[s.builders[b].added[0]] == 1 ==>
      Unheld(s.(builders := WithoutFirst(s.builders, b)), s.builders[b].added[0])
  {
    assert PartAt(s, None, FileCounts, 0);
    assert FileCounted(s, s.builders[b].added[0]);
    AddedDropHolders(s, b);
    if s.fileRefs[s.builders[b].added[0]] == 1 {
      NoHolders(s.(builders := WithoutFirst(s.builders, b)), s.builders[b].added[0]);
    }
  }

  /** MaybeAddFile, when it adds. */
  function FileTaken(s: Refs, v: nat, f: nat): Refs
    requires v in s.files && f in s.fileRefs
  {
    s.(files := s.files[v := s.files[v] + [f]], fileRefs := s.fileRefs[f := s.fileRefs[f] + 1])
  }

  lemma TakeKeeps(s: Refs, v: nat, f: nat)
    requires Counted(s, None) && v in s.files && f in s.fileRefs && f !in s.files[v]
    ensures Counted(FileTaken(s, v, f), None)
  {
    TakeExisting(s, v, f);
    SameVersionCounts(s, FileTaken(s, v, f), None);
    TakeFileCounts(s, v, f);
    SameListing(s, FileTaken(s, v, f), None);
  }

  lemma TakeExisting(s: Refs, v: nat, f: nat)
    requires PartOk(s, None, Existing) && v in s.files && f in s.fileRefs && f !in s.files[v]
    ensures PartOk(FileTaken(s, v, f), None, Existing)
  {
    assert PartAt(s, None, Existing, 0);
  }

  lemma TakeFileCounts(s: Refs, v: nat, f: nat)
    requires PartOk(s, None, FileCounts) && v in s.files && f in s.fileRefs && f !in s.files[v]
    ensures PartOk(FileTaken(s, v, f), None, FileCounts)
  {
    assert PartAt(s, None, FileCounts, 0);
    var t := FileTaken(s, v, f);
    assert v !in VersionsWith(s.files, f);
    assert VersionsWith(t.files, f) == VersionsWith(s.files, f) + {v};
    forall g | g in t.fileRefs ensures FileCounted(t, g) {
      assert FileCounted(s, g);
      if g != f {
        assert VersionsWith(t.files, g) == VersionsWith(s.files, g);
      }
    }
  }

  /** A new FileMetaData object for a file that an edit adds. */
  function FileAdded(s: Refs, b: nat, f: nat, number: nat): Refs
    requires b in s.builders
  {
    s.(numbers := s.numbers[f := number], fileRefs := s.fileRefs[f := 1],
       builders := s.builders[b := s.builders[b].(added := s.builders[b].added + [f])])
  }

  lemma AddKeeps(s: Refs, b: nat, f: nat, number: nat)
    requires Counted(s, None) && b in s.builders && f !in s.numbers
    ensures Counted(FileAdded(s, b, f, number), None)
  {
    var t := FileAdded(s, b, f, number);
    AddExisting(s, b, f, number);
    forall w ensures BuildersOn(t.builders, w) == BuildersOn(s.builders, w) {
    }
    SameVersionCounts(s, t, None);
    AddFileCounts(s, b, f, number);
    SameListing(s, t, None);
  }

  lemma AddExisting(s: Refs, b: nat, f: nat, number: nat)
    requires PartOk(s, None, Existing) && b in s.builders && f !in s.numbers
    ensures PartOk(FileAdded(s, b, f, number), None, Existing)
  {
    assert PartAt(s, None, Existing, 0);
  }

  lemma AddFileCounts(s: Refs, b: nat, f: nat, number: nat)
    requires PartOk(s, None, Existing) && PartOk(s, None, FileCounts) && b in s.builders && f !in s.numbers
    ensures PartOk(FileAdded(s, b, f, number), None, FileCounts)
  {
    assert PartAt(s, None, Existing, 0) && PartAt(s, None, FileCounts, 0);
    var t := FileAdded(s, b, f, number);
    assert VersionsWith(t.files, f) == {} && BuildersWith(t.builders, f) == {b};
    forall g | g in t.fileRefs ensures FileCounted(t, g) {
      if g != f {
        assert FileCounted(s, g);
        assert BuildersWith(t.builders, g) == BuildersWith(s.builders, g);
      }
    }
  }

  // ---- Versions ----

  /** Only the holders of v are counted anew. */
  lemma OneVersionCount(s: Refs, t: Refs, v: nat, was: Option<nat>, now: Option<nat>)
    requires PartOk(s, was, VersionCounts) && t.versionRefs.Keys == s.versionRefs.Keys + {v}
    requires forall w :: w != v && w in s.versionRefs ==> t.versionRefs[w] == s.versionRefs[w] && Holders(t, w) == Holders(s, w)
    requires (was == None || was == Some(v)) && (now == None || now == Some(v)) && VersionCounted(t, v, now)
    ensures PartOk(t, now, VersionCounts)
  {
    assert PartAt(s, was, VersionCounts, 0);
    forall w | w in t.versionRefs ensures VersionCounted(t, w, now) {
      if w != v {
        assert VersionCounted(s, w, was);
      }
    }
  }

  lemma SameFileCounts(s: Refs, t: Refs, was: Option<nat>, now: Option<nat>)
    requires PartOk(s, was, FileCounts) && t.fileRefs == s.fileRefs
    requires forall f :: VersionsWith(t.files, f) == VersionsWith(s.files, f) && BuildersWith(t.builders, f) == BuildersWith(s.builders, f)
    ensures PartOk(t, now, FileCounts)
  {
    assert PartAt(s, was, FileCounts, 0);
    forall f | f in t.fileRefs ensures FileCounted(t, f) {
      assert FileCounted(s, f);
    }
  }

  lemma SameLive(s: Refs, t: Refs, was: Option<nat>, now: Option<nat>)
    requires PartOk(s, was, Listing) && t.list == s.list && t.versionRefs.Keys == s.versionRefs.Keys
    requires forall w :: w in s.versionRefs ==> (t.versionRefs[w] > 0 <==> s.versionRefs[w] > 0)
    ensures PartOk(t, now, Listing)
  {
    assert PartAt(s, was, Listing, 0);
  }

  /** Other holders of the same objects. */
  lemma StillExisting(s: Refs, t: Refs, was: Option<nat>, now: Option<nat>)
    requires PartOk(s, was, Existing) && t.versionRefs.Keys == s.versionRefs.Keys
    requires t.files == s.files && t.numbers == s.numbers && t.fileRefs == s.fileRefs
    requires forall r :: r in t.readers ==> t.readers[r] in s.versionRefs
    requires forall b :: b in t.builders ==>
      (b in s.builders && t.builders[b] == s.builders[b]) || (t.builders[b].base in s.versionRefs && t.builders[b].added == [])
    requires t.current.Some? ==> t.current.value in s.versionRefs
    ensures PartOk(t, now, Existing)
  {
    assert PartAt(s, was, Existing, 0);
  }

  lemma AreKnown(s: Refs, leaving: Option<nat>)
    requires PartOk(s, leaving, Existing)
    ensures s.versionRefs.Keys == s.files.Keys && (s.current.Some? ==> s.current.value in s.versionRefs)
    ensures forall r :: r in s.readers ==> s.readers[r] in s.versionRefs
    ensures forall b :: b in s.builders ==> s.builders[b].base in s.versionRefs
  {
    assert PartAt(s, leaving, Existing, 0);
  }

  lemma CountOf(s: Refs, v: nat, leaving: Option<nat>)
    requires PartOk(s, leaving, VersionCounts) && v in s.versionRefs
    ensures VersionCounted(s, v, leaving)
  {
    assert PartAt(s, leaving, VersionCounts, 0);
  }

  /** A new Version object: it is not in the list yet. */
  function Created(s: Refs, v: nat): Refs {
    s.(files := s.files[v := []], versionRefs := s.versionRefs[v := 0])
  }

  lemma CreateKeeps(s: Refs, v: nat)
    requires Counted(s, None) && v !in s.files
    ensures Counted(Created(s, v), None)
  {
    var t := Created(s, v);
    NobodyYet(s, v);
    OneVersionCount(s, t, v, None, None);
    forall f ensures VersionsWith(t.files, f) == VersionsWith(s.files, f) {
    }
    SameFileCounts(s, t, None, None);
    CreateExisting(s, v);
  }

  /** Nobody holds a version that does not exist. */
  lemma NobodyYet(s: Refs, v: nat)
    requires PartOk(s, None, Existing) && v !in s.files
    ensures Holders(s, v) == 0 && v !in s.versionRefs
  {
    assert PartAt(s, None, Existing, 0);
    assert ReadersOf(s.readers, v) == {} && BuildersOn(s.builders, v) == {};
  }

  lemma CreateExisting(s: Refs, v: nat)
    requires PartOk(s, None, Existing) && PartOk(s, None, Listing) && v !in s.files
    ensures PartOk(Created(s, v), None, Existing) && PartOk(Created(s, v), None, Listing)
  {
    assert PartAt(s, None, Existing, 0) && PartAt(s, None, Listing, 0);
  }

  function Counting(s: Refs, v: nat): Refs
    requires v in s.versionRefs
  {
    s.(versionRefs := s.versionRefs[v := s.versionRefs[v] + 1])
  }

  /** A reader or a compaction references a version. */
  function ReaderAdded(s: Refs, r: nat, v: nat): Refs
    requires v in s.versionRefs
  {
    Counting(s, v).(readers := s.readers[r := v])
  }

  lemma OneMoreReader(s: Refs, t: Refs, r: nat, v: nat)
    requires r !in s.readers && t.readers == s.readers[r := v] && t.current == s.current && t.builders == s.builders
    ensures Holders(t, v) == Holders(s, v) + 1 && forall w :: w != v ==> Holders(t, w) == Holders(s, w)
  {
    assert ReadersOf(t.readers, v) == ReadersOf(s.readers, v) + {r};
    forall w | w != v ensures Holders(t, w) == Holders(s, w) {
      assert ReadersOf(t.readers, w) == ReadersOf(s.readers, w);
    }
  }

  lemma ReaderKeeps(s: Refs, r: nat, v: nat)
    requires Counted(s, None) && r !in s.readers && v in s.versionRefs && s.versionRefs[v] > 0
    ensures Counted(ReaderAdded(s, r, v), None)
  {
    var t := ReaderAdded(s, r, v);
    AreKnown(s, None);
    CountOf(s, v, None);
    OneMoreReader(s, t, r, v);
    OneVersionCount(s, t, v, None, None);
    SameFileCounts(s, t, None, None);
    StillExisting(s, t, None, None);
    SameLive(s, t, None, None);
  }

  /** The constructor of a builder references its base. */
  function BuilderAdded(s: Refs, b: nat, v: nat): Refs
    requires v in s.versionRefs
  {
    Counting(s, v).(builders := s.builders[b := FileBuilder(v, [])])
  }

  lemma OneMoreBuilder(s: Refs, t: Refs, b: nat, v: nat)
    requires b !in s.builders && t.builders == s.builders[b := FileBuilder(v, [])] && t.current == s.current && t.readers == s.readers
    ensures Holders(t, v) == Holders(s, v) + 1 && forall w :: w != v ==> Holders(t, w) == Holders(s, w)
  {
    assert BuildersOn(t.builders, v) == BuildersOn(s.builders, v) + {b};
    forall w | w != v ensures Holders(t, w) == Holders(s, w) {
      assert BuildersOn(t.builders, w) == BuildersOn(s.builders, w);
    }
  }

  lemma BuilderKeeps(s: Refs, b: nat, v: nat)
    requires Counted(s, None) && b !in s.builders && v in s.versionRefs && s.versionRefs[v] > 0
    ensures Counted(BuilderAdded(s, b, v), None)
  {
    var t := BuilderAdded(s, b, v);
    AreKnown(s, None);
    CountOf(s, v, None);
    OneMoreBuilder(s, t, b, v);
    OneVersionCount(s, t, v, None, None);
    forall f ensures BuildersWith(t.builders, f) == BuildersWith(s.builders, f) {
    }
    SameFileCounts(s, t, None, None);
    StillExisting(s, t, None, None);
    SameLive(s, t, None, None);
  }

  /** The end of AppendVersion: the new version is current, referenced, and last in the list. */
  function Appended(s: Refs, v: nat): Refs
    requires v in s.versionRefs
  {
    Counting(s, v).(current := Some(v), list := s.list + [v])
  }

  lemma AppendKeeps(s: Refs, v: nat)
    requires Counted(s, None) && s.current == None && v in s.versionRefs && s.versionRefs[v] == 0
    ensures Counted(Appended(s, v), None)
  {
    var t := Appended(s, v);
    AreKnown(s, None);
    CountOf(s, v, None);
    OneVersionCount(s, t, v, None, None);
    SameFileCounts(s, t, None, None);
    StillExisting(s, t, None, None);
    AppendListing(s, v);
  }

  lemma AppendListing(s: Refs, v: nat)
    requires PartOk(s, None, Listing) && v in s.versionRefs && s.versionRefs[v] == 0
    ensures PartOk(Appended(s, v), None, Listing)
  {
    assert PartAt(s, None, Listing, 0);
  }

  /** A reader ends: the version has lost a holder, but is still counted. */
  function ReaderGone(s: Refs, r: nat): Refs {
    s.(readers := s.readers - {r})
  }

  lemma ReaderLeaves(s: Refs, r: nat)
    requires Counted(s, None) && r in s.readers
    ensures Counted(ReaderGone(s, r), Some(s.readers[r]))
  {
    var t, v := ReaderGone(s, r), s.readers[r];
    AreKnown(s, None);
    CountOf(s, v, None);
    assert r in ReadersOf(s.readers, v);
    assert ReadersOf(t.readers, v) == ReadersOf(s.readers, v) - {r};
    forall w | w != v ensures Holders(t, w) == Holders(s, w) {
      assert ReadersOf(t.readers, w) == ReadersOf(s.readers, w);
    }
    OneVersionCount(s, t, v, None, Some(v));
    SameFileCounts(s, t, None, Some(v));
    StillExisting(s, t, None, Some(v));
    SameLive(s, t, None, Some(v));
  }

  function BuilderGone(s: Refs, b: nat): Refs {
    s.(builders := s.builders - {b})
  }

  lemma BuilderLeaves(s: Refs, b: nat)
    requires Counted(s, None) && b in s.builders && s.builders[b].added == []
    ensures Counted(BuilderGone(s, b), Some(s.builders[b].base))
  {
    var t, v := BuilderGone(s, b), s.builders[b].base;
    AreKnown(s, None);
    CountOf(s, v, None);
    assert b in BuildersOn(s.builders, v);
    assert BuildersOn(t.builders, v) == BuildersOn(s.builders, v) - {b};
    forall w | w != v ensures Holders(t, w) == Holders(s, w) {
      assert BuildersOn(t.builders, w) == BuildersOn(s.builders, w);
    }
    OneVersionCount(s, t, v, None, Some(v));
    forall f ensures BuildersWith(t.builders, f) == BuildersWith(s.builders, f) {
    }
    SameFileCounts(s, t, None, Some(v));
    StillExisting(s, t, None, Some(v));
    SameLive(s, t, None, Some(v));
  }

  lemma CurrentLeaves(s: Refs)
    requires Counted(s, None) && s.current.Some?
    ensures Counted(s.(current := None), s.current)
  {
    var t, v := s.(current := None), s.current.value;
    AreKnown(s, None);
    CountOf(s, v, None);
    OneVersionCount(s, t, v, None, s.current);
    SameFileCounts(s, t, None, s.current);
    StillExisting(s, t, None, s.current);
    SameLive(s, t, None, s.current);
  }

  function Without(ids: seq<nat>, v: nat): seq<nat> {
    if ids == [] then [] else if ids[0] == v then ids[1..] else [ids[0]] + Without(ids[1..], v)
  }

  lemma {:induction false} WithoutMembers(ids: seq<nat>, v: nat)
    requires NoTwice(ids)
    ensures NoTwice(Without(ids, v)) && forall w :: w in Without(ids, v) <==> w in ids && w != v
  {
    if ids != [] {
      HeadAndTail(ids);
      WithoutMembers(ids[1..], v);
    }
  }

  /** Unref, and for the last reference the beginning of ~Version: the version leaves the list. */
  function Unreffed(s: Refs, v: nat): Refs
    requires v in s.versionRefs && s.versionRefs[v] > 0
  {
    s.(versionRefs := s.versionRefs[v := s.versionRefs[v] - 1], list := if s.versionRefs[v] == 1 then Without(s.list, v) else s.list)
  }

  lemma UnrefKeeps(s: Refs, v: nat)
    requires Counted(s, Some(v)) && v in s.versionRefs
    ensures s.versionRefs[v] > 0 && Counted(Unreffed(s, v), None)
  {
    CountOf(s, v, Some(v));
    AreKnown(s, Some(v));
    var t := Unreffed(s, v);
    OneVersionCount(s, t, v, Some(v), None);
    SameFileCounts(s, t, Some(v), None);
    StillExisting(s, t, Some(v), None);
    UnrefListing(s, v);
  }

  lemma UnrefListing(s: Refs, v: nat)
    requires PartOk(s, Some(v), Listing) && v in s.versionRefs && s.versionRefs[v] > 0
    ensures PartOk(Unreffed(s, v), None, Listing)
  {
    assert PartAt(s, Some(v), Listing, 0);
    WithoutMembers(s.list, v);
  }

  /** The end of ~Version. */
  function Deleted(s: Refs, v: nat): Refs {
    s.(files := s.files - {v}, versionRefs := s.versionRefs - {v})
  }

  lemma DeleteExisting(s: Refs, v: nat)
    requires PartOk(s, None, Existing) && Holders(s, v) == 0
    ensures PartOk(Deleted(s, v), None, Existing)
  {
    assert PartAt(s, None, Existing, 0);
    NobodyHolds(s, v);
  }

  lemma DeleteCounts(s: Refs, v: nat)
    requires PartOk(s, None, VersionCounts) && PartOk(s, None, Listing) && v in s.versionRefs && s.versionRefs[v] == 0
    ensures PartOk(Deleted(s, v), None, VersionCounts) && PartOk(Deleted(s, v), None, Listing)
  {
    assert PartAt(s, None, VersionCounts, 0) && PartAt(s, None, Listing, 0);
    var t := Deleted(s, v);
    forall w | w in t.versionRefs ensures VersionCounted(t, w, None) {
      assert VersionCounted(s, w, None);
    }
  }

  /** A version without holders and files can go. */
  lemma DeleteKeeps(s: Refs, v: nat)
    requires Counted(s, None) && v in s.versionRefs && s.versionRefs[v] == 0 && v in s.files && s.files[v] == []
    ensures Counted(Deleted(s, v), None)
  {
    var t := Deleted(s, v);
    CountOf(s, v, None);
    NobodyHolds(s, v);
    DeleteExisting(s, v);
    DeleteCounts(s, v);
    forall f ensures VersionsWith(t.files, f) == VersionsWith(s.files, f) {
    }
    SameFileCounts(s, t, None, None);
  }

  lemma NobodyHolds(s: Refs, v: nat)
    requires Holders(s, v) == 0
    ensures s.current != Some(v) && (forall r :: r in s.readers ==> s.readers[r] != v)
    ensures forall b :: b in s.builders ==> s.builders[b].base != v
  {
    forall r | r in s.readers ensures s.readers[r] != v {
      assert r !in ReadersOf(s.readers, v);
    }
    forall b | b in s.builders ensures s.builders[b].base != v {
      assert b !in BuildersOn(s.builders, v);
    }
  }

  /** A version is live exactly while somebody holds it: it is current, or a reader or a builder has referenced it. */
  lemma LiveIffHeld(s: Refs, v: nat)
    requires Counted(s, None)
    ensures v in s.list <==>
      || s.current == Some(v) || (exists r :: r in s.readers && s.readers[r] == v)
      || (exists b :: b in s.builders && s.builders[b].base == v)
  {
    assert PartAt(s, None, Existing, 0) && PartAt(s, None, VersionCounts, 0) && PartAt(s, None, Listing, 0);
    if v in s.versionRefs {
      assert VersionCounted(s, v, None);
      if Holders(s, v) == 0 {
        NobodyHolds(s, v);
      } else if s.current != Some(v) {
        if r :| r in ReadersOf(s.readers, v) {
          assert r in s.readers && s.readers[r] == v;
        } else {
          var b :| b in BuildersOn(s.builders, v);
        }
      }
    }
    if r :| r in s.readers && s.readers[r] == v {
      assert r in ReadersOf(s.readers, v);
    }
    if b :| b in s.builders && s.builders[b].base == v {
      assert b in BuildersOn(s.builders, v);
    }
  }

  /** What exists in both states is the same. */
  ghost predicate SameContents(s: Refs, t: Refs) {
    && (forall v :: v in t.files ==> v in s.files && t.files[v] == s.files[v])
    && (forall f :: f in t.numbers ==> f in s.numbers && t.numbers[f] == s.numbers[f])
  }

  /** The numbers of the files of all versions that somebody holds. */
  ghost function LiveNumbers(s: Refs): (live: set<nat>)
  {
    set v, f | v in s.list && v in s.files && f in s.files[v] && f in s.numbers :: s.numbers[f]
  }

  function NumbersOf(s: Refs, ids: seq<nat>): set<nat> {
    set f | f in ids && f in s.numbers :: s.numbers[f]
  }

  // ---- Whole operations ----

  /** Nothing but the files of v and the objects of files that nobody holds any more. */
  ghost predicate OnlyFilesGone(s: Refs, t: Refs, v: nat) {
    && t.versionRefs == s.versionRefs && t.list == s.list && t.current == s.current && t.readers == s.readers
    && t.builders == s.builders && t.files.Keys == s.files.Keys
    && (forall w :: w != v && w in t.files ==> w in s.files && t.files[w] == s.files[w])
    && (forall f :: f in t.numbers ==> f in s.numbers && t.numbers[f] == s.numbers[f])
  }

  /** The loop of ~Version. */
  ghost function FilesGone(s: Refs, v: nat): (t: Refs)
    requires Counted(s, None) && v in s.files
    ensures Counted(t, None) && v in t.files && t.files[v] == []
    decreases |s.files[v]|
  {
    if s.files[v] == [] then s
    else
      DropKeeps(s, v, None);
      FilesGone(FileDropped(s, v), v)
  }

  lemma {:induction false} FilesGoneOnly(s: Refs, v: nat)
    requires Counted(s, None) && v in s.files
    ensures OnlyFilesGone(s, FilesGone(s, v), v)
    decreases |s.files[v]|
  {
    if s.files[v] != [] {
      DropKeeps(s, v, None);
      FilesGoneOnly(FileDropped(s, v), v);
      OnlyFilesGoneOn(s, FileDropped(s, v), FilesGone(FileDropped(s, v), v), v);
    }
  }

  lemma OnlyFilesGoneOn(s: Refs, t: Refs, u: Refs, v: nat)
    requires OnlyFilesGone(s, t, v) && OnlyFilesGone(t, u, v)
    ensures OnlyFilesGone(s, u, v)
  {
  }

  /** Version::Unref for a holder that has just left, with ~Version for the last one. */
  ghost function Unrefd(s: Refs, v: nat): (t: Refs)
    requires Counted(s, Some(v)) && v in s.versionRefs
    ensures Counted(t, None) && SameContents(s, t)
    ensures t.current == s.current && t.readers == s.readers && t.builders == s.builders
    ensures forall w :: w in s.versionRefs && w != v ==> w in t.versionRefs && t.versionRefs[w] == s.versionRefs[w]
  {
    UnrefKeeps(s, v);
    AreKnown(s, Some(v));
    var u := Unreffed(s, v);
    if u.versionRefs[v] > 0 then u
    else
      var w := FilesGone(u, v);
      FilesGoneOnly(u, v);
      DeleteKeeps(w, v);
      Deleted(w, v)
  }

  /** The version goes if nobody holds it any more. */
  lemma UnrefdKeys(s: Refs, v: nat)
    requires Counted(s, Some(v)) && v in s.versionRefs
    ensures var t := Unrefd(s, v);
      t.versionRefs.Keys == if Holders(t, v) > 0 then s.versionRefs.Keys else s.versionRefs.Keys - {v}
  {
    UnrefKeeps(s, v);
    AreKnown(s, Some(v));
    var u := Unreffed(s, v);
    CountOf(u, v, None);
    assert Holders(Unrefd(s, v), v) == Holders(u, v);
    if u.versionRefs[v] == 0 {
      FilesGoneOnly(u, v);
    }
  }

  /** A reader gives its version back. */
  ghost function Released(s: Refs, reader: nat): (t: Refs)
    requires Counted(s, None) && reader in s.readers
    ensures Counted(t, None) && SameContents(s, t)
    ensures t.current == s.current && t.readers == s.readers - {reader} && t.builders == s.builders
  {
    ReaderLeaves(s, reader);
    AreKnown(s, None);
    Unrefd(ReaderGone(s, reader), s.readers[reader])
  }

  /** The loop of ~Builder. */
  ghost function AddedGone(s: Refs, b: nat): (t: Refs)
    requires Counted(s, None) && b in s.builders
    ensures Counted(t, None) && b in t.builders && t.builders[b] == FileBuilder(s.builders[b].base, [])
    ensures t.versionRefs == s.versionRefs && t.list == s.list && t.current == s.current && t.readers == s.readers
    ensures t.files == s.files && t.builders - {b} == s.builders - {b} && SameContents(s, t)
    decreases |s.builders[b].added|
  {
    if s.builders[b].added == [] then s
    else
      AddedDropKeeps(s, b);
      AddedGone(AddedDropped(s, b), b)
  }

  /** ~Builder. */
  ghost function BuilderDeleted(s: Refs, b: nat): (t: Refs)
    requires Counted(s, None) && b in s.builders
    ensures Counted(t, None) && SameContents(s, t)
    ensures t.current == s.current && t.readers == s.readers && t.builders == s.builders - {b}
    ensures forall w :: w in s.versionRefs && w != s.builders[b].base ==> w in t.versionRefs && t.versionRefs[w] == s.versionRefs[w]
  {
    var u := AddedGone(s, b);
    BuilderLeaves(u, b);
    AreKnown(u, None);
    Unrefd(BuilderGone(u, b), u.builders[b].base)
  }

  /** The first part of AppendVersion. */
  ghost function CurrentGone(s: Refs): (t: Refs)
    requires Counted(s, None)
    ensures Counted(t, None) && SameContents(s, t)
    ensures t.current == None && t.readers == s.readers && t.builders == s.builders
    ensures forall w :: w in s.versionRefs && s.current != Some(w) ==> w in t.versionRefs && t.versionRefs[w] == s.versionRefs[w]
  {
    if s.current.None? then s
    else
      CurrentLeaves(s);
      AreKnown(s, None);
      Unrefd(s.(current := None), s.current.value)
  }

  lemma NewIsNotCurrent(s: Refs, v: nat)
    requires Counted(s, None) && v in s.versionRefs && s.versionRefs[v] == 0
    ensures s.current != Some(v)
  {
    CountOf(s, v, None);
  }

  /** AppendVersion. */
  ghost function Replaced(s: Refs, v: nat): (t: Refs)
    requires Counted(s, None) && v in s.versionRefs && s.versionRefs[v] == 0
    ensures Counted(t, None) && SameContents(s, t)
    ensures t.current == Some(v) && t.readers == s.readers && t.builders == s.builders
  {
    NewIsNotCurrent(s, v);
    var u := CurrentGone(s);
    AppendKeeps(u, v);
    Appended(u, v)
  }

  // ---- The version set ----

  class VersionSet {
    var files: map<nat, seq<nat>>
    var versionRefs: map<nat, nat>
    var numbers: map<nat, nat>
    var fileRefs: map<nat, nat>
    var list: seq<nat>
    var current: Option<nat>
    ghost var readers: map<nat, nat>
    var builders: map<nat, FileBuilder>

    ghost function State(): Refs
      reads this
    {
      Refs(files, versionRefs, numbers, fileRefs, list, current, readers, builders)
    }

    ghost predicate Valid()
      reads this
    {
      Counted(State(), None)
    }

    constructor ()
      ensures Valid() && State() == Appended(Created(Refs(map[], map[], map[], map[], [], None, map[], map[]), 0), 0)
    {
      files, versionRefs, numbers, fileRefs := map[0 := []], map[0 := 1], map[], map[];
      list, current, readers, builders := [0], Some(0), map[], map[];
      new;
      ghost var s := Refs(map[], map[], map[], map[], [], None, map[], map[]);
      CreateKeeps(s, 0);
      AppendKeeps(Created(s, 0), 0);
    }

    /** One reference to a file is given up. */
    method UnrefFile(f: nat)
      requires f in fileRefs && fileRefs[f] > 0
      modifies `fileRefs, `numbers
      ensures State() == WithoutFileRef(old(State()), f)
    {
      if fileRefs[f] > 1 {
        fileRefs := fileRefs[f := fileRefs[f] - 1];
      } else {
        fileRefs, numbers := fileRefs - {f}, numbers - {f};
      }
    }

    /** The loop of ~Version. */
    method DropFiles(v: nat)
      requires Valid() && v in versionRefs && v in files
      modifies `files, `numbers, `fileRefs
      ensures Valid() && State() == FilesGone(old(State()), v) && OnlyFilesGone(old(State()), State(), v)
    {
      FilesGoneOnly(State(), v);
      while files[v] != []
        invariant Valid() && v in files && FilesGone(State(), v) == FilesGone(old(State()), v)
        decreases |files[v]|
      {
        DropFile(v);
      }
    }

    /** One turn of that loop. */
    method DropFile(v: nat)
      requires Valid() && v in files && files[v] != []
      modifies `files, `numbers, `fileRefs
      ensures Valid() && v in files && files[v] == old(files)[v][1..] && FilesGone(State(), v) == FilesGone(old(State()), v)
    {
      DropKeeps(State(), v, None);
      UnrefFile(files[v][0]);
      files := files[v := files[v][1..]];
    }

    /** ~Version, after the version has left the list. */
    method DeleteVersion(v: nat)
      requires Valid() && v in versionRefs && v in files && versionRefs[v] == 0
      modifies `files, `versionRefs, `numbers, `fileRefs
      ensures Valid() && State() == Deleted(FilesGone(old(State()), v), v) && Holders(old(State()), v) == 0
      ensures versionRefs == old(versionRefs) - {v} && SameContents(old(State()), State())
    {
      CountOf(State(), v, None);
      DropFiles(v);
      DeleteKeeps(State(), v);
      files, versionRefs := files - {v}, versionRefs - {v};
    }

    /** Version::Unref for a holder that has just left. */
    method Unref(v: nat)
      requires Counted(State(), Some(v)) && v in versionRefs
      modifies this
      ensures Valid() && State() == Unrefd(old(State()), v)
      ensures current == old(current) && readers == old(readers) && builders == old(builders)
      ensures versionRefs.Keys == if Holders(State(), v) > 0 then old(versionRefs).Keys else old(versionRefs).Keys - {v}
      ensures SameContents(old(State()), State())
    {
      UnrefdKeys(State(), v);
      UnrefKeeps(State(), v);
      AreKnown(State(), Some(v));
      versionRefs := versionRefs[v := versionRefs[v] - 1];
      if versionRefs[v] == 0 {
        list := Without(list, v);
        DeleteVersion(v);
      }
    }

    /** Version::Ref on behalf of a new reader or compaction; versions are referenced while they are live. */
    method Ref(ghost reader: nat, v: nat)
      requires Valid() && reader !in readers && v in versionRefs && versionRefs[v] > 0
      modifies `versionRefs, `readers
      ensures Valid() && State() == ReaderAdded(old(State()), reader, v)
    {
      ReaderKeeps(State(), reader, v);
      versionRefs := versionRefs[v := versionRefs[v] + 1];
      readers := readers[reader := v];
    }

    /** A reader gives its version back. */
    method Release(ghost reader: nat, v: nat)
      requires Valid() && reader in readers && readers[reader] == v
      modifies this
      ensures Valid() && State() == Released(old(State()), reader)
      ensures readers == old(readers) - {reader} && current == old(current) && builders == old(builders)
      ensures versionRefs.Keys == if Holders(State(), v) > 0 then old(versionRefs).Keys else old(versionRefs).Keys - {v}
      ensures SameContents(old(State()), State())
    {
      ReaderLeaves(State(), reader);
      AreKnown(State(), None);
      readers := readers - {reader};
      Unref(v);
    }

    // ---- Builders and new versions ----

    method NewBuilder(b: nat, base: nat)
      requires Valid() && b !in builders && base in versionRefs && versionRefs[base] > 0
      modifies `versionRefs, `builders
      ensures Valid() && State() == BuilderAdded(old(State()), b, base)
    {
      BuilderKeeps(State(), b, base);
      versionRefs := versionRefs[base := versionRefs[base] + 1];
      builders := builders[b := FileBuilder(base, [])];
    }

    /** The part of Builder::Apply that adds a file: a new object with one reference. */
    method AddFile(b: nat, f: nat, number: nat)
      requires Valid() && b in builders && f !in numbers
      modifies `numbers, `fileRefs, `builders
      ensures Valid() && State() == FileAdded(old(State()), b, f, number)
    {
      AddKeeps(State(), b, f, number);
      numbers, fileRefs := numbers[f := number], fileRefs[f := 1];
      builders := builders[b := builders[b].(added := builders[b].added + [f])];
    }

    method NewVersion(v: nat)
      requires Valid() && v !in files
      modifies `files, `versionRefs
      ensures Valid() && State() == Created(old(State()), v)
    {
      CreateKeeps(State(), v);
      files, versionRefs := files[v := []], versionRefs[v := 0];
    }

    /** Builder::MaybeAddFile. */
    method MaybeAddFile(v: nat, f: nat, isDeleted: bool)
      requires Valid() && v in files && f in fileRefs && f !in files[v]
      modifies `files, `fileRefs
      ensures Valid() && State() == if isDeleted then old(State()) else FileTaken(old(State()), v, f)
    {
      if !isDeleted {
        TakeKeeps(State(), v, f);
        fileRefs := fileRefs[f := fileRefs[f] + 1];
        files := files[v := files[v] + [f]];
      }
    }

    /** ~Builder: the references to the added files go, then the one to the base version. */
    method DeleteBuilder(b: nat)
      requires Valid() && b in builders
      modifies this
      ensures Valid() && State() == BuilderDeleted(old(State()), b)
      ensures builders == old(builders) - {b} && current == old(current) && readers == old(readers)
      ensures var base := old(builders)[b].base;
        versionRefs.Keys == if Holders(State(), base) > 0 then old(versionRefs).Keys else old(versionRefs).Keys - {base}
    {
      var base := builders[b].base;
      while builders[b].added != []
        invariant Valid() && b in builders && AddedGone(State(), b) == AddedGone(old(State()), b)
        decreases |builders[b].added|
      {
        AddedDropKeeps(State(), b);
        UnrefFile(builders[b].added[0]);
        builders := builders[b := builders[b].(added := builders[b].added[1..])];
      }
      BuilderLeaves(State(), b);
      AreKnown(State(), None);
      builders := builders - {b};
      Unref(base);
    }

    /** The first part of AppendVersion; a version that is not listed yet is not affected. */
    method LeaveCurrent(ghost next: nat)
      requires Valid() && current.Some? && next in versionRefs && versionRefs[next] == 0
      modifies this
      ensures Valid() && State() == CurrentGone(old(State()))
      ensures current == None && readers == old(readers) && builders == old(builders)
      ensures next in versionRefs && versionRefs[next] == 0 && SameContents(old(State()), State())
    {
      var v := current.value;
      CountOf(State(), next, None);
      CurrentLeaves(State());
      AreKnown(State(), None);
      current := None;
      Unref(v);
      CountOf(State(), next, None);
    }

    /** AppendVersion: the old current version loses its reference, the new one is referenced and listed. */
    method AppendVersion(v: nat)
      requires Valid() && v in versionRefs && versionRefs[v] == 0
      modifies this
      ensures Valid() && State() == Replaced(old(State()), v)
      ensures current == Some(v) && readers == old(readers) && builders == old(builders)
      ensures v in list && SameContents(old(State()), State())
    {
      NewIsNotCurrent(State(), v);
      if current.Some? {
        LeaveCurrent(v);
      }
      BecomeCurrent(v);
    }

    method BecomeCurrent(v: nat)
      requires Valid() && current.None? && v in versionRefs && versionRefs[v] == 0
      modifies this
      ensures Valid() && State() == Appended(old(State()), v) && v in list
    {
      AppendKeeps(State(), v);
      current := Some(v);
      versionRefs := versionRefs[v := versionRefs[v] + 1];
      list := list + [v];
    }

    /** AddLiveFiles: the files of every version in the list, which are those that somebody holds. */
    method AddLiveFiles() returns (live: set<nat>)
      requires Valid()
      ensures live == LiveNumbers(State())
      ensures forall v, f :: v in files && f in files[v] && Holders(State(), v) > 0 ==> f in numbers && numbers[f] in live
    {
      AreKnown(State(), None);
      ListIsKnown(State());
      live := {};
      for i := 0 to |list|
        invariant live == set v, f | v in list[..i] && v in files && f in files[v] && f in numbers :: numbers[f]
      {
        live := live + NumbersOf(Refs(files, versionRefs, numbers, fileRefs, list, current, map[], builders), files[list[i]]);
      }
      assert list[..|list|] == list;
      forall v, f | v in files && f in files[v] && Holders(State(), v) > 0 ensures f in numbers && numbers[f] in live {
        HeldIsListed(State(), v, f);
      }
    }
  }

  lemma ListIsKnown(s: Refs)
    requires Counted(s, None)
    ensures forall v :: v in s.list ==> v in s.files
  {
    AreKnown(s, None);
    assert PartAt(s, None, Listing, 0);
  }

  lemma HeldIsListed(s: Refs, v: nat, f: nat)
    requires Counted(s, None) && v in s.files && f in s.files[v] && Holders(s, v) > 0
    ensures v in s.list && f in s.numbers && s.numbers[f] in LiveNumbers(s)
  {
    AreKnown(s, None);
    CountOf(s, v, None);
    assert PartAt(s, None, Existing, 0) && PartAt(s, None, Listing, 0);
  }
}
