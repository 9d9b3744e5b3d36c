/** Whole runs with their reference counts: the operations on versions and files that go with each step of the database,
    and that what DeleteObsoleteFiles keeps is what the counts keep (db/version_set.cc: LogAndApply, Recover,
    AppendVersion, AddLiveFiles; db/db_impl.cc: DoCompactionWork, DeleteObsoleteFiles, NewInternalIterator). */
module CountedRuns {
  import opened DbFormat
  import opened Versions
  import opened Builder
  import opened DbStates
  import opened DbInvariants
  import opened DbSteps
  import opened VersionRefs
  import opened LiveVersions
  import opened Runs

  // ---- A new version ----

  /** What the builder does for a new version: it adds an object for a new file, or gives the version an object of the
      base or one that it has added. */
  datatype BuildOp = AddFile(f: nat, number: nat) | TakeFile(f: nat)

  ghost predicate CanBuild(s: Refs, b: nat, v: nat, op: BuildOp) {
    && b in s.builders && v in s.files && s.builders[b].base in s.files
    && match op
       case AddFile(f, _) => f !in s.numbers
       case TakeFile(f) =>
         f in s.fileRefs && f !in s.files[v] && (f in s.builders[b].added || f in s.files[s.builders[b].base])
  }

  function Build(s: Refs, b: nat, v: nat, op: BuildOp): Refs
    requires b in s.builders && v in s.files && (op.TakeFile? ==> op.f in s.fileRefs)
  {
    match op
    case AddFile(f, number) => FileAdded(s, b, f, number)
    case TakeFile(f) => FileTaken(s, v, f)
  }

  /** The builder goes from s to t by some list of operations. */
  ghost predicate Builds(s: Refs, b: nat, v: nat, ops: seq<BuildOp>, t: Refs)
    decreases |ops|
  {
    if ops == [] then t == s
    else CanBuild(s, b, v, ops[0]) && Builds(Build(s, b, v, ops[0]), b, v, ops[1..], t)
  }

  /** LogAndApply and Recover: version object v is made of the current one, with new file objects that have the numbers
      `added`, and takes its place; afterwards it stands for w. */
  ghost predicate NewCurrent(s: Refs, t: Refs, v: nat, w: Version, added: set<nat>) {
    && v !in s.files && s.current.Some? && s.current.value in s.versionRefs && s.builders == map[]
    && exists ops, u :: NewCurrentBy(s, t, v, w, added, ops, u)
  }

  ghost predicate NewCurrentBy(s: Refs, t: Refs, v: nat, w: Version, added: set<nat>, ops: seq<BuildOp>, u: Refs)
    requires s.current.Some? && s.current.value in s.versionRefs
  {
    && Builds(BuilderAdded(Created(s, v), 0, s.current.value), 0, v, ops, u)
    && Counted(u, None) && 0 in u.builders && v in u.versionRefs && v in u.files && u.versionRefs[v] == 0
    && v != u.builders[0].base
    && NumbersOf(u, u.files[v]) == LiveFiles(w) && NumbersOf(u, u.builders[0].added) == added
    && t == Replaced(BuilderDeleted(u, 0), v)
  }

  lemma BuildKeeps(s: Refs, b: nat, v: nat, op: BuildOp)
    requires Counted(s, None) && CanBuild(s, b, v, op)
    ensures Counted(Build(s, b, v, op), None)
  {
    match op
    case AddFile(f, number) => AddKeeps(s, b, f, number);
    case TakeFile(f) => TakeKeeps(s, v, f);
  }

  /** What a builder changes: the files of the new version, and objects that it adds. */
  ghost predicate OnlyBuilt(s: Refs, t: Refs, b: nat, v: nat) {
    && t.versionRefs == s.versionRefs && t.list == s.list && t.current == s.current && t.readers == s.readers
    && t.files.Keys == s.files.Keys && (forall x :: x in s.files && x != v ==> t.files[x] == s.files[x])
    && (forall f :: f in s.numbers ==> f in t.numbers && t.numbers[f] == s.numbers[f])
    && t.builders.Keys == s.builders.Keys && (forall x :: x in s.builders && x != b ==> t.builders[x] == s.builders[x])
    && (b in s.builders ==> t.builders[b].base == s.builders[b].base)
  }

  lemma {:induction false} BuildsKeep(s: Refs, b: nat, v: nat, ops: seq<BuildOp>, t: Refs)
    requires Counted(s, None) && Builds(s, b, v, ops, t)
    ensures Counted(t, None) && OnlyBuilt(s, t, b, v)
    decreases |ops|
  {
    if ops != [] {
      BuildKeeps(s, b, v, ops[0]);
      BuildsKeep(Build(s, b, v, ops[0]), b, v, ops[1..], t);
    }
  }

  lemma SameNumbersIn(s: Refs, t: Refs, ids: seq<nat>)
    requires (forall f :: f in ids ==> f in s.numbers) && forall f :: f in s.numbers ==> f in t.numbers && t.numbers[f] == s.numbers[f]
    ensures NumbersOf(t, ids) == NumbersOf(s, ids)
  {
  }

  /** Building leaves the versions in the list as they are. */
  lemma BuiltContents(r: Refs, content: map<nat, Version>, u: Refs, v: nat)
    requires Counted(r, None) && ContentsOk(r, content) && v !in r.files
    requires r.current.Some? && r.current.value in r.versionRefs && OnlyBuilt(BuilderAdded(Created(r, v), 0, r.current.value), u, 0, v)
    ensures ContentsOk(u, content)
  {
    ListIsKnown(r);
    assert PartAt(r, None, Existing, 0);
    forall id | id in u.list ensures id in u.files && id in content && NumbersOf(u, u.files[id]) == LiveFiles(content[id]) {
      SameNumbersIn(r, u, r.files[id]);
    }
  }

  /** The objects with which the builder starts: a new version, and a reference to the current one. */
  lemma BuildStarts(r: Refs, v: nat)
    requires Counted(r, None) && r.current.Some? && r.builders == map[] && v !in r.files
    ensures r.current.value in r.versionRefs && r.current.value in r.files && r.current.value in r.list
    ensures Counted(BuilderAdded(Created(r, v), 0, r.current.value), None)
  {
    var cur := r.current.value;
    LiveIffHeld(r, cur);
    assert PartAt(r, None, Listing, 0);
    AreKnown(r, None);
    CreateKeeps(r, v);
    BuilderKeeps(Created(r, v), 0, cur);
  }

  lemma DeletedFromList(u: Refs, b: nat)
    requires Counted(u, None) && b in u.builders
    ensures forall id :: id in BuilderDeleted(u, b).list ==> id in u.list
  {
    var w := BuilderDeleted(u, b);
    forall id | id in w.list ensures id in u.list {
      LiveIffHeld(w, id);
      LiveIffHeld(u, id);
    }
  }

  lemma BuiltMirrors(r: Refs, content: map<nat, Version>, s: DbState, slots: Slots, v: nat, ops: seq<BuildOp>, u: Refs)
    requires Mirrors(r, content, s, slots) && v !in r.files
    requires r.current.value in r.versionRefs && Builds(BuilderAdded(Created(r, v), 0, r.current.value), 0, v, ops, u)
    ensures Counted(u, None) && 0 in u.builders && Mirrors(BuilderDeleted(u, 0), content, s, slots)
  {
    BuildStarts(r, v);
    BuildsKeep(BuilderAdded(Created(r, v), 0, r.current.value), 0, v, ops, u);
    BuiltContents(r, content, u, v);
    DeletedFromList(u, 0);
    SmallerContents(u, BuilderDeleted(u, 0), content);
    NoBuilders(r, v, u);
    SameHolders(r, BuilderDeleted(u, 0), content, s, slots);
  }

  lemma NoBuilders(r: Refs, v: nat, u: Refs)
    requires r.builders == map[] && r.current.Some? && r.current.value in r.versionRefs && v !in r.files
    requires OnlyBuilt(BuilderAdded(Created(r, v), 0, r.current.value), u, 0, v) && Counted(u, None) && 0 in u.builders
    ensures var t := BuilderDeleted(u, 0); t.current == r.current && t.readers == r.readers && t.builders == map[]
  {
    assert u.builders.Keys == {0};
    assert (u.builders - {0}).Keys == {};
  }

  lemma SameHolders(r: Refs, t: Refs, content: map<nat, Version>, s: DbState, slots: Slots)
    requires HoldersMatch(r, content, s, slots) && t.current == r.current && t.readers == r.readers && t.builders == map[]
    ensures HoldersMatch(t, content, s, slots)
  {
  }

  /** The new version takes the place of the current one in the counts as in the database. */
  lemma NewCurrentMirrors(r: Refs, content: map<nat, Version>, s: DbState, slots: Slots, t: Refs, v: nat, w: Version, added: set<nat>)
    requires Mirrors(r, content, s, slots) && v !in content && NewCurrent(r, t, v, w, added)
    ensures Mirrors(t, content[v := w], s.(current := w), slots)
  {
    var ops, u :| NewCurrentBy(r, t, v, w, added, ops, u);
    BuiltMirrors(r, content, s, slots, v, ops, u);
    var x := BuilderDeleted(u, 0);
    AreKnown(x, None);
    assert v in x.versionRefs && v in x.files;
    SameNumbers(u, x, v);
    InstallMirrors(x, content, s, slots, v, w, t);
  }

  // ---- The steps of the database ----

  /** The counts, what each version object stands for, and who the readers are. */
  datatype Counts = Counts(refs: Refs, content: map<nat, Version>, slots: Slots)

  ghost predicate AgreeAt(c: Counts, s: DbState, key: nat) {
    Mirrors(c.refs, c.content, s, c.slots)
  }

  /** The counts mirror the database; the key keeps that out of sight of proofs that only pass it on. */
  ghost predicate Agree(c: Counts, s: DbState) {
    forall key {:trigger AgreeAt(c, s, key)} :: AgreeAt(c, s, key)
  }

  /** LogAndApply of an edit that leads to w. */
  ghost predicate NewVersionFor(c: Counts, w: Version, added: set<nat>, d: Counts) {
    forall key: nat {:trigger NewVersionNow(c, w, added, d, key)} :: NewVersionNow(c, w, added, d, key)
  }

  ghost predicate NewVersionNow(c: Counts, w: Version, added: set<nat>, d: Counts, key: nat) {
    exists v :: v !in c.content && NewCurrent(c.refs, d.refs, v, w, added) && d.content == c.content[v := w] && d.slots == c.slots
  }

  /** A new reader of the current version. */
  ghost predicate Reads(r: Refs, reader: nat, t: Refs) {
    && r.current.Some? && r.current.value in r.versionRefs && reader !in r.readers
    && t == ReaderAdded(r, reader, r.current.value)
  }

  /** A reader that gives its version back. */
  ghost predicate GivesBack(r: Refs, reader: nat, t: Refs) {
    Counted(r, None) && reader in r.readers && t == Released(r, reader)
  }

  /** The version set of a database that is being opened: one empty version. */
  function FreshCounts(): Counts {
    Counts(Appended(Created(Refs(map[], map[], map[], map[], [], None, map[], map[]), 0), 0), map[0 := EmptyVersion()], Slots([], None))
  }

  /** The compaction gives its input version back. */
  ghost predicate WorkDone(m: Counts, d: Counts) {
    && m.slots.work.Some? && GivesBack(m.refs, m.slots.work.value, d.refs)
    && d == Counts(d.refs, m.content, m.slots.(work := None))
  }

  /** NewIterator and the start of a compaction: a reader of the current version, in its slot. */
  ghost predicate Pinning(c: Counts, d: Counts) {
    exists reader :: Reads(c.refs, reader, d.refs) && d == Counts(d.refs, c.content, c.slots.(pins := c.slots.pins + [reader]))
  }

  ghost predicate Working(c: Counts, d: Counts) {
    exists reader :: Reads(c.refs, reader, d.refs) && d == Counts(d.refs, c.content, c.slots.(work := Some(reader)))
  }

  ghost predicate Unpinning(c: Counts, i: nat, d: Counts) {
    && i < |c.slots.pins| && GivesBack(c.refs, c.slots.pins[i], d.refs)
    && d == Counts(d.refs, c.content, c.slots.(pins := c.slots.pins[..i] + c.slots.pins[i + 1..]))
  }

  /** The end of a compaction: the new version is installed, then the input version is given back. */
  ghost predicate Finishing(c: Counts, w: Version, added: set<nat>, d: Counts) {
    exists m :: NewVersionFor(c, w, added, m) && WorkDone(m, d)
  }

  /** The opening of a database: the version that the manifest gives, then the one with the tables of the old logs. */
  ghost predicate Opening(v: Version, w: Version, added: set<nat>, d: Counts) {
    exists m, first :: NewVersionFor(FreshCounts(), v, first, m) && NewVersionFor(m, w, added, d)
  }

  /** Which operations on versions and files go with a step of the database. */
  ghost predicate CountStep(c: Counts, s: DbState, e: Event, t: DbState, d: Counts) {
    forall key: nat {:trigger CountStepNow(c, s, e, t, d, key)} :: CountStepNow(c, s, e, t, d, key)
  }

  ghost predicate CountStepNow(c: Counts, s: DbState, e: Event, t: DbState, d: Counts, key: nat) {
    match e
    case OpenIterator => Pinning(c, d)
    case CloseIterator(i) => Unpinning(c, i, d)
    case Start(_) => Working(c, d)
    case Flush(_, files, _) => NewVersionFor(c, t.current, Numbers(files), d)
    case Move(_, file) => NewVersionFor(c, t.current, {file.number}, d)
    case Finish => s.pending.Some? && Finishing(c, t.current, Numbers(s.pending.value.outputs), d)
    case Crash(_, _, _, _, _, recovered, progress) => Opening(recovered.version, t.current, Numbers(progress.tables), d)
    case _ => d == c
  }

  lemma InstallAgrees(c: Counts, s: DbState, w: Version, added: set<nat>, d: Counts)
    requires Agree(c, s) && NewVersionFor(c, w, added, d)
    ensures Agree(d, s.(current := w))
  {
    assert AgreeAt(c, s, 0) && NewVersionNow(c, w, added, d, 0);
    var v :| v !in c.content && NewCurrent(c.refs, d.refs, v, w, added) && d.content == c.content[v := w];
    NewCurrentMirrors(c.refs, c.content, s, c.slots, d.refs, v, w, added);
  }

  /** The compaction references the version that it starts from. */
  lemma WorkMirrors(r: Refs, content: map<nat, Version>, s: DbState, slots: Slots, reader: nat, t: DbState)
    requires Mirrors(r, content, s, slots) && s.pending.None? && reader !in r.readers
    requires t.current == s.current && t.pinned == s.pinned && t.pending.Some? && t.pending.value.base == s.current
    ensures r.current.value in r.versionRefs && r.versionRefs[r.current.value] > 0
    ensures Mirrors(ReaderAdded(r, reader, r.current.value), content, t, slots.(work := Some(reader)))
  {
    var v := r.current.value;
    LiveIffHeld(r, v);
    assert PartAt(r, None, Listing, 0);
    ReaderKeeps(r, reader, v);
    SmallerContents(r, ReaderAdded(r, reader, v), content);
    forall i | 0 <= i < |slots.pins| ensures slots.pins[i] != reader {
      assert slots.pins[i] in r.readers;
    }
  }

  lemma WorkDoneAgrees(m: Counts, s: DbState, d: Counts)
    requires Agree(m, s) && WorkDone(m, d)
    ensures Agree(d, s.(pending := None))
  {
    assert AgreeAt(m, s, 0);
    forall id | id in d.refs.list ensures id in m.refs.list {
      LiveIffHeld(d.refs, id);
      LiveIffHeld(m.refs, id);
    }
    SmallerContents(m.refs, d.refs, m.content);
    assert ReaderIds(d.slots) == ReaderIds(m.slots) - {m.slots.work.value};
  }

  /** The state of a database that is being opened agrees with a fresh version set. */
  lemma FreshAgrees(s: DbState)
    requires s.current == EmptyVersion() && s.pinned == [] && s.pending.None?
    ensures Agree(FreshCounts(), s)
  {
    var empty := Refs(map[], map[], map[], map[], [], None, map[], map[]);
    CreateKeeps(empty, 0);
    AppendKeeps(Created(empty, 0), 0);
    assert NumbersOf(FreshCounts().refs, []) == {} && LiveFiles(EmptyVersion()) == {};
  }

  /** Only the versions of the state matter. */
  lemma SameVersions(c: Counts, s: DbState, t: DbState)
    requires Agree(c, s) && t.current == s.current && t.pinned == s.pinned && t.pending == s.pending
    ensures Agree(c, t)
  {
    assert AgreeAt(c, s, 0);
  }

  lemma NewVersionAgrees(c: Counts, s: DbState, t: DbState, added: set<nat>, d: Counts)
    requires Agree(c, s) && NewVersionFor(c, t.current, added, d) && t.pinned == s.pinned && t.pending == s.pending
    ensures Agree(d, t)
  {
    InstallAgrees(c, s, t.current, added, d);
    SameVersions(d, s.(current := t.current), t);
  }

  lemma PinAgrees(c: Counts, s: DbState, t: DbState, d: Counts)
    requires Agree(c, s) && t.current == s.current && t.pinned == s.pinned + [s.current] && t.pending == s.pending && Pinning(c, d)
    ensures Agree(d, t)
  {
    assert AgreeAt(c, s, 0);
    var reader :| Reads(c.refs, reader, d.refs) && d == Counts(d.refs, c.content, c.slots.(pins := c.slots.pins + [reader]));
    PinMirrors(c.refs, c.content, s, c.slots, reader);
  }

  lemma UnpinAgrees(c: Counts, s: DbState, i: nat, t: DbState, d: Counts)
    requires Agree(c, s) && i < |s.pinned| && Unpinning(c, i, d)
    requires t.current == s.current && t.pinned == s.pinned[..i] + s.pinned[i + 1..] && t.pending == s.pending
    ensures Agree(d, t)
  {
    assert AgreeAt(c, s, 0);
    UnpinMirrors(c.refs, c.content, s, c.slots, i, d.refs);
  }

  lemma WorkAgrees(c: Counts, s: DbState, t: DbState, d: Counts)
    requires Agree(c, s) && s.pending.None? && t.current == s.current && t.pinned == s.pinned && Working(c, d)
    requires t.pending.Some? && t.pending.value.base == s.current
    ensures Agree(d, t)
  {
    assert AgreeAt(c, s, 0);
    var reader :| Reads(c.refs, reader, d.refs) && d == Counts(d.refs, c.content, c.slots.(work := Some(reader)));
    WorkMirrors(c.refs, c.content, s, c.slots, reader, t);
  }

  lemma FinishAgrees(c: Counts, s: DbState, added: set<nat>, t: DbState, d: Counts)
    requires Agree(c, s) && Finishing(c, t.current, added, d) && t.pinned == s.pinned && t.pending.None?
    ensures Agree(d, t)
  {
    var m :| NewVersionFor(c, t.current, added, m) && WorkDone(m, d);
    var between := s.(current := t.current);
    InstallAgrees(c, s, t.current, added, m);
    WorkDoneAgrees(m, between, d);
    SameVersions(d, between.(pending := None), t);
  }

  lemma OpeningAgrees(v: Version, added: set<nat>, t: DbState, d: Counts)
    requires Opening(v, t.current, added, d) && t.pinned == [] && t.pending.None?
    ensures Agree(d, t)
  {
    var m, first :| NewVersionFor(FreshCounts(), v, first, m) && NewVersionFor(m, t.current, added, d);
    var opening := t.(current := EmptyVersion());
    FreshAgrees(opening);
    InstallAgrees(FreshCounts(), opening, v, first, m);
    NewVersionAgrees(m, opening.(current := v), t, added, d);
  }

  /** Whatever the step, the counts go on agreeing with the database. */
  lemma CountStepAgrees(c: Counts, s: DbState, e: Event, t: DbState, d: Counts)
    requires Agree(c, s) && VersionStep(s, e, t) && CountStep(c, s, e, t, d)
    ensures Agree(d, t)
  {
    assert CountStepNow(c, s, e, t, d, 0);
    match e
    case OpenIterator => PinAgrees(c, s, t, d);
    case CloseIterator(i) => UnpinAgrees(c, s, i, t, d);
    case Start(_) => WorkAgrees(c, s, t, d);
    case Flush(_, files, _) => NewVersionAgrees(c, s, t, Numbers(files), d);
    case Move(_, file) => NewVersionAgrees(c, s, t, {file.number}, d);
    case Finish => FinishAgrees(c, s, Numbers(s.pending.value.outputs), t, d);
    case Crash(_, _, _, _, _, recovered, progress) => OpeningAgrees(recovered.version, Numbers(progress.tables), t, d);
    case _ => SameVersions(c, s, t);
  }

  // ---- Runs ----

  /** One step of the counts for each step of the database. */
  ghost predicate CountedRun(states: seq<DbState>, events: seq<Event>, counts: seq<Counts>) {
    && |states| == |events| + 1 && 0 < |counts| <= |states|
    && forall i {:trigger CountedAt(states, events, counts, i)} :: 0 <= i < |counts| - 1 ==> CountedAt(states, events, counts, i)
  }

  ghost predicate CountedAt(states: seq<DbState>, events: seq<Event>, counts: seq<Counts>, i: nat)
    requires |states| == |events| + 1 && i + 1 < |counts| <= |states|
  {
    CountStep(counts[i], states[i], events[i], states[i + 1], counts[i + 1])
  }

  /** Throughout any run the counts agree with the database, whether installations fit or not. */
  lemma {:induction false} RunAgrees(states: seq<DbState>, events: seq<Event>, counts: seq<Counts>, n: nat)
    requires IsRun(states, events) && CountedRun(states, events, counts) && n < |counts| && Agree(counts[0], states[0])
    ensures Agree(counts[n], states[n])
  {
    if n > 0 {
      RunAgrees(states, events, counts, n - 1);
      assert StepAt(states, events, n - 1) && CountedAt(states, events, counts, n - 1);
      StepVersions(states[n - 1], events[n - 1], states[n]);
      CountStepAgrees(counts[n - 1], states[n - 1], events[n - 1], states[n], counts[n]);
    }
  }

  lemma ListedPresent(s: DbState, v: Version)
    requires StateOk(s) && v in Listed(s)
    ensures TablesPresent(s.disk.tables, v)
  {
    assert DbSteps.PartOk(s, VersionPart) && DbSteps.PartOk(s, PinnedPart) && DbSteps.PartOk(s, PendingPart);
  }

  lemma HeldVersion(c: Counts, s: DbState, id: nat)
    requires Agree(c, s) && Holders(c.refs, id) > 0
    ensures id in c.content && c.content[id] in Listed(s)
  {
    assert AgreeAt(c, s, 0);
    LiveIffHeld(c.refs, id);
    HeldIffListed(c.refs, c.content, s, c.slots, id);
  }

  lemma KeepsLive(c: Counts, s: DbState)
    requires Agree(c, s)
    ensures Cleaned(s).disk.tables.Keys
         == s.disk.tables.Keys * (LiveNumbers(c.refs) + if s.pending.Some? then Numbers(s.pending.value.outputs) else {})
    ensures forall n :: n in Cleaned(s).disk.tables ==> Cleaned(s).disk.tables[n] == s.disk.tables[n]
  {
    assert AgreeAt(c, s, 0);
    LiveIsDerived(c.refs, c.content, s, c.slots);
    CleanedIs(s);
    forall n ensures n in LiveTables(s) <==> InUse(s, n) {
      LiveIffInUse(s, n);
    }
  }

  lemma KeepsHeld(c: Counts, s: DbState, id: nat)
    requires Agree(c, s) && StateOk(s) && Holders(c.refs, id) > 0
    ensures id in c.content && TablesPresent(Cleaned(s).disk.tables, c.content[id])
  {
    HeldVersion(c, s, id);
    CleanKeeps(s);
    ListedPresent(Cleaned(s), c.content[id]);
  }

  /** DeleteObsoleteFiles in any state of any run in which installations fit: exactly the tables that AddLiveFiles
      finds in the counted list and the outputs of the compaction stay, so every version object that somebody holds
      keeps all its tables. */
  lemma CleanUpKeepsHeld(states: seq<DbState>, events: seq<Event>, counts: seq<Counts>, n: nat, id: nat)
    requires IsRun(states, events) && CountedRun(states, events, counts) && n < |counts| && Agree(counts[0], states[0])
    requires StateOk(states[0]) && InstallsFit(states, events, n)
    ensures var s, t, live := states[n], Cleaned(states[n]), LiveNumbers(counts[n].refs);
      && t.disk.tables.Keys == s.disk.tables.Keys * (live + if s.pending.Some? then Numbers(s.pending.value.outputs) else {})
      && (forall k :: k in t.disk.tables ==> t.disk.tables[k] == s.disk.tables[k])
      && (forall k :: k in t.disk.logs <==> k in s.disk.logs && s.logNumber <= k)
    ensures Holders(counts[n].refs, id) > 0 ==>
      id in counts[n].content && TablesPresent(Cleaned(states[n]).disk.tables, counts[n].content[id])
  {
    RunAgrees(states, events, counts, n);
    RunIsSafe(states, events, n);
    assert StateOk(states[n]);
    KeepsLive(counts[n], states[n]);
    CleanedIs(states[n]);
    if Holders(counts[n].refs, id) > 0 {
      KeepsHeld(counts[n], states[n], id);
    }
  }
}
