/** Every run has reference counts: whatever the database does, there are operations on versions and files to go with
    it (db/version_set.cc: LogAndApply, Builder, Recover; db/db_impl.cc: NewInternalIterator, DoCompactionWork). */
module CountsExist {
  import opened DbFormat
  import opened Versions
  import opened Builder
  import opened Inputs
  import opened Installs
  import opened DbStates
  import opened Recovery
  import opened DbInvariants
  import opened DbSteps
  import opened LostTails
  import opened Reopening
  import opened VersionRefs
  import opened LiveVersions
  import opened Runs
  import opened AutomaticRuns
  import opened CountedRuns

  // ---- What a builder can do ----

  lemma {:induction false} FreshId(ids: set<nat>) returns (id: nat)
    ensures forall i :: i in ids ==> i < id
    decreases |ids|
  {
    if ids == {} {
      id := 0;
    } else {
      var i :| i in ids;
      var above := FreshId(ids - {i});
      id := if above <= i then i + 1 else above;
      forall j | j in ids ensures j < id {
        assert j == i || j in ids - {i};
      }
    }
  }

  lemma {:induction false} BuildsJoin(s: Refs, b: nat, v: nat, first: seq<BuildOp>, t: Refs, second: seq<BuildOp>, u: Refs)
    requires Builds(s, b, v, first, t) && Builds(t, b, v, second, u)
    ensures Builds(s, b, v, first + second, u)
    decreases |first|
  {
    if first == [] {
      assert first + second == second;
    } else {
      BuildsJoin(Build(s, b, v, first[0]), b, v, first[1..], t, second, u);
      assert (first + second)[1..] == first[1..] + second;
    }
  }

  ghost predicate Reaches(s: Refs, b: nat, v: nat, t: Refs) {
    exists ops :: Builds(s, b, v, ops, t)
  }

  lemma ReachesJoin(s: Refs, b: nat, v: nat, t: Refs, u: Refs)
    requires Reaches(s, b, v, t) && Reaches(t, b, v, u)
    ensures Reaches(s, b, v, u)
  {
    var first :| Builds(s, b, v, first, t);
    var second :| Builds(t, b, v, second, u);
    BuildsJoin(s, b, v, first, t, second, u);
  }

  lemma OneBuild(s: Refs, b: nat, v: nat, op: BuildOp)
    requires Counted(s, None) && CanBuild(s, b, v, op)
    ensures Reaches(s, b, v, Build(s, b, v, op)) && Counted(Build(s, b, v, op), None)
  {
    BuildKeeps(s, b, v, op);
    assert Builds(s, b, v, [op], Build(s, b, v, op)) by {
      assert Builds(Build(s, b, v, op), b, v, [op][1..], Build(s, b, v, op));
    }
  }

  /** The builder has got from s to t: the version has the additional files `taken`, the builder those in `added`. */
  ghost predicate GetsAt(s: Refs, b: nat, v: nat, t: Refs, taken: set<nat>, added: set<nat>, key: nat) {
    && Reaches(s, b, v, t) && OnlyBuilt(s, t, b, v) && b in s.builders && v in s.files
    && NumbersOf(t, t.files[v]) == NumbersOf(s, s.files[v]) + taken
    && NumbersOf(t, t.builders[b].added) == NumbersOf(s, s.builders[b].added) + added
  }

  ghost predicate Gets(s: Refs, b: nat, v: nat, t: Refs, taken: set<nat>, added: set<nat>) {
    forall key {:trigger GetsAt(s, b, v, t, taken, added, key)} :: GetsAt(s, b, v, t, taken, added, key)
  }

  lemma GetsJoin(s: Refs, b: nat, v: nat, t: Refs, u: Refs, taken: set<nat>, added: set<nat>, taken': set<nat>, added': set<nat>)
    requires Gets(s, b, v, t, taken, added) && Gets(t, b, v, u, taken', added')
    ensures Gets(s, b, v, u, taken + taken', added + added')
  {
    assert GetsAt(s, b, v, t, taken, added, 0) && GetsAt(t, b, v, u, taken', added', 0);
    ReachesJoin(s, b, v, t, u);
    OnlyBuiltOn(s, t, u, b, v);
  }

  lemma OnlyBuiltOn(s: Refs, t: Refs, u: Refs, b: nat, v: nat)
    requires OnlyBuilt(s, t, b, v) && OnlyBuilt(t, u, b, v)
    ensures OnlyBuilt(s, u, b, v)
  {
  }

  lemma NumbersGrow(s: Refs, t: Refs, ids: seq<nat>, f: nat)
    requires forall g :: g in ids ==> g in s.numbers && g in t.numbers && t.numbers[g] == s.numbers[g]
    requires f in t.numbers
    ensures NumbersOf(t, ids + [f]) == NumbersOf(s, ids) + {t.numbers[f]}
  {
  }

  /** A new object for the builder. */
  lemma AddObject(s: Refs, b: nat, v: nat, f: nat, n: nat)
    requires Counted(s, None) && b in s.builders && v in s.files && s.builders[b].base in s.files && f !in s.numbers
    ensures Gets(s, b, v, FileAdded(s, b, f, n), {}, {n}) && Counted(FileAdded(s, b, f, n), None)
    ensures CanBuild(FileAdded(s, b, f, n), b, v, TakeFile(f))
  {
    OneBuild(s, b, v, AddFile(f, n));
    AddedNumbers(s, b, v, f, n);
  }

  lemma AddedNumbers(s: Refs, b: nat, v: nat, f: nat, n: nat)
    requires Counted(s, None) && b in s.builders && v in s.files && f !in s.numbers
    ensures var t := FileAdded(s, b, f, n);
      && NumbersOf(t, s.files[v]) == NumbersOf(s, s.files[v]) + {}
      && NumbersOf(t, s.builders[b].added + [f]) == NumbersOf(s, s.builders[b].added) + {n}
    ensures f !in s.files[v]
  {
    assert PartAt(s, None, Existing, 0);
    var t := FileAdded(s, b, f, n);
    SameNumbersIn(s, t, s.files[v]);
    NumbersGrow(s, t, s.builders[b].added, f);
  }

  /** An object of the builder or of its base for the version. */
  lemma TakeObject(s: Refs, b: nat, v: nat, f: nat)
    requires Counted(s, None) && CanBuild(s, b, v, TakeFile(f)) && f in s.numbers
    ensures Gets(s, b, v, FileTaken(s, v, f), {s.numbers[f]}, {}) && Counted(FileTaken(s, v, f), None)
    ensures NumbersOf(s, s.files[v] + [f]) == NumbersOf(s, s.files[v]) + {s.numbers[f]}
  {
    assert PartAt(s, None, Existing, 0);
    var t := FileTaken(s, v, f);
    OneBuild(s, b, v, TakeFile(f));
    NumbersGrow(s, t, s.files[v], f);
  }

  /** A new object is added to the builder and to the version. */
  lemma MakeOne(s: Refs, b: nat, v: nat, n: nat) returns (t: Refs)
    requires Counted(s, None) && b in s.builders && v in s.files
    ensures Counted(t, None) && Gets(s, b, v, t, {n}, {n}) && b in t.builders && v in t.files
  {
    AreKnown(s, None);
    var f := FreshId(s.numbers.Keys);
    var m := FileAdded(s, b, f, n);
    AddObject(s, b, v, f, n);
    t := FileTaken(m, v, f);
    TakeObject(m, b, v, f);
    GetsJoin(s, b, v, m, t, {}, {n}, {n}, {});
    assert {} + {n} == {n} && {n} + {} == {n};
  }

  lemma GetsNothing(s: Refs, b: nat, v: nat)
    requires b in s.builders && v in s.files
    ensures Gets(s, b, v, s, {}, {})
  {
    assert Builds(s, b, v, [], s);
  }

  lemma {:induction false} MakeAdded(s: Refs, b: nat, v: nat, numbers: set<nat>) returns (t: Refs)
    requires Counted(s, None) && b in s.builders && v in s.files
    ensures Counted(t, None) && Gets(s, b, v, t, numbers, numbers)
    decreases |numbers|
  {
    if numbers == {} {
      t := s;
      GetsNothing(s, b, v);
    } else {
      var n :| n in numbers;
      var m := MakeOne(s, b, v, n);
      t := MakeAdded(m, b, v, numbers - {n});
      GetsJoin(s, b, v, m, t, {n}, {n}, numbers - {n}, numbers - {n});
      assert {n} + (numbers - {n}) == numbers;
    }
  }

  /** An object of the base version is given to the new one. */
  lemma TakeOne(s: Refs, b: nat, v: nat, n: nat) returns (t: Refs)
    requires Counted(s, None) && b in s.builders && v in s.files && s.builders[b].base in s.files
    requires n in NumbersOf(s, s.files[s.builders[b].base]) && n !in NumbersOf(s, s.files[v])
    ensures Counted(t, None) && Gets(s, b, v, t, {n}, {}) && t.builders == s.builders && t.numbers == s.numbers
    ensures v in t.files && NumbersOf(t, t.files[v]) == NumbersOf(s, s.files[v]) + {n}
    ensures forall x :: x != v && x in s.files ==> x in t.files && t.files[x] == s.files[x]
  {
    assert PartAt(s, None, Existing, 0);
    var f :| f in s.files[s.builders[b].base] && f in s.numbers && s.numbers[f] == n;
    t := FileTaken(s, v, f);
    TakeObject(s, b, v, f);
  }

  lemma {:induction false} MakeTaken(s: Refs, b: nat, v: nat, numbers: set<nat>) returns (t: Refs)
    requires Counted(s, None) && b in s.builders && v in s.files && s.builders[b].base in s.files && s.builders[b].base != v
    requires numbers <= NumbersOf(s, s.files[s.builders[b].base]) && numbers !! NumbersOf(s, s.files[v])
    ensures Counted(t, None) && Gets(s, b, v, t, numbers, {})
    decreases |numbers|
  {
    if numbers == {} {
      t := s;
      GetsNothing(s, b, v);
    } else {
      var n :| n in numbers;
      var m := TakeOne(s, b, v, n);
      t := MakeTaken(m, b, v, numbers - {n});
      GetsJoin(s, b, v, m, t, {n}, {}, numbers - {n}, {});
      assert {n} + (numbers - {n}) == numbers;
    }
  }

  /** The builder can make a version with exactly these numbers: new objects for some, objects of the base for the
      others. */
  lemma MakeVersion(s: Refs, v: nat, numbers: set<nat>, added: set<nat>) returns (t: Refs)
    requires Counted(s, None) && 0 in s.builders && v in s.files && s.builders[0].base in s.files && s.builders[0].base != v
    requires s.files[v] == [] && s.builders[0].added == []
    requires added <= numbers <= added + NumbersOf(s, s.files[s.builders[0].base])
    ensures Counted(t, None) && Gets(s, 0, v, t, numbers, added)
  {
    var m := MakeAdded(s, 0, v, added);
    MadeFrom(s, v, m, added, added);
    t := MakeTaken(m, 0, v, numbers - added);
    GetsJoin(s, 0, v, m, t, added, added, numbers - added, {});
    assert added + (numbers - added) == numbers && added + {} == added;
  }

  /** What is left to the builder when it starts from an empty version. */
  lemma MadeFrom(s: Refs, v: nat, t: Refs, taken: set<nat>, added: set<nat>)
    requires Counted(s, None) && Counted(t, None) && Gets(s, 0, v, t, taken, added)
    requires 0 in s.builders && v in s.files && s.files[v] == [] && s.builders[0].added == [] && s.builders[0].base != v
    ensures 0 in t.builders && t.builders[0].base == s.builders[0].base && v in t.files
    ensures NumbersOf(t, t.files[v]) == taken && NumbersOf(t, t.builders[0].added) == added
    ensures t.versionRefs == s.versionRefs && s.builders[0].base in s.files && s.builders[0].base in t.files
    ensures var base := s.builders[0].base; NumbersOf(t, t.files[base]) == NumbersOf(s, s.files[base])
  {
    assert GetsAt(s, 0, v, t, taken, added, 0);
    assert PartAt(s, None, Existing, 0);
    SameNumbersIn(s, t, s.files[s.builders[0].base]);
  }

  /** The start of LogAndApply, and the files that the builder finds in its base. */
  lemma StartNumbers(r: Refs, content: map<nat, Version>, s: DbState, slots: Slots, v: nat)
    requires Mirrors(r, content, s, slots) && v !in r.files
    ensures r.current.value in r.versionRefs && r.current.value != v
    ensures var start := BuilderAdded(Created(r, v), 0, r.current.value);
      && Counted(start, None) && r.current.value in start.files
      && NumbersOf(start, start.files[r.current.value]) == LiveFiles(s.current)
  {
    BuildStarts(r, v);
  }

  lemma MakeOps(s: Refs, v: nat, numbers: set<nat>, added: set<nat>) returns (u: Refs, ops: seq<BuildOp>)
    requires Counted(s, None) && 0 in s.builders && v in s.files && s.builders[0].base in s.files && s.builders[0].base != v
    requires s.files[v] == [] && s.builders[0].added == []
    requires added <= numbers <= added + NumbersOf(s, s.files[s.builders[0].base])
    ensures Builds(s, 0, v, ops, u) && Counted(u, None) && 0 in u.builders && v in u.files && u.versionRefs == s.versionRefs
    ensures u.builders[0].base == s.builders[0].base
    ensures NumbersOf(u, u.files[v]) == numbers && NumbersOf(u, u.builders[0].added) == added
  {
    u := MakeVersion(s, v, numbers, added);
    MadeFrom(s, v, u, numbers, added);
    assert GetsAt(s, 0, v, u, numbers, added, 0);
    ops :| Builds(s, 0, v, ops, u);
  }

  /** LogAndApply can install every version that consists of new files and files of the current version. */
  lemma NewVersionExists(c: Counts, s: DbState, w: Version, added: set<nat>) returns (d: Counts)
    requires Agree(c, s) && added <= LiveFiles(w) <= added + LiveFiles(s.current)
    ensures NewVersionFor(c, w, added, d)
  {
    assert AgreeAt(c, s, 0);
    var r, cur := c.refs, c.refs.current.value;
    var v := FreshId(r.files.Keys + c.content.Keys);
    assert v !in r.files.Keys + c.content.Keys;
    StartNumbers(r, c.content, s, c.slots, v);
    var u, ops := MakeOps(BuilderAdded(Created(r, v), 0, cur), v, LiveFiles(w), added);
    d := Counts(Replaced(BuilderDeleted(u, 0), v), c.content[v := w], c.slots);
    assert NewCurrentBy(r, d.refs, v, w, added, ops, u);
  }

  // ---- Every step has its operations on versions and files ----

  lemma AddsLive(v: Version, w: Version, level: nat, tables: seq<File>)
    requires Adds(v, w, level, tables) && |v.files| == NUM_LEVELS && level < NUM_LEVELS
    ensures LiveFiles(w) == Numbers(tables) + LiveFiles(v)
  {
    forall n | n in LiveFiles(w) ensures n in Numbers(tables) + LiveFiles(v) {
      var l, f :| 0 <= l < |w.files| && f in w.files[l] && f.number == n;
      assert w.Has(l, f);
    }
    forall n | n in LiveFiles(v) ensures n in LiveFiles(w) {
      var l, f :| 0 <= l < |v.files| && f in v.files[l] && f.number == n;
      assert v.Has(l, f) && w.Has(l, f);
    }
    forall n | n in Numbers(tables) ensures n in LiveFiles(w) {
      var f :| f in tables && f.number == n;
      assert w.Has(level, f);
    }
  }

  lemma RewritesLive(v: Version, w: Version, level: nat, in0: seq<File>, in1: seq<File>, outputs: seq<File>)
    requires Rewrites(v, w, level, in0, in1, outputs) && |v.files| == NUM_LEVELS && level + 1 < NUM_LEVELS
    ensures Numbers(outputs) <= LiveFiles(w) <= Numbers(outputs) + LiveFiles(v)
  {
    forall n | n in LiveFiles(w) ensures n in Numbers(outputs) + LiveFiles(v) {
      var l, f :| 0 <= l < |w.files| && f in w.files[l] && f.number == n;
      assert w.Has(l, f);
    }
    forall n | n in Numbers(outputs) ensures n in LiveFiles(w) {
      var f :| f in outputs && f.number == n;
      assert IsOutput(level, outputs, level + 1, f) && w.Has(level + 1, f);
    }
  }

  lemma FlushLive(s: DbState, level: nat, files: seq<File>, first: nat)
    requires StateOk(s) && FlushReady(s, level, files, first) && |s.current.files| == NUM_LEVELS
    ensures LiveFiles(Flushed(s, level, files).current) == Numbers(files) + LiveFiles(s.current)
  {
    FlushAdds(s, level, files, first);
    AddsLive(s.current, Flushed(s, level, files).current, level, files);
  }

  lemma MoveLive(s: DbState, level: nat, f: File)
    requires StateOk(s) && GoodInputs(s.current, level, [f], []) && |s.current.files| == NUM_LEVELS
    ensures {f.number} <= LiveFiles(Moved(s, level, f).current) <= {f.number} + LiveFiles(s.current)
  {
    CurrentValid(s);
    MoveRewrites(s.current, level, f);
    RewritesLive(s.current, Moved(s, level, f).current, level, [f], [], [f]);
    assert Numbers([f]) == {f.number};
  }

  lemma FinishLive(s: DbState, c: Pending)
    requires StateOk(s) && s.pending == Some(c) && |s.current.files| == NUM_LEVELS
    ensures Numbers(c.outputs) <= LiveFiles(Installed(s, c).current) <= Numbers(c.outputs) + LiveFiles(s.current)
  {
    CurrentValid(s);
    StateBounds(s);
    assert PendingOk(s, c) by { assert DbSteps.PartOk(s, PendingPart); }
    CurrentBelow(s);
    PendingInstalls(c, s.disk.manifest, s.disk.tables, s.current, s.ledger.history, s.ledger.pendingFrom, s.ledger.flushed,
                    s.nextFileNumber);
    RewritesLive(s.current, Installed(s, c).current, c.level, c.in0, c.in1, c.outputs);
  }

  lemma OpenLive(disk: Disk, v: Version, led: Ledger, r: Recovered, g: Progress, t: DbState)
    requires DiskOk(disk, v, led.history, led.flushed, led.floor, led.exposed) && Reopens(disk, v, led, r, g, t)
    ensures LiveFiles(t.current) == Numbers(g.tables) + LiveFiles(r.version)
  {
    StartsBelow(disk, v, led.history, led.flushed, led.floor, led.exposed, r);
    ReplayedHolds(v, led.history, led.flushed, led.floor, led.exposed, g, RecoveryGoal(r, disk, led.history, led.flushed), r.lastSequence);
    AddsLive(v, t.current, 0, g.tables);
  }

  lemma CrashLive(s: DbState, e: Event, t: DbState)
    requires StateOk(s) && e.Crash? && Step(s, e, t)
    ensures LiveFiles(t.current) == Numbers(e.progress.tables) + LiveFiles(e.recovered.version)
  {
    assert StepNow(s, e, t, 0);
    var disk, led := CrashDisk(s, e.logged, e.kept), CrashLedger(s, e.logged, e.kept);
    CrashDiskOk(s, e.logged, e.kept);
    AttemptsKeep(disk, s.current, led, e.attempts);
    OpenLive(DiskAfter(disk, e.attempts), s.current, led, e.recovered, e.progress, t);
  }

  lemma ReadsExist(c: Counts, s: DbState) returns (reader: nat, t: Refs)
    requires Agree(c, s)
    ensures Reads(c.refs, reader, t)
  {
    assert AgreeAt(c, s, 0);
    AreKnown(c.refs, None);
    reader := FreshId(c.refs.readers.Keys);
    t := ReaderAdded(c.refs, reader, c.refs.current.value);
  }

  lemma PinningExists(c: Counts, s: DbState) returns (d: Counts)
    requires Agree(c, s)
    ensures Pinning(c, d)
  {
    var reader, t := ReadsExist(c, s);
    d := Counts(t, c.content, c.slots.(pins := c.slots.pins + [reader]));
  }

  lemma WorkingExists(c: Counts, s: DbState) returns (d: Counts)
    requires Agree(c, s)
    ensures Working(c, d)
  {
    var reader, t := ReadsExist(c, s);
    d := Counts(t, c.content, c.slots.(work := Some(reader)));
  }

  lemma UnpinningExists(c: Counts, s: DbState, i: nat) returns (d: Counts)
    requires Agree(c, s) && i < |s.pinned|
    ensures Unpinning(c, i, d)
  {
    assert AgreeAt(c, s, 0);
    d := Counts(Released(c.refs, c.slots.pins[i]), c.content, c.slots.(pins := c.slots.pins[..i] + c.slots.pins[i + 1..]));
  }

  lemma FinishingExists(c: Counts, s: DbState, w: Version, added: set<nat>) returns (d: Counts)
    requires Agree(c, s) && s.pending.Some? && added <= LiveFiles(w) <= added + LiveFiles(s.current)
    ensures Finishing(c, w, added, d)
  {
    var m := NewVersionExists(c, s, w, added);
    InstallAgrees(c, s, w, added, m);
    assert AgreeAt(m, s.(current := w), 0);
    d := Counts(Released(m.refs, m.slots.work.value), m.content, m.slots.(work := None));
    assert WorkDone(m, d);
  }

  lemma OpeningExists(v: Version, w: Version, added: set<nat>, t: DbState) returns (d: Counts)
    requires t.pinned == [] && t.pending.None? && added <= LiveFiles(w) <= added + LiveFiles(v)
    ensures Opening(v, w, added, d)
  {
    var opening := t.(current := EmptyVersion());
    FreshAgrees(opening);
    var m := NewVersionExists(FreshCounts(), opening, v, LiveFiles(v));
    InstallAgrees(FreshCounts(), opening, v, LiveFiles(v), m);
    d := NewVersionExists(m, opening.(current := v), w, added);
  }

  lemma FlushCounts(c: Counts, s: DbState, e: Event, t: DbState) returns (d: Counts)
    requires Agree(c, s) && StateOk(s) && e.Flush? && Step(s, e, t)
    ensures NewVersionFor(c, t.current, Numbers(e.files), d)
  {
    assert StepNow(s, e, t, 0);
    FlushLive(s, e.level, e.files, e.first);
    d := NewVersionExists(c, s, t.current, Numbers(e.files));
  }

  lemma MoveCounts(c: Counts, s: DbState, e: Event, t: DbState) returns (d: Counts)
    requires Agree(c, s) && StateOk(s) && e.Move? && Step(s, e, t)
    ensures NewVersionFor(c, t.current, {e.file.number}, d)
  {
    assert StepNow(s, e, t, 0);
    MoveLive(s, e.level, e.file);
    d := NewVersionExists(c, s, t.current, {e.file.number});
  }

  lemma FinishCounts(c: Counts, s: DbState, t: DbState) returns (d: Counts)
    requires Agree(c, s) && StateOk(s) && Step(s, Finish, t)
    ensures s.pending.Some? && Finishing(c, t.current, Numbers(s.pending.value.outputs), d)
  {
    assert StepNow(s, Finish, t, 0);
    FinishLive(s, s.pending.value);
    d := FinishingExists(c, s, t.current, Numbers(s.pending.value.outputs));
  }

  lemma CrashCounts(s: DbState, e: Event, t: DbState) returns (d: Counts)
    requires StateOk(s) && e.Crash? && Step(s, e, t)
    ensures Opening(e.recovered.version, t.current, Numbers(e.progress.tables), d)
  {
    CrashLive(s, e, t);
    StepVersions(s, e, t);
    d := OpeningExists(e.recovered.version, t.current, Numbers(e.progress.tables), t);
  }

  /** Steps that leave the current version as it is. */
  lemma HolderStepExists(c: Counts, s: DbState, e: Event, t: DbState) returns (d: Counts)
    requires Agree(c, s) && VersionStep(s, e, t) && !e.Flush? && !e.Move? && !e.Finish? && !e.Crash?
    ensures CountStep(c, s, e, t, d)
  {
    match e
    case OpenIterator => d := PinningExists(c, s);
    case CloseIterator(i) => d := UnpinningExists(c, s, i);
    case Start(_) => d := WorkingExists(c, s);
    case _ => d := c;
  }

  /** Whatever the database does, the version set can keep up. */
  lemma CountStepExists(c: Counts, s: DbState, e: Event, t: DbState) returns (d: Counts)
    requires Agree(c, s) && StateOk(s) && Step(s, e, t)
    ensures CountStep(c, s, e, t, d)
  {
    if e.Flush? {
      d := FlushCounts(c, s, e, t);
    } else if e.Move? {
      d := MoveCounts(c, s, e, t);
    } else if e.Finish? {
      d := FinishCounts(c, s, t);
    } else if e.Crash? {
      d := CrashCounts(s, e, t);
    } else {
      StepVersions(s, e, t);
      d := HolderStepExists(c, s, e, t);
    }
  }

  /** Every run of a database that starts without readers has counts, from the opening on. */
  lemma {:induction false} RunHasCounts(states: seq<DbState>, events: seq<Event>, n: nat) returns (counts: seq<Counts>)
    requires IsRun(states, events) && StateOk(states[0]) && n <= |events| && InstallsFit(states, events, n)
    requires states[0].pinned == [] && states[0].pending.None?
    ensures |counts| == n + 1 && Agree(counts[0], states[0]) && CountedRun(states, events, counts)
  {
    if n == 0 {
      var s := states[0];
      var d := OpeningExists(s.current, s.current, {}, s);
      OpeningAgrees(s.current, {}, s, d);
      counts := [d];
    } else {
      counts := RunHasCounts(states, events, n - 1);
      RunAgrees(states, events, counts, n - 1);
      RunIsSafe(states, events, n - 1);
      assert StepAt(states, events, n - 1);
      var d := CountStepExists(counts[n - 1], states[n - 1], events[n - 1], states[n]);
      MoreCounts(states, events, counts, d);
      counts := counts + [d];
    }
  }

  lemma MoreCounts(states: seq<DbState>, events: seq<Event>, counts: seq<Counts>, d: Counts)
    requires CountedRun(states, events, counts) && |counts| <= |events|
    requires var i := |counts| - 1; CountStep(counts[i], states[i], events[i], states[i + 1], d)
    ensures CountedRun(states, events, counts + [d])
  {
    var more := counts + [d];
    forall i {:trigger CountedAt(states, events, more, i)} | 0 <= i < |more| - 1 ensures CountedAt(states, events, more, i) {
      if i < |counts| - 1 {
        assert CountedAt(states, events, counts, i);
      }
    }
  }
}
