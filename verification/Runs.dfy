/** Whole runs: any interleaving of writes, memtable switches, flushes, compaction starts and installations, moves,
    clean-ups, snapshots, iterators, and crashes with reopening. */
module Runs {
  import opened DbFormat
  import opened Versions
  import opened Inputs
  import opened Installs
  import opened WriteBatches
  import opened DbStates
  import opened Recovery
  import opened Exposures
  import opened DbInvariants
  import opened DbSteps
  import opened LostTails
  import opened Reopening

  datatype Event =
    | Write(ops: seq<WriteOp>, mem: seq<Entry>)
    | Switch
    | WriteTables(files: seq<File>, next: nat)
    | Flush(level: nat, files: seq<File>, first: nat)
    | Start(c: Pending)
    | Move(level: nat, file: File)
    | Finish
    | CleanUp
    | TakeSnapshot
    | DropSnapshot(i: nat)
    | OpenIterator
    | CloseIterator(i: nat)
    /** The process dies, or the machine stops, and the database is reopened; `logged` has been appended to the log,
        but its Write had not returned. Of the records of the current log the first `kept` can be read: that many
        writes have survived, and sequence numbers up to `numbered` are used. Any number of attempts to reopen may
        have died as well. */
    | Crash(logged: Option<seq<WriteOp>>, kept: nat, survived: nat, numbered: nat, attempts: seq<Attempt>,
            recovered: Recovered, progress: Progress)

  /** An opening that died: how far it had replayed the logs, and whether it had created its own log. */
  datatype Attempt = Attempt(recovered: Recovered, progress: Progress, saved: nat, at: nat, newLog: Option<nat>)

  /** The operations that the event adds to the log. */
  function Logged(e: Event): seq<WriteOp> {
    match e
    case Write(ops, _) => ops
    case Crash(logged, _, _, _, _, _, _) => OpsOf(logged)
    case _ => []
  }

  /** What the event does, and when it can happen. The key keeps this out of sight of proofs that only pass it on. */
  ghost predicate Step(s: DbState, e: Event, t: DbState) {
    forall key: nat {:trigger StepNow(s, e, t, key)} :: StepNow(s, e, t, key)
  }

  ghost predicate StepNow(s: DbState, e: Event, t: DbState, key: nat) {
    match e
    case Write(ops, mem) =>
      && HasRoom(s, ops)
      && MemHolds(mem, Grow(s, ops).history, s.ledger.switched, |s.ledger.history| + |ops|)
      && t == Written(s, ops, mem)
    case Switch => s.imm.None? && t == Switched(s)
    case WriteTables(files, next) => NumbersFrom(files, s.nextFileNumber) && s.nextFileNumber <= next && t == WithTables(s, files, next)
    case Flush(level, files, first) => FlushReady(s, level, files, first) && |s.current.files| == NUM_LEVELS && t == Flushed(s, level, files)
    case Start(c) => IsStart(s, t, c)
    case Move(level, file) =>
      s.pending.None? && GoodInputs(s.current, level, [file], []) && |s.current.files| == NUM_LEVELS && t == Moved(s, level, file)
    case Finish =>
      s.pending.Some? && CanFinish(s) && t == Installed(s, s.pending.value).(ledger := Charge(s, s.pending.value))
    case CleanUp => t == Cleaned(s)
    case TakeSnapshot => t == s.(snapshots := s.snapshots + [s.lastSequence])
    case DropSnapshot(i) => i < |s.snapshots| && t == s.(snapshots := s.snapshots[..i] + s.snapshots[i + 1..])
    case OpenIterator => t == s.(pinned := s.pinned + [s.current])
    case CloseIterator(i) => i < |s.pinned| && t == s.(pinned := s.pinned[..i] + s.pinned[i + 1..])
    case Crash(logged, kept, survived, numbered, attempts, recovered, progress) =>
      && HasRoom(s, OpsOf(logged)) && kept <= |CurrentLog(s, logged)|
      && survived == Survived(s, logged, kept) && numbered == Numbered(s, logged, kept)
      && AllDied(CrashDisk(s, logged, kept), s.current, CrashLedger(s, logged, kept), attempts)
      && Reopens(DiskAfter(CrashDisk(s, logged, kept), attempts), s.current, CrashLedger(s, logged, kept), recovered, progress, t)
  }

  /** A compaction is installed whether its outputs fit or not. */
  ghost predicate CanFinish(s: DbState) {
    |s.current.files| == NUM_LEVELS && s.ledger.flushed <= |s.ledger.history|
  }

  /** What the attempts to reopen leave on disk: tables, and empty logs. */
  function DiskAfter(disk: Disk, attempts: seq<Attempt>): Disk {
    if attempts == [] then disk
    else
      var before, a := DiskAfter(disk, attempts[..|attempts| - 1]), attempts[|attempts| - 1];
      Disk(if a.newLog.Some? then before.logs[a.newLog.value := []] else before.logs, before.manifest, a.progress.onDisk)
  }

  ghost predicate Died(disk: Disk, v: Version, led: Ledger, a: Attempt) {
    && Starts(a.recovered, disk, v)
    && ProgressOk(a.progress, RecoveryGoal(a.recovered, disk, led.history, led.flushed), a.saved, a.at)
    && (a.newLog.Some? ==> forall n :: n in disk.logs ==> n < a.newLog.value)
  }

  ghost predicate AllDied(disk: Disk, v: Version, led: Ledger, attempts: seq<Attempt>) {
    attempts == [] ||
    var init := attempts[..|attempts| - 1];
    AllDied(disk, v, led, init) && Died(DiskAfter(disk, init), v, led, attempts[|attempts| - 1])
  }

  /** However many attempts die, the same history can be recovered. */
  lemma {:induction false} AttemptsKeep(disk: Disk, v: Version, led: Ledger, attempts: seq<Attempt>)
    requires DiskOk(disk, v, led.history, led.flushed, led.floor, led.exposed) && AllDied(disk, v, led, attempts)
    ensures DiskOk(DiskAfter(disk, attempts), v, led.history, led.flushed, led.floor, led.exposed)
    decreases |attempts|
  {
    if attempts != [] {
      var init, a := attempts[..|attempts| - 1], attempts[|attempts| - 1];
      AttemptsKeep(disk, v, led, init);
      CrashWhileOpening(DiskAfter(disk, init), v, led.history, led.flushed, led.floor, led.exposed, a.recovered, a.progress,
                        a.saved, a.at, a.newLog);
    }
  }

  lemma ReopenKeeps(s: DbState, logged: Option<seq<WriteOp>>, k: nat, attempts: seq<Attempt>, r: Recovered, g: Progress, t: DbState)
    requires StateOk(s) && HasRoom(s, OpsOf(logged)) && k <= |CurrentLog(s, logged)|
    requires AllDied(CrashDisk(s, logged, k), s.current, CrashLedger(s, logged, k), attempts)
    requires Reopens(DiskAfter(CrashDisk(s, logged, k), attempts), s.current, CrashLedger(s, logged, k), r, g, t)
    ensures StateOk(t)
  {
    var led := CrashLedger(s, logged, k);
    CrashDiskOk(s, logged, k);
    AttemptsKeep(CrashDisk(s, logged, k), s.current, led, attempts);
    ReopenedOk(DiskAfter(CrashDisk(s, logged, k), attempts), s.current, led, r, g, t);
  }

  lemma ReopenedOk(disk: Disk, v: Version, led: Ledger, r: Recovered, g: Progress, t: DbState)
    requires DiskOk(disk, v, led.history, led.flushed, led.floor, led.exposed) && Reopens(disk, v, led, r, g, t)
    ensures StateOk(t)
  {
    OpenedOk(disk, v, led.history, led.flushed, led.floor, led.exposed, r, g);
    CleanKeeps(Opened(disk, r, g, |led.history|, Settled(led.history, led.floor, led.exposed)));
  }

  /** What a step does to the versions that somebody holds. */
  ghost predicate VersionStep(s: DbState, e: Event, t: DbState) {
    match e
    case OpenIterator => t.current == s.current && t.pinned == s.pinned + [s.current] && t.pending == s.pending
    case CloseIterator(i) =>
      t.current == s.current && i < |s.pinned| && t.pinned == s.pinned[..i] + s.pinned[i + 1..] && t.pending == s.pending
    case Start(p) => t.current == s.current && t.pinned == s.pinned && s.pending.None? && t.pending == Some(p) && p.base == s.current
    case Flush(_, _, _) => t.pinned == s.pinned && t.pending == s.pending
    case Move(_, _) => t.pinned == s.pinned && s.pending.None? && t.pending.None?
    case Finish => t.pinned == s.pinned && s.pending.Some? && t.pending.None?
    case Crash(_, _, _, _, _, _, _) => t.pinned == [] && t.pending.None?
    case _ => t.current == s.current && t.pinned == s.pinned && t.pending == s.pending
  }

  lemma StepVersions(s: DbState, e: Event, t: DbState)
    requires Step(s, e, t)
    ensures VersionStep(s, e, t)
  {
    assert StepNow(s, e, t, 0);
  }

  /** The outputs of the compaction fit between the files that are in the next level when they are installed. */
  ghost predicate InstallFits(s: DbState) {
    s.pending.Some? ==> OutputsFit(s.current, s.pending.value.level, s.pending.value.in1, s.pending.value.outputs)
  }

  lemma TableStepKeeps(s: DbState, e: Event, t: DbState)
    requires StateOk(s) && Step(s, e, t) && (e.WriteTables? || e.Flush? || e.Start? || e.Move? || e.CleanUp?)
    ensures StateOk(t)
  {
    assert StepNow(s, e, t, 0);
    match e
    case WriteTables(files, next) => TablesKeep(s, files, next);
    case Flush(level, files, first) => FlushKeeps(s, level, files, first);
    case Start(c) => RunKeeps(s, c);
    case Move(level, file) => MoveKeeps(s, level, file);
    case CleanUp => CleanKeeps(s);
  }

  lemma CrashKeeps(s: DbState, e: Event, t: DbState)
    requires StateOk(s) && Step(s, e, t) && e.Crash?
    ensures StateOk(t)
  {
    assert StepNow(s, e, t, 0);
    ReopenKeeps(s, e.logged, e.kept, e.attempts, e.recovered, e.progress, t);
  }

  lemma CallKeeps(s: DbState, e: Event, t: DbState)
    requires StateOk(s) && Step(s, e, t)
    requires e.Write? || e.Switch? || e.TakeSnapshot? || e.DropSnapshot? || e.OpenIterator? || e.CloseIterator?
    ensures StateOk(t)
  {
    assert StepNow(s, e, t, 0);
    match e
    case Write(ops, mem) => StateBounds(s); WriteKeeps(s, ops, mem);
    case Switch => SwitchKeeps(s);
    case TakeSnapshot => SnapshotKeeps(s);
    case DropSnapshot(i) => ReleaseKeeps(s, i);
    case OpenIterator => PinKeeps(s);
    case CloseIterator(i) => UnpinKeeps(s, i);
  }

  lemma FinishKeeps(s: DbState, t: DbState)
    requires StateOk(s) && Step(s, Finish, t)
    ensures StateOk(t) <==> InstallFits(s)
  {
    assert StepNow(s, Finish, t, 0);
    InstallIff(s, s.pending.value);
  }

  /** Every step keeps the invariant; only an installation does so if and only if its outputs fit. */
  lemma StepKeeps(s: DbState, e: Event, t: DbState)
    requires StateOk(s) && Step(s, e, t)
    ensures StateOk(t) <==> (e.Finish? ==> InstallFits(s))
  {
    if e.Finish? {
      FinishKeeps(s, t);
    } else if e.Crash? {
      CrashKeeps(s, e, t);
    } else if e.WriteTables? || e.Flush? || e.Start? || e.Move? || e.CleanUp? {
      TableStepKeeps(s, e, t);
    } else {
      CallKeeps(s, e, t);
    }
  }

  /** The history after logging `ops` on top of h. */
  function Extended(h: History, ops: seq<WriteOp>): History {
    h + OpHistory(ops, |h| + 1)
  }

  /** What an event makes of the history: what it logs is added at the end; a crash may take away the end. */
  function After(h: History, e: Event): History {
    var g := Extended(h, Logged(e));
    if e.Crash? then Cut(g, e.survived, e.numbered) else g
  }

  lemma NothingExtends(h: History)
    ensures Extended(h, []) == h
  {
  }

  lemma WriteHistory(s: DbState, e: Event, t: DbState)
    requires e.Write? && Step(s, e, t)
    ensures t.ledger.history == Extended(s.ledger.history, e.ops)
  {
    assert StepNow(s, e, t, 0);
  }

  lemma CrashHistory(s: DbState, e: Event, t: DbState)
    requires e.Crash? && Step(s, e, t)
    ensures t.ledger.history == Cut(Extended(s.ledger.history, OpsOf(e.logged)), e.survived, e.numbered)
  {
    assert StepNow(s, e, t, 0);
  }

  lemma QuietHistory(s: DbState, e: Event, t: DbState)
    requires !e.Write? && !e.Crash? && Step(s, e, t)
    ensures t.ledger.history == s.ledger.history
  {
    assert StepNow(s, e, t, 0);
  }

  lemma StepHistory(s: DbState, e: Event, t: DbState)
    requires Step(s, e, t)
    ensures t.ledger.history == After(s.ledger.history, e)
  {
    if e.Write? {
      WriteHistory(s, e, t);
    } else if e.Crash? {
      CrashHistory(s, e, t);
    } else {
      QuietHistory(s, e, t);
      NothingExtends(s.ledger.history);
    }
  }

  /** A run: states[i + 1] comes from states[i] by events[i]. */
  ghost predicate IsRun(states: seq<DbState>, events: seq<Event>) {
    |states| == |events| + 1 && forall i {:trigger StepAt(states, events, i)} :: 0 <= i < |events| ==> StepAt(states, events, i)
  }

  ghost predicate StepAt(states: seq<DbState>, events: seq<Event>, i: nat)
    requires i < |events| < |states|
  {
    Step(states[i], events[i], states[i + 1])
  }

  lemma RunStepHistory(states: seq<DbState>, events: seq<Event>, i: nat)
    requires IsRun(states, events) && i < |events|
    ensures states[i + 1].ledger.history == After(states[i].ledger.history, events[i])
  {
    assert StepAt(states, events, i);
    StepHistory(states[i], events[i], states[i + 1]);
  }

  /** What the first n events make of the history. */
  function HistoryOf(h: History, events: seq<Event>, n: nat): History
    requires n <= |events|
  {
    if n == 0 then h else After(HistoryOf(h, events, n - 1), events[n - 1])
  }

  /** Whatever happens, the history is what the events make of it. */
  lemma {:induction false} RunHistory(states: seq<DbState>, events: seq<Event>, n: nat)
    requires IsRun(states, events) && n <= |events|
    ensures states[n].ledger.history == HistoryOf(states[0].ledger.history, events, n)
  {
    if n > 0 {
      RunHistory(states, events, n - 1);
      RunStepHistory(states, events, n - 1);
    }
  }

  // ---- The operations that are left ----

  /** What an event makes of the list of operations: the same as of the history. */
  function OpsAfter(ops: OpList, e: Event): OpList {
    var more := ops + Somes(Logged(e));
    if e.Crash? then Cut(more, e.survived, e.numbered) else more
  }

  function OpsOfRun(ops: OpList, events: seq<Event>, n: nat): OpList
    requires n <= |events|
  {
    if n == 0 then ops else OpsAfter(OpsOfRun(ops, events, n - 1), events[n - 1])
  }

  lemma OpsInExtended(h: History, ops: seq<WriteOp>)
    ensures OpsIn(Extended(h, ops)) == OpsIn(h) + Somes(ops)
  {
    OpsInJoin(h, OpHistory(ops, |h| + 1));
    OpsInHistory(ops, |h| + 1);
  }

  lemma OpsInCut(h: History, m: nat, n: nat)
    ensures OpsIn(Cut(h, m, n)) == Cut(OpsIn(h), m, n)
  {
  }

  lemma OpsInAfter(h: History, e: Event)
    ensures OpsIn(After(h, e)) == OpsAfter(OpsIn(h), e)
  {
    OpsInExtended(h, Logged(e));
    if e.Crash? {
      OpsInCut(Extended(h, Logged(e)), e.survived, e.numbered);
    }
  }

  lemma {:induction false} OpsInRun(h: History, events: seq<Event>, n: nat)
    requires n <= |events|
    ensures OpsIn(HistoryOf(h, events, n)) == OpsOfRun(OpsIn(h), events, n)
  {
    if n > 0 {
      OpsInRun(h, events, n - 1);
      OpsInAfter(HistoryOf(h, events, n - 1), events[n - 1]);
    }
  }

  // ---- Runs in which no log loses its end ----

  /** Everything that was logged in the first n steps, in order. */
  function LoggedIn(events: seq<Event>, n: nat): seq<WriteOp>
    requires n <= |events|
  {
    if n == 0 then [] else LoggedIn(events, n - 1) + Logged(events[n - 1])
  }

  /** All records that were in the log can be read after the crash, as when only the process dies. */
  ghost predicate Lossless(states: seq<DbState>, events: seq<Event>, n: nat)
    requires n <= |events| < |states|
  {
    forall i {:trigger events[i]} :: 0 <= i < n && events[i].Crash? ==>
      states[i].logFileNumber in states[i].disk.logs && events[i].kept == |CurrentLog(states[i], events[i].logged)|
  }

  lemma ExtendedTwice(h: History, a: seq<WriteOp>, b: seq<WriteOp>)
    ensures Extended(Extended(h, a), b) == Extended(h, a + b)
    ensures Extended(h, []) == h
  {
    assert OpHistory(a + b, |h| + 1) == OpHistory(a, |h| + 1) + OpHistory(b, |h| + |a| + 1);
  }

  lemma LosslessStep(s: DbState, e: Event, t: DbState)
    requires StateOk(s) && Step(s, e, t)
    requires e.Crash? ==> s.logFileNumber in s.disk.logs && e.kept == |CurrentLog(s, e.logged)|
    ensures t.ledger.history == Extended(s.ledger.history, Logged(e))
  {
    assert StepNow(s, e, t, 0);
    StepHistory(s, e, t);
    if e.Crash? {
      NothingLost(s, e.logged);
      CutWhole(Extended(s.ledger.history, Logged(e)));
    }
  }

  /** When only processes die, the history consists of all logged operations, in order, with consecutive sequence
      numbers: nothing is missing from the list of operations. */
  lemma {:induction false} LosslessHistory(states: seq<DbState>, events: seq<Event>, n: nat)
    requires IsRun(states, events) && StateOk(states[0]) && n <= |events|
    requires InstallsFit(states, events, n) && Lossless(states, events, n)
    ensures states[n].ledger.history == Extended(states[0].ledger.history, LoggedIn(events, n))
    ensures OpsIn(states[n].ledger.history) == OpsIn(states[0].ledger.history) + Somes(LoggedIn(events, n))
  {
    OpsInExtended(states[0].ledger.history, LoggedIn(events, n));
    if n == 0 {
      ExtendedTwice(states[0].ledger.history, [], []);
    } else {
      LosslessHistory(states, events, n - 1);
      RunIsSafe(states, events, n - 1);
      assert StepAt(states, events, n - 1);
      LosslessStep(states[n - 1], events[n - 1], states[n]);
      ExtendedTwice(states[0].ledger.history, LoggedIn(events, n - 1), Logged(events[n - 1]));
    }
  }

  // ---- Safety ----

  /** The hypothesis about flushes during compactions: whenever one of the first n steps installs a compaction, its
      outputs fit. */
  ghost predicate InstallsFit(states: seq<DbState>, events: seq<Event>, n: nat)
    requires |states| == |events| + 1 && n <= |events|
  {
    forall i {:trigger events[i]} :: 0 <= i < n && events[i].Finish? ==> InstallFits(states[i])
  }

  ghost predicate AllInOrder(states: seq<DbState>, n: nat)
    requires n < |states|
  {
    forall i {:trigger states[i]} :: 0 <= i <= n ==> StateOk(states[i])
  }

  /** The states of a run are all in order if and only if every installation fits. */
  lemma {:induction false} RunIsSafe(states: seq<DbState>, events: seq<Event>, n: nat)
    requires IsRun(states, events) && StateOk(states[0]) && n <= |events|
    ensures AllInOrder(states, n) <==> InstallsFit(states, events, n)
  {
    if n > 0 {
      RunIsSafe(states, events, n - 1);
      assert StepAt(states, events, n - 1);
      if AllInOrder(states, n - 1) {
        StepKeeps(states[n - 1], events[n - 1], states[n]);
      }
      LastInstall(states, events, n);
    }
  }

  lemma LastInstall(states: seq<DbState>, events: seq<Event>, n: nat)
    requires |states| == |events| + 1 && 0 < n <= |events|
    ensures AllInOrder(states, n) <==> AllInOrder(states, n - 1) && StateOk(states[n])
    ensures InstallsFit(states, events, n) <==>
      InstallsFit(states, events, n - 1) && (events[n - 1].Finish? ==> InstallFits(states[n - 1]))
  {
  }

  /** A read in any state of any run in which installations fit, crashes included, is the lookup in the map that the
      Puts and Deletes that are left, up to its snapshot, make one after the other, unless a compaction has exposed the
      key. That is also what replaying the history up to the snapshot gives. */
  lemma ReadsOfRuns(states: seq<DbState>, events: seq<Event>, n: nat, k: UserKey, snap: SequenceNumber)
    requires IsRun(states, events) && StateOk(states[0]) && n <= |events| && InstallsFit(states, events, n)
    requires var led := states[n].ledger; k !in led.exposed && led.floor <= snap <= |led.history|
    ensures var ops := OpsOfRun(OpsIn(states[0].ledger.history), events, n);
      snap <= |ops| && Read(Contents(states[n]), k, snap) == Lookup(MapOf(ops[..snap]), k)
    ensures var h := HistoryOf(states[0].ledger.history, events, n);
      snap <= |h| && Read(Contents(states[n]), k, snap) == ReplayHistory(h, k, snap)
  {
    RunIsSafe(states, events, n);
    RunHistory(states, events, n);
    OpsInRun(states[0].ledger.history, events, n);
    ReadsAreRight(states[n], k, snap);
    ReplayIsLookup(HistoryOf(states[0].ledger.history, events, n), k, snap);
  }

  /** When only processes die, a read in any state of a run of a new database is the lookup in the map that all logged
      Puts and Deletes make. */
  lemma ReadsOfLosslessRuns(states: seq<DbState>, events: seq<Event>, n: nat, k: UserKey, snap: SequenceNumber)
    requires IsRun(states, events) && StateOk(states[0]) && states[0].ledger.history == [] && n <= |events|
    requires InstallsFit(states, events, n) && Lossless(states, events, n)
    requires var led := states[n].ledger; k !in led.exposed && led.floor <= snap <= |led.history|
    ensures var ops := LoggedIn(events, n);
      snap <= |ops| && Read(Contents(states[n]), k, snap) == Lookup(MapOf(Somes(ops[..snap])), k)
  {
    RunIsSafe(states, events, n);
    ReadsAreRight(states[n], k, snap);
    ReplayIsLookup(states[n].ledger.history, k, snap);
    LosslessOps(states, events, n, snap);
  }

  lemma LosslessOps(states: seq<DbState>, events: seq<Event>, n: nat, snap: nat)
    requires IsRun(states, events) && StateOk(states[0]) && states[0].ledger.history == [] && n <= |events|
    requires InstallsFit(states, events, n) && Lossless(states, events, n) && snap <= |states[n].ledger.history|
    ensures snap <= |LoggedIn(events, n)|
    ensures OpsIn(states[n].ledger.history)[..snap] == Somes(LoggedIn(events, n)[..snap])
  {
    LosslessHistory(states, events, n);
    var ops := LoggedIn(events, n);
    assert OpsIn(states[n].ledger.history) == Somes(ops);
    assert Somes(ops)[..snap] == Somes(ops[..snap]);
  }

  /** No compaction that the run has finished split a user key at the edge of its inputs. */
  ghost predicate NeverSplits(states: seq<DbState>, events: seq<Event>, n: nat)
    requires |states| == |events| + 1 && n <= |events|
  {
    forall i {:trigger events[i]} :: 0 <= i < n && events[i].Finish? && states[i].pending.Some? ==>
      var c := states[i].pending.value; forall k :: !Straddles(c.base, c.level, c.in1, k)
  }

  lemma StepExposesNothing(s: DbState, e: Event, t: DbState)
    requires StateOk(s) && Step(s, e, t)
    requires e.Finish? && s.pending.Some? ==>
      forall k :: !Straddles(s.pending.value.base, s.pending.value.level, s.pending.value.in1, k)
    ensures t.ledger.exposed == s.ledger.exposed
  {
    assert StepNow(s, e, t, 0);
    if e.Finish? {
      InstallExposesNothing(s, s.pending.value);
    }
  }

  /** In such a run no key is ever exposed. */
  lemma {:induction false} UnsplitRunsExposeNothing(states: seq<DbState>, events: seq<Event>, n: nat)
    requires IsRun(states, events) && StateOk(states[0]) && n <= |events|
    requires NeverSplits(states, events, n) && InstallsFit(states, events, n)
    ensures states[n].ledger.exposed == states[0].ledger.exposed
  {
    if n > 0 {
      UnsplitRunsExposeNothing(states, events, n - 1);
      RunIsSafe(states, events, n - 1);
      assert StepAt(states, events, n - 1);
      StepExposesNothing(states[n - 1], events[n - 1], states[n]);
    }
  }
}
