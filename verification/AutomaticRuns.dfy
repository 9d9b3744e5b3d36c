/** Runs in which every compaction was chosen automatically: their inputs have no gap, so a memtable that is flushed in
    the meantime is never in the way of the outputs, and every state is in order (db/db_impl.cc: BackgroundCompaction,
    DoCompactionWork; db/version_set.cc: PickCompaction, PickLevelForMemTableOutput). */
module AutomaticRuns {
  import opened DbFormat
  import opened Versions
  import opened Installs
  import opened WriteBatches
  import opened DbInvariants
  import opened Gaps
  import opened DbSteps
  import opened Runs

  ghost predicate Gapless(c: Pending) {
    NoGap(c.in0 + c.in1)
  }

  /** The running compaction has gapless inputs, and what flushes have put into the next level lies beside them. */
  ghost predicate Undisturbed(s: DbState) {
    s.pending.Some? ==>
      var c := s.pending.value;
      Gapless(c) && forall g :: s.current.Has(c.level + 1, g) && !c.base.Has(c.level + 1, g) ==> Beside(c.in0 + c.in1, g)
  }

  /** A flush that goes below level 0 overlaps no file down to its level, so none of the inputs. */
  lemma FlushedBeside(c: Pending, v: Version, level: nat, files: seq<File>, g: File)
    requires MergeDone(c) && Gapless(c) && (forall l, f :: c.base.Has(l, f) ==> v.Has(l, f))
    requires FlushPlace(v, level, files) && level == c.level + 1 && g in files && g.Valid()
    ensures Beside(c.in0 + c.in1, g)
  {
    InputsValid(c);
    ValidRanges(c.in0 + c.in1);
    forall f | f in c.in0 + c.in1 ensures g.largest.user < f.smallest.user || f.largest.user < g.smallest.user {
      assert f in c.in0 ==> c.base.Has(c.level, f);
      assert f in c.in1 ==> c.base.Has(c.level + 1, f);
    }
    ClearIsBeside(c.in0 + c.in1, g);
  }

  lemma FlushUndisturbed(s: DbState, level: nat, files: seq<File>, first: nat)
    requires StateOk(s) && FlushReady(s, level, files, first) && Undisturbed(s) && |s.current.files| == NUM_LEVELS
    ensures Undisturbed(Flushed(s, level, files))
  {
    if s.pending.Some? {
      assert PendingOk(s, s.pending.value) by { assert PartOk(s, PendingPart); }
      FlushAdds(s, level, files, first);
      BesideAfterFlush(s.pending.value, s.current, Flushed(s, level, files).current, level, files);
    }
  }

  lemma BesideAfterFlush(c: Pending, v: Version, w: Version, level: nat, files: seq<File>)
    requires MergeDone(c) && Gapless(c) && (forall l, f :: c.base.Has(l, f) ==> v.Has(l, f))
    requires FlushPlace(v, level, files) && AllValid(files) && Adds(v, w, level, files)
    requires forall g :: v.Has(c.level + 1, g) && !c.base.Has(c.level + 1, g) ==> Beside(c.in0 + c.in1, g)
    ensures forall g :: w.Has(c.level + 1, g) && !c.base.Has(c.level + 1, g) ==> Beside(c.in0 + c.in1, g)
  {
    forall g | w.Has(c.level + 1, g) && !c.base.Has(c.level + 1, g) ensures Beside(c.in0 + c.in1, g) {
      if !v.Has(c.level + 1, g) {
        FlushedBeside(c, v, level, files, g);
      }
    }
  }

  lemma FlushAdds(s: DbState, level: nat, files: seq<File>, first: nat)
    requires StateOk(s) && FlushReady(s, level, files, first) && |s.current.files| == NUM_LEVELS
    ensures Adds(s.current, Flushed(s, level, files).current, level, files)
  {
    CurrentValid(s);
    FlushInstalls(s.current, level, files, first);
  }

  lemma StepUndisturbed(s: DbState, e: Event, t: DbState)
    requires StateOk(s) && Step(s, e, t) && Undisturbed(s) && (e.Start? ==> Gapless(e.c))
    ensures Undisturbed(t)
  {
    StepVersions(s, e, t);
    if e.Flush? {
      assert StepNow(s, e, t, 0);
      FlushUndisturbed(s, e.level, e.files, e.first);
    }
  }

  /** Every compaction that the first n steps start has gapless inputs, as all have that the code picks by itself. */
  ghost predicate GaplessStarts(events: seq<Event>, n: nat)
    requires n <= |events|
  {
    forall i {:trigger events[i]} :: 0 <= i < n && events[i].Start? ==> Gapless(events[i].c)
  }

  /** In such a run every installation fits, so every state is in order. */
  lemma {:induction false} AutomaticRunIsSafe(states: seq<DbState>, events: seq<Event>, n: nat)
    requires IsRun(states, events) && StateOk(states[0]) && Undisturbed(states[0]) && n <= |events| && GaplessStarts(events, n)
    ensures InstallsFit(states, events, n) && AllInOrder(states, n) && Undisturbed(states[n])
  {
    if n > 0 {
      AutomaticRunIsSafe(states, events, n - 1);
      var s, e := states[n - 1], events[n - 1];
      assert StepAt(states, events, n - 1);
      if s.pending.Some? {
        AddedBesideFits(s, s.pending.value);
      }
      LastInstall(states, events, n);
      StepUndisturbed(s, e, states[n]);
    }
    RunIsSafe(states, events, n);
  }

  /** A read in any state of such a run, crashes included, is the lookup in the map that the Puts and Deletes that are
      left make, unless a compaction has exposed the key. */
  lemma ReadsOfAutomaticRuns(states: seq<DbState>, events: seq<Event>, n: nat, k: UserKey, snap: SequenceNumber)
    requires IsRun(states, events) && StateOk(states[0]) && Undisturbed(states[0]) && n <= |events| && GaplessStarts(events, n)
    requires var led := states[n].ledger; k !in led.exposed && led.floor <= snap <= |led.history|
    ensures var ops := OpsOfRun(OpsIn(states[0].ledger.history), events, n);
      snap <= |ops| && Read(Contents(states[n]), k, snap) == Lookup(MapOf(ops[..snap]), k)
  {
    AutomaticRunIsSafe(states, events, n);
    ReadsOfRuns(states, events, n, k, snap);
  }
}
