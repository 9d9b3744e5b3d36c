/** What an iterator over the whole database runs over: the merge of both memtables and all tables
    (db/db_impl.cc: NewInternalIterator; db/version_set.cc: AddIterators). */
module DbReaders {
  import opened DbFormat
  import opened Versions
  import opened Compactions
  import opened Installs
  import opened WriteBatches
  import opened DbStates
  import opened DbSteps
  import opened DbIter

  /** All files of the first n levels. */
  function AllFiles(v: Version, n: nat): seq<File>
    requires n <= |v.files|
  {
    if n == 0 then [] else AllFiles(v, n - 1) + v.files[n - 1]
  }

  lemma {:induction false} AllFilesMembers(v: Version, n: nat)
    requires n <= |v.files|
    ensures forall f :: f in AllFiles(v, n) <==> exists l :: 0 <= l < n && v.Has(l, f)
  {
    if n > 0 {
      AllFilesMembers(v, n - 1);
      forall f ensures f in AllFiles(v, n) <==> exists l :: 0 <= l < n && v.Has(l, f) {
        if f in v.files[n - 1] {
          assert v.Has(n - 1, f);
        }
      }
    }
  }

  lemma {:induction false} AllFilesShareNothing(v: Version, n: nat)
    requires v.Valid() && n <= NUM_LEVELS
    ensures NoSharedEntries(AllFiles(v, n))
  {
    if n > 0 {
      var init, last := AllFiles(v, n - 1), v.files[n - 1];
      var all := AllFiles(v, n);
      AllFilesShareNothing(v, n - 1);
      AllFilesMembers(v, n - 1);
      forall i, j | 0 <= i < j < |all| ensures ToSet(all[i].entries) !! ToSet(all[j].entries) {
        if j < |init| {
          assert all[i] == init[i] && all[j] == init[j];
        } else if i < |init| {
          assert all[i] in init && all[j] in last;
          var l :| 0 <= l < n - 1 && v.Has(l, all[i]);
          TwoFilesShareNothing(v, l, n - 1, all[i], all[j]);
        } else {
          SameLevelShareNothing(v, n - 1, i - |init|, j - |init|);
        }
      }
    }
  }

  lemma TwoFilesShareNothing(v: Version, l: int, m: int, f: File, g: File)
    requires v.Valid() && v.Has(l, f) && v.Has(m, g) && (l != m || f != g)
    ensures ToSet(f.entries) !! ToSet(g.entries)
  {
    forall e | e in f.entries ensures e !in g.entries {
      FilesShareNothing(v, l, m, f, g, e);
    }
  }

  lemma SameLevelShareNothing(v: Version, l: nat, i: nat, j: nat)
    requires v.Valid() && l < NUM_LEVELS && i < j < |v.files[l]|
    ensures ToSet(v.files[l][i].entries) !! ToSet(v.files[l][j].entries)
  {
    var f, g := v.files[l][i], v.files[l][j];
    assert v.LevelOk(l) && BySmallest(f, g) && v.Has(l, f) && v.Has(l, g);
    TwoFilesShareNothing(v, l, l, f, g);
  }

  /** The merge of all tables of a version. */
  lemma VersionMerged(v: Version)
    requires v.Valid()
    ensures var es := MergeFiles(AllFiles(v, |v.files|)); Sorted(es) && ToSet(es) == v.Entries()
  {
    var files := AllFiles(v, |v.files|);
    AllFilesMembers(v, |v.files|);
    AllFilesShareNothing(v, |v.files|);
    forall f | f in files ensures f.Valid() {
      var l :| 0 <= l < |v.files| && v.Has(l, f);
      assert v.LevelOk(l);
    }
    forall e ensures e in EntriesOf(files) <==> e in v.Entries() {
      if e in EntriesOf(files) {
        var f :| f in files && e in f.entries;
        var l :| 0 <= l < |v.files| && v.Has(l, f);
      }
      if e in v.Entries() {
        var l, f := Locate(v, e);
        assert f in files;
      }
    }
    MergeFilesSorted(files);
  }

  lemma LayersMerge(top: seq<Entry>, below: seq<Entry>)
    requires Sorted(top) && Sorted(below) && Distinct(ToSet(top) + ToSet(below)) && Shadows(ToSet(top), ToSet(below))
    ensures Sorted(Merge(top, below)) && ToSet(Merge(top, below)) == ToSet(top) + ToSet(below)
  {
    assert ToSet(top) !! ToSet(below) by {
      forall e | e in ToSet(top) ensures e !in ToSet(below) {
      }
    }
    MergeSorted(top, below);
    MergeMembers(top, below);
  }

  /** NewInternalIterator: all entries of the database in internal-key order. */
  function MergedState(mem: seq<Entry>, imm: Option<seq<Entry>>, v: Version): seq<Entry> {
    var tables := MergeFiles(AllFiles(v, |v.files|));
    Merge(mem, if imm.Some? then Merge(imm.value, tables) else tables)
  }

  lemma MergedIsContents(s: DbState)
    requires Layers(s) && s.current.Valid()
    ensures var es := MergedState(s.mem, s.imm, s.current); Sorted(es) && ToSet(es) == Contents(s)
  {
    var tables := MergeFiles(AllFiles(s.current, |s.current.files|));
    VersionMerged(s.current);
    if s.imm.Some? {
      assert Distinct(ToSet(s.imm.value) + ToSet(tables)) by {
        assert BelowMem(s) == ToSet(s.imm.value) + ToSet(tables);
      }
      LayersMerge(s.imm.value, tables);
      LayersMerge(s.mem, Merge(s.imm.value, tables));
    } else {
      assert BelowMem(s) == ToSet(tables);
      LayersMerge(s.mem, tables);
    }
  }

  // ---- Writes under an open iterator ----

  lemma NewWritesAreAbove(h: History, ops: seq<WriteOp>, q: nat, e: Entry)
    requires q <= |h| && |h| + |ops| <= MAX_SEQUENCE_NUMBER
    ensures var g := h + OpHistory(ops, |h| + 1);
      e in Writes(g[q..|h| + |ops|]) <==> e in Writes(h[q..|h|]) || e in OpEntries(ops, |h| + 1)
    ensures e in OpEntries(ops, |h| + 1) ==> e.key.seqNo > |h|
  {
    var es := OpHistory(ops, |h| + 1);
    assert (h + es)[q..|h| + |ops|] == h[q..|h|] + es;
    WritesJoin(h[q..|h|], es);
    OpWrites(ops, |h| + 1);
    assert e in OpEntries(ops, |h| + 1) <==> e in ToSet(OpEntries(ops, |h| + 1));
  }

  /** A write changes what an open iterator runs over only above its sequence number, and takes nothing away: the
      case that DBIter.ViewChanges is about. */
  lemma WritesAreAbove(s: DbState, ops: seq<WriteOp>, mem: seq<Entry>, sequence: SequenceNumber)
    requires StateOk(s) && |s.ledger.history| + |ops| < MAX_SEQUENCE_NUMBER && sequence <= s.lastSequence
    requires MemHolds(mem, Grow(s, ops).history, s.ledger.switched, |s.ledger.history| + |ops|)
    ensures var before, after := MergedState(s.mem, s.imm, s.current), MergedState(mem, s.imm, s.current);
      Sorted(before) && Sorted(after) && SameBelow(before, after, sequence) && forall e :: e in before ==> e in after
  {
    WriteKeeps(s, ops, mem);
    var news := OpEntries(ops, |s.ledger.history| + 1);
    StateMerged(s);
    StateMerged(Written(s, ops, mem));
    MemHoldsBoth(s, ops, mem);
    var before, after := MergedState(s.mem, s.imm, s.current), MergedState(mem, s.imm, s.current);
    OnlyAdds(before, after, ToSet(s.mem), ToSet(mem), BelowMem(s), news, sequence);
  }

  lemma MemHoldsBoth(s: DbState, ops: seq<WriteOp>, mem: seq<Entry>)
    requires StateOk(s) && |s.ledger.history| + |ops| < MAX_SEQUENCE_NUMBER
    requires MemHolds(mem, Grow(s, ops).history, s.ledger.switched, |s.ledger.history| + |ops|)
    ensures forall e :: e in ToSet(mem) <==> e in ToSet(s.mem) || e in OpEntries(ops, |s.ledger.history| + 1)
    ensures forall e :: e in OpEntries(ops, |s.ledger.history| + 1) ==> e.key.seqNo > |s.ledger.history|
  {
    var h, q := s.ledger.history, s.ledger.switched;
    assert PartOk(s, MemoryPart);
    assert ToSet(s.mem) == Writes(h[q..|h|]);
    forall e ensures e in ToSet(mem) <==> e in ToSet(s.mem) || e in OpEntries(ops, |h| + 1) {
      NewWritesAreAbove(h, ops, q, e);
    }
    forall e | e in OpEntries(ops, |h| + 1) ensures e.key.seqNo > |h| {
      NewWritesAreAbove(h, ops, q, e);
    }
  }

  lemma OnlyAdds(before: seq<Entry>, after: seq<Entry>, a: set<Entry>, b: set<Entry>, below: set<Entry>, news: seq<Entry>,
                 sequence: SequenceNumber)
    requires ToSet(before) == a + below && ToSet(after) == b + below
    requires forall e :: e in b <==> e in a || e in news
    requires forall e :: e in news ==> e.key.seqNo > sequence
    ensures SameBelow(before, after, sequence) && forall e :: e in before ==> e in after
  {
    forall e ensures e in after <==> e in before || e in news {
      assert e in after <==> e in ToSet(after);
      assert e in before <==> e in ToSet(before);
    }
  }

  lemma StateMerged(s: DbState)
    requires StateOk(s)
    ensures var es := MergedState(s.mem, s.imm, s.current); Sorted(es) && ToSet(es) == ToSet(s.mem) + BelowMem(s)
    ensures ToSet(s.mem) + BelowMem(s) == Contents(s)
    ensures s.ledger.switched <= |s.ledger.history| == s.lastSequence
  {
    LayersOk(s);
    CurrentValid(s);
    StateBounds(s);
    MergedIsContents(s);
  }
}
