/** Merging the inputs of a compaction: which entries are dropped, and exactly when dropping them is
    invisible to every reader (db/db_impl.cc: DoCompactionWork; db/version_set.cc: IsBaseLevelForKey). */
module Compactions {
  import opened DbFormat
  import opened Versions

  // ---- The merged input ----

  /** Two-way step of the merging iterator. */
  function Merge(a: seq<Entry>, b: seq<Entry>): seq<Entry>
    decreases |a| + |b|
  {
    if a == [] then b
    else if b == [] then a
    else if Less(b[0].key, a[0].key) then [b[0]] + Merge(a, b[1..])
    else [a[0]] + Merge(a[1..], b)
  }

  function MergeFiles(files: seq<File>): seq<Entry> {
    if files == [] then [] else Merge(files[0].entries, MergeFiles(files[1..]))
  }

  lemma {:induction false} MergeMembers(a: seq<Entry>, b: seq<Entry>)
    ensures ToSet(Merge(a, b)) == ToSet(a) + ToSet(b)
    decreases |a| + |b|
  {
    if a != [] && b != [] {
      if Less(b[0].key, a[0].key) {
        MergeMembers(a, b[1..]);
        SetOfCons(b[0], b[1..]);
        SetOfCons(b[0], Merge(a, b[1..]));
        assert b == [b[0]] + b[1..];
      } else {
        MergeMembers(a[1..], b);
        SetOfCons(a[0], a[1..]);
        SetOfCons(a[0], Merge(a[1..], b));
        assert a == [a[0]] + a[1..];
      }
    }
  }

  lemma SetOfCons(e: Entry, es: seq<Entry>)
    ensures ToSet([e] + es) == {e} + ToSet(es)
  {
  }

  lemma SortedTail(es: seq<Entry>)
    requires Sorted(es) && es != []
    ensures Sorted(es[1..]) && forall e :: e in es[1..] ==> Less(es[0].key, e.key)
  {
    var rest := es[1..];
    forall i, j | 0 <= i < j < |rest| ensures Less(rest[i].key, rest[j].key) {
      assert Less(es[i + 1].key, es[j + 1].key);
    }
    forall e | e in rest ensures Less(es[0].key, e.key) {
      var j :| 0 <= j < |rest| && rest[j] == e;
      assert Less(es[0].key, es[j + 1].key);
    }
  }

  lemma SortedCons(e: Entry, es: seq<Entry>)
    requires Sorted(es) && forall x :: x in es ==> Less(e.key, x.key)
    ensures Sorted([e] + es)
  {
    var all := [e] + es;
    forall i, j | 0 <= i < j < |all| ensures Less(all[i].key, all[j].key) {
      assert all[j] == es[j - 1];
      if i > 0 { assert Less(es[i - 1].key, es[j - 1].key); }
    }
  }

  lemma SameKeySameEntry(all: set<Entry>, x: Entry, y: Entry)
    requires Distinct(all) && x in all && y in all && !Less(x.key, y.key) && !Less(y.key, x.key)
    ensures x == y
  {
    assert SameWrite(x, y);
  }

  lemma {:induction false} MergeSorted(a: seq<Entry>, b: seq<Entry>)
    requires Sorted(a) && Sorted(b) && Distinct(ToSet(a) + ToSet(b)) && ToSet(a) !! ToSet(b)
    ensures Sorted(Merge(a, b))
    decreases |a| + |b|
  {
    if a != [] && b != [] {
      var all := ToSet(a) + ToSet(b);
      assert a[0] in ToSet(a) && b[0] in ToSet(b);
      SortedTail(a);
      SortedTail(b);
      if Less(b[0].key, a[0].key) {
        assert ToSet(b[1..]) <= ToSet(b);
        MergeSorted(a, b[1..]);
        MergeMembers(a, b[1..]);
        forall x | x in Merge(a, b[1..]) ensures Less(b[0].key, x.key) {
          assert x in ToSet(Merge(a, b[1..]));
          HeadLeast(a, x, b[0].key);
        }
        SortedCons(b[0], Merge(a, b[1..]));
      } else {
        assert Less(a[0].key, b[0].key) by {
          if !Less(a[0].key, b[0].key) { SameKeySameEntry(all, a[0], b[0]); }
        }
        assert ToSet(a[1..]) <= ToSet(a);
        MergeSorted(a[1..], b);
        MergeMembers(a[1..], b);
        forall x | x in Merge(a[1..], b) ensures Less(a[0].key, x.key) {
          assert x in ToSet(Merge(a[1..], b));
          HeadLeast(b, x, a[0].key);
        }
        SortedCons(a[0], Merge(a[1..], b));
      }
    }
  }

  lemma HeadLeast(es: seq<Entry>, x: Entry, key: InternalKey)
    requires Sorted(es) && es != [] && Less(key, es[0].key)
    ensures x in es ==> Less(key, x.key)
  {
    if x in es {
      var j :| 0 <= j < |es| && es[j] == x;
      assert 0 < j ==> Less(es[0].key, es[j].key);
    }
  }

  /** No entry is stored in two of the files. */
  ghost predicate NoSharedEntries(files: seq<File>) {
    forall i, j {:trigger files[i], files[j]} :: 0 <= i < j < |files| ==> ToSet(files[i].entries) !! ToSet(files[j].entries)
  }

  lemma RestSharesNothing(files: seq<File>)
    requires files != [] && NoSharedEntries(files)
    ensures NoSharedEntries(files[1..]) && ToSet(files[0].entries) !! EntriesOf(files[1..])
  {
    var head, rest := files[0], files[1..];
    forall i, j | 0 <= i < j < |rest| ensures ToSet(rest[i].entries) !! ToSet(rest[j].entries) {
      assert rest[i] == files[i + 1] && rest[j] == files[j + 1];
    }
    forall e | e in EntriesOf(rest) ensures e !in ToSet(head.entries) {
      var f :| f in rest && e in f.entries;
      var j :| 0 <= j < |rest| && rest[j] == f;
      assert files[j + 1] == f && files[0] == head;
      assert e in ToSet(f.entries);
    }
  }

  lemma EntriesOfFirst(files: seq<File>)
    requires files != []
    ensures EntriesOf(files) == ToSet(files[0].entries) + EntriesOf(files[1..])
  {
    assert files == [files[0]] + files[1..];
    assert files[0] in files;
  }

  /** The merging iterator yields all entries of its inputs in internal-key order. */
  lemma {:induction false} MergeFilesSorted(files: seq<File>)
    requires AllValid(files) && NoSharedEntries(files) && Distinct(EntriesOf(files))
    ensures Sorted(MergeFiles(files)) && ToSet(MergeFiles(files)) == EntriesOf(files)
  {
    if files != [] {
      EntriesOfFirst(files);
      RestSharesNothing(files);
      MergeFilesSorted(files[1..]);
      assert files[0] in files;
      MergeSorted(files[0].entries, MergeFiles(files[1..]));
      MergeMembers(files[0].entries, MergeFiles(files[1..]));
    }
  }

  // ---- IsBaseLevelForKey ----

  /** No file of level + 2 or deeper has the user key in its range. */
  predicate IsBaseLevel(v: Version, level: nat, k: UserKey) {
    forall l :: level + 2 <= l < |v.files| ==> NoneContains(v.files[l], k)
  }

  predicate NoneContains(files: seq<File>, k: UserKey) {
    forall i :: 0 <= i < |files| ==> !(files[i].smallest.user <= k <= files[i].largest.user)
  }

  /** The cursors level_ptrs_ of a compaction. */
  class BaseLevelCursor {
    const v: Version
    const level: nat
    var levelPtrs: seq<nat>
    /** The key of the latest call. */
    ghost var latest: Option<UserKey>

    ghost predicate Passed(l: int, i: int)
      requires 0 <= l < |v.files| && 0 <= i <= |v.files[l]|
      reads this
    {
      forall j :: 0 <= j < i ==> latest.Some? && v.files[l][j].largest.user < latest.value
    }

    ghost predicate Valid()
      reads this
    {
      && v.Shape() && |levelPtrs| == NUM_LEVELS
      && forall l :: level + 2 <= l < NUM_LEVELS ==> levelPtrs[l] <= |v.files[l]| && Passed(l, levelPtrs[l])
    }

    constructor (v: Version, level: nat)
      requires v.Shape()
      ensures Valid() && this.v == v && this.level == level && latest == None
    {
      this.v, this.level, latest := v, level, None;
      levelPtrs := seq(NUM_LEVELS, _ => 0);
    }

    /** IsBaseLevelForKey: the cursors only move forward, yet for ascending keys the answer is that of a full scan. */
    method IsBaseLevelForKey(k: UserKey) returns (base: bool)
      requires Valid() && (latest.Some? ==> latest.value <= k)
      modifies this
      ensures Valid() && latest == Some(k)
      ensures base <==> IsBaseLevel(v, level, k)
    {
      latest := Some(k);
      var lvl := level + 2;
      while lvl < NUM_LEVELS
        invariant level + 2 <= lvl && Valid() && latest == Some(k)
        invariant forall l :: level + 2 <= l < lvl && l < NUM_LEVELS ==> NoneContains(v.files[l], k)
      {
        var files := v.files[lvl];
        assert v.LevelOk(lvl);
        while levelPtrs[lvl] < |files|
          invariant Valid() && latest == Some(k)
          decreases |files| - levelPtrs[lvl]
        {
          var f := files[levelPtrs[lvl]];
          if k <= f.largest.user {
            if k >= f.smallest.user {
              return false;
            }
            break;
          }
          levelPtrs := levelPtrs[lvl := levelPtrs[lvl] + 1];
        }
        forall i | 0 <= i < |files| ensures !(files[i].smallest.user <= k <= files[i].largest.user) {
          LaterStartsLater(files, levelPtrs[lvl], i);
        }
        lvl := lvl + 1;
      }
      return true;
    }

    lemma LaterStartsLater(files: seq<File>, p: nat, i: nat)
      requires Ranges(files) && Disjoint(files) && i < |files|
      ensures p <= i ==> files[p].smallest.user <= files[i].smallest.user
    {
      if p < i {
        assert files[p] in files && Less(files[p].largest, files[i].smallest);
      }
    }
  }

  // ---- The drop rules ----

  /** Rule (A): a newer entry for the same user key is already visible to the oldest snapshot. */
  ghost predicate Hidden(es: seq<Entry>, snap: SequenceNumber, i: nat)
    requires i < |es|
  {
    exists j :: 0 <= j < i && es[j].key.user == es[i].key.user && es[j].key.seqNo <= snap
  }

  /** The second rule: a deletion below which nothing can be found. */
  predicate ObsoleteDeletion(v: Version, level: nat, snap: SequenceNumber, e: Entry) {
    e.key.vtype.Deletion? && e.key.seqNo <= snap && IsBaseLevel(v, level, e.key.user)
  }

  ghost predicate Dropped(v: Version, level: nat, es: seq<Entry>, snap: SequenceNumber, i: nat)
    requires i < |es|
  {
    Hidden(es, snap, i) || ObsoleteDeletion(v, level, snap, es[i])
  }

  /** The entries among the first n that survive. */
  ghost function Kept(v: Version, level: nat, es: seq<Entry>, snap: SequenceNumber, n: nat): (kept: seq<Entry>)
    requires n <= |es|
  {
    if n == 0 then []
    else Kept(v, level, es, snap, n - 1) + if Dropped(v, level, es, snap, n - 1) then [] else [es[n - 1]]
  }

  /** In a sorted input it is enough to look at the previous entry, as the loop does. */
  lemma HiddenByPrevious(es: seq<Entry>, snap: SequenceNumber, i: nat)
    requires Sorted(es) && i < |es|
    ensures Hidden(es, snap, i) <==> i > 0 && es[i - 1].key.user == es[i].key.user && es[i - 1].key.seqNo <= snap
  {
    if j :| 0 <= j < i && es[j].key.user == es[i].key.user && es[j].key.seqNo <= snap {
      assert Less(es[j].key, es[i].key);
      assert j < i - 1 ==> Less(es[j].key, es[i - 1].key);
      assert Less(es[i - 1].key, es[i].key);
    }
  }

  lemma {:induction false} KeptMembers(v: Version, level: nat, es: seq<Entry>, snap: SequenceNumber, n: nat)
    requires n <= |es|
    ensures forall e :: e in Kept(v, level, es, snap, n) <==>
      exists i :: 0 <= i < n && es[i] == e && !Dropped(v, level, es, snap, i)
  {
    if n > 0 {
      KeptMembers(v, level, es, snap, n - 1);
      var before := Kept(v, level, es, snap, n - 1);
      var kept := Kept(v, level, es, snap, n);
      forall e ensures e in kept <==> exists i :: 0 <= i < n && es[i] == e && !Dropped(v, level, es, snap, i) {
        if e in kept && e !in before {
          assert es[n - 1] == e && !Dropped(v, level, es, snap, n - 1);
        }
      }
    }
  }

  lemma {:induction false} KeptSorted(v: Version, level: nat, es: seq<Entry>, snap: SequenceNumber, n: nat)
    requires Sorted(es) && n <= |es|
    ensures Sorted(Kept(v, level, es, snap, n))
  {
    if n > 0 {
      var before := Kept(v, level, es, snap, n - 1);
      var kept := Kept(v, level, es, snap, n);
      KeptSorted(v, level, es, snap, n - 1);
      KeptMembers(v, level, es, snap, n - 1);
      forall i, j | 0 <= i < j < |kept| ensures Less(kept[i].key, kept[j].key) {
        if j < |before| {
          assert Less(before[i].key, before[j].key);
        } else {
          assert before[i] in before;
          var t :| 0 <= t < n - 1 && es[t] == before[i];
          assert Less(es[t].key, es[n - 1].key);
        }
      }
    }
  }

  /** A snapshot above all merged entries drops what a snapshot at the last of them drops. */
  lemma {:induction false} KeptCapped(v: Version, level: nat, es: seq<Entry>, snap: SequenceNumber, cap: SequenceNumber, n: nat)
    requires n <= |es| && cap <= snap && forall e :: e in es ==> e.key.seqNo <= cap
    ensures Kept(v, level, es, snap, n) == Kept(v, level, es, cap, n)
  {
    if n > 0 {
      KeptCapped(v, level, es, snap, cap, n - 1);
      assert Hidden(es, snap, n - 1) <==> Hidden(es, cap, n - 1);
    }
  }

  // ---- DoCompactionWork ----

  function Flat(files: seq<File>): seq<Entry> {
    if files == [] then [] else Flat(files[..|files| - 1]) + files[|files| - 1].entries
  }

  /** An output file as FinishCompactionOutputFile leaves it. */
  ghost predicate Finished(f: File) {
    |f.entries| > 0 && f.smallest == f.entries[0].key && f.largest == f.entries[|f.entries| - 1].key
  }

  ghost predicate AllFinished(files: seq<File>, firstNumber: nat) {
    forall i :: 0 <= i < |files| ==> Finished(files[i]) && files[i].number == firstNumber + i
  }

  ghost predicate AllSized(files: seq<File>, cutting: Cutting) {
    forall i :: 0 <= i < |files| ==> files[i].size == cutting.size(files[i].entries)
  }

  /** What does not depend on the merge: where outputs are cut (ShouldStopBefore and the file-size test)
      and how large a table becomes. */
  datatype Cutting = Cutting(stopBefore: nat -> bool, full: seq<Entry> -> bool, size: seq<Entry> -> nat)

  // ---- Where the outputs end ----

  /** The finished outputs, and the entries of the open builder. */
  datatype Pieces = Pieces(done: seq<seq<Entry>>, open: seq<Entry>)

  ghost function Closed(p: Pieces): Pieces {
    if p.open == [] then p else Pieces(p.done + [p.open], [])
  }

  /** One more entry; an output that is full is finished. */
  ghost function WithEntry(p: Pieces, cutting: Cutting, e: Entry): Pieces {
    var open := p.open + [e];
    if cutting.full(open) then Pieces(p.done + [open], []) else Pieces(p.done, open)
  }

  /** The outputs after the first n entries of the merge. */
  ghost function Cut(v: Version, level: nat, es: seq<Entry>, snap: SequenceNumber, cutting: Cutting, n: nat): Pieces
    requires n <= |es|
  {
    if n == 0 then Pieces([], [])
    else
      var before := Cut(v, level, es, snap, cutting, n - 1);
      var ready := if cutting.stopBefore(n - 1) then Closed(before) else before;
      if Dropped(v, level, es, snap, n - 1) then ready else WithEntry(ready, cutting, es[n - 1])
  }

  ghost function Outputs(v: Version, level: nat, es: seq<Entry>, snap: SequenceNumber, cutting: Cutting): seq<seq<Entry>> {
    Closed(Cut(v, level, es, snap, cutting, |es|)).done
  }

  function Joined(pieces: seq<seq<Entry>>): seq<Entry> {
    if pieces == [] then [] else Joined(pieces[..|pieces| - 1]) + pieces[|pieces| - 1]
  }

  lemma JoinedSnoc(pieces: seq<seq<Entry>>, piece: seq<Entry>)
    ensures Joined(pieces + [piece]) == Joined(pieces) + piece
  {
    assert (pieces + [piece])[..|pieces|] == pieces;
  }

  lemma ClosedJoins(p: Pieces)
    ensures Joined(Closed(p).done) + Closed(p).open == Joined(p.done) + p.open
    ensures Closed(p).open == []
  {
    JoinedSnoc(p.done, p.open);
  }

  lemma WithEntryJoins(p: Pieces, cutting: Cutting, e: Entry)
    ensures var q := WithEntry(p, cutting, e); Joined(q.done) + q.open == Joined(p.done) + p.open + [e]
  {
    JoinedSnoc(p.done, p.open + [e]);
  }

  /** Wherever the outputs end, together they are what is kept. */
  lemma {:induction false} CutJoins(v: Version, level: nat, es: seq<Entry>, snap: SequenceNumber, cutting: Cutting, n: nat)
    requires n <= |es|
    ensures var p := Cut(v, level, es, snap, cutting, n); Joined(p.done) + p.open == Kept(v, level, es, snap, n)
  {
    if n > 0 {
      var before := Cut(v, level, es, snap, cutting, n - 1);
      CutJoins(v, level, es, snap, cutting, n - 1);
      ClosedJoins(before);
      WithEntryJoins(if cutting.stopBefore(n - 1) then Closed(before) else before, cutting, es[n - 1]);
    }
  }

  ghost predicate NotFullBefore(cutting: Cutting, piece: seq<Entry>, end: nat)
    requires end <= |piece|
  {
    forall j :: 0 < j < end ==> !cutting.full(piece[..j])
  }

  /** No output goes on after it is full. */
  lemma {:induction false} OutputsEndWhenFull(v: Version, level: nat, es: seq<Entry>, snap: SequenceNumber, cutting: Cutting, n: nat)
    requires n <= |es|
    ensures var p := Cut(v, level, es, snap, cutting, n);
      && (forall piece :: piece in p.done ==> NotFullBefore(cutting, piece, |piece|))
      && NotFullBefore(cutting, p.open, |p.open|) && (p.open != [] ==> !cutting.full(p.open))
  {
    if n > 0 {
      OutputsEndWhenFull(v, level, es, snap, cutting, n - 1);
      var before := Cut(v, level, es, snap, cutting, n - 1);
      var ready := if cutting.stopBefore(n - 1) then Closed(before) else before;
      var open := ready.open + [es[n - 1]];
      forall j | 0 < j < |open| ensures !cutting.full(open[..j]) {
        assert open[..j] == ready.open[..j] && (j == |ready.open| ==> ready.open[..j] == ready.open);
      }
    }
  }

  function PiecesOf(files: seq<File>): (r: seq<seq<Entry>>)
    ensures |r| == |files| && forall i :: 0 <= i < |r| ==> r[i] == files[i].entries
  {
    seq(|files|, i requires 0 <= i < |files| => files[i].entries)
  }

  lemma {:induction false} FlatIsJoined(files: seq<File>)
    ensures Flat(files) == Joined(PiecesOf(files))
  {
    if files != [] {
      FlatIsJoined(files[..|files| - 1]);
      assert PiecesOf(files)[..|files| - 1] == PiecesOf(files[..|files| - 1]);
    }
  }

  class CompactionState {
    const cutting: Cutting
    const firstNumber: nat
    var outputs: seq<File>
    /** The entries of the open builder; empty when no builder is open. */
    var open: seq<Entry>

    constructor (cutting: Cutting, firstNumber: nat)
      ensures this.cutting == cutting && this.firstNumber == firstNumber && outputs == [] && open == []
    {
      this.cutting, this.firstNumber, outputs, open := cutting, firstNumber, [], [];
    }

    ghost predicate Valid()
      reads this
    {
      AllFinished(outputs, firstNumber) && AllSized(outputs, cutting)
    }

    ghost function Current(): Pieces
      reads this
    {
      Pieces(PiecesOf(outputs), open)
    }

    method FinishOutputFile()
      requires Valid() && open != []
      modifies this
      ensures Valid() && Current() == Closed(old(Current()))
    {
      var f := File(firstNumber + |outputs|, cutting.size(open), open[0].key, open[|open| - 1].key, open);
      ghost var before := outputs;
      outputs := outputs + [f];
      open := [];
      assert PiecesOf(outputs) == PiecesOf(before) + [f.entries];
    }

    /** ShouldStopBefore has been asked about the next entry. */
    method StopBefore(stop: bool)
      requires Valid()
      modifies this
      ensures Valid() && Current() == if stop then Closed(old(Current())) else old(Current())
    {
      if stop && open != [] {
        FinishOutputFile();
      }
    }

    method Add(e: Entry)
      requires Valid()
      modifies this
      ensures Valid() && Current() == WithEntry(old(Current()), cutting, e)
    {
      open := open + [e];
      if cutting.full(open) {
        FinishOutputFile();
      }
    }
  }

  /** DoCompactionWork over the merged input: the outputs hold, in order, exactly the entries that the two
      drop rules leave, cut where an output is full or ShouldStopBefore says so. The loop runs without interruption. */
  method DoCompactionWork(v: Version, level: nat, input: seq<Entry>, smallestSnapshot: SequenceNumber,
                          cutting: Cutting, firstNumber: nat)
    returns (outputs: seq<File>)
    requires v.Shape() && Sorted(input) && smallestSnapshot < MAX_SEQUENCE_NUMBER
    ensures Flat(outputs) == Kept(v, level, input, smallestSnapshot, |input|)
    ensures PiecesOf(outputs) == Outputs(v, level, input, smallestSnapshot, cutting)
    ensures AllFinished(outputs, firstNumber) && AllSized(outputs, cutting)
    ensures Disjoint(outputs) && AllValid(outputs)
  {
    var compact := new CompactionState(cutting, firstNumber);
    var cursor := new BaseLevelCursor(v, level);
    var currentUserKey: Option<UserKey> := None;
    var lastSequenceForKey: SequenceNumber := MAX_SEQUENCE_NUMBER;
    for i := 0 to |input|
      invariant fresh(compact) && fresh(cursor)
      invariant compact.firstNumber == firstNumber && compact.cutting == cutting && compact.Valid() && cursor.Valid()
      invariant cursor.v == v && cursor.level == level
      invariant cursor.latest.Some? ==> i > 0 && cursor.latest.value <= input[i - 1].key.user
      invariant if i == 0 then currentUserKey == None else
        currentUserKey == Some(input[i - 1].key.user) && lastSequenceForKey == input[i - 1].key.seqNo
      invariant compact.Current() == Cut(v, level, input, smallestSnapshot, cutting, i)
    {
      var ikey := input[i].key;
      compact.StopBefore(cutting.stopBefore(i));
      HiddenByPrevious(input, smallestSnapshot, i);
      assert i > 0 ==> Less(input[i - 1].key, ikey);
      var drop := false;
      if currentUserKey != Some(ikey.user) {
        currentUserKey := Some(ikey.user);
        lastSequenceForKey := MAX_SEQUENCE_NUMBER;
      }
      if lastSequenceForKey <= smallestSnapshot {
        drop := true;
      } else if ikey.vtype.Deletion? && ikey.seqNo <= smallestSnapshot {
        drop := cursor.IsBaseLevelForKey(ikey.user);
      }
      lastSequenceForKey := ikey.seqNo;
      assert drop <==> Dropped(v, level, input, smallestSnapshot, i);
      if !drop {
        compact.Add(input[i]);
      }
    }
    if compact.open != [] {
      compact.FinishOutputFile();
    }
    outputs := compact.outputs;
    OutputsAre(v, level, input, smallestSnapshot, cutting, outputs, firstNumber);
  }

  lemma OutputsAre(v: Version, level: nat, es: seq<Entry>, snap: SequenceNumber, cutting: Cutting, outputs: seq<File>, firstNumber: nat)
    requires Sorted(es) && PiecesOf(outputs) == Outputs(v, level, es, snap, cutting) && AllFinished(outputs, firstNumber)
    ensures Flat(outputs) == Kept(v, level, es, snap, |es|) && Disjoint(outputs) && AllValid(outputs)
  {
    var p := Cut(v, level, es, snap, cutting, |es|);
    FlatIsJoined(outputs);
    CutJoins(v, level, es, snap, cutting, |es|);
    ClosedJoins(p);
    assert Joined(Closed(p).done) + [] == Joined(Closed(p).done);
    KeptSorted(v, level, es, snap, |es|);
    CutsAreDisjoint(outputs, firstNumber);
  }

  /** Cutting a sorted sequence into non-empty pieces gives valid files in disjoint order. */
  lemma CutsAreDisjoint(files: seq<File>, firstNumber: nat)
    requires AllFinished(files, firstNumber) && Sorted(Flat(files))
    ensures AllValid(files) && Disjoint(files)
  {
    forall f | f in files ensures f.Valid() {
      var i :| 0 <= i < |files| && files[i] == f;
      PieceSorted(files, i, firstNumber);
    }
    forall i, j | 0 <= i < j < |files| ensures Less(files[i].largest, files[j].smallest) {
      var a, b := PieceAt(files, i), PieceAt(files, j);
      PieceEnds(files, i, j);
      assert Less(Flat(files)[a + |files[i].entries| - 1].key, Flat(files)[b].key);
    }
  }

  /** Where the entries of file i start in the flat sequence. */
  function PieceAt(files: seq<File>, i: nat): nat
    requires i <= |files|
  {
    |Flat(files[..i])|
  }

  lemma {:induction false} PieceAtHolds(files: seq<File>, i: nat)
    requires i < |files|
    ensures PieceAt(files, i) + |files[i].entries| <= |Flat(files)|
    ensures forall t :: 0 <= t < |files[i].entries| ==> Flat(files)[PieceAt(files, i) + t] == files[i].entries[t]
    decreases |files|
  {
    var n := |files| - 1;
    assert files[..n][..i] == files[..i];
    if i < n {
      PieceAtHolds(files[..n], i);
    }
  }

  lemma {:induction false} PieceEnds(files: seq<File>, i: nat, j: nat)
    requires i < j < |files| && |files[i].entries| > 0 && |files[j].entries| > 0
    ensures PieceAt(files, i) + |files[i].entries| <= PieceAt(files, j) < |Flat(files)|
    ensures Flat(files)[PieceAt(files, i) + |files[i].entries| - 1] == files[i].entries[|files[i].entries| - 1]
    ensures Flat(files)[PieceAt(files, j)] == files[j].entries[0]
  {
    PieceAtHolds(files, i);
    PieceAtHolds(files, j);
    PieceAtHolds(files[..j], i);
    assert files[..j][..i] == files[..i];
  }

  lemma PieceSorted(files: seq<File>, i: nat, firstNumber: nat)
    requires i < |files| && AllFinished(files, firstNumber) && Sorted(Flat(files))
    ensures files[i].Valid()
  {
    PieceAtHolds(files, i);
    var es, a := files[i].entries, PieceAt(files, i);
    forall x, y | 0 <= x < y < |es| ensures Less(es[x].key, es[y].key) {
      assert Less(Flat(files)[a + x].key, Flat(files)[a + y].key);
    }
    forall e | e in es ensures AtMost(es[0].key, e.key) && AtMost(e.key, es[|es| - 1].key) {
      var t :| 0 <= t < |es| && es[t] == e;
      assert 0 < t ==> Less(es[0].key, es[t].key);
      assert t < |es| - 1 ==> Less(es[t].key, es[|es| - 1].key);
    }
  }

  // ---- Exactly when dropping is invisible ----

  /** The one way in which the drop rules can change a read: the newest entry of k that the oldest snapshot
      sees is a deletion in the inputs that is dropped as obsolete, although outside the inputs there still is
      an older value. */
  ghost predicate Exposes(v: Version, level: nat, es: seq<Entry>, snap: SequenceNumber, rest: set<Entry>, k: UserKey) {
    && IsBaseLevel(v, level, k)
    && (exists d :: d in es && d.key.vtype.Deletion? && IsNewest(ToSet(es) + rest, k, snap, d))
    && (exists r: Entry :: r.key.vtype.Value? && IsNewest(rest, k, snap, r))
  }

  ghost predicate SameReads(before: set<Entry>, after: set<Entry>, k: UserKey, snap: SequenceNumber) {
    forall s: SequenceNumber :: snap <= s ==> Read(before, k, s) == Read(after, k, s)
  }

  /** A dropped entry is never what a reader at or above the oldest snapshot sees, except for an obsolete deletion. */
  lemma NewestIsKeptOrObsolete(v: Version, level: nat, es: seq<Entry>, snap: SequenceNumber, rest: set<Entry>,
                               k: UserKey, s: SequenceNumber, n: Entry)
    requires Sorted(es) && Distinct(ToSet(es) + rest) && snap <= s
    requires IsNewest(ToSet(es) + rest, k, s, n)
    ensures n in rest || n in Kept(v, level, es, snap, |es|) || ObsoleteDeletion(v, level, snap, n)
  {
    KeptMembers(v, level, es, snap, |es|);
    if n !in rest {
      var i :| 0 <= i < |es| && es[i] == n;
      if Hidden(es, snap, i) {
        var j :| 0 <= j < i && es[j].key.user == es[i].key.user && es[j].key.seqNo <= snap;
        assert Less(es[j].key, es[i].key);
        assert es[j] in ToSet(es) + rest && Visible(es[j], k, s);
        SameWriteSame(ToSet(es) + rest, es[j], n);
      }
    }
  }

  lemma SameWriteSame(all: set<Entry>, x: Entry, y: Entry)
    requires Distinct(all) && x in all && y in all && x != y
    ensures !SameWrite(x, y)
  {
  }

  /** If the newest entry is an obsolete deletion of the inputs, no visible entry of the inputs survives. */
  lemma NothingVisibleKept(v: Version, level: nat, es: seq<Entry>, snap: SequenceNumber, rest: set<Entry>,
                           k: UserKey, s: SequenceNumber, d: Entry, x: Entry)
    requires Sorted(es) && Distinct(ToSet(es) + rest) && snap <= s
    requires IsNewest(ToSet(es) + rest, k, s, d) && d in es && ObsoleteDeletion(v, level, snap, d)
    requires Visible(x, k, s)
    ensures x !in Kept(v, level, es, snap, |es|)
  {
    KeptMembers(v, level, es, snap, |es|);
    var j :| 0 <= j < |es| && es[j] == d;
    forall i | 0 <= i < |es| && es[i] == x ensures Dropped(v, level, es, snap, i) {
      HiddenIsDropped(v, level, es, snap, rest, k, s, i, j);
    }
  }

  /** A visible entry of the key is dropped: it is the deletion, or the deletion is before it. */
  lemma HiddenIsDropped(v: Version, level: nat, es: seq<Entry>, snap: SequenceNumber, rest: set<Entry>, k: UserKey, s: SequenceNumber,
                        i: nat, j: nat)
    requires Sorted(es) && Distinct(ToSet(es) + rest) && snap <= s && i < |es| && j < |es|
    requires IsNewest(ToSet(es) + rest, k, s, es[j]) && ObsoleteDeletion(v, level, snap, es[j]) && Visible(es[i], k, s)
    ensures Dropped(v, level, es, snap, i)
  {
    assert es[i] in ToSet(es) + rest;
    if i < j {
      assert Less(es[i].key, es[j].key);
      SameWriteIfTied(ToSet(es) + rest, es[i], es[j]);
    }
  }

  lemma SameWriteIfTied(all: set<Entry>, x: Entry, d: Entry)
    requires Distinct(all) && x in all && d in all && x.key.user == d.key.user && Less(x.key, d.key)
    ensures x.key.seqNo > d.key.seqNo
  {
    assert SameWrite(x, d) ==> x == d;
  }

  lemma ReadSurvives(v: Version, level: nat, es: seq<Entry>, snap: SequenceNumber, rest: set<Entry>,
                     k: UserKey, s: SequenceNumber)
    requires Sorted(es) && Distinct(ToSet(es) + rest) && snap <= s
    requires !Exposes(v, level, es, snap, rest, k)
    ensures Read(ToSet(es) + rest, k, s) == Read(ToSet(Kept(v, level, es, snap, |es|)) + rest, k, s)
  {
    var before, after := ToSet(es) + rest, ToSet(Kept(v, level, es, snap, |es|)) + rest;
    KeptMembers(v, level, es, snap, |es|);
    assert after <= before;
    NewestExists(before, k, s);
    NewestExists(after, k, s);
    if Newest(before, k, s).Some? {
      var n := Newest(before, k, s).value;
      NewestIsKeptOrObsolete(v, level, es, snap, rest, k, s, n);
      if n in after {
        NewestIs(after, k, s, n);
      } else {
        assert n in es && IsNewest(before, k, snap, n);
        if Newest(after, k, s).Some? {
          var x := Newest(after, k, s).value;
          NothingVisibleKept(v, level, es, snap, rest, k, s, n, x);
          assert IsNewest(rest, k, snap, x);
        }
      }
    }
  }

  lemma ExposedReadChanges(v: Version, level: nat, es: seq<Entry>, snap: SequenceNumber, rest: set<Entry>, k: UserKey)
    requires Sorted(es) && Distinct(ToSet(es) + rest) && ToSet(es) !! rest
    requires Exposes(v, level, es, snap, rest, k)
    ensures Read(ToSet(es) + rest, k, snap) == None
    ensures Read(ToSet(Kept(v, level, es, snap, |es|)) + rest, k, snap).Some?
  {
    var before, after := ToSet(es) + rest, ToSet(Kept(v, level, es, snap, |es|)) + rest;
    KeptMembers(v, level, es, snap, |es|);
    assert after <= before;
    var d :| d in es && d.key.vtype.Deletion? && IsNewest(before, k, snap, d);
    var r: Entry :| r.key.vtype.Value? && IsNewest(rest, k, snap, r);
    NewestIs(before, k, snap, d);
    assert d in ToSet(es) && d !in rest;
    var i :| 0 <= i < |es| && es[i] == d;
    assert Dropped(v, level, es, snap, i);
    forall x | x in after && Visible(x, k, snap) ensures x.key.seqNo <= r.key.seqNo {
      NothingVisibleKept(v, level, es, snap, rest, k, snap, d, x);
    }
    NewestIs(after, k, snap, r);
  }

  /** The compaction theorem: reads of k at every snapshot at or above the oldest one are the same before and
      after if and only if k is not exposed. */
  lemma CompactionInvisibleIff(v: Version, level: nat, es: seq<Entry>, snap: SequenceNumber, rest: set<Entry>, k: UserKey)
    requires Sorted(es) && Distinct(ToSet(es) + rest) && ToSet(es) !! rest
    ensures SameReads(ToSet(es) + rest, ToSet(Kept(v, level, es, snap, |es|)) + rest, k, snap)
       <==> !Exposes(v, level, es, snap, rest, k)
  {
    if Exposes(v, level, es, snap, rest, k) {
      ExposedReadChanges(v, level, es, snap, rest, k);
    } else {
      forall s: SequenceNumber | snap <= s
        ensures Read(ToSet(es) + rest, k, s) == Read(ToSet(Kept(v, level, es, snap, |es|)) + rest, k, s)
      {
        ReadSurvives(v, level, es, snap, rest, k, s);
      }
    }
  }
}
