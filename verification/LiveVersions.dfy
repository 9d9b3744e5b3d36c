/** The versions that an open database counts as live are those that the reference counts keep
    (db/version_set.cc: AddLiveFiles; db/db_impl.cc: DeleteObsoleteFiles). */
module LiveVersions {
  import opened DbFormat
  import opened Versions
  import opened Builder
  import opened DbInvariants
  import opened DbSteps
  import opened VersionRefs

  /** Which reader holds each pinned version, and which holds the base of the running compaction. */
  datatype Slots = Slots(pins: seq<nat>, work: Option<nat>)

  function ReaderIds(slots: Slots): set<nat> {
    (set i | 0 <= i < |slots.pins| :: slots.pins[i]) + if slots.work.Some? then {slots.work.value} else {}
  }

  /** The version object is this version. */
  ghost predicate Stands(content: map<nat, Version>, id: nat, v: Version) {
    id in content && content[id] == v
  }

  /** Every version object in the list has the files of its version. */
  ghost predicate ContentsOk(r: Refs, content: map<nat, Version>) {
    forall id :: id in r.list ==> id in r.files && id in content && NumbersOf(r, r.files[id]) == LiveFiles(content[id])
  }

  ghost predicate PinsMatch(readers: map<nat, nat>, content: map<nat, Version>, pins: seq<nat>, pinned: seq<Version>) {
    && |pins| == |pinned|
    && forall i :: 0 <= i < |pins| ==> pins[i] in readers && Stands(content, readers[pins[i]], pinned[i])
  }

  /** The readers are those of the database: iterators and the compaction. Between steps there are no builders. */
  ghost predicate HoldersMatch(r: Refs, content: map<nat, Version>, s: DbState, slots: Slots) {
    && NoTwice(slots.pins) && (slots.work.Some? <==> s.pending.Some?)
    && r.builders == map[] && r.readers.Keys == ReaderIds(slots)
    && r.current.Some? && Stands(content, r.current.value, s.current)
    && PinsMatch(r.readers, content, slots.pins, s.pinned)
    && (slots.work.Some? ==>
          && slots.work.value !in slots.pins && slots.work.value in r.readers
          && Stands(content, r.readers[slots.work.value], s.pending.value.base))
  }

  ghost predicate Mirrors(r: Refs, content: map<nat, Version>, s: DbState, slots: Slots) {
    Counted(r, None) && ContentsOk(r, content) && HoldersMatch(r, content, s, slots)
  }

  /** Somebody holds the version object exactly if its version is listed. */
  lemma HeldIffListed(r: Refs, content: map<nat, Version>, s: DbState, slots: Slots, id: nat)
    requires Mirrors(r, content, s, slots) && id in r.list
    ensures id in content && content[id] in Listed(s)
  {
    LiveIffHeld(r, id);
    var versions := Listed(s);
    if r.current == Some(id) {
      assert versions[|s.pinned|] == s.current;
    } else {
      var reader :| reader in r.readers && r.readers[reader] == id;
      assert reader in ReaderIds(slots);
      if reader in slots.pins {
        var i :| 0 <= i < |slots.pins| && slots.pins[i] == reader;
        assert versions[i] == s.pinned[i];
      } else {
        assert versions[|s.pinned| + 1] == s.pending.value.base;
      }
    }
  }

  lemma ListedIsHeld(r: Refs, content: map<nat, Version>, s: DbState, slots: Slots, v: Version) returns (id: nat)
    requires Mirrors(r, content, s, slots) && v in Listed(s)
    ensures id in r.list && id in content && content[id] == v
  {
    if v == s.current {
      id := r.current.value;
    } else if v in s.pinned {
      var i :| 0 <= i < |s.pinned| && s.pinned[i] == v;
      id := r.readers[slots.pins[i]];
    } else {
      id := r.readers[slots.work.value];
    }
    LiveIffHeld(r, id);
  }

  /** The table numbers that AddLiveFiles collects from the list are those that the database state counts as live. */
  lemma LiveIsDerived(r: Refs, content: map<nat, Version>, s: DbState, slots: Slots)
    requires Mirrors(r, content, s, slots)
    ensures LiveNumbers(r) == AllLive(Listed(s))
    ensures LiveTables(s) == LiveNumbers(r) + if s.pending.Some? then Numbers(s.pending.value.outputs) else {}
  {
    var versions := Listed(s);
    forall n | n in LiveNumbers(r) ensures n in AllLive(versions) {
      var id, f :| id in r.list && id in r.files && f in r.files[id] && f in r.numbers && r.numbers[f] == n;
      HeldIffListed(r, content, s, slots, id);
      LiveInAll(versions, content[id]);
      assert n in NumbersOf(r, r.files[id]);
    }
    forall n | n in AllLive(versions) ensures n in LiveNumbers(r) {
      var v := InSome(versions, n);
      var id := ListedIsHeld(r, content, s, slots, v);
      assert n in NumbersOf(r, r.files[id]);
    }
  }

  // ---- The steps of the database, as steps of the counts ----

  lemma SameNumbers(r: Refs, t: Refs, id: nat)
    requires SameContents(r, t) && Counted(t, None) && id in t.files
    ensures id in r.files && NumbersOf(t, t.files[id]) == NumbersOf(r, r.files[id])
  {
    assert PartAt(t, None, Existing, 0);
    forall n | n in NumbersOf(r, r.files[id]) ensures n in NumbersOf(t, t.files[id]) {
      var f :| f in r.files[id] && f in r.numbers && r.numbers[f] == n;
      assert f in t.numbers;
    }
  }

  lemma SmallerContents(r: Refs, t: Refs, content: map<nat, Version>)
    requires ContentsOk(r, content) && SameContents(r, t) && Counted(t, None) && forall id :: id in t.list ==> id in r.list
    ensures ContentsOk(t, content)
  {
    ListIsKnown(t);
    forall id | id in t.list ensures NumbersOf(t, t.files[id]) == LiveFiles(content[id]) {
      SameNumbers(r, t, id);
    }
  }

  lemma PinnedIds(slots: Slots, reader: nat)
    ensures ReaderIds(slots.(pins := slots.pins + [reader])) == ReaderIds(slots) + {reader}
  {
    var more := slots.(pins := slots.pins + [reader]);
    assert more.pins[|slots.pins|] == reader;
    forall id | id in ReaderIds(slots) ensures id in ReaderIds(more) {
      if i :| 0 <= i < |slots.pins| && slots.pins[i] == id {
        assert more.pins[i] == id;
      }
    }
  }

  lemma UnpinnedIds(slots: Slots, i: nat)
    requires i < |slots.pins| && NoTwice(slots.pins) && (slots.work.Some? ==> slots.work.value !in slots.pins)
    ensures var fewer := slots.pins[..i] + slots.pins[i + 1..];
      ReaderIds(slots.(pins := fewer)) == ReaderIds(slots) - {slots.pins[i]} && NoTwice(fewer)
  {
    var fewer := slots.pins[..i] + slots.pins[i + 1..];
    assert forall k :: 0 <= k < |fewer| ==> fewer[k] == slots.pins[if k < i then k else k + 1];
    forall id | id in ReaderIds(slots) && id != slots.pins[i] ensures id in ReaderIds(slots.(pins := fewer)) {
      if k :| 0 <= k < |slots.pins| && slots.pins[k] == id {
        assert fewer[if k < i then k else k - 1] == id;
      }
    }
    assert slots.pins[i] !in fewer;
  }

  /** NewIterator: a reference to the current version. */
  lemma PinMirrors(r: Refs, content: map<nat, Version>, s: DbState, slots: Slots, reader: nat)
    requires Mirrors(r, content, s, slots) && reader !in r.readers
    ensures r.current.value in r.versionRefs && r.versionRefs[r.current.value] > 0
    ensures Mirrors(ReaderAdded(r, reader, r.current.value), content, s.(pinned := s.pinned + [s.current]),
                    slots.(pins := slots.pins + [reader]))
  {
    var v := r.current.value;
    LiveIffHeld(r, v);
    assert PartAt(r, None, Listing, 0);
    ReaderKeeps(r, reader, v);
    var t, more := ReaderAdded(r, reader, v), slots.(pins := slots.pins + [reader]);
    SmallerContents(r, t, content);
    forall i | 0 <= i < |slots.pins| ensures slots.pins[i] != reader {
      assert slots.pins[i] in r.readers;
    }
    PinnedIds(slots, reader);
  }

  /** The end of an iterator: its reference is given back. */
  lemma UnpinMirrors(r: Refs, content: map<nat, Version>, s: DbState, slots: Slots, i: nat, t: Refs)
    requires Mirrors(r, content, s, slots) && i < |s.pinned|
    requires Counted(t, None) && t.readers == r.readers - {slots.pins[i]} && t.current == r.current && t.builders == r.builders
    requires SameContents(r, t)
    ensures Mirrors(t, content, s.(pinned := s.pinned[..i] + s.pinned[i + 1..]), slots.(pins := slots.pins[..i] + slots.pins[i + 1..]))
  {
    var fewer := slots.(pins := slots.pins[..i] + slots.pins[i + 1..]);
    forall id | id in t.list ensures id in r.list {
      LiveIffHeld(t, id);
      LiveIffHeld(r, id);
    }
    SmallerContents(r, t, content);
    UnpinnedIds(slots, i);
    UnpinMatches(r, content, s, slots, i, t);
  }

  lemma UnpinMatches(r: Refs, content: map<nat, Version>, s: DbState, slots: Slots, i: nat, t: Refs)
    requires HoldersMatch(r, content, s, slots) && i < |s.pinned|
    requires t.readers == r.readers - {slots.pins[i]} && t.current == r.current && t.builders == r.builders
    ensures HoldersMatch(t, content, s.(pinned := s.pinned[..i] + s.pinned[i + 1..]), slots.(pins := slots.pins[..i] + slots.pins[i + 1..]))
  {
    UnpinnedIds(slots, i);
    UnpinPins(r.readers, content, slots.pins, s.pinned, i);
  }

  lemma UnpinPins(readers: map<nat, nat>, content: map<nat, Version>, pins: seq<nat>, pinned: seq<Version>, i: nat)
    requires PinsMatch(readers, content, pins, pinned) && NoTwice(pins) && i < |pins|
    ensures PinsMatch(readers - {pins[i]}, content, pins[..i] + pins[i + 1..], pinned[..i] + pinned[i + 1..])
  {
    var fewer, versions := pins[..i] + pins[i + 1..], pinned[..i] + pinned[i + 1..];
    forall k | 0 <= k < |fewer|
      ensures fewer[k] in readers - {pins[i]} && Stands(content, readers[fewer[k]], versions[k])
    {
      var j := if k < i then k else k + 1;
      assert fewer[k] == pins[j] && versions[k] == pinned[j];
    }
  }

  /** AppendVersion: the new version takes the place of the current one, whose object stays if a reader has it. */
  lemma InstallMirrors(r: Refs, content: map<nat, Version>, s: DbState, slots: Slots, v: nat, w: Version, t: Refs)
    requires Mirrors(r, content, s, slots) && v !in content && v in r.files && NumbersOf(r, r.files[v]) == LiveFiles(w)
    requires Counted(t, None) && t.current == Some(v) && t.readers == r.readers && t.builders == r.builders
    requires SameContents(r, t)
    ensures Mirrors(t, content[v := w], s.(current := w), slots)
  {
    var more := content[v := w];
    forall id | id in t.list ensures id == v || id in r.list {
      LiveIffHeld(t, id);
      LiveIffHeld(r, id);
    }
    ListIsKnown(t);
    forall id | id in t.list ensures NumbersOf(t, t.files[id]) == LiveFiles(more[id]) {
      SameNumbers(r, t, id);
    }
    forall i | 0 <= i < |slots.pins| ensures Stands(more, r.readers[slots.pins[i]], s.pinned[i]) {
      assert Stands(content, r.readers[slots.pins[i]], s.pinned[i]);
    }
  }
}
