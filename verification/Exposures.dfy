/** When the drop rules change a read: exactly what the choice of inputs leaves possible
    (db/version_set.cc: SetupOtherInputs, AddBoundaryInputs; db/db_impl.cc: DoCompactionWork). */
module Exposures {
  import opened DbFormat
  import opened Versions
  import opened Inputs
  import opened Compactions
  import opened Installs

  /** The user key k ends a chosen file of the next level and starts a file of that level that was not chosen.
      AddBoundaryInputs rules this out in the level itself, but is not applied to the next level. */
  ghost predicate Straddles(v: Version, level: nat, in1: seq<File>, k: UserKey) {
    exists f, g {:trigger Splits(f, g, k), v.Has(level + 1, g)} ::
      f in in1 && v.Has(level + 1, g) && g !in in1 && Splits(f, g, k)
  }

  predicate Splits(f: File, g: File, k: UserKey) {
    f.largest.user == k == g.smallest.user && Less(f.largest, g.smallest)
  }

  /** What is not merged is either an untouched entry of the version or newer than the whole version. */
  ghost predicate RestOf(v: Version, in0: seq<File>, in1: seq<File>, rest: set<Entry>) {
    forall r, x :: r in rest && x in v.Entries() && r.key.user == x.key.user ==>
      r in Outside(v, in0, in1) || r.key.seqNo > x.key.seqNo
  }

  /** If the newest entry of a user key is in an input file, an older one that is not merged is in the next level,
      in a file that follows an input file and starts with that key. */
  lemma OlderIsAcross(v: Version, level: nat, in0: seq<File>, in1: seq<File>, d: Entry, r: Entry)
    requires v.Valid() && GoodInputs(v, level, in0, in1)
    requires FromInputs(in0, in1, d) && r in Outside(v, in0, in1)
    requires d.key.user == r.key.user && d.key.seqNo > r.key.seqNo
    requires IsBaseLevel(v, level, d.key.user)
    ensures Straddles(v, level, in1, d.key.user)
  {
    var l, g := Locate(v, r);
    OutsideFile(v, level, in0, in1, l, g, r);
    assert v.LevelOk(l) && g.Valid();
    if f :| f in in0 && d in f.entries {
      assert v.Has(level, f);
      OlderThanFirst(v, level, in0, in1, f, d, l, g, r);
    } else {
      var f :| f in in1 && d in f.entries;
      assert v.Has(level + 1, f);
      OlderThanSecond(v, level, in1, f, d, l, g, r);
    }
  }

  lemma OutsideFile(v: Version, level: nat, in0: seq<File>, in1: seq<File>, l: nat, g: File, r: Entry)
    requires r in Outside(v, in0, in1) && v.Has(l, g) && r in g.entries
    ensures g !in in0 && g !in in1
  {
  }

  lemma ContainsItsKeys(files: seq<File>, g: File, r: Entry)
    requires g in files && g.Valid() && r in g.entries
    ensures !NoneContains(files, r.key.user)
  {
    var i :| 0 <= i < |files| && files[i] == g;
    assert AtMost(g.smallest, r.key) && AtMost(r.key, g.largest);
    assert files[i].smallest.user <= r.key.user <= files[i].largest.user;
  }

  lemma NotDeeper(v: Version, level: nat, l: nat, g: File, r: Entry)
    requires v.Has(l, g) && g.Valid() && r in g.entries && IsBaseLevel(v, level, r.key.user)
    ensures l < level + 2
  {
    ContainsItsKeys(v.files[l], g, r);
  }

  /** Below an entry of the first inputs there is nothing left that was not merged. */
  lemma OlderThanFirst(v: Version, level: nat, in0: seq<File>, in1: seq<File>, f: File, d: Entry, l: nat, g: File, r: Entry)
    requires v.Valid() && GoodInputs(v, level, in0, in1) && f in in0 && v.Has(level, f) && d in f.entries
    requires v.Has(l, g) && g !in in0 && g !in in1 && g.Valid() && r in g.entries && IsBaseLevel(v, level, d.key.user)
    requires d.key.user == r.key.user
    ensures d.key.seqNo <= r.key.seqNo
  {
    NotDeeper(v, level, l, g, r);
    if l == level + 1 {
      assert v.LevelOk(level) && f.Valid();
      assert AtMost(f.smallest, d.key) && AtMost(d.key, f.largest);
      assert AtMost(g.smallest, r.key) && AtMost(r.key, g.largest);
      assert TouchesHull(in0, g);
    } else if l == level {
      assert FileShadows(g, f);
    } else {
      assert FileShadows(g, f);
    }
  }

  /** An older entry below one of the second inputs is in the next file of the same level. */
  lemma OlderThanSecond(v: Version, level: nat, in1: seq<File>, f: File, d: Entry, l: nat, g: File, r: Entry)
    requires v.Valid() && level + 1 < NUM_LEVELS && f in in1 && v.Has(level + 1, f) && d in f.entries
    requires v.Has(l, g) && g !in in1 && g.Valid() && r in g.entries && IsBaseLevel(v, level, d.key.user)
    requires d.key.user == r.key.user
    ensures d.key.seqNo <= r.key.seqNo || Straddles(v, level, in1, d.key.user)
  {
    NotDeeper(v, level, l, g, r);
    if l <= level {
      assert FileShadows(g, f);
    } else if d.key.seqNo > r.key.seqNo {
      LevelFacts(v, level + 1);
      assert f.Valid();
      DisjointMeansApart(v.files[level + 1], f, g);
      assert AtMost(f.smallest, d.key) && AtMost(d.key, f.largest);
      assert AtMost(g.smallest, r.key) && AtMost(r.key, g.largest);
      assert Splits(f, g, d.key.user);
    }
  }

  /** A compaction can expose a key only where the edge of its inputs in the next level splits that key. */
  lemma ExposureStraddles(v: Version, level: nat, in0: seq<File>, in1: seq<File>, snap: SequenceNumber, rest: set<Entry>, k: UserKey)
    requires v.Valid() && GoodInputs(v, level, in0, in1) && RestOf(v, in0, in1, rest)
    requires Distinct(ToSet(MergeFiles(in0 + in1)) + rest) && ToSet(MergeFiles(in0 + in1)) !! rest
    requires Exposes(v, level, MergeFiles(in0 + in1), snap, rest, k)
    ensures Straddles(v, level, in1, k)
  {
    var es := MergeFiles(in0 + in1);
    InputsAreMerged(v, level, in0, in1);
    var d :| d in es && d.key.vtype.Deletion? && IsNewest(ToSet(es) + rest, k, snap, d);
    var r: Entry :| r.key.vtype.Value? && IsNewest(rest, k, snap, r);
    assert r.key.seqNo <= d.key.seqNo;
    SameWriteSame(ToSet(es) + rest, d, r);
    FromInputsIsEntry(v, level, in0, in1, d);
    OlderIsAcross(v, level, in0, in1, d, r);
  }
}
