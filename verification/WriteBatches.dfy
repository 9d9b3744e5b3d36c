/** Write batches, group commit and memtable insertion
    (db/write_batch.cc, db/memtable.cc; db/db_impl.cc: BuildBatchGroup). */
module WriteBatches {
  import opened DbFormat

  datatype WriteOp = Put(key: UserKey, value: Bytes) | Delete(key: UserKey)

  /** A batch with its sequence number, as it is appended to the log. */
  datatype LogRecord = LogRecord(sequence: nat, ops: seq<WriteOp>)

  /** PackSequenceAndType asserts that sequence numbers stay in range; histories never leave it. */
  function ToSequence(n: nat): SequenceNumber {
    if n <= MAX_SEQUENCE_NUMBER then n else MAX_SEQUENCE_NUMBER
  }

  function OpEntry(op: WriteOp, s: nat): Entry {
    match op
    case Put(key, value) => Entry(InternalKey(key, ToSequence(s), Value), value)
    case Delete(key) => Entry(InternalKey(key, ToSequence(s), Deletion), [])
  }

  /** The entries of a batch: the i-th operation takes sequence number s + i. */
  function OpEntries(ops: seq<WriteOp>, s: nat): seq<Entry> {
    seq(|ops|, i requires 0 <= i < |ops| => OpEntry(ops[i], s + i))
  }

  /** The same as they stand in a history. */
  function OpHistory(ops: seq<WriteOp>, s: nat): History {
    seq(|ops|, i requires 0 <= i < |ops| => Some(OpEntry(ops[i], s + i)))
  }

  lemma OpWrites(ops: seq<WriteOp>, s: nat)
    ensures Writes(OpHistory(ops, s)) == ToSet(OpEntries(ops, s))
  {
    forall e ensures e in Writes(OpHistory(ops, s)) <==> e in OpEntries(ops, s) {
      WritesMember(OpHistory(ops, s), e);
      if e in OpEntries(ops, s) {
        var i :| 0 <= i < |ops| && OpEntries(ops, s)[i] == e;
        assert OpHistory(ops, s)[i] == Some(e);
      }
      if Some(e) in OpHistory(ops, s) {
        var i :| 0 <= i < |ops| && OpHistory(ops, s)[i] == Some(e);
        assert OpEntries(ops, s)[i] == e;
      }
    }
  }

  // ---- What operations mean ----

  /** Operations in the order of their sequence numbers; a lost one is None. */
  type OpList = seq<Option<WriteOp>>

  function Somes(ops: seq<WriteOp>): OpList {
    seq(|ops|, i requires 0 <= i < |ops| => Some(ops[i]))
  }

  /** The key-value map that the operations make, one after the other. */
  function MapOf(ops: OpList): map<UserKey, Bytes> {
    if ops == [] then map[]
    else
      var before, last := MapOf(ops[..|ops| - 1]), ops[|ops| - 1];
      match last
      case None => before
      case Some(Put(key, value)) => before[key := value]
      case Some(Delete(key)) => before - {key}
  }

  function Lookup(m: map<UserKey, Bytes>, k: UserKey): Option<Bytes> {
    if k in m then Some(m[k]) else None
  }

  /** The value of k after the operations, when it was `before` them: the last operation on k decides. */
  function ValueAfter(ops: OpList, k: UserKey, before: Option<Bytes>): Option<Bytes> {
    if ops == [] then before
    else
      var last := ops[|ops| - 1];
      if last.None? || last.value.key != k then ValueAfter(ops[..|ops| - 1], k, before)
      else if last.value.Put? then Some(last.value.value) else None
  }

  lemma {:induction false} LookupIsValueAfter(ops: OpList, k: UserKey)
    ensures Lookup(MapOf(ops), k) == ValueAfter(ops, k, None)
    decreases |ops|
  {
    if ops != [] {
      LookupIsValueAfter(ops[..|ops| - 1], k);
    }
  }

  /** The operation that an entry stands for. */
  function OpOf(e: Entry): WriteOp {
    if e.key.vtype.Value? then Put(e.key.user, e.value) else Delete(e.key.user)
  }

  function OpsIn(h: History): OpList {
    seq(|h|, i requires 0 <= i < |h| => if h[i].Some? then Some(OpOf(h[i].value)) else None)
  }

  lemma OpsInHistory(ops: seq<WriteOp>, s: nat)
    ensures OpsIn(OpHistory(ops, s)) == Somes(ops)
  {
  }

  lemma OpsInJoin(a: History, b: History)
    ensures OpsIn(a + b) == OpsIn(a) + OpsIn(b)
  {
  }

  /** Replaying a history gives the lookup in the map that its operations make. */
  lemma {:induction false} ReplayIsLookup(h: History, k: UserKey, n: nat)
    requires n <= |h|
    ensures ReplayHistory(h, k, n) == Lookup(MapOf(OpsIn(h)[..n]), k)
  {
    if n > 0 {
      ReplayIsLookup(h, k, n - 1);
      assert OpsIn(h)[..n][..n - 1] == OpsIn(h)[..n - 1];
    }
  }

  /** Replaying what operations write, in particular: no entry is involved in the result. */
  lemma ReplayOfOps(ops: seq<WriteOp>, k: UserKey, n: nat)
    requires n <= |ops|
    ensures ReplayHistory(OpHistory(ops, 1), k, n) == Lookup(MapOf(Somes(ops[..n])), k)
  {
    ReplayIsLookup(OpHistory(ops, 1), k, n);
    OpsInHistory(ops, 1);
    assert Somes(ops)[..n] == Somes(ops[..n]);
  }

  // ---- Group commit ----

  /** A queued Write call. A missing batch only forces the memtable to be switched. */
  datatype Writer = Writer(batch: Option<seq<WriteOp>>, sync: bool, byteSize: nat)

  function GroupOps(writers: seq<Writer>): seq<WriteOp> {
    if writers == [] then []
    else
      var last := writers[|writers| - 1];
      GroupOps(writers[..|writers| - 1]) + if last.batch.Some? then last.batch.value else []
  }

  function GroupSize(writers: seq<Writer>): nat {
    if writers == [] then 0
    else
      var last := writers[|writers| - 1];
      GroupSize(writers[..|writers| - 1]) + if last.batch.Some? then last.byteSize else 0
  }

  function MaxGroupSize(first: Writer): nat {
    if first.byteSize <= 128 * 1024 then first.byteSize + 128 * 1024 else 1024 * 1024
  }

  /** The first n queued writers can be committed together. */
  ghost predicate Groupable(writers: seq<Writer>, n: nat)
    requires 0 < n <= |writers|
  {
    && (forall i :: 0 <= i < n && writers[i].sync ==> writers[0].sync)
    && (GroupSize(writers[..n]) <= MaxGroupSize(writers[0]) || forall i :: 0 < i < n ==> writers[i].batch.None?)
  }

  /** DBImpl::BuildBatchGroup: the longest groupable prefix of the queue; the result is its operations in
      queue order. */
  method BuildBatchGroup(writers: seq<Writer>) returns (ops: seq<WriteOp>, n: nat)
    requires writers != [] && writers[0].batch.Some?
    ensures 0 < n <= |writers| && ops == GroupOps(writers[..n])
    ensures Groupable(writers, n)
    ensures n < |writers| ==> !Groupable(writers, n + 1)
  {
    var first := writers[0];
    ops := first.batch.value;
    var size := first.byteSize;
    var maxSize := 1024 * 1024;
    if size <= 128 * 1024 {
      maxSize := size + 128 * 1024;
    }
    n := 1;
    assert writers[..1] == [first] && writers[..1][..0] == [];
    while n < |writers|
      invariant 0 < n <= |writers| && ops == GroupOps(writers[..n]) && size == GroupSize(writers[..n])
      invariant Groupable(writers, n)
    {
      var w := writers[n];
      assert writers[..n + 1][..n] == writers[..n];
      if w.sync && !first.sync {
        break;
      }
      if w.batch.Some? {
        if size + w.byteSize > maxSize {
          break;
        }
        size := size + w.byteSize;
        ops := ops + w.batch.value;
      }
      n := n + 1;
    }
  }

  // ---- Memtables ----

  /** MemTable::Add: insertion at the position a seek would find. */
  function InsertSorted(es: seq<Entry>, e: Entry): seq<Entry> {
    var i := LowerBound(es, e.key);
    es[..i] + [e] + es[i..]
  }

  lemma DifferentKeys(a: InternalKey, b: InternalKey)
    requires a != b
    ensures Less(a, b) || Less(b, a)
  {
    assert a.Tag() == b.Tag() ==> a.seqNo == b.seqNo;
  }

  lemma BeforeTheRest(es: seq<Entry>, e: Entry, p: nat)
    requires Sorted(es) && p == LowerBound(es, e.key) && forall x :: x in es ==> x.key != e.key
    ensures forall i :: p <= i < |es| ==> Less(e.key, es[i].key)
  {
    if p < |es| {
      assert es[p] in es;
      DifferentKeys(e.key, es[p].key);
    }
    forall i | p <= i < |es| ensures Less(e.key, es[i].key) {
      assert p < i ==> Less(es[p].key, es[i].key);
    }
  }

  lemma InsertedIsSorted(es: seq<Entry>, e: Entry)
    requires Sorted(es) && forall x :: x in es ==> x.key != e.key
    ensures Sorted(InsertSorted(es, e))
  {
    var p := LowerBound(es, e.key);
    var r := InsertSorted(es, e);
    BeforeTheRest(es, e, p);
    forall i, j | 0 <= i < j < |r| ensures Less(r[i].key, r[j].key) {
      if j < p {
        assert Less(es[i].key, es[j].key);
      } else if i < p && p < j {
        assert Less(es[i].key, es[j - 1].key);
      } else if p < i {
        assert Less(es[i - 1].key, es[j - 1].key);
      }
    }
  }

  lemma InsertedMembers(es: seq<Entry>, p: nat, e: Entry)
    requires p <= |es|
    ensures ToSet(es[..p] + [e] + es[p..]) == ToSet(es) + {e}
  {
    var r := es[..p] + [e] + es[p..];
    assert es == es[..p] + es[p..];
    forall x ensures x in r <==> x in es || x == e {
      assert x in r <==> x in es[..p] || x == e || x in es[p..];
      assert x in es <==> x in es[..p] || x in es[p..];
    }
  }

  lemma InsertKeepsSorted(es: seq<Entry>, e: Entry)
    requires Sorted(es) && forall x :: x in es ==> x.key != e.key
    ensures Sorted(InsertSorted(es, e)) && ToSet(InsertSorted(es, e)) == ToSet(es) + {e}
  {
    InsertedIsSorted(es, e);
    InsertedMembers(es, LowerBound(es, e.key), e);
  }

  /** The operations of a batch that a reader at sequence number s can see. */
  function SeenAt(ops: seq<WriteOp>, first: nat, s: nat): seq<WriteOp> {
    if s < first then [] else if s - first < |ops| then ops[..s - first + 1] else ops
  }

  /** Reading what a batch has been added to: the last operation on the key that can be seen decides, and without one
      what was there before. */
  ghost predicate ReadsThrough(before: set<Entry>, after: set<Entry>, ops: seq<WriteOp>, first: nat) {
    forall k, s: SequenceNumber {:trigger Read(after, k, s)} ::
      Read(after, k, s) == ValueAfter(Somes(SeenAt(ops, first, s)), k, Read(before, k, s))
  }

  lemma BatchReads(before: set<Entry>, ops: seq<WriteOp>, first: nat)
    requires Distinct(before) && first + |ops| <= MAX_SEQUENCE_NUMBER && forall x :: x in before ==> x.key.seqNo < first
    ensures ReadsThrough(before, before + ToSet(OpEntries(ops, first)), ops, first)
  {
    var after := before + ToSet(OpEntries(ops, first));
    forall k, s: SequenceNumber
      ensures Read(after, k, s) == ValueAfter(Somes(SeenAt(ops, first, s)), k, Read(before, k, s))
    {
      var n := |SeenAt(ops, first, s)|;
      BatchDistinct(before, ops, first);
      LastOpDecides(before, ops, first, k, s, n);
      assert ops[..n] == SeenAt(ops, first, s);
    }
  }

  lemma BatchDistinct(before: set<Entry>, ops: seq<WriteOp>, first: nat)
    requires Distinct(before) && first + |ops| <= MAX_SEQUENCE_NUMBER && forall x :: x in before ==> x.key.seqNo < first
    ensures Distinct(before + ToSet(OpEntries(ops, first)))
    ensures forall e :: e in ToSet(OpEntries(ops, first)) ==>
      first <= e.key.seqNo < first + |ops| && e == OpEntry(ops[e.key.seqNo - first], e.key.seqNo)
  {
    forall e | e in ToSet(OpEntries(ops, first))
      ensures first <= e.key.seqNo < first + |ops| && e == OpEntry(ops[e.key.seqNo - first], e.key.seqNo)
    {
      var i :| 0 <= i < |ops| && OpEntries(ops, first)[i] == e;
    }
  }

  lemma {:induction false} LastOpDecides(before: set<Entry>, ops: seq<WriteOp>, first: nat, k: UserKey, s: SequenceNumber, n: nat)
    requires first + |ops| <= MAX_SEQUENCE_NUMBER && forall x :: x in before ==> x.key.seqNo < first
    requires Distinct(before) && n <= |SeenAt(ops, first, s)|
    requires forall i :: n <= i < |SeenAt(ops, first, s)| ==> ops[i].key != k
    ensures Read(before + ToSet(OpEntries(ops, first)), k, s) == ValueAfter(Somes(ops[..n]), k, Read(before, k, s))
    decreases n
  {
    var all := before + ToSet(OpEntries(ops, first));
    BatchDistinct(before, ops, first);
    if n == 0 {
      NothingSeen(before, all, ops, first, k, s);
    } else if ops[n - 1].key == k {
      TopOpRead(before, ops, first, k, s, n);
      TopOpValue(ops[..n], k, Read(before, k, s));
    } else {
      LastOpDecides(before, ops, first, k, s, n - 1);
      assert Somes(ops[..n])[..n - 1] == Somes(ops[..n - 1]);
    }
  }

  lemma TopOpRead(before: set<Entry>, ops: seq<WriteOp>, first: nat, k: UserKey, s: SequenceNumber, n: nat)
    requires first + |ops| <= MAX_SEQUENCE_NUMBER && forall x :: x in before ==> x.key.seqNo < first
    requires Distinct(before) && 0 < n <= |SeenAt(ops, first, s)| && ops[n - 1].key == k
    requires forall i :: n <= i < |SeenAt(ops, first, s)| ==> ops[i].key != k
    ensures Read(before + ToSet(OpEntries(ops, first)), k, s) == Answer(Some(OpEntry(ops[n - 1], first + n - 1)))
  {
    var all := before + ToSet(OpEntries(ops, first));
    var e := OpEntries(ops, first)[n - 1];
    BatchDistinct(before, ops, first);
    assert e in ToSet(OpEntries(ops, first));
    assert IsNewest(all, k, s, e);
    NewestIs(all, k, s, e);
  }

  lemma TopOpValue(ops: seq<WriteOp>, k: UserKey, before: Option<Bytes>)
    requires ops != [] && ops[|ops| - 1].key == k
    ensures ValueAfter(Somes(ops), k, before) == Answer(Some(OpEntry(ops[|ops| - 1], 0)))
  {
    assert Somes(ops)[|ops| - 1] == Some(ops[|ops| - 1]);
  }

  /** If no operation on the key can be seen, the batch makes no difference. */
  lemma NothingSeen(before: set<Entry>, all: set<Entry>, ops: seq<WriteOp>, first: nat, k: UserKey, s: SequenceNumber)
    requires before <= all && Distinct(all)
    requires forall e :: e in all && e !in before ==> first <= e.key.seqNo < first + |ops| && e.key.user == ops[e.key.seqNo - first].key
    requires forall i :: 0 <= i < |SeenAt(ops, first, s)| ==> ops[i].key != k
    ensures Read(all, k, s) == Read(before, k, s)
  {
    forall e | e in all && Visible(e, k, s) ensures e in before {
      assert e !in before ==> e.key.seqNo - first < |SeenAt(ops, first, s)|;
    }
    NewestExists(before, k, s);
    if NoneVisible(before, k, s) {
      NewestIsNone(all, k, s);
    } else {
      NewestIs(all, k, s, Newest(before, k, s).value);
    }
  }

  /** WriteBatchInternal::InsertInto with a MemTableInserter. */
  method InsertInto(record: LogRecord, mem: seq<Entry>) returns (r: seq<Entry>)
    requires Sorted(mem) && record.sequence + |record.ops| <= MAX_SEQUENCE_NUMBER
    requires forall x :: x in mem ==> x.key.seqNo < record.sequence
    ensures Sorted(r)
    ensures ToSet(r) == ToSet(mem) + ToSet(OpEntries(record.ops, record.sequence))
    ensures Distinct(ToSet(mem)) ==> ReadsThrough(ToSet(mem), ToSet(r), record.ops, record.sequence)
  {
    r := mem;
    var sequence := record.sequence;
    for i := 0 to |record.ops|
      invariant Sorted(r) && sequence == record.sequence + i
      invariant forall x :: x in r ==> x.key.seqNo < sequence
      invariant ToSet(r) == ToSet(mem) + ToSet(OpEntries(record.ops, record.sequence)[..i])
    {
      ghost var es := OpEntries(record.ops, record.sequence);
      var e := OpEntry(record.ops[i], sequence);
      InsertKeepsSorted(r, e);
      ghost var before := r;
      r := InsertSorted(r, e);
      forall x | x in r ensures x.key.seqNo < sequence + 1 {
        assert x in ToSet(r);
      }
      assert es[..i + 1] == es[..i] + [e];
      sequence := sequence + 1;
    }
    assert OpEntries(record.ops, record.sequence)[..|record.ops|] == OpEntries(record.ops, record.sequence);
    if Distinct(ToSet(mem)) {
      BatchReads(ToSet(mem), record.ops, record.sequence);
    }
  }
}
