/** Keys, entries and the two reference definitions of a read
    (db/dbformat.h, db/dbformat.cc, db/memtable.cc). */
module DbFormat {

  datatype Option<+T> = None | Some(value: T)

  type Byte = b: int | 0 <= b < 256
  type Bytes = seq<Byte>

  /** A user key, represented by its rank under the user comparator. LevelDB looks at user keys
      only through the sign of Comparator::Compare, and every total order on byte strings (a
      countable set) embeds into the reals, so this stands for an arbitrary comparator. */
  type UserKey = real

  const MAX_SEQUENCE_NUMBER: nat := 0xFF_FFFF_FFFF_FFFF

  type SequenceNumber = s: nat | s <= MAX_SEQUENCE_NUMBER

  datatype ValueType = Deletion | Value

  /** What sorts an entry: user key, sequence number and type. */
  datatype InternalKey = InternalKey(user: UserKey, seqNo: SequenceNumber, vtype: ValueType) {

    /** PackSequenceAndType. */
    function Tag(): nat {
      256 * seqNo + if vtype.Value? then 1 else 0
    }
  }

  /** InternalKeyComparator::Compare(a, b) < 0: user key ascending, then tag descending. */
  predicate Less(a: InternalKey, b: InternalKey) {
    a.user < b.user || (a.user == b.user && a.Tag() > b.Tag())
  }

  predicate AtMost(a: InternalKey, b: InternalKey) {
    !Less(b, a)
  }

  /** The smallest internal key that can see `user` at snapshot `s` (kValueTypeForSeek). */
  function SeekKey(user: UserKey, s: SequenceNumber): InternalKey {
    InternalKey(user, s, Value)
  }

  datatype Entry = Entry(key: InternalKey, value: Bytes)

  ghost predicate Sorted(es: seq<Entry>) {
    forall i, j {:trigger Less(es[i].key, es[j].key)} :: 0 <= i < j < |es| ==> Less(es[i].key, es[j].key)
  }

  ghost function ToSet(es: seq<Entry>): set<Entry> {
    set e | e in es
  }

  /** The position a sorted table or memtable iterator seeks to: the first entry at or after `key`. */
  function LowerBound(es: seq<Entry>, key: InternalKey): (i: nat)
    ensures i <= |es|
    ensures forall j :: 0 <= j < i ==> Less(es[j].key, key)
    ensures i < |es| ==> AtMost(key, es[i].key)
  {
    if es == [] || AtMost(key, es[0].key) then 0 else 1 + LowerBound(es[1..], key)
  }

  /** What a seek to SeekKey(k, s) followed by a user-key comparison finds (SaveValue, MemTable::Get). */
  function Seek(es: seq<Entry>, k: UserKey, s: SequenceNumber): Option<Entry> {
    var i := LowerBound(es, SeekKey(k, s));
    if i < |es| && es[i].key.user == k then Some(es[i]) else None
  }

  // ---- The flat specification of a read: newest visible entry of a set of entries ----

  ghost predicate Visible(e: Entry, k: UserKey, s: SequenceNumber) {
    e.key.user == k && e.key.seqNo <= s
  }

  ghost predicate IsNewest(es: set<Entry>, k: UserKey, s: SequenceNumber, e: Entry) {
    && e in es && Visible(e, k, s)
    && forall x :: x in es && Visible(x, k, s) ==> x.key.seqNo <= e.key.seqNo
  }

  ghost predicate NoneVisible(es: set<Entry>, k: UserKey, s: SequenceNumber) {
    forall x :: x in es ==> !Visible(x, k, s)
  }

  /** Every write gets its own sequence number. */
  ghost predicate Distinct(es: set<Entry>) {
    forall x, y {:trigger SameWrite(x, y)} :: x in es && y in es && SameWrite(x, y) ==> x == y
  }

  predicate SameWrite(x: Entry, y: Entry) {
    x.key.user == y.key.user && x.key.seqNo == y.key.seqNo
  }

  ghost function Newest(es: set<Entry>, k: UserKey, s: SequenceNumber): Option<Entry> {
    if exists e :: IsNewest(es, k, s, e) then
      var e :| IsNewest(es, k, s, e);
      Some(e)
    else None
  }

  function Answer(found: Option<Entry>): Option<Bytes> {
    if found.Some? && found.value.key.vtype.Value? then Some(found.value.value) else None
  }

  /** The value a reader at snapshot `s` must see: none if the newest visible entry is absent or a deletion. */
  ghost function Read(es: set<Entry>, k: UserKey, s: SequenceNumber): Option<Bytes> {
    Answer(Newest(es, k, s))
  }

  lemma NewestIs(es: set<Entry>, k: UserKey, s: SequenceNumber, e: Entry)
    requires Distinct(es) && IsNewest(es, k, s, e)
    ensures Newest(es, k, s) == Some(e)
  {
    var x := Newest(es, k, s).value;
    assert IsNewest(es, k, s, x);
    assert SameWrite(x, e);
  }

  lemma NewestIsNone(es: set<Entry>, k: UserKey, s: SequenceNumber)
    requires NoneVisible(es, k, s)
    ensures Newest(es, k, s) == None
  {
    if e :| IsNewest(es, k, s, e) {
      assert false;
    }
  }

  lemma {:induction false} NewestExists(es: set<Entry>, k: UserKey, s: SequenceNumber)
    ensures Newest(es, k, s).None? <==> NoneVisible(es, k, s)
    ensures Newest(es, k, s).Some? ==> IsNewest(es, k, s, Newest(es, k, s).value)
  {
    if !NoneVisible(es, k, s) {
      var x :| x in es && Visible(x, k, s);
      NewestAbove(es, k, s, x);
    }
  }

  lemma {:induction false} NewestAbove(es: set<Entry>, k: UserKey, s: SequenceNumber, x: Entry)
    requires x in es && Visible(x, k, s)
    ensures exists e :: IsNewest(es, k, s, e)
    decreases s - x.key.seqNo
  {
    if !IsNewest(es, k, s, x) {
      var y :| y in es && Visible(y, k, s) && y.key.seqNo > x.key.seqNo;
      NewestAbove(es, k, s, y);
    }
  }

  /** On a sorted table the seek finds exactly the newest visible entry. */
  lemma SeekFindsNewest(es: seq<Entry>, k: UserKey, s: SequenceNumber)
    requires Sorted(es)
    ensures Seek(es, k, s).Some? ==> IsNewest(ToSet(es), k, s, Seek(es, k, s).value)
    ensures Seek(es, k, s).None? ==> NoneVisible(ToSet(es), k, s)
  {
    var key := SeekKey(k, s);
    var i := LowerBound(es, key);
    forall e | e in es && Visible(e, k, s)
      ensures i < |es| && es[i].key.user == k && e.key.seqNo <= es[i].key.seqNo
    {
      var j :| 0 <= j < |es| && es[j] == e;
      assert AtMost(key, e.key);
      assert j >= i;
      assert i < j ==> Less(es[i].key, es[j].key);
    }
  }

  // ---- The history: the list of all writes, in sequence order ----

  /** At index i the write with sequence number i + 1, or nothing if that write was lost with the end of a log. */
  type History = seq<Option<Entry>>

  ghost predicate IsHistory(h: History) {
    |h| < MAX_SEQUENCE_NUMBER && forall i :: 0 <= i < |h| && h[i].Some? ==> h[i].value.key.seqNo == i + 1
  }

  ghost function Writes(h: History): set<Entry> {
    set x | x in h && x.Some? :: x.value
  }

  lemma WritesMember(h: History, e: Entry)
    ensures e in Writes(h) <==> Some(e) in h
  {
  }

  lemma WritesJoin(a: History, b: History)
    ensures Writes(a + b) == Writes(a) + Writes(b)
  {
    forall e ensures e in Writes(a + b) <==> e in Writes(a) + Writes(b) {
      WritesMember(a + b, e);
      WritesMember(a, e);
      WritesMember(b, e);
    }
  }

  /** A second, direct reading of what a snapshot means: replay the first `s` writes and
      remember the last one that touched `k`. */
  function ReplayHistory(h: History, k: UserKey, s: nat): (r: Option<Bytes>)
    requires s <= |h|
  {
    if s == 0 then None
    else if h[s - 1].Some? && h[s - 1].value.key.user == k then
      (if h[s - 1].value.key.vtype.Value? then Some(h[s - 1].value.value) else None)
    else ReplayHistory(h, k, s - 1)
  }

  lemma HistoryDistinct(h: History)
    requires IsHistory(h)
    ensures Distinct(Writes(h))
    ensures forall e :: e in Writes(h) <==> 0 < e.key.seqNo <= |h| && h[e.key.seqNo - 1] == Some(e)
  {
    forall e ensures e in Writes(h) <==> 0 < e.key.seqNo <= |h| && h[e.key.seqNo - 1] == Some(e) {
      WritesMember(h, e);
    }
  }

  lemma {:induction false} ReplayHistoryIsRead(h: History, k: UserKey, s: nat, n: nat)
    requires IsHistory(h) && n <= s <= |h|
    requires forall i :: n <= i < s && h[i].Some? ==> h[i].value.key.user != k
    ensures ReplayHistory(h, k, n) == Read(Writes(h), k, s)
    decreases n
  {
    HistoryDistinct(h);
    if n == 0 {
      NewestIsNone(Writes(h), k, s);
    } else if h[n - 1].Some? && h[n - 1].value.key.user == k {
      NewestIs(Writes(h), k, s, h[n - 1].value);
    } else {
      ReplayHistoryIsRead(h, k, s, n - 1);
    }
  }

  lemma Regroup<T>(a: seq<T>, b: seq<T>, c: seq<T>)
    ensures a + b + c == a + (b + c)
  {
  }

  lemma TakeOneMore<T>(s: seq<T>, i: nat)
    requires i < |s|
    ensures s[..i] + [s[i]] == s[..i + 1]
  {
  }
}
